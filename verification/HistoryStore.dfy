/** Storing history sync payloads (pkg/connector/backfill.go, pkg/connector/wadb): a durable queue
    of notifications, the conversation upsert, and the transaction that ties them together. */
module HistoryStore {
  import opened Prelude
  import opened MessageTable
  import TimestampRepair

  // ----- Conversations -----

  /** A row of the conversation table; None is SQL's NULL. */
  datatype Conv = Conv(
    lastMessage: Option<int>, archived: Option<bool>, pinned: Option<bool>, muteEnd: Option<int>,
    endOfHistory: Option<int>, expiration: Option<int>, settingTime: Option<int>,
    markedUnread: Option<bool>, unreadCount: Option<int>)

  function Coalesce<T>(a: Option<T>, b: Option<T>): Option<T> { if a.Some? then a else b }

  /** The CASE expression: the later of the two, where a comparison with NULL is not true. */
  function Later(excluded: Option<int>, stored: Option<int>): Option<int> {
    if stored.None? || (excluded.Some? && excluded.value > stored.value) then excluded else stored
  }

  /** ON CONFLICT DO UPDATE. */
  function Merge(excluded: Conv, stored: Conv): Conv {
    Conv(Later(excluded.lastMessage, stored.lastMessage),
         Coalesce(excluded.archived, stored.archived),
         Coalesce(excluded.pinned, stored.pinned),
         Coalesce(excluded.muteEnd, stored.muteEnd),
         Coalesce(excluded.endOfHistory, stored.endOfHistory),
         Coalesce(excluded.expiration, stored.expiration),
         Coalesce(excluded.settingTime, stored.settingTime),
         Coalesce(excluded.markedUnread, stored.markedUnread),
         Coalesce(excluded.unreadCount, stored.unreadCount))
  }

  function Upsert(excluded: Conv, stored: Option<Conv>): Conv {
    if stored.Some? then Merge(excluded, stored.value) else excluded
  }

  lemma {:induction false} MergeAssociative(a: Conv, b: Conv, c: Conv)
    ensures Merge(a, Merge(b, c)) == Merge(Merge(a, b), c)
    ensures Merge(a, Merge(a, b)) == Merge(a, b)
  {
  }

  // ----- Payloads -----

  datatype SyncType = InitialBootstrap | InitialStatus | Full | Recent | PushName | NonBlockingData | OnDemand | Other

  /** What a payload says about a conversation: unset fields are None. */
  datatype Meta = Meta(
    lastMessage: Option<nat>, archived: Option<bool>, pinned: Option<nat>, muteEnd: Option<nat>,
    endOfHistory: Option<int>, expiration: Option<int>, settingTime: Option<int>,
    markedUnread: Option<bool>, unreadCount: Option<int>)

  /** `chat` is None when the chat's address does not parse; phone number chats are already
      rerouted to their hidden address. */
  datatype Conversation = Conversation(chat: Option<string>, broadcast: bool, commentsCount: nat,
                                       messages: seq<TimestampRepair.Raw>, meta: Meta)

  datatype Blob = Blob(syncType: Option<SyncType>, conversations: seq<Conversation>)

  /** An unset type reads as the first one. */
  function TypeOf(b: Blob): SyncType { if b.syncType.None? then InitialBootstrap else b.syncType.value }

  predicate Ignored(b: Blob) {
    b.syncType.None? || b.syncType.value in {InitialStatus, PushName, NonBlockingData}
  }

  function HistoryTime(ts: Option<nat>): Option<int> {
    if ts.None? || ts.value == 0 then None else Some(ts.value)
  }

  /** The time of the first message that parses. */
  function FirstItemTime(raws: seq<TimestampRepair.Raw>): Option<int> {
    if raws == [] then None else if raws[0].parses then Some(raws[0].ts) else FirstItemTime(raws[1..])
  }

  function NewConversation(m: Meta, mostRecent: Option<int>): Conv {
    Conv(Coalesce(HistoryTime(m.lastMessage), mostRecent), m.archived,
         if m.pinned.Some? then Some(m.pinned.value > 0) else None, HistoryTime(m.muteEnd),
         m.endOfHistory, m.expiration, m.settingTime, m.markedUnread, m.unreadCount)
  }

  /** What one conversation of a payload writes. */
  datatype Entry = Entry(chat: string, conv: Conv, rows: seq<Row>)

  function EntriesOf(c: Conversation): seq<Entry> {
    var rows := TimestampRepair.RowsOf(TimestampRepair.Repair(c.messages, 0, c.commentsCount == 0));
    if c.chat.None? || c.broadcast || rows == [] then []
    else [Entry(c.chat.value, NewConversation(c.meta, FirstItemTime(c.messages)), rows)]
  }

  lemma {:induction false} RowsNeedParsed(raws: seq<TimestampRepair.Raw>, newer: nat, allowed: bool)
    requires TimestampRepair.RowsOf(TimestampRepair.Repair(raws, newer, allowed)) != []
    ensures FirstItemTime(raws).Some?
    decreases |raws|
  {
    if !raws[0].parses {
      assert TimestampRepair.Repair(raws, newer, allowed)[1..] == TimestampRepair.Repair(raws[1..], newer, allowed);
      RowsNeedParsed(raws[1..], newer, allowed);
    }
  }

  /** A conversation is only ever stored with a last-message time: the payload's, or failing that the
      time of its first readable message. */
  lemma {:induction false} EntryHasTime(c: Conversation, e: Entry)
    requires e in EntriesOf(c)
    ensures e.conv.lastMessage.Some? && e.rows != []
    ensures c.meta.lastMessage.Some? && c.meta.lastMessage.value > 0
      ==> e.conv.lastMessage == Some(c.meta.lastMessage.value)
  {
    RowsNeedParsed(c.messages, 0, c.commentsCount == 0);
  }

  predicate IsFirstParsing(raws: seq<TimestampRepair.Raw>, i: int) {
    0 <= i < |raws| && raws[i].parses && forall j :: 0 <= j < i ==> !raws[j].parses
  }

  /** The fallback time is that of the first message that parses, ignored or not. */
  lemma {:induction false} FirstItem(raws: seq<TimestampRepair.Raw>)
    ensures FirstItemTime(raws).None? <==> forall i :: 0 <= i < |raws| ==> !raws[i].parses
    ensures FirstItemTime(raws).Some? ==> exists i :: IsFirstParsing(raws, i) && FirstItemTime(raws) == Some(raws[i].ts)
  {
    if raws != [] && !raws[0].parses {
      FirstItem(raws[1..]);
      if FirstItemTime(raws[1..]).Some? {
        var rest := raws[1..];
        var i :| IsFirstParsing(rest, i) && FirstItemTime(rest) == Some(rest[i].ts);
        assert raws[i + 1] == rest[i] && forall j :: 0 < j < i + 1 ==> raws[j] == rest[j - 1];
        assert IsFirstParsing(raws, i + 1);
      }
    } else if raws != [] {
      assert IsFirstParsing(raws, 0);
    }
  }

  /** Which part of a payload's conversation goes to which column. */
  lemma {:induction false} EntryReads(c: Conversation, e: Entry)
    requires e in EntriesOf(c)
    ensures c.chat == Some(e.chat) && !c.broadcast
    ensures e.conv.archived == c.meta.archived && e.conv.endOfHistory == c.meta.endOfHistory
    ensures e.conv.expiration == c.meta.expiration && e.conv.settingTime == c.meta.settingTime
    ensures e.conv.markedUnread == c.meta.markedUnread && e.conv.unreadCount == c.meta.unreadCount
    ensures e.conv.pinned.Some? <==> c.meta.pinned.Some?
    ensures c.meta.pinned.Some? ==> (e.conv.pinned.value <==> c.meta.pinned.value > 0)
    ensures c.meta.muteEnd.None? || c.meta.muteEnd.value == 0 ==> e.conv.muteEnd == None
    ensures c.meta.muteEnd.Some? && c.meta.muteEnd.value > 0 ==> e.conv.muteEnd == Some(c.meta.muteEnd.value)
    ensures c.meta.lastMessage.None? || c.meta.lastMessage.value == 0 ==>
      exists i :: IsFirstParsing(c.messages, i) && e.conv.lastMessage == Some(c.messages[i].ts)
  {
    EntryHasTime(c, e);
    FirstItem(c.messages);
  }

  function AllEntries(cs: seq<Conversation>): seq<Entry> {
    if cs == [] then [] else EntriesOf(cs[0]) + AllEntries(cs[1..])
  }

  function Entries(b: Blob): seq<Entry> {
    if Ignored(b) then [] else AllEntries(b.conversations)
  }

  // ----- Tables -----

  datatype Tables = Tables(convs: map<string, Conv>, msgs: Table)

  function ConvOf(t: Tables, chat: string): Option<Conv> {
    if chat in t.convs then Some(t.convs[chat]) else None
  }

  function Save(t: Tables, e: Entry): Tables {
    Tables(t.convs[e.chat := Upsert(e.conv, ConvOf(t, e.chat))], InsertAll(t.msgs, e.chat, e.rows))
  }

  function SaveAll(t: Tables, es: seq<Entry>): Tables
    decreases |es|
  {
    if es == [] then t else SaveAll(Save(t, es[0]), es[1..])
  }

  lemma {:induction false} SaveAllAppend(t: Tables, a: seq<Entry>, b: seq<Entry>)
    ensures SaveAll(t, a + b) == SaveAll(SaveAll(t, a), b)
    decreases |a|
  {
    if a == [] {
      assert a + b == b;
    } else {
      assert (a + b)[1..] == a[1..] + b;
      SaveAllAppend(Save(t, a[0]), a[1..], b);
    }
  }

  // ----- What storing amounts to, independent of order -----

  function RowKeys(chat: string, rows: seq<Row>): set<Key> {
    set r | r in rows :: Key(chat, r.sender, r.id)
  }

  /** `k` was stored before, or one of the entries brings it. */
  ghost predicate KeyFrom(t: Tables, es: set<Entry>, k: Key) {
    k in t.msgs || exists e :: e in es && k in RowKeys(e.chat, e.rows)
  }

  lemma {:induction false} InsertAllKeys(t: Table, chat: string, rows: seq<Row>)
    ensures InsertAll(t, chat, rows).Keys == t.Keys + RowKeys(chat, rows)
    ensures forall k :: k in t ==> InsertAll(t, chat, rows)[k] == t[k]
    ensures forall k :: k in InsertAll(t, chat, rows) && k !in t
              ==> exists r :: r in rows && k == Key(chat, r.sender, r.id) && InsertAll(t, chat, rows)[k] == r.msg
    decreases |rows|
  {
    if rows != [] {
      var u := Insert(t, chat, rows[0]);
      InsertAllKeys(u, chat, rows[1..]);
      var v := InsertAll(t, chat, rows);
      assert rows == [rows[0]] + rows[1..];
      assert RowKeys(chat, rows) == {Key(chat, rows[0].sender, rows[0].id)} + RowKeys(chat, rows[1..]);
      forall k | k in v && k !in t ensures exists r :: r in rows && k == Key(chat, r.sender, r.id) && v[k] == r.msg {
        if k in u {
          assert rows[0] in rows && k == Key(chat, rows[0].sender, rows[0].id) && v[k] == rows[0].msg;
        } else {
          var r :| r in rows[1..] && k == Key(chat, r.sender, r.id) && v[k] == r.msg;
          assert r in rows;
        }
      }
    }
  }

  /** Some entry brings message `msg` under key `k`. */
  ghost predicate Brings(es: set<Entry>, k: Key, msg: Msg) {
    exists e, r :: e in es && r in e.rows && k == Key(e.chat, r.sender, r.id) && msg == r.msg
  }

  lemma {:induction false} StoredMessages(t: Tables, es: seq<Entry>)
    ensures var u := SaveAll(t, es);
      && (forall k :: k in t.msgs ==> k in u.msgs && u.msgs[k] == t.msgs[k])
      && (forall k :: k in u.msgs && k !in t.msgs ==> Brings(SetOf(es), k, u.msgs[k]))
    decreases |es|
  {
    if es != [] {
      var s := Save(t, es[0]);
      InsertAllKeys(t.msgs, es[0].chat, es[0].rows);
      StoredMessages(s, es[1..]);
      var u := SaveAll(t, es);
      forall k | k in u.msgs && k !in t.msgs ensures Brings(SetOf(es), k, u.msgs[k]) {
        if k in s.msgs {
          var r :| r in es[0].rows && k == Key(es[0].chat, r.sender, r.id) && s.msgs[k] == r.msg;
          assert es[0] in SetOf(es);
        } else {
          BringsMore(es[0], es[1..], k, u.msgs[k]);
          assert [es[0]] + es[1..] == es;
        }
      }
    }
  }

  lemma {:induction false} BringsMore(e: Entry, es: seq<Entry>, k: Key, msg: Msg)
    requires Brings(SetOf(es), k, msg)
    ensures Brings(SetOf([e] + es), k, msg)
  {
    var f, r :| f in SetOf(es) && r in f.rows && k == Key(f.chat, r.sender, r.id) && msg == r.msg;
    assert f in SetOf([e] + es);
  }

  /** The stored keys are those already there and those of the entries, in whatever order and
      however often the entries come; rows are never overwritten, and a new row holds a message
      some entry brought. */
  lemma {:induction false} StoredKeys(t: Tables, es: seq<Entry>)
    ensures var u := SaveAll(t, es);
      && (forall k :: k in u.msgs <==> KeyFrom(t, SetOf(es), k))
      && (forall c :: c in u.convs <==> c in t.convs || exists e :: e in es && e.chat == c)
      && (forall k :: k in t.msgs ==> k in u.msgs && u.msgs[k] == t.msgs[k])
      && (forall k :: k in u.msgs && k !in t.msgs ==> Brings(SetOf(es), k, u.msgs[k]))
    decreases |es|
  {
    hide Brings;
    StoredMessages(t, es);
    if es != [] {
      var s := Save(t, es[0]);
      InsertAllKeys(t.msgs, es[0].chat, es[0].rows);
      StoredKeys(s, es[1..]);
      var u := SaveAll(t, es);
      assert SetOf(es) == {es[0]} + SetOf(es[1..]) by { assert es == [es[0]] + es[1..]; }
      forall k ensures k in u.msgs <==> KeyFrom(t, SetOf(es), k) {
        assert k in u.msgs <==> KeyFrom(s, SetOf(es[1..]), k);
      }
      forall c ensures c in u.convs <==> c in t.convs || exists e :: e in es && e.chat == c {
        assert c in u.convs <==> c in s.convs || exists e :: e in es[1..] && e.chat == c;
        assert forall e :: e in es <==> e == es[0] || e in es[1..];
        if c == es[0].chat { assert es[0] in es; }
      }
    }
  }

  /** The entries do not differ about the message under key `k`. */
  ghost predicate Agreed(es: set<Entry>, k: Key) {
    forall a, b :: Brings(es, k, a) && Brings(es, k, b) ==> a == b
  }

  /** Storing the same set of entries in another order, with or without repetitions, reaches the same
      conversations and message keys, and the same message wherever the entries agree or one was stored
      already. */
  lemma {:induction false} KeysIgnoreOrder(t: Tables, a: seq<Entry>, b: seq<Entry>)
    requires SetOf(a) == SetOf(b)
    ensures SaveAll(t, a).msgs.Keys == SaveAll(t, b).msgs.Keys
    ensures SaveAll(t, a).convs.Keys == SaveAll(t, b).convs.Keys
    ensures forall k :: k in SaveAll(t, a).msgs && (k in t.msgs || Agreed(SetOf(a), k)) ==>
      k in SaveAll(t, b).msgs && SaveAll(t, a).msgs[k] == SaveAll(t, b).msgs[k]
  {
    hide SaveAll, Brings, KeyFrom;
    StoredKeys(t, a);
    StoredKeys(t, b);
    forall c ensures c in SaveAll(t, a).convs <==> c in SaveAll(t, b).convs {
      assert forall e :: e in a <==> e in SetOf(a);
      assert forall e :: e in b <==> e in SetOf(b);
    }
  }

  /** The timestamps recorded for a chat, old and new. */
  ghost predicate Candidate(t: Tables, es: set<Entry>, chat: string, ts: int) {
    || (chat in t.convs && t.convs[chat].lastMessage == Some(ts))
    || exists e :: e in es && e.chat == chat && e.conv.lastMessage == Some(ts)
  }

  ghost predicate IsLatest(t: Tables, es: set<Entry>, chat: string, r: Option<int>) {
    && (r.None? ==> forall ts :: !Candidate(t, es, chat, ts))
    && (r.Some? ==> Candidate(t, es, chat, r.value) && forall ts :: Candidate(t, es, chat, ts) ==> ts <= r.value)
  }

  /** The last-message time a conversation ends up with is the latest one ever recorded for it. */
  lemma {:induction false} LastMessageIsLatest(t: Tables, es: seq<Entry>, chat: string)
    requires chat in SaveAll(t, es).convs
    ensures IsLatest(t, SetOf(es), chat, SaveAll(t, es).convs[chat].lastMessage)
    decreases |es|
  {
    if es != [] {
      var s := Save(t, es[0]);
      LastMessageIsLatest(s, es[1..], chat);
      assert SetOf(es) == {es[0]} + SetOf(es[1..]) by { assert es == [es[0]] + es[1..]; }
      LatestStep(t, es[0], SetOf(es[1..]), chat, SaveAll(t, es).convs[chat].lastMessage);
    }
  }

  lemma {:induction false} LatestStep(t: Tables, e: Entry, rest: set<Entry>, chat: string, r: Option<int>)
    requires IsLatest(Save(t, e), rest, chat, r)
    ensures IsLatest(t, {e} + rest, chat, r)
  {
    var s := Save(t, e);
    var es := {e} + rest;
    forall ts | Candidate(t, es, chat, ts) ensures r.Some? && ts <= r.value {
      if chat in t.convs && t.convs[chat].lastMessage == Some(ts) {
        assert s.convs[chat].lastMessage.Some? && s.convs[chat].lastMessage.value >= ts;
        assert Candidate(s, rest, chat, s.convs[chat].lastMessage.value);
      } else {
        var x :| x in es && x.chat == chat && x.conv.lastMessage == Some(ts);
        if x == e {
          assert s.convs[chat].lastMessage.Some? && s.convs[chat].lastMessage.value >= ts;
          assert Candidate(s, rest, chat, s.convs[chat].lastMessage.value);
        } else {
          assert x in rest;
          assert Candidate(s, rest, chat, ts);
        }
      }
    }
    if r.Some? {
      assert Candidate(s, rest, chat, r.value);
      if chat in s.convs && s.convs[chat].lastMessage == Some(r.value) {
        assert e in es;
        assert Candidate(t, es, chat, r.value);
      } else {
        var x :| x in rest && x.chat == chat && x.conv.lastMessage == Some(r.value);
        assert x in es;
      }
    }
  }

  /** The value of the last entry for the chat that sets a field. */
  function LastSet<T>(es: seq<Entry>, chat: string, field: Conv -> Option<T>): Option<T> {
    if es == [] then None
    else
      var rest := LastSet(es[1..], chat, field);
      if rest.None? && es[0].chat == chat then field(es[0].conv) else rest
  }

  /** For a field merged by COALESCE, the last payload to set it decides, and a field no payload sets
      keeps what was stored. */
  lemma {:induction false} LastSettingWins<T>(t: Tables, es: seq<Entry>, chat: string, field: Conv -> Option<T>)
    requires chat in SaveAll(t, es).convs
    requires forall a, b :: field(Merge(a, b)) == Coalesce(field(a), field(b))
    ensures field(SaveAll(t, es).convs[chat])
         == Coalesce(LastSet(es, chat, field), if chat in t.convs then field(t.convs[chat]) else None)
    decreases |es|
  {
    if es != [] {
      LastSettingWins(Save(t, es[0]), es[1..], chat, field);
    }
  }

  /** All columns but the last-message time are merged that way. */
  lemma {:induction false} CoalescedFields(t: Tables, es: seq<Entry>, chat: string)
    requires chat in SaveAll(t, es).convs
    ensures var u := SaveAll(t, es).convs[chat]; var s := ConvOf(t, chat);
      && u.archived == Coalesce(LastSet(es, chat, (c: Conv) => c.archived), if s.Some? then s.value.archived else None)
      && u.pinned == Coalesce(LastSet(es, chat, (c: Conv) => c.pinned), if s.Some? then s.value.pinned else None)
      && u.muteEnd == Coalesce(LastSet(es, chat, (c: Conv) => c.muteEnd), if s.Some? then s.value.muteEnd else None)
      && u.endOfHistory == Coalesce(LastSet(es, chat, (c: Conv) => c.endOfHistory),
           if s.Some? then s.value.endOfHistory else None)
      && u.expiration == Coalesce(LastSet(es, chat, (c: Conv) => c.expiration),
           if s.Some? then s.value.expiration else None)
      && u.settingTime == Coalesce(LastSet(es, chat, (c: Conv) => c.settingTime),
           if s.Some? then s.value.settingTime else None)
      && u.markedUnread == Coalesce(LastSet(es, chat, (c: Conv) => c.markedUnread),
           if s.Some? then s.value.markedUnread else None)
      && u.unreadCount == Coalesce(LastSet(es, chat, (c: Conv) => c.unreadCount),
           if s.Some? then s.value.unreadCount else None)
  {
    hide LastSet, SaveAll;
    LastSettingWins(t, es, chat, (c: Conv) => c.archived);
    LastSettingWins(t, es, chat, (c: Conv) => c.pinned);
    LastSettingWins(t, es, chat, (c: Conv) => c.muteEnd);
    LastSettingWins(t, es, chat, (c: Conv) => c.endOfHistory);
    LastSettingWins(t, es, chat, (c: Conv) => c.expiration);
    LastSettingWins(t, es, chat, (c: Conv) => c.settingTime);
    LastSettingWins(t, es, chat, (c: Conv) => c.markedUnread);
    LastSettingWins(t, es, chat, (c: Conv) => c.unreadCount);
  }

  // ----- Storing a payload twice -----

  /** What the entries say about one chat, merged; None if they do not mention it. */
  function Folded(es: seq<Entry>, chat: string): Option<Conv> {
    if es == [] then None
    else
      var rest := Folded(es[1..], chat);
      if es[0].chat != chat then rest
      else if rest.None? then Some(es[0].conv)
      else Some(Merge(rest.value, es[0].conv))
  }

  lemma {:induction false} ConvAfter(t: Tables, es: seq<Entry>, chat: string)
    ensures ConvOf(SaveAll(t, es), chat)
         == if Folded(es, chat).None? then ConvOf(t, chat) else Some(Upsert(Folded(es, chat).value, ConvOf(t, chat)))
    decreases |es|
  {
    if es != [] {
      ConvAfter(Save(t, es[0]), es[1..], chat);
      var rest := Folded(es[1..], chat);
      if es[0].chat == chat && rest.Some? && chat in t.convs {
        MergeAssociative(rest.value, es[0].conv, t.convs[chat]);
      }
    }
  }

  /** Storing a payload a second time changes nothing. */
  lemma {:induction false} SaveTwice(t: Tables, es: seq<Entry>)
    ensures SaveAll(SaveAll(t, es), es) == SaveAll(t, es)
  {
    hide SaveAll, Folded, Merge, KeyFrom, Brings;
    var u := SaveAll(t, es);
    var v := SaveAll(u, es);
    forall chat ensures ConvOf(v, chat) == ConvOf(u, chat) {
      ConvTwice(t, es, chat);
    }
    SameConvs(u, v);
    MessagesTwice(t, es);
  }

  lemma {:induction false} ConvTwice(t: Tables, es: seq<Entry>, chat: string)
    ensures ConvOf(SaveAll(SaveAll(t, es), es), chat) == ConvOf(SaveAll(t, es), chat)
  {
    ConvAfter(t, es, chat);
    ConvAfter(SaveAll(t, es), es, chat);
    if Folded(es, chat).Some? && chat in t.convs {
      MergeAssociative(Folded(es, chat).value, t.convs[chat], t.convs[chat]);
    }
    SelfMerge(es, chat);
  }

  lemma {:induction false} MessagesTwice(t: Tables, es: seq<Entry>)
    ensures SaveAll(SaveAll(t, es), es).msgs == SaveAll(t, es).msgs
  {
    hide SaveAll, Brings;
    var u := SaveAll(t, es);
    var v := SaveAll(u, es);
    StoredKeys(t, es);
    StoredKeys(u, es);
    forall k | k in v.msgs ensures k in u.msgs {
      assert KeyFrom(u, SetOf(es), k);
      assert k in u.msgs || KeyFrom(t, SetOf(es), k);
    }
  }

  lemma {:induction false} SelfMerge(es: seq<Entry>, chat: string)
    ensures Folded(es, chat).Some? ==> Merge(Folded(es, chat).value, Folded(es, chat).value) == Folded(es, chat).value
  {
  }

  lemma {:induction false} SameConvs(u: Tables, v: Tables)
    requires forall chat :: ConvOf(v, chat) == ConvOf(u, chat)
    ensures u.convs == v.convs
  {
    assert forall c :: c in u.convs ==> ConvOf(v, c).Some? && ConvOf(v, c) == ConvOf(u, c);
    assert forall c :: c in v.convs ==> ConvOf(u, c).Some?;
  }

  // ----- One notification -----

  /** What can go wrong while a notification is handled. */
  datatype Fault =
    | Nothing
    | DownloadFails
    | StatementFails(entry: nat)  // storing the entry-th conversation
    | QueueDeleteFails
    | PanicsBeforeCommit
    | MediaDeleteFails
    | PanicsAfterCommit

  function Stored(b: Blob): seq<Entry> {
    if TypeOf(b) == OnDemand then [] else Entries(b)
  }

  /** Whether handling a notification takes it off the queue. */
  predicate Commits(b: Blob, f: Fault) {
    match f
    case Nothing => true
    case DownloadFails => false
    case StatementFails(n) => n >= |Stored(b)|
    case QueueDeleteFails => false
    case PanicsBeforeCommit => false
    case MediaDeleteFails => true
    case PanicsAfterCommit => true
  }

  // ----- What a payload stores -----

  /** The types of payload whose conversations are stored. */
  predicate Storing(b: Blob) {
    b.syncType in {Some(InitialBootstrap), Some(Full), Some(Recent), Some(Other)}
  }

  /** A readable, wanted message of the payload with this key and content. */
  ghost predicate Offers(cs: seq<Conversation>, k: Key, body: seq<nat>) {
    exists c, r :: c in cs && c.chat == Some(k.chat) && !c.broadcast && r in c.messages
      && r.parses && !r.ignored && r.marshals && r.sender == k.sender && r.id == k.id && r.body == body
  }

  lemma {:induction false} EntryOffers(c: Conversation, e: Entry, row: Row)
    requires e in EntriesOf(c) && row in e.rows
    ensures Offers([c], Key(e.chat, row.sender, row.id), row.msg.data.body)
  {
    var out := TimestampRepair.Repair(c.messages, 0, c.commentsCount == 0);
    var at := TimestampRepair.RowsFromMessages(c.messages, 0, c.commentsCount == 0);
    var i :| 0 <= i < |e.rows| && e.rows[i] == row;
    var r := c.messages[at[i]];
    assert TimestampRepair.Storable(r) && TimestampRepair.Carries(row, r, out[at[i]].ts);
    assert c in [c] && r in c.messages;
  }

  lemma {:induction false} OfferStored(c: Conversation, r: TimestampRepair.Raw) returns (e: Entry, row: Row)
    requires c.chat.Some? && !c.broadcast && r in c.messages && r.parses && !r.ignored && r.marshals
    ensures e in EntriesOf(c) && row in e.rows && e.chat == c.chat.value && row.sender == r.sender && row.id == r.id
  {
    var at := TimestampRepair.RowsFromMessages(c.messages, 0, c.commentsCount == 0);
    var rows := TimestampRepair.RowsOf(TimestampRepair.Repair(c.messages, 0, c.commentsCount == 0));
    var j: nat :| j < |c.messages| && c.messages[j] == r;
    assert TimestampRepair.Storable(r) && j in at;
    var i :| 0 <= i < |at| && at[i] == j;
    row := rows[i];
    assert rows != [];
    e := EntriesOf(c)[0];
  }

  lemma {:induction false} EntriesOffer(cs: seq<Conversation>, e: Entry, row: Row)
    requires e in AllEntries(cs) && row in e.rows
    ensures Offers(cs, Key(e.chat, row.sender, row.id), row.msg.data.body)
  {
    hide EntriesOf;
    if e in EntriesOf(cs[0]) {
      EntryOffers(cs[0], e, row);
    } else {
      EntriesOffer(cs[1..], e, row);
    }
  }

  lemma {:induction false} EntryAmongAll(cs: seq<Conversation>, c: Conversation, e: Entry)
    requires c in cs && e in EntriesOf(c)
    ensures e in AllEntries(cs)
  {
    hide EntriesOf;
    if c != cs[0] { EntryAmongAll(cs[1..], c, e); }
  }

  /** Exactly the readable, wanted messages of a payload are stored, under their chat, sender and ID;
      and what is new holds the content of such a message. */
  lemma {:induction false} PayloadStored(t: Tables, b: Blob, k: Key)
    ensures k in SaveAll(t, Stored(b)).msgs <==>
      k in t.msgs || (Storing(b) && exists body :: Offers(b.conversations, k, body))
    ensures k in SaveAll(t, Stored(b)).msgs && k !in t.msgs ==>
      Storing(b) && Offers(b.conversations, k, SaveAll(t, Stored(b)).msgs[k].data.body)
  {
    hide SaveAll, AllEntries, EntriesOf, Offers;
    var es := Stored(b);
    var u := SaveAll(t, es);
    StoredKeys(t, es);
    if k in u.msgs && k !in t.msgs {
      BroughtIsOffered(b, k, u.msgs[k]);
    }
    if Storing(b) && exists body :: Offers(b.conversations, k, body) {
      var body :| Offers(b.conversations, k, body);
      OfferIsKey(t, b, k, body);
    }
  }

  lemma {:induction false} BroughtIsOffered(b: Blob, k: Key, msg: Msg)
    requires Brings(SetOf(Stored(b)), k, msg)
    ensures Storing(b) && Offers(b.conversations, k, msg.data.body)
  {
    hide AllEntries, Offers;
    var e, r :| e in SetOf(Stored(b)) && r in e.rows && k == Key(e.chat, r.sender, r.id) && msg == r.msg;
    EntriesOffer(b.conversations, e, r);
  }

  lemma {:induction false} OfferIsKey(t: Tables, b: Blob, k: Key, body: seq<nat>)
    requires Storing(b) && Offers(b.conversations, k, body)
    ensures KeyFrom(t, SetOf(Stored(b)), k)
  {
    hide AllEntries, EntriesOf;
    var c, r :| c in b.conversations && c.chat == Some(k.chat) && !c.broadcast && r in c.messages
      && r.parses && !r.ignored && r.marshals && r.sender == k.sender && r.id == k.id && r.body == body;
    var e, row := OfferStored(c, r);
    EntryAmongAll(b.conversations, c, e);
    assert e in SetOf(Stored(b)) && k in RowKeys(e.chat, e.rows);
  }

  class HistoryDb {
    /** The notification queue: row IDs to the payloads they announce. */
    var queue: map<nat, Blob>
    var tables: Tables

    constructor (t: Tables)
      ensures queue == map[] && tables == t
    {
      queue, tables := map[], t;
    }

    method PutNotification(rowid: nat, b: Blob)
      requires rowid !in queue  // the database picks an unused row ID
      modifies this`queue
      ensures queue == old(queue)[rowid := b]
    {
      queue := queue[rowid := b];
    }

    /** Any queued row: the query has no ORDER BY. */
    method GetNext() returns (next: Option<(nat, Blob)>)
      ensures next.None? <==> queue == map[]
      ensures next.Some? ==> next.value.0 in queue && queue[next.value.0] == next.value.1
    {
      if queue == map[] { return None; }
      assert exists r :: r in queue;
      var rowid :| rowid in queue;
      return Some((rowid, queue[rowid]));
    }

    /** The body of the transaction, up to the queue delete: returns the tables it would commit. */
    method HandleHistorySync(b: Blob, fault: Fault) returns (ok: bool, txn: Tables)
      ensures ok <==> !(fault.StatementFails? && fault.entry < |Entries(b)|)
      ensures ok ==> txn == SaveAll(tables, Entries(b))
    {
      txn := tables;
      if Ignored(b) { return true, txn; }
      ghost var done: seq<Entry> := [];
      var stored := 0;
      for i := 0 to |b.conversations|
        invariant done == AllEntries(b.conversations[..i]) && stored == |done|
        invariant txn == SaveAll(tables, done)
        invariant fault.StatementFails? ==> fault.entry >= |done|
      {
        var c := b.conversations[i];
        AllEntriesSnoc(b.conversations, i);
        if c.chat.None? || c.broadcast { continue; }
        var raws := new TimestampRepair.Raw[|c.messages|](j requires 0 <= j < |c.messages| => c.messages[j]);
        assert raws[..] == c.messages;
        var messages, _ := TimestampRepair.CollectMessages(raws, c.commentsCount);
        if messages == [] { continue; }
        var entry := Entry(c.chat.value, NewConversation(c.meta, FirstItemTime(c.messages)), messages);
        assert EntriesOf(c) == [entry];
        if fault.StatementFails? && fault.entry == stored {
          AllEntriesPrefix(b.conversations, i + 1);
          return false, txn;
        }
        SaveAllAppend(tables, done, [entry]);
        txn := Save(txn, entry);
        done := done + [entry];
        stored := stored + 1;
      }
      assert b.conversations[..|b.conversations|] == b.conversations;
      ok := true;
    }

    /** Handles one queued notification. The queue row and the stored data change together or not
        at all; an on-demand payload is handed out elsewhere and stores nothing. */
    method DownloadAndSave(rowid: nat, fault: Fault) returns (resetTimer: bool, errored: bool)
      requires rowid in queue
      modifies this
      ensures var b := old(queue)[rowid];
        if Commits(b, fault) then queue == old(queue) - {rowid} && tables == SaveAll(old(tables), Stored(b))
        else queue == old(queue) && tables == old(tables)
      ensures errored <==> fault.PanicsBeforeCommit? || fault.PanicsAfterCommit?
      ensures resetTimer <==>
        Commits(old(queue)[rowid], fault) && TypeOf(old(queue)[rowid]) in {InitialBootstrap, Recent, Full}
    {
      resetTimer, errored := false, false;
      var b := queue[rowid];
      if fault.DownloadFails? { return; }
      if TypeOf(b) == OnDemand {
        if fault.PanicsBeforeCommit? { return false, true; }
        if fault.QueueDeleteFails? { return; }
        queue := queue - {rowid};
        return false, fault.PanicsAfterCommit?;
      }
      if fault.PanicsBeforeCommit? { return false, true; }
      var ok, txn := HandleHistorySync(b, fault);
      if !ok || fault.QueueDeleteFails? { return; }
      queue, tables := queue - {rowid}, txn;
      resetTimer := TypeOf(b) == InitialBootstrap || TypeOf(b) == Recent || TypeOf(b) == Full;
      errored := fault.PanicsAfterCommit?;
    }
  }

  lemma {:induction false} AllEntriesAppend(a: seq<Conversation>, b: seq<Conversation>)
    ensures AllEntries(a + b) == AllEntries(a) + AllEntries(b)
    decreases |a|
  {
    if a == [] {
      assert a + b == b;
    } else {
      assert (a + b)[1..] == a[1..] + b;
      AllEntriesAppend(a[1..], b);
    }
  }

  lemma {:induction false} AllEntriesSnoc(cs: seq<Conversation>, i: nat)
    requires i < |cs|
    ensures AllEntries(cs[..i + 1]) == AllEntries(cs[..i]) + EntriesOf(cs[i])
  {
    AllEntriesAppend(cs[..i], [cs[i]]);
    assert cs[..i + 1] == cs[..i] + [cs[i]];
    assert [cs[i]][1..] == [];
    assert AllEntries([cs[i]]) == EntriesOf(cs[i]) + [];
  }

  lemma {:induction false} AllEntriesPrefix(cs: seq<Conversation>, i: nat)
    requires i <= |cs|
    ensures |AllEntries(cs[..i])| <= |AllEntries(cs)|
  {
    AllEntriesAppend(cs[..i], cs[i..]);
    assert cs == cs[..i] + cs[i..];
  }

  // ----- Any history of failures and retries -----

  /** All notifications ever accepted, in order; the queue as row IDs of indexes into them; the
      indexes whose handling committed, in order; and the tables. */
  datatype History = History(issued: seq<Blob>, queue: map<nat, nat>, done: seq<nat>, tables: Tables)

  datatype Step = Enqueue(rowid: nat, blob: Blob) | Attempt(rowid: nat, fault: Fault)

  predicate Enabled(h: History, s: Step) {
    match s
    case Enqueue(rowid, _) => rowid !in h.queue
    case Attempt(rowid, _) => rowid in h.queue && h.queue[rowid] < |h.issued|
  }

  function Next(h: History, s: Step): History
    requires Enabled(h, s)
  {
    match s
    case Enqueue(rowid, b) => h.(issued := h.issued + [b], queue := h.queue[rowid := |h.issued|])
    case Attempt(rowid, f) =>
      var n := h.queue[rowid];
      if Commits(h.issued[n], f) then
        h.(queue := h.queue - {rowid}, done := h.done + [n], tables := SaveAll(h.tables, Stored(h.issued[n])))
      else h
  }

  /** A run: the states it goes through, from an empty queue and tables `t`. */
  ghost predicate IsRun(t: Tables, steps: seq<Step>, hs: seq<History>) {
    && |hs| == |steps| + 1
    && hs[0] == History([], map[], [], t)
    && forall i :: 0 <= i < |steps| ==> Enabled(hs[i], steps[i]) && hs[i + 1] == Next(hs[i], steps[i])
  }

  predicate InRange(order: seq<nat>, n: nat) {
    forall i :: 0 <= i < |order| ==> order[i] < n
  }

  /** One clean pass over the notifications `order` lists. */
  function CleanPass(t: Tables, issued: seq<Blob>, order: seq<nat>): Tables
    requires InRange(order, |issued|)
  {
    SaveAll(t, PassEntries(issued, order))
  }

  function PassEntries(issued: seq<Blob>, order: seq<nat>): seq<Entry>
    requires InRange(order, |issued|)
  {
    if order == [] then []
    else PassEntries(issued, order[..|order| - 1]) + Stored(issued[order[|order| - 1]])
  }

  /** Every accepted notification is either still queued, once, or was stored, once; and the tables
      are those of one clean pass over the stored ones. */
  ghost predicate ExactlyOnce(t: Tables, h: History) {
    && (forall r :: r in h.queue ==> h.queue[r] < |h.issued|)
    && (forall q, r :: q in h.queue && r in h.queue && q != r ==> h.queue[q] != h.queue[r])
    && InRange(h.done, |h.issued|)
    && Distinct(h.done)
    && (forall r :: r in h.queue ==> h.queue[r] !in h.done)
    && (forall n :: 0 <= n < |h.issued| && n !in h.done ==> exists r :: r in h.queue && h.queue[r] == n)
    && h.tables == CleanPass(t, h.issued, h.done)
  }

  lemma {:induction false} PassEntriesGrow(issued: seq<Blob>, b: Blob, order: seq<nat>)
    requires InRange(order, |issued|)
    ensures PassEntries(issued + [b], order) == PassEntries(issued, order)
  {
    if order != [] {
      PassEntriesGrow(issued, b, order[..|order| - 1]);
      assert (issued + [b])[order[|order| - 1]] == issued[order[|order| - 1]];
    }
  }

  lemma {:induction false} EnqueueKeepsExactlyOnce(t: Tables, h: History, rowid: nat, b: Blob)
    requires ExactlyOnce(t, h) && rowid !in h.queue
    ensures ExactlyOnce(t, Next(h, Enqueue(rowid, b)))
  {
    var g := Next(h, Enqueue(rowid, b));
    PassEntriesGrow(h.issued, b, h.done);
    assert g.queue[rowid] == |h.issued|;
    forall n | 0 <= n < |g.issued| && n !in g.done ensures exists r :: r in g.queue && g.queue[r] == n {
      if n < |h.issued| {
        var r :| r in h.queue && h.queue[r] == n;
        assert r in g.queue && g.queue[r] == n;
      }
    }
  }

  lemma {:induction false} CommitKeepsExactlyOnce(t: Tables, h: History, rowid: nat, f: Fault)
    requires ExactlyOnce(t, h) && rowid in h.queue && Commits(h.issued[h.queue[rowid]], f)
    ensures ExactlyOnce(t, Next(h, Attempt(rowid, f)))
  {
    hide SaveAll, Stored, Commits;
    var g := Next(h, Attempt(rowid, f));
    var n := h.queue[rowid];
    assert g.done[..|g.done| - 1] == h.done;
    SaveAllAppend(t, PassEntries(h.issued, h.done), Stored(h.issued[n]));
    forall m | 0 <= m < |g.issued| && m !in g.done ensures exists r :: r in g.queue && g.queue[r] == m {
      assert m !in h.done && m != n;
      var r :| r in h.queue && h.queue[r] == m;
      assert r in g.queue && g.queue[r] == m;
    }
  }

  /** Whatever fails, panics or is retried, and whatever arrives in between. */
  lemma {:induction false} ExactlyOnceAlways(t: Tables, steps: seq<Step>, hs: seq<History>, i: nat)
    requires IsRun(t, steps, hs) && i < |hs|
    ensures ExactlyOnce(t, hs[i])
  {
    if i > 0 {
      ExactlyOnceAlways(t, steps, hs, i - 1);
      assert hs[i] == Next(hs[i - 1], steps[i - 1]);
      match steps[i - 1]
      case Enqueue(rowid, b) => EnqueueKeepsExactlyOnce(t, hs[i - 1], rowid, b);
      case Attempt(rowid, f) =>
        if Commits(hs[i - 1].issued[hs[i - 1].queue[rowid]], f) {
          CommitKeepsExactlyOnce(t, hs[i - 1], rowid, f);
        }
    }
  }

  /** What an attempt comes to: a clean one, one that fails only after the commit, and one in which a
      statement fails that is not there, store the notification's data and take it off the queue; every
      other leaves all as it was. */
  lemma {:induction false} AttemptOutcome(t: Tables, steps: seq<Step>, hs: seq<History>, i: nat)
    requires IsRun(t, steps, hs) && i < |steps| && steps[i].Attempt?
    ensures var h, f := hs[i], steps[i].fault;
      && steps[i].rowid in h.queue && h.queue[steps[i].rowid] < |h.issued|
      && var n := h.queue[steps[i].rowid];
      if f in {Nothing, MediaDeleteFails, PanicsAfterCommit}
         || (f.StatementFails? && f.entry >= |Stored(h.issued[n])|)
      then steps[i].rowid !in hs[i + 1].queue && n in hs[i + 1].done
           && hs[i + 1].tables == SaveAll(h.tables, Stored(h.issued[n]))
      else hs[i + 1] == h
  {
    assert Enabled(hs[i], steps[i]) && hs[i + 1] == Next(hs[i], steps[i]);
    var n := hs[i].queue[steps[i].rowid];
    assert n in hs[i].done + [n];
  }

  lemma {:induction false} EntriesConsistent(cs: seq<Conversation>)
    ensures forall e, r :: e in AllEntries(cs) && r in e.rows ==> r.msg.ts == r.msg.data.ts
  {
    if cs != [] {
      TimestampRepair.RowsConsistent(TimestampRepair.Repair(cs[0].messages, 0, cs[0].commentsCount == 0));
      EntriesConsistent(cs[1..]);
    }
  }

  lemma {:induction false} SaveAllConsistent(t: Tables, es: seq<Entry>)
    requires Consistent(t.msgs) && forall e, r :: e in es && r in e.rows ==> r.msg.ts == r.msg.data.ts
    ensures Consistent(SaveAll(t, es).msgs)
    decreases |es|
  {
    if es != [] {
      assert es[0] in es;
      InsertAllConsistent(t.msgs, es[0].chat, es[0].rows);
      SaveAllConsistent(Save(t, es[0]), es[1..]);
    }
  }

  /** In every reachable state the timestamp column agrees with the stored messages, which is what
      pagination relies on. */
  lemma {:induction false} ConsistentAlways(t: Tables, steps: seq<Step>, hs: seq<History>, i: nat)
    requires IsRun(t, steps, hs) && i < |hs| && Consistent(t.msgs)
    ensures Consistent(hs[i].tables.msgs)
  {
    if i > 0 {
      ConsistentAlways(t, steps, hs, i - 1);
      var g := hs[i - 1];
      assert hs[i] == Next(g, steps[i - 1]);
      if steps[i - 1].Attempt? {
        var b := g.issued[g.queue[steps[i - 1].rowid]];
        EntriesConsistent(b.conversations);
        SaveAllConsistent(g.tables, Stored(b));
      }
    }
  }

  function Arrival(n: nat): (order: seq<nat>)
    ensures |order| == n && forall i :: 0 <= i < n ==> order[i] == i
  {
    if n == 0 then [] else Arrival(n - 1) + [n - 1]
  }

  lemma {:induction false} PassEntriesSet(issued: seq<Blob>, order: seq<nat>)
    requires InRange(order, |issued|)
    ensures forall e :: e in PassEntries(issued, order) <==> exists n :: n in order && e in Stored(issued[n])
  {
    if order != [] {
      var front, last := order[..|order| - 1], order[|order| - 1];
      PassEntriesSet(issued, front);
      assert forall n :: n in order <==> n in front || n == last by { assert order == front + [last]; }
    }
  }

  /** Once the queue has drained, conversations, message keys and last-message times are those of a
      clean pass in arrival order, and so is every message the payloads agree on: neither the failures
      nor the order of handling show. */
  lemma {:induction false} DrainedLikeCleanPass(t: Tables, steps: seq<Step>, hs: seq<History>, i: nat)
    requires IsRun(t, steps, hs) && i < |hs| && hs[i].queue == map[]
    ensures var h := hs[i]; var arrival := Arrival(|h.issued|); var clean := CleanPass(t, h.issued, arrival);
      && h.tables.msgs.Keys == clean.msgs.Keys
      && h.tables.convs.Keys == clean.convs.Keys
      && (forall c :: c in clean.convs ==> h.tables.convs[c].lastMessage == clean.convs[c].lastMessage)
      && (forall k :: k in clean.msgs && (k in t.msgs || Agreed(SetOf(PassEntries(h.issued, arrival)), k)) ==>
            h.tables.msgs[k] == clean.msgs[k])
  {
    ExactlyOnceAlways(t, steps, hs, i);
    var h := hs[i];
    var order := Arrival(|h.issued|);
    var a, b := PassEntries(h.issued, h.done), PassEntries(h.issued, order);
    PassEntriesSet(h.issued, h.done);
    PassEntriesSet(h.issued, order);
    assert forall n :: n in h.done <==> n in order by {
      forall n | n in h.done ensures n in order { assert order[n] == n; }
    }
    assert SetOf(a) == SetOf(b) by {
      assert forall e :: e in a <==> e in b;
    }
    KeysIgnoreOrder(t, a, b);
    forall c | c in SaveAll(t, b).convs
      ensures SaveAll(t, a).convs[c].lastMessage == SaveAll(t, b).convs[c].lastMessage
    {
      LastMessageIsLatest(t, a, c);
      LastMessageIsLatest(t, b, c);
    }
  }
}
