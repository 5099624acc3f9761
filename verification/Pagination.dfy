/** Backward pagination over stored history (pkg/connector/backfill.go): fetch a page, deliver it,
    delete what was delivered, continue below the oldest delivered timestamp. */
module Pagination {
  import opened Prelude
  import opened MessageTable

  datatype Anchor = Anchor(id: string, ts: int)

  /** `moreOnPrimary` is what the stored conversation says about the phone when on-demand
      fetching is configured, and false otherwise. */
  datatype Query = Query(chat: string, count: nat, anchor: Option<Anchor>, cursor: Option<int>, moreOnPrimary: bool)

  datatype Outcome =
    | Exhausted(hasMore: bool)
    | Batch(rows: seq<Key>, newest: nat, cursor: nat, hasMore: bool)

  /** The exclusive upper bound of a fetch: the anchor's time, or the cursor if that is older. */
  function EndTime(q: Query): Option<int> {
    match (q.anchor, q.cursor)
    case (None, _) => q.cursor
    case (Some(a), None) => Some(a.ts)
    case (Some(a), Some(c)) => if c < a.ts then Some(c) else Some(a.ts)
  }

  predicate OnlyAnchorLeft(q: Query, page: seq<Key>) {
    |page| == 1 && q.anchor.Some? && q.anchor.value.id != "" && page[0].id == q.anchor.value.id
  }

  /** Cuts the rows of timestamp `oldest` off the end, looking from index `i` down; a page that
      holds nothing newer stays whole. */
  function CutFrom(t: Table, page: seq<Key>, oldest: nat, i: int): seq<Key>
    requires -1 <= i < |page| && forall k :: k in page ==> k in t
    decreases i + 1
  {
    if i < 0 then page
    else if t[page[i]].data.ts > oldest then page[..i + 1]
    else CutFrom(t, page, oldest, i - 1)
  }

  lemma {:induction false} CutFromPrefix(t: Table, page: seq<Key>, oldest: nat, i: int)
    requires -1 <= i < |page| && forall k :: k in page ==> k in t
    ensures var c := CutFrom(t, page, oldest, i);
      || (c == page && forall j :: 0 <= j <= i ==> t[page[j]].data.ts <= oldest)
      || (exists n :: 0 < n <= i + 1 && c == page[..n] && t[page[n - 1]].data.ts > oldest
                   && forall j :: n <= j <= i ==> t[page[j]].data.ts <= oldest)
    decreases i + 1
  {
    if i >= 0 && t[page[i]].data.ts <= oldest {
      CutFromPrefix(t, page, oldest, i - 1);
    } else if i >= 0 {
      assert CutFrom(t, page, oldest, i) == page[..i + 1];
    }
  }

  /** A page that filled the limit loses its oldest second, unless it holds nothing else. */
  function Cut(t: Table, page: seq<Key>, count: nat): (c: seq<Key>)
    requires page != [] && forall k :: k in page ==> k in t
    ensures 0 < |c| <= |page| && c == page[..|c|]
  {
    if |page| > count then
      CutFromPrefix(t, page, t[page[|page| - 1]].data.ts, |page| - 2);
      CutFrom(t, page, t[page[|page| - 1]].data.ts, |page| - 2)
    else page
  }

  function OutcomeOf(t: Table, q: Query, page: seq<Key>): Outcome
    requires forall k :: k in page ==> k in t
  {
    if page == [] || OnlyAnchorLeft(q, page) then
      Exhausted(q.moreOnPrimary && q.anchor.Some?)
    else
      var b := Cut(t, page, q.count);
      assert b[0] == page[0] && b[|b| - 1] == page[|b| - 1];
      Batch(b, t[b[0]].data.ts, t[b[|b| - 1]].data.ts, q.moreOnPrimary || |page| > q.count)
  }

  /** The completion callback's delete. */
  function AfterDelete(t: Table, chat: string, newest: nat, oldest: nat, queueEnabled: bool): Table {
    if (newest == 0 && oldest == 0) || !queueEnabled then WithoutChat(t, chat)
    else WithoutBetween(t, chat, newest, oldest)
  }

  method DeleteHistorySyncMessages(db: MessageQuery, chat: string, newest: nat, oldest: nat, queueEnabled: bool)
    modifies db
    ensures db.rows == AfterDelete(old(db.rows), chat, newest, oldest, queueEnabled)
  {
    if (newest == 0 && oldest == 0) || !queueEnabled {
      var _ := db.DeleteAllInChat(chat);
    } else {
      var _ := db.DeleteBetween(chat, newest, oldest);
    }
  }

  /** One fetch. A batch leaves the table alone until its completion callback; an empty one, or one
      holding only the anchor itself, drops whatever the chat still has. */
  method FetchMessages(db: MessageQuery, q: Query, queueEnabled: bool) returns (o: Outcome, ghost page: seq<Key>)
    modifies db
    ensures IsPage(old(db.rows), Matching(old(db.rows), q.chat, None, EndTime(q)), q.count + 1, page)
    ensures o == OutcomeOf(old(db.rows), q, page)
    ensures db.rows == if o.Exhausted? then WithoutChat(old(db.rows), q.chat) else old(db.rows)
  {
    hide Cut, Distinct, NewestFirst, Matching, EndTime;
    var messages := db.GetBetween(q.chat, None, EndTime(q), q.count + 1);
    page := messages;
    var hasMore := q.moreOnPrimary;
    if messages == [] || OnlyAnchorLeft(q, messages) {
      DeleteHistorySyncMessages(db, q.chat, 0, 0, queueEnabled);
      return Exhausted(hasMore && q.anchor.Some?), page;
    }
    if |messages| > q.count {
      hasMore := true;
    }
    messages := CutOldest(db.rows, messages, q.count);
    o := Batch(messages, db.rows[messages[0]].data.ts, db.rows[messages[|messages| - 1]].data.ts, hasMore);
  }

  /** The loop that cuts a full page. */
  method CutOldest(rows: Table, page: seq<Key>, count: nat) returns (messages: seq<Key>)
    requires page != [] && forall k :: k in page ==> k in rows
    ensures messages == Cut(rows, page, count)
  {
    messages := page;
    if |messages| > count {
      var oldest := rows[messages[|messages| - 1]].data.ts;
      var i := |messages| - 2;
      while i >= 0
        invariant -1 <= i < |page| && messages == page
        invariant CutFrom(rows, page, oldest, i) == Cut(rows, page, count)
        decreases i
      {
        if rows[messages[i]].data.ts > oldest {
          messages := messages[..i + 1];
          break;
        }
        i := i - 1;
      }
    }
  }

  /** What a fetch answers, on the page it got: nothing for an empty page or for the anchor alone, and
      then more only if the phone has it and there is an anchor to ask from; otherwise a batch from the
      newest row on, with more to come if the phone has it or the page was full. */
  lemma {:induction false} OutcomeReads(t: Table, q: Query, page: seq<Key>)
    requires forall k :: k in page ==> k in t
    ensures var o := OutcomeOf(t, q, page);
      && (o.Exhausted? <==> page == [] || (|page| == 1 && Anchors(q.anchor, page[0])))
      && (o.Exhausted? ==> (o.hasMore <==> q.moreOnPrimary && q.anchor.Some?))
      && (o.Batch? ==> (o.hasMore <==> q.moreOnPrimary || |page| > q.count))
      && (o.Batch? ==> 0 < |o.rows| <= |page| && o.rows == page[..|o.rows|])
      && (o.Batch? ==> o.newest == t[page[0]].data.ts && o.cursor == t[page[|o.rows| - 1]].data.ts)
  {
    hide CutFrom;
  }

  // ----- Whole runs -----

  /** The rows a run may deliver. */
  function Todo(t: Table, chat: string, anchor: Option<Anchor>, cursor: Option<int>): set<Key> {
    Matching(t, chat, None, EndTime(Query(chat, 0, anchor, cursor, false)))
  }

  /** Those older than the anchor, if there is one, and older than the cursor, if there is one. */
  lemma {:induction false} TodoIsOlder(t: Table, chat: string, anchor: Option<Anchor>, cursor: Option<int>, k: Key)
    ensures k in Todo(t, chat, anchor, cursor) <==>
      k in t && k.chat == chat && (anchor.Some? ==> t[k].ts < anchor.value.ts)
        && (cursor.Some? ==> t[k].ts < cursor.value)
  {
  }

  /** One round of a run: the anchor the caller passes and the page the database returns. */
  datatype Round = Round(anchor: Option<Anchor>, page: seq<Key>)

  function RoundQuery(chat: string, count: nat, more: bool, cursor: Option<int>, r: Round): Query {
    Query(chat, count, r.anchor, cursor, more)
  }

  function RoundOutcome(t: Table, chat: string, count: nat, more: bool, cursor: Option<int>, r: Round): Outcome
    requires forall k :: k in r.page ==> k in t
  {
    OutcomeOf(t, RoundQuery(chat, count, more, cursor, r), r.page)
  }

  /** A complete run: each round fetches, delivers and deletes with the backfill queue on, and the
      next starts from the returned cursor. Once there is a cursor, the anchor is not older than it
      (it is a message that was already bridged). */
  ghost predicate Run(t: Table, chat: string, count: nat, more: bool, cursor: Option<int>, rounds: seq<Round>)
    decreases |rounds|
  {
    && rounds != []
    && (cursor.Some? && rounds[0].anchor.Some? ==> cursor.value <= rounds[0].anchor.value.ts)
    && IsPage(t, Todo(t, chat, rounds[0].anchor, cursor), count + 1, rounds[0].page)
    && match RoundOutcome(t, chat, count, more, cursor, rounds[0])
       case Exhausted(_) => |rounds| == 1
       case Batch(_, newest, oldest, hasMore) =>
         if hasMore then Run(AfterDelete(t, chat, newest, oldest, true), chat, count, more, Some(oldest), rounds[1..])
         else |rounds| == 1
  }

  /** The batches a run delivers, in order. */
  ghost function Delivered(
      t: Table, chat: string, count: nat, more: bool, cursor: Option<int>, rounds: seq<Round>): seq<seq<Key>>
    requires Run(t, chat, count, more, cursor, rounds)
    decreases |rounds|
  {
    match RoundOutcome(t, chat, count, more, cursor, rounds[0])
    case Exhausted(_) => []
    case Batch(b, newest, oldest, hasMore) =>
      if hasMore then
        [b] + Delivered(AfterDelete(t, chat, newest, oldest, true), chat, count, more, Some(oldest), rounds[1..])
      else [b]
  }

  function AtTime(t: Table, m: set<Key>, ts: nat): set<Key>
    requires m <= t.Keys
  {
    set k | k in m && t[k].ts == ts
  }

  ghost predicate AtMostPerSecond(t: Table, m: set<Key>, n: nat)
    requires m <= t.Keys
  {
    forall ts :: |AtTime(t, m, ts)| <= n
  }

  function NoOlderThan(t: Table, m: set<Key>, ts: nat): set<Key>
    requires m <= t.Keys
  {
    set k | k in m && t[k].ts >= ts
  }

  /** What a batch is: every row from its oldest timestamp up, except that a full page of a single
      timestamp may leave some rows of that timestamp behind. */
  lemma {:induction false} BatchIsSlice(t: Table, m: set<Key>, count: nat, page: seq<Key>)
    requires Consistent(t) && IsPage(t, m, count + 1, page) && page != []
    ensures var b := Cut(t, page, count); var slice := NoOlderThan(t, m, t[b[|b| - 1]].ts);
      && (|page| <= count ==> SetOf(b) == m == slice)
      && (|b| <= count ==> SetOf(b) == slice)
      && (|b| > count ==> |b| == count + 1 && SetOf(b) <= slice == AtTime(t, m, t[b[|b| - 1]].ts))
  {
    hide CutFrom, NoOlderThan, AtTime, Distinct, NewestFirst;
    var b := Cut(t, page, count);
    if |page| <= count {
      WholePage(t, m, count, page);
    } else {
      var last := t[page[|page| - 1]].ts;
      CutFromPrefix(t, page, last, |page| - 2);
      if b == page {
        FlatPage(t, m, count, page);
      } else {
        CutPage(t, m, page, |b|, last);
      }
    }
  }

  lemma {:induction false} WholePage(t: Table, m: set<Key>, count: nat, page: seq<Key>)
    requires IsPage(t, m, count + 1, page) && 0 < |page| <= count
    ensures SetOf(page) == m == NoOlderThan(t, m, t[page[|page| - 1]].ts)
  {
    DistinctCard(page);
    SubsetCard(SetOf(page), m);
    forall k | k in m ensures t[k].ts >= t[page[|page| - 1]].ts {
      assert k in SetOf(page);
      var j :| 0 <= j < |page| && page[j] == k;
    }
  }

  lemma {:induction false} FlatPage(t: Table, m: set<Key>, count: nat, page: seq<Key>)
    requires IsPage(t, m, count + 1, page) && |page| == count + 1
    requires forall j :: 0 <= j < |page| ==> t[page[j]].ts <= t[page[|page| - 1]].ts
    ensures SetOf(page) <= NoOlderThan(t, m, t[page[|page| - 1]].ts) == AtTime(t, m, t[page[|page| - 1]].ts)
  {
    var last := t[page[|page| - 1]].ts;
    forall k | k in m && t[k].ts >= last ensures t[k].ts == last {
      if k in page {
        var j :| 0 <= j < |page| && page[j] == k;
      } else {
        assert t[k].ts <= t[page[|page| - 1]].ts;
      }
    }
    forall k | k in page ensures k in m && t[k].ts >= last {
      assert k in SetOf(page);
      var j :| 0 <= j < |page| && page[j] == k;
    }
  }

  lemma {:induction false} CutPage(t: Table, m: set<Key>, page: seq<Key>, n: nat, last: nat)
    requires IsPage(t, m, |page|, page) && 0 < n < |page| && last == t[page[|page| - 1]].ts
    requires t[page[n - 1]].ts > last && forall j :: n <= j <= |page| - 2 ==> t[page[j]].ts <= last
    ensures SetOf(page[..n]) == NoOlderThan(t, m, t[page[n - 1]].ts)
  {
    var low := t[page[n - 1]].ts;
    forall k | k in m && t[k].ts >= low ensures k in page[..n] {
      assert k in page;
      var j :| 0 <= j < |page| && page[j] == k;
      assert page[..n][j] == k;
    }
    forall k | k in page[..n] ensures k in m && t[k].ts >= low {
      assert k in SetOf(page);
      var j :| 0 <= j < n && page[j] == k;
    }
  }

  /** A batch is newest first and starts with the newest row to do. */
  lemma {:induction false} BatchFacts(t: Table, m: set<Key>, count: nat, page: seq<Key>)
    requires Consistent(t) && IsPage(t, m, count + 1, page) && page != []
    ensures var b := Cut(t, page, count); var oldest := t[b[|b| - 1]].ts;
      && Distinct(b) && SetOf(b) <= NoOlderThan(t, m, oldest)
      && (forall k :: k in b ==> k in t) && NewestFirst(t, b)
      && oldest <= t[b[0]].ts && b[0] in m
    ensures forall k :: k in m ==> t[k].ts <= t[page[0]].ts
  {
    var b := Cut(t, page, count);
    BatchIsSlice(t, m, count, page);
    assert forall i :: 0 <= i < |b| ==> b[i] == page[i];
    assert b[0] in SetOf(b);
    forall k | k in m ensures t[k].ts <= t[page[0]].ts {
      if k in page {
        var j :| 0 <= j < |page| && page[j] == k;
      }
    }
  }

  /** After the completion callback, exactly the rows below the cursor are still to do. */
  lemma {:induction false} DeleteFacts(
      t: Table, chat: string, end: Option<int>, newest: nat, oldest: nat, next: Option<Anchor>, first: Key)
    requires var m := Matching(t, chat, None, end);
      first in m && t[first].ts == newest && oldest <= newest && forall k :: k in m ==> t[k].ts <= newest
    requires next.Some? ==> oldest <= next.value.ts
    ensures var m := Matching(t, chat, None, end); var u := AfterDelete(t, chat, newest, oldest, true);
      && Todo(u, chat, next, Some(oldest)) == m - NoOlderThan(t, m, oldest)
      && (forall k :: k in u ==> k in t && u[k] == t[k])
      && (forall k :: k in t && k.chat != chat ==> k in u)
      && |u| < |t|
  {
    var u := AfterDelete(t, chat, newest, oldest, true);
    assert first !in u;
    assert u.Keys <= t.Keys - {first};
    SubsetCard(u.Keys, t.Keys - {first});
  }

  /** The delete of a round takes the slice the batch was drawn from, and nothing else. */
  lemma {:induction false} DeleteIsSlice(t: Table, chat: string, end: Option<int>, newest: nat, oldest: nat)
    requires var m := Matching(t, chat, None, end);
      newest > 0 && (forall k :: k in m ==> t[k].ts <= newest) && (exists k :: k in m && t[k].ts == newest)
    ensures var m := Matching(t, chat, None, end);
      AfterDelete(t, chat, newest, oldest, true).Keys == t.Keys - NoOlderThan(t, m, oldest)
  {
    var m := Matching(t, chat, None, end);
    var first :| first in m && t[first].ts == newest;
    forall k | k in t && k.chat == chat && oldest <= t[k].ts <= newest ensures k in NoOlderThan(t, m, oldest) {
      assert end.Some? ==> t[first].ts < end.value;
    }
  }

  lemma {:induction false} RoundRest(
      t: Table, chat: string, count: nat, more: bool, cursor: Option<int>, r: Round, next: Option<Anchor>)
    requires Consistent(t) && IsPage(t, Todo(t, chat, r.anchor, cursor), count + 1, r.page)
    requires RoundOutcome(t, chat, count, more, cursor, r).Batch?
    requires next.Some? ==> RoundOutcome(t, chat, count, more, cursor, r).cursor <= next.value.ts
    ensures var o := RoundOutcome(t, chat, count, more, cursor, r);
      var m := Todo(t, chat, r.anchor, cursor); var u := AfterDelete(t, chat, o.newest, o.cursor, true);
      && Todo(u, chat, next, Some(o.cursor)) == m - NoOlderThan(t, m, o.cursor)
      && (forall k :: k in u ==> k in t && u[k] == t[k])
      && (forall k :: k in t && k.chat != chat ==> k in u)
      && |u| < |t|
  {
    var o := RoundOutcome(t, chat, count, more, cursor, r);
    BatchFacts(t, Todo(t, chat, r.anchor, cursor), count, r.page);
    DeleteFacts(t, chat, EndTime(Query(chat, 0, r.anchor, cursor, false)), o.newest, o.cursor, next, o.rows[0]);
  }

  lemma {:induction false} RoundDeletes(
      t: Table, chat: string, count: nat, more: bool, cursor: Option<int>, r: Round)
    requires Consistent(t) && IsPage(t, Todo(t, chat, r.anchor, cursor), count + 1, r.page)
    requires RoundOutcome(t, chat, count, more, cursor, r).Batch?
    ensures var o := RoundOutcome(t, chat, count, more, cursor, r);
      var m := Todo(t, chat, r.anchor, cursor); var u := AfterDelete(t, chat, o.newest, o.cursor, true);
      && (o.newest > 0 ==> u.Keys == t.Keys - NoOlderThan(t, m, o.cursor))
      && (o.newest > 0 && |o.rows| <= count ==> u.Keys == t.Keys - SetOf(o.rows))
      && (o.newest == 0 ==> u == WithoutChat(t, chat))
  {
    hide CutFrom, NoOlderThan, Distinct, NewestFirst, Matching, AtTime;
    var o := RoundOutcome(t, chat, count, more, cursor, r);
    var m := Todo(t, chat, r.anchor, cursor);
    BatchFacts(t, m, count, r.page);
    BatchIsSlice(t, m, count, r.page);
    if o.newest > 0 {
      DeleteIsSlice(t, chat, EndTime(Query(chat, 0, r.anchor, cursor, false)), o.newest, o.cursor);
    }
  }

  /** One delivering round, seen from the table: its delete takes exactly the rows in range from the
      cursor up, which are the delivered rows unless a single second overfilled the page; what is
      below the cursor is still to do. Only for second zero does it take the whole chat. */
  lemma {:induction false} RoundFacts(
      t: Table, chat: string, count: nat, more: bool, cursor: Option<int>, r: Round, next: Option<Anchor>)
    requires Consistent(t) && IsPage(t, Todo(t, chat, r.anchor, cursor), count + 1, r.page)
    requires RoundOutcome(t, chat, count, more, cursor, r).Batch?
    requires next.Some? ==> RoundOutcome(t, chat, count, more, cursor, r).cursor <= next.value.ts
    ensures var o := RoundOutcome(t, chat, count, more, cursor, r);
      var m := Todo(t, chat, r.anchor, cursor); var u := AfterDelete(t, chat, o.newest, o.cursor, true);
      && Todo(u, chat, next, Some(o.cursor)) == m - NoOlderThan(t, m, o.cursor)
      && (forall k :: k in u ==> k in t && u[k] == t[k])
      && (forall k :: k in t && k.chat != chat ==> k in u)
      && |u| < |t|
      && (o.newest > 0 ==> u.Keys == t.Keys - NoOlderThan(t, m, o.cursor))
      && (o.newest > 0 && |o.rows| <= count ==> u.Keys == t.Keys - SetOf(o.rows))
      && (o.newest == 0 ==> u == WithoutChat(t, chat))
  {
    hide RoundOutcome, AfterDelete, NoOlderThan, Todo, IsPage, Consistent;
    RoundRest(t, chat, count, more, cursor, r, next);
    RoundDeletes(t, chat, count, more, cursor, r);
  }

  // ----- A run as a sweep over a fixed set of rows -----

  function Oldest(t: Table, b: seq<Key>): nat
    requires b != [] && forall k :: k in b ==> k in t
  {
    t[b[|b| - 1]].ts
  }

  /** A duplicate-free, newest-first list of rows of `m`. */
  ghost predicate InOrder(t: Table, m: set<Key>, ds: seq<Key>) {
    && m <= t.Keys && Distinct(ds) && SetOf(ds) <= m
    && (forall k :: k in ds ==> k in t) && NewestFirst(t, ds)
  }

  /** A batch takes every row from its oldest timestamp up, except that a full page of a single
      timestamp may leave rows of that timestamp behind. */
  ghost predicate TakesSlice(t: Table, m: set<Key>, count: nat, b: seq<Key>) {
    && b != [] && InOrder(t, m, b)
    && var slice := NoOlderThan(t, m, Oldest(t, b));
    && SetOf(b) <= slice
    && (|b| <= count ==> SetOf(b) == slice)
    && (|b| > count ==> |b| == count + 1 && slice == AtTime(t, m, Oldest(t, b)))
  }

  /** The row carries the anchor's message ID. An anchor without one matches nothing. */
  predicate Anchors(anchor: Option<Anchor>, k: Key) {
    anchor.Some? && anchor.value.id != "" && k.id == anchor.value.id
  }

  /** `batches` work through `m` from the newest second down, each against what the ones before it
      deleted; what remains at the end is at most one row, with the last anchor's ID. */
  ghost predicate Sweep(t: Table, m: set<Key>, count: nat, batches: seq<seq<Key>>, anchor: Option<Anchor>)
    decreases |batches|
  {
    if batches == [] then
      |m| <= 1 && forall k :: k in m ==> Anchors(anchor, k)
    else
      && TakesSlice(t, m, count, batches[0])
      && Sweep(t, m - NoOlderThan(t, m, Oldest(t, batches[0])), count, batches[1..], anchor)
  }

  /** A sweep only looks at the timestamps of its own rows. */
  lemma {:induction false} SweepFrame(
      t: Table, u: Table, m: set<Key>, count: nat, batches: seq<seq<Key>>, anchor: Option<Anchor>)
    requires Sweep(u, m, count, batches, anchor) && m <= u.Keys
    requires forall k :: k in u ==> k in t && u[k] == t[k]
    ensures Sweep(t, m, count, batches, anchor)
    decreases |batches|
  {
    if batches != [] {
      var b := batches[0];
      assert NoOlderThan(t, m, Oldest(t, b)) == NoOlderThan(u, m, Oldest(u, b));
      assert AtTime(t, m, Oldest(t, b)) == AtTime(u, m, Oldest(u, b));
      SweepFrame(t, u, m - NoOlderThan(u, m, Oldest(u, b)), count, batches[1..], anchor);
    }
  }

  lemma {:induction false} PageTakesSlice(t: Table, m: set<Key>, count: nat, page: seq<Key>)
    requires Consistent(t) && IsPage(t, m, count + 1, page) && page != []
    ensures TakesSlice(t, m, count, Cut(t, page, count))
    ensures |page| <= count ==> m == NoOlderThan(t, m, Oldest(t, Cut(t, page, count)))
  {
    BatchIsSlice(t, m, count, page);
    BatchFacts(t, m, count, page);
  }

  lemma {:induction false} LastRowIsAll(t: Table, m: set<Key>, count: nat, page: seq<Key>)
    requires IsPage(t, m, count + 1, page) && |page| <= 1 && count > 0
    ensures SetOf(page) == m
  {
    DistinctCard(page);
    SubsetCard(SetOf(page), m);
  }

  lemma {:induction false} SweepCons(
      t: Table, u: Table, m: set<Key>, count: nat, b: seq<Key>, ds: seq<seq<Key>>, anchor: Option<Anchor>)
    requires TakesSlice(t, m, count, b)
    requires forall k :: k in u ==> k in t && u[k] == t[k]
    requires var rest := m - NoOlderThan(t, m, Oldest(t, b)); rest <= u.Keys && Sweep(u, rest, count, ds, anchor)
    ensures Sweep(t, m, count, [b] + ds, anchor)
  {
    SweepFrame(t, u, m - NoOlderThan(t, m, Oldest(t, b)), count, ds, anchor);
    assert ([b] + ds)[1..] == ds;
  }

  /** A fetch that delivers nothing leaves at most the row it was anchored at. */
  lemma {:induction false} SweepEnds(t: Table, m: set<Key>, count: nat, page: seq<Key>, anchor: Option<Anchor>)
    requires IsPage(t, m, count + 1, page) && |page| <= 1 && count > 0
    requires page != [] ==> Anchors(anchor, page[0])
    ensures Sweep(t, m, count, [], anchor)
    ensures page != [] ==> HeldBack(t, m, [], anchor)
  {
    LastRowIsAll(t, m, count, page);
    DistinctCard(page);
    assert forall k :: k in m ==> k in SetOf(page);
    if page != [] {
      assert page == [page[0]];
      assert page[0] in SetOf(page) && page[0] !in Flatten<Key>([]);
    }
  }

  /** The last round of a run. */
  lemma {:induction false} LastRound(t: Table, chat: string, count: nat, more: bool, cursor: Option<int>, r: Round)
    requires Consistent(t) && count > 0 && Run(t, chat, count, more, cursor, [r])
    ensures Sweep(t, Todo(t, chat, r.anchor, cursor), count, Delivered(t, chat, count, more, cursor, [r]), r.anchor)
  {
    hide CutFrom, AfterDelete, NoOlderThan, Todo, TakesSlice, Sweep, Distinct, NewestFirst, HeldBack;
    var m := Todo(t, chat, r.anchor, cursor);
    var o := RoundOutcome(t, chat, count, more, cursor, r);
    if o.Exhausted? {
      SweepEnds(t, m, count, r.page, r.anchor);
    } else {
      PageTakesSlice(t, m, count, r.page);
      SweepOne(t, m, count, o.rows, r.anchor);
    }
  }

  lemma {:induction false} SweepOne(t: Table, m: set<Key>, count: nat, b: seq<Key>, anchor: Option<Anchor>)
    requires TakesSlice(t, m, count, b) && m == NoOlderThan(t, m, Oldest(t, b))
    ensures Sweep(t, m, count, [b], anchor)
  {
    assert m - NoOlderThan(t, m, Oldest(t, b)) == {};
    assert [b][1..] == [];
  }

  /** The state in which the second round of a run starts. */
  lemma {:induction false} NextRound(
      t: Table, chat: string, count: nat, more: bool, cursor: Option<int>, rounds: seq<Round>)
    requires Consistent(t) && Run(t, chat, count, more, cursor, rounds) && |rounds| > 1
    ensures var o := RoundOutcome(t, chat, count, more, cursor, rounds[0]);
      && o.Batch? && o.hasMore && rounds[0].page != []
      && o.rows == Cut(t, rounds[0].page, count) && o.cursor == Oldest(t, o.rows)
      && IsPage(t, Todo(t, chat, rounds[0].anchor, cursor), count + 1, rounds[0].page)
      && var u := AfterDelete(t, chat, o.newest, o.cursor, true);
      && Run(u, chat, count, more, Some(o.cursor), rounds[1..])
      && (rounds[1].anchor.Some? ==> o.cursor <= rounds[1].anchor.value.ts)
      && Delivered(t, chat, count, more, cursor, rounds)
         == [o.rows] + Delivered(u, chat, count, more, Some(o.cursor), rounds[1..])
  {
    hide CutFrom, Cut, AfterDelete, Todo;
    assert rounds[1..][0] == rounds[1];
  }

  lemma {:induction false} RunStarts(
      t: Table, chat: string, count: nat, more: bool, cursor: Option<int>, rounds: seq<Round>)
    requires Run(t, chat, count, more, cursor, rounds)
    ensures rounds != [] && forall k :: k in rounds[0].page ==> k in t
  {
  }

  lemma {:induction false} ConsistentPart(t: Table, u: Table)
    requires Consistent(t) && forall k :: k in u ==> k in t && u[k] == t[k]
    ensures Consistent(u)
  {
  }

  lemma {:induction false} TodoStored(t: Table, chat: string, anchor: Option<Anchor>, cursor: Option<int>)
    ensures Todo(t, chat, anchor, cursor) <= t.Keys
  {
  }

  /** Every run is a sweep over the rows in range when it starts, and it ends: each round but the
      last leaves fewer rows in the table. */
  lemma {:induction false} RunIsSweep(
      t: Table, chat: string, count: nat, more: bool, cursor: Option<int>, rounds: seq<Round>)
    requires Consistent(t) && count > 0 && Run(t, chat, count, more, cursor, rounds)
    ensures Sweep(t, Todo(t, chat, rounds[0].anchor, cursor), count,
                  Delivered(t, chat, count, more, cursor, rounds), rounds[|rounds| - 1].anchor)
    ensures |rounds| <= |t| + 1
    decreases |rounds|
  {
    hide Cut, AfterDelete, NoOlderThan, Todo, TakesSlice, Sweep, RoundOutcome, IsPage, Run, Delivered, Consistent;
    RunStarts(t, chat, count, more, cursor, rounds);
    var r := rounds[0];
    if |rounds| == 1 {
      assert rounds == [r];
      LastRound(t, chat, count, more, cursor, r);
    } else {
      NextRound(t, chat, count, more, cursor, rounds);
      var m := Todo(t, chat, r.anchor, cursor);
      var o := RoundOutcome(t, chat, count, more, cursor, r);
      PageTakesSlice(t, m, count, r.page);
      RoundRest(t, chat, count, more, cursor, r, rounds[1].anchor);
      var u := AfterDelete(t, chat, o.newest, o.cursor, true);
      ConsistentPart(t, u);
      TodoStored(u, chat, rounds[1].anchor, Some(o.cursor));
      RunIsSweep(u, chat, count, more, Some(o.cursor), rounds[1..]);
      SweepCons(t, u, m, count, o.rows, Delivered(u, chat, count, more, Some(o.cursor), rounds[1..]),
                rounds[|rounds| - 1].anchor);
    }
  }

  /** No row is delivered twice, and the run as a whole goes from new to old. */
  lemma {:induction false} SweepInOrder(
      t: Table, m: set<Key>, count: nat, batches: seq<seq<Key>>, anchor: Option<Anchor>)
    requires m <= t.Keys && Sweep(t, m, count, batches, anchor)
    ensures InOrder(t, m, Flatten(batches))
    decreases |batches|
  {
    if batches != [] {
      var slice := NoOlderThan(t, m, Oldest(t, batches[0]));
      SweepInOrder(t, m - slice, count, batches[1..], anchor);
      JoinBatches(t, m, slice, Oldest(t, batches[0]), batches[0], Flatten(batches[1..]));
    }
  }

  lemma {:induction false} JoinBatches(t: Table, m: set<Key>, slice: set<Key>, cursor: nat, b: seq<Key>, rest: seq<Key>)
    requires InOrder(t, m, b) && slice == NoOlderThan(t, m, cursor) && SetOf(b) <= slice
    requires InOrder(t, m - slice, rest)
    ensures InOrder(t, m, b + rest)
  {
    assert forall k :: k in b ==> k in SetOf(b);
    assert forall k :: k in rest ==> k in SetOf(rest);
    var all := b + rest;
    forall i, j | 0 <= i < j < |all| ensures all[i] != all[j] && t[all[i]].ts >= t[all[j]].ts {
      if i < |b| <= j {
        assert all[i] in b && all[j] in rest;
      }
    }
  }

  /** The rows of `m` that are not delivered. */
  function Lost(m: set<Key>, batches: seq<seq<Key>>): set<Key> {
    m - SetOf(Flatten(batches))
  }

  lemma {:induction false} LostStep(m: set<Key>, slice: set<Key>, batches: seq<seq<Key>>)
    requires batches != [] && SetOf(batches[0]) <= slice <= m && SetOf(Flatten(batches[1..])) <= m - slice
    ensures Lost(m, batches) == (slice - SetOf(batches[0])) + Lost(m - slice, batches[1..])
  {
    assert SetOf(Flatten(batches)) == SetOf(batches[0]) + SetOf(Flatten(batches[1..]));
  }

  /** With at most count + 1 rows to a second, only the oldest row can be passed over, if it carries the
      last anchor's own message ID: that message is in the room already. */
  lemma {:induction false} NothingLost(
      t: Table, m: set<Key>, count: nat, batches: seq<seq<Key>>, anchor: Option<Anchor>)
    requires m <= t.Keys && Sweep(t, m, count, batches, anchor)
    requires AtMostPerSecond(t, m, count + 1)
    ensures forall k :: k in Lost(m, batches) ==>
      Anchors(anchor, k) && forall j :: j in m && j != k ==> t[j].ts > t[k].ts
    decreases |batches|
  {
    if batches == [] {
      forall j, k | j in m && k in m ensures j == k {
        SubsetCard({j, k}, m);
      }
    } else {
      var b := batches[0];
      var slice := NoOlderThan(t, m, Oldest(t, b));
      SweepInOrder(t, m - slice, count, batches[1..], anchor);
      LostStep(m, slice, batches);
      assert |AtTime(t, m, Oldest(t, b))| <= count + 1;
      DistinctCard(b);
      SubsetCard(SetOf(b), slice);
      forall ts: nat ensures |AtTime(t, m - slice, ts)| <= count + 1 {
        SubsetCard(AtTime(t, m - slice, ts), AtTime(t, m, ts));
      }
      NothingLost(t, m - slice, count, batches[1..], anchor);
    }
  }

  /** A second holding more than count + 1 rows always loses some of them. */
  lemma {:induction false} CrowdedSecondLoses(
      t: Table, m: set<Key>, count: nat, batches: seq<seq<Key>>, anchor: Option<Anchor>, ts: nat)
    requires m <= t.Keys && Sweep(t, m, count, batches, anchor)
    requires |AtTime(t, m, ts)| > count + 1
    ensures Lost(m, batches) != {}
    decreases |batches|
  {
    var crowd := AtTime(t, m, ts);
    if batches == [] {
      assert crowd <= Lost(m, batches);
    } else {
      var b := batches[0];
      var slice := NoOlderThan(t, m, Oldest(t, b));
      SweepInOrder(t, m - slice, count, batches[1..], anchor);
      LostStep(m, slice, batches);
      if ts < Oldest(t, b) {
        assert AtTime(t, m - slice, ts) == crowd;
        CrowdedSecondLoses(t, m - slice, count, batches[1..], anchor, ts);
      } else {
        DistinctCard(b);
        if crowd <= SetOf(b) {
          SubsetCard(crowd, SetOf(b));
          assert false;
        }
        var k :| k in crowd && k !in SetOf(b);
        assert k in slice;
        assert k in Lost(m, batches);
      }
    }
  }

  // ----- The table a run leaves -----

  /** The table after a run: every delivered batch deleted, and the chat wiped if the last fetch
      found nothing to deliver. */
  ghost function Left(t: Table, chat: string, count: nat, more: bool, cursor: Option<int>, rounds: seq<Round>): Table
    requires Run(t, chat, count, more, cursor, rounds)
    decreases |rounds|
  {
    match RoundOutcome(t, chat, count, more, cursor, rounds[0])
    case Exhausted(_) => WithoutChat(t, chat)
    case Batch(_, newest, oldest, hasMore) =>
      var u := AfterDelete(t, chat, newest, oldest, true);
      if hasMore then Left(u, chat, count, more, Some(oldest), rounds[1..]) else u
  }

  /** Some round of the run deletes everything the chat has: a fetch that finds nothing to deliver, or
      a batch of second zero. */
  ghost predicate Wipes(t: Table, chat: string, count: nat, more: bool, cursor: Option<int>, rounds: seq<Round>)
    requires Run(t, chat, count, more, cursor, rounds)
    decreases |rounds|
  {
    match RoundOutcome(t, chat, count, more, cursor, rounds[0])
    case Exhausted(_) => true
    case Batch(_, newest, oldest, hasMore) =>
      || newest == 0
      || (hasMore && Wipes(AfterDelete(t, chat, newest, oldest, true), chat, count, more, Some(oldest), rounds[1..]))
  }

  function ChatRows(t: Table, chat: string): set<Key> {
    set k | k in t && k.chat == chat
  }

  lemma {:induction false} NextLeft(
      t: Table, chat: string, count: nat, more: bool, cursor: Option<int>, rounds: seq<Round>)
    requires Consistent(t) && Run(t, chat, count, more, cursor, rounds) && |rounds| > 1
    ensures var o := RoundOutcome(t, chat, count, more, cursor, rounds[0]);
      && o.Batch? && o.hasMore && o.newest == t[o.rows[0]].ts && (more || |rounds[0].page| > count)
      && var u := AfterDelete(t, chat, o.newest, o.cursor, true);
      && Run(u, chat, count, more, Some(o.cursor), rounds[1..])
      && Left(t, chat, count, more, cursor, rounds) == Left(u, chat, count, more, Some(o.cursor), rounds[1..])
      && (Wipes(t, chat, count, more, cursor, rounds)
          <==> o.newest == 0 || Wipes(u, chat, count, more, Some(o.cursor), rounds[1..]))
  {
    hide CutFrom, AfterDelete, Todo;
  }

  lemma {:induction false} OutcomeFacts(
      t: Table, chat: string, count: nat, more: bool, cursor: Option<int>, r: Round)
    requires Consistent(t) && forall k :: k in r.page ==> k in t
    ensures var o := RoundOutcome(t, chat, count, more, cursor, r);
      && (o.Batch? ==> r.page != [] && o.rows == Cut(t, r.page, count) && o.newest == t[o.rows[0]].ts)
      && (o.Batch? ==> (o.hasMore <==> more || |r.page| > count))
      && (o.Exhausted? ==> |r.page| <= 1 && (r.page != [] ==> Anchors(r.anchor, r.page[0])))
  {
    hide CutFrom;
  }

  /** The last round wipes the chat, or its batch was all there was. */
  lemma {:induction false} LastLeft(t: Table, chat: string, count: nat, more: bool, cursor: Option<int>, r: Round)
    requires Consistent(t) && count > 0 && Run(t, chat, count, more, cursor, [r])
    ensures var o := RoundOutcome(t, chat, count, more, cursor, r); var m := Todo(t, chat, r.anchor, cursor);
      && IsPage(t, m, count + 1, r.page)
      && (Wipes(t, chat, count, more, cursor, [r]) <==> o.Exhausted? || o.newest == 0)
      && (o.Batch? ==> r.page != [] && o.rows == Cut(t, r.page, count) && o.newest == t[o.rows[0]].ts)
      && (o.Batch? ==> !more && |r.page| <= count)
      && (o.Exhausted? ==> |r.page| <= 1 && (r.page != [] ==> Anchors(r.anchor, r.page[0])))
      && Left(t, chat, count, more, cursor, [r])
         == if o.Exhausted? then WithoutChat(t, chat) else AfterDelete(t, chat, o.newest, o.cursor, true)
  {
    hide AfterDelete, Todo, WithoutChat, Distinct, NewestFirst, Consistent, RoundOutcome, Cut;
    OutcomeFacts(t, chat, count, more, cursor, r);
  }

  /** What a table is missing after one round and after the rest of the run. */
  lemma {:induction false} LeavesOnward(t: Table, u: Table, left: Table, chat: string, m: set<Key>, slice: set<Key>,
                                        zero: bool, wipes: bool)
    requires slice <= m <= ChatRows(t, chat)
    requires forall k :: k in u ==> k in t && u[k] == t[k]
    requires forall k :: k in left ==> k in u && left[k] == u[k]
    requires u.Keys == t.Keys - if zero then ChatRows(t, chat) else slice
    requires left.Keys == u.Keys - if wipes then ChatRows(u, chat) else m - slice
    ensures forall k :: k in left ==> k in t && left[k] == t[k]
    ensures left.Keys == t.Keys - if zero || wipes then ChatRows(t, chat) else m
  {
  }

  /** A run leaves everything but the rows in range, or everything but the chat. */
  lemma {:induction false} RunLeaves(
      t: Table, chat: string, count: nat, more: bool, cursor: Option<int>, rounds: seq<Round>)
    requires Consistent(t) && count > 0 && Run(t, chat, count, more, cursor, rounds)
    ensures var left := Left(t, chat, count, more, cursor, rounds);
      && (forall k :: k in left ==> k in t && left[k] == t[k])
      && left.Keys == t.Keys - if Wipes(t, chat, count, more, cursor, rounds) then ChatRows(t, chat)
                               else Todo(t, chat, rounds[0].anchor, cursor)
    decreases |rounds|
  {
    hide Cut, NoOlderThan, AfterDelete, Left, Wipes, RoundOutcome, Todo, ChatRows, TakesSlice, Distinct, NewestFirst;
    var r := rounds[0];
    var o := RoundOutcome(t, chat, count, more, cursor, r);
    var m := Todo(t, chat, r.anchor, cursor);
    TodoInChat(t, chat, r.anchor, cursor);
    WithoutChatRows(t, chat);
    if |rounds| == 1 {
      assert rounds == [r];
      LastLeft(t, chat, count, more, cursor, r);
      if o.Batch? {
        PageTakesSlice(t, m, count, r.page);
        RoundFacts(t, chat, count, more, cursor, r, None);
      }
    } else {
      NextRound(t, chat, count, more, cursor, rounds);
      NextLeft(t, chat, count, more, cursor, rounds);
      RoundFacts(t, chat, count, more, cursor, r, rounds[1].anchor);
      var u := AfterDelete(t, chat, o.newest, o.cursor, true);
      RunLeaves(u, chat, count, more, Some(o.cursor), rounds[1..]);
      SliceWithin(t, m, o.cursor);
      LeavesOnward(t, u, Left(t, chat, count, more, cursor, rounds), chat, m, NoOlderThan(t, m, o.cursor),
                   o.newest == 0, Wipes(u, chat, count, more, Some(o.cursor), rounds[1..]));
    }
  }

  lemma {:induction false} WithoutChatRows(t: Table, chat: string)
    ensures WithoutChat(t, chat).Keys == t.Keys - ChatRows(t, chat)
    ensures forall k :: k in WithoutChat(t, chat) ==> k in t && WithoutChat(t, chat)[k] == t[k]
  {
  }

  lemma {:induction false} SliceWithin(t: Table, m: set<Key>, ts: nat)
    requires m <= t.Keys
    ensures NoOlderThan(t, m, ts) <= m
  {
  }

  /** The oldest row in range was left undelivered because it carries the last anchor's ID. */
  ghost predicate HeldBack(t: Table, m: set<Key>, batches: seq<seq<Key>>, anchor: Option<Anchor>)
    requires m <= t.Keys
  {
    exists k :: k in m && k !in Flatten(batches) && Anchors(anchor, k)
             && forall j :: j in m && j != k ==> t[j].ts > t[k].ts
  }

  /** Exact condition: a run delivers every row in range if and only if no second holds more than
      count + 1 of them and the oldest is not held back; each at most once and newest first. */
  lemma {:induction false} RangeDeliveredIff(
      t: Table, chat: string, count: nat, more: bool, cursor: Option<int>, rounds: seq<Round>)
    requires Consistent(t) && count > 0 && Run(t, chat, count, more, cursor, rounds)
    ensures var m := Todo(t, chat, rounds[0].anchor, cursor); var ds := Delivered(t, chat, count, more, cursor, rounds);
      && m <= t.Keys && InOrder(t, m, Flatten(ds))
      && (SetOf(Flatten(ds)) == m
          <==> AtMostPerSecond(t, m, count + 1) && !HeldBack(t, m, ds, rounds[|rounds| - 1].anchor))
  {
    hide Sweep, Delivered, Todo, Distinct, NewestFirst, RoundOutcome, AtTime;
    var m := Todo(t, chat, rounds[0].anchor, cursor);
    var last := rounds[|rounds| - 1].anchor;
    RunIsSweep(t, chat, count, more, cursor, rounds);
    var ds := Delivered(t, chat, count, more, cursor, rounds);
    TodoInChat(t, chat, rounds[0].anchor, cursor);
    SweepInOrder(t, m, count, ds, last);
    assert forall k :: k in Flatten(ds) <==> k in SetOf(Flatten(ds));
    if AtMostPerSecond(t, m, count + 1) {
      NothingLost(t, m, count, ds, last);
      if SetOf(Flatten(ds)) != m {
        var k :| k in m && k !in SetOf(Flatten(ds));
        assert k in Lost(m, ds);
      }
    } else {
      var ts: nat :| |AtTime(t, m, ts)| > count + 1;
      CrowdedSecondLoses(t, m, count, ds, last, ts);
    }
  }

  /** The message IDs of the anchors, all of them messages in the room already. */
  function AnchorIds(rounds: seq<Round>): set<string> {
    set r | r in rounds && r.anchor.Some? :: r.anchor.value.id
  }

  /** Every row the run took from the table was delivered, or carries the ID of a message that is in the
      room already. */
  ghost predicate Lossless(t: Table, left: Table, batches: seq<seq<Key>>, inRoom: set<string>) {
    forall k :: k in t && k !in left ==> k in Flatten(batches) || k.id in inRoom
  }

  /** Every row of the chat outside the range `m` carries such an ID. */
  ghost predicate OnlyKnownOutside(t: Table, chat: string, m: set<Key>, inRoom: set<string>) {
    forall k :: k in ChatRows(t, chat) && k !in m ==> k.id in inRoom
  }

  /** Every row in range with an anchor's ID was delivered, as it is when the anchor is a delivered row. */
  ghost predicate AnchorsDelivered(m: set<Key>, batches: seq<seq<Key>>, inRoom: set<string>) {
    forall k :: k in m && k.id in inRoom ==> k in Flatten(batches)
  }

  /** Exact condition over the whole chat. A run loses nothing if no second in range holds more than
      count + 1 rows and, in case it ends by wiping the chat, nothing but anchors lies outside the range;
      and only then, if every row in range with an anchor's ID was delivered. */
  lemma {:induction false} LosslessIff(
      t: Table, chat: string, count: nat, more: bool, cursor: Option<int>, rounds: seq<Round>)
    requires Consistent(t) && count > 0 && Run(t, chat, count, more, cursor, rounds)
    ensures var m := Todo(t, chat, rounds[0].anchor, cursor); var inRoom := AnchorIds(rounds);
      var ds := Delivered(t, chat, count, more, cursor, rounds);
      var lossless := Lossless(t, Left(t, chat, count, more, cursor, rounds), ds, inRoom);
      var wipeOk := Wipes(t, chat, count, more, cursor, rounds) ==> OnlyKnownOutside(t, chat, m, inRoom);
      && (AtMostPerSecond(t, m, count + 1) && wipeOk ==> lossless)
      && (lossless ==> wipeOk)
      && (AnchorsDelivered(m, ds, inRoom) ==> (lossless <==> AtMostPerSecond(t, m, count + 1) && wipeOk))
  {
    hide Sweep, Delivered, Left, Wipes, Todo, Distinct, NewestFirst, RoundOutcome, AtTime;
    var m := Todo(t, chat, rounds[0].anchor, cursor);
    var last := rounds[|rounds| - 1].anchor;
    RunIsSweep(t, chat, count, more, cursor, rounds);
    var ds := Delivered(t, chat, count, more, cursor, rounds);
    TodoInChat(t, chat, rounds[0].anchor, cursor);
    SweepInOrder(t, m, count, ds, last);
    RunLeaves(t, chat, count, more, cursor, rounds);
    assert forall k :: k in Flatten(ds) <==> k in SetOf(Flatten(ds));
    assert last.Some? ==> rounds[|rounds| - 1] in rounds && last.value.id in AnchorIds(rounds);
    if AtMostPerSecond(t, m, count + 1) {
      NothingLost(t, m, count, ds, last);
      assert forall k :: k in m && k !in Flatten(ds) ==> k in Lost(m, ds);
    } else {
      var ts: nat :| |AtTime(t, m, ts)| > count + 1;
      CrowdedSecondLoses(t, m, count, ds, last, ts);
      var k :| k in Lost(m, ds);
      assert k in t && k !in Left(t, chat, count, more, cursor, rounds);
    }
  }

  lemma {:induction false} TodoInChat(t: Table, chat: string, anchor: Option<Anchor>, cursor: Option<int>)
    ensures Todo(t, chat, anchor, cursor) <= ChatRows(t, chat) <= t.Keys
  {
  }

  // ----- Without a backfill queue -----

  lemma {:induction false} QueueOffTakesChat(t: Table, chat: string, newest: nat, oldest: nat)
    ensures var u := AfterDelete(t, chat, newest, oldest, false);
      && u.Keys == t.Keys - ChatRows(t, chat) && forall k :: k in u ==> u[k] == t[k]
  {
  }

  /** The page's cut is all of the range exactly when the page was not full, or held a single second that
      filled it to the row. */
  lemma {:induction false} BatchIsAllIff(t: Table, m: set<Key>, count: nat, page: seq<Key>)
    requires Consistent(t) && IsPage(t, m, count + 1, page) && page != []
    ensures SetOf(Cut(t, page, count)) == m <==>
      |m| <= count || (|m| == count + 1 && forall j, k :: j in m && k in m ==> t[j].ts == t[k].ts)
  {
    hide Cut, Distinct, NewestFirst, NoOlderThan, AtTime;
    var b := Cut(t, page, count);
    PageTakesSlice(t, m, count, page);
    PageHolds(t, m, count, page);
    if |page| > count { SliceIsAll(t, m, count, b); }
    else { AllTaken(t, m, count, page); }
  }

  lemma {:induction false} AllTaken(t: Table, m: set<Key>, count: nat, page: seq<Key>)
    requires Consistent(t) && IsPage(t, m, count + 1, page) && 0 < |page| <= count
    ensures SetOf(Cut(t, page, count)) == m
  {
    hide CutFrom, Distinct, NewestFirst, NoOlderThan, AtTime;
    BatchIsSlice(t, m, count, page);
  }

  lemma {:induction false} SliceIsAll(t: Table, m: set<Key>, count: nat, b: seq<Key>)
    requires TakesSlice(t, m, count, b) && |m| > count
    ensures SetOf(b) == m <==> |m| == count + 1 && forall j, k :: j in m && k in m ==> t[j].ts == t[k].ts
  {
    hide Distinct, NewestFirst;
    DistinctCard(b);
    assert b[|b| - 1] in SetOf(b);
    if |m| == count + 1 && forall j, k :: j in m && k in m ==> t[j].ts == t[k].ts {
      assert NoOlderThan(t, m, Oldest(t, b)) == m;
      SubsetCard(SetOf(b), m);
    }
  }

  /** Without a backfill queue the first completed batch deletes the whole chat: nothing is lost if and
      only if the chat has nothing outside the range, and the range fits a batch. */
  lemma {:induction false} QueueOffLosslessIff(
      t: Table, chat: string, count: nat, more: bool, cursor: Option<int>, r: Round)
    requires Consistent(t) && IsPage(t, Todo(t, chat, r.anchor, cursor), count + 1, r.page)
    requires RoundOutcome(t, chat, count, more, cursor, r).Batch?
    ensures var o := RoundOutcome(t, chat, count, more, cursor, r); var m := Todo(t, chat, r.anchor, cursor);
      var u := AfterDelete(t, chat, o.newest, o.cursor, false);
      && m <= t.Keys
      && ((forall k :: k in t && k !in u ==> k in o.rows) <==>
            && ChatRows(t, chat) == m
            && (|m| <= count || (|m| == count + 1 && forall j, k :: j in m && k in m ==> t[j].ts == t[k].ts)))
  {
    hide Cut, AfterDelete, Distinct, NewestFirst, RoundOutcome, Todo, ChatRows;
    var o := RoundOutcome(t, chat, count, more, cursor, r);
    var m := Todo(t, chat, r.anchor, cursor);
    TodoInChat(t, chat, r.anchor, cursor);
    OutcomeFacts(t, chat, count, more, cursor, r);
    QueueOffTakesChat(t, chat, o.newest, o.cursor);
    BatchIsAllIff(t, m, count, r.page);
    BatchFacts(t, m, count, r.page);
    SliceWithin(t, m, Oldest(t, o.rows));
    assert forall k :: k in o.rows <==> k in SetOf(o.rows);
  }

  // ----- When a run ends by wiping the chat -----

  /** The oldest second of `m` alone overfills a batch, or there is nothing to deliver at all. */
  ghost predicate EndsFull(t: Table, m: set<Key>, count: nat)
    requires m <= t.Keys
  {
    m == {} || exists ts: nat :: |AtTime(t, m, ts)| > count && forall k :: k in m ==> t[k].ts >= ts
  }

  /** Taking a slice off the top does not change how a range ends. */
  lemma {:induction false} EndsFullBelow(t: Table, u: Table, m: set<Key>, count: nat, cursor: nat)
    requires m <= t.Keys && var rest := m - NoOlderThan(t, m, cursor);
      rest <= u.Keys && rest != {} && forall k :: k in rest ==> u[k] == t[k]
    ensures EndsFull(t, m, count) <==> EndsFull(u, m - NoOlderThan(t, m, cursor), count)
  {
    var rest := m - NoOlderThan(t, m, cursor);
    var low :| low in rest;
    if EndsFull(t, m, count) {
      var ts: nat :| |AtTime(t, m, ts)| > count && forall k :: k in m ==> t[k].ts >= ts;
      assert ts <= t[low].ts < cursor;
      assert AtTime(u, rest, ts) == AtTime(t, m, ts);
    }
    if EndsFull(u, rest, count) {
      var ts: nat :| |AtTime(u, rest, ts)| > count && forall k :: k in rest ==> u[k].ts >= ts;
      assert ts <= u[low].ts < cursor;
      assert AtTime(t, m, ts) == AtTime(u, rest, ts);
    }
  }

  /** A full page that leaves nothing below it was a single second. */
  lemma {:induction false} LastSlice(t: Table, m: set<Key>, count: nat, b: seq<Key>)
    requires TakesSlice(t, m, count, b) && |m| > count && m == NoOlderThan(t, m, Oldest(t, b))
    ensures EndsFull(t, m, count)
  {
    DistinctCard(b);
    assert m == AtTime(t, m, Oldest(t, b));
  }

  lemma {:induction false} SmallNotFull(t: Table, m: set<Key>, count: nat)
    requires m <= t.Keys && 0 < |m| <= count
    ensures !EndsFull(t, m, count)
  {
    forall ts: nat ensures |AtTime(t, m, ts)| <= count {
      SubsetCard(AtTime(t, m, ts), m);
    }
  }

  /** Exact condition: with positive timestamps a run wipes the chat if and only if more is to be had
      from the phone, nothing is in range, the oldest second in range holds more than count rows, or the
      oldest row is held back. */
  lemma {:induction false} WipesIff(
      t: Table, chat: string, count: nat, more: bool, cursor: Option<int>, rounds: seq<Round>)
    requires Consistent(t) && count > 0 && Run(t, chat, count, more, cursor, rounds)
    requires forall k :: k in Todo(t, chat, rounds[0].anchor, cursor) ==> t[k].ts > 0
    ensures var m := Todo(t, chat, rounds[0].anchor, cursor);
      && m <= t.Keys
      && (Wipes(t, chat, count, more, cursor, rounds)
          <==> || more || EndsFull(t, m, count)
               || HeldBack(t, m, Delivered(t, chat, count, more, cursor, rounds), rounds[|rounds| - 1].anchor))
    decreases |rounds|
  {
    hide Cut, NoOlderThan, AfterDelete, Left, Wipes, RoundOutcome, Todo, EndsFull, Distinct, NewestFirst, HeldBack,
         Delivered;
    var r := rounds[0];
    TodoInChat(t, chat, r.anchor, cursor);
    if |rounds| == 1 {
      assert rounds == [r];
      WipesLast(t, chat, count, more, cursor, r);
    } else {
      var o := RoundOutcome(t, chat, count, more, cursor, r);
      NextLeft(t, chat, count, more, cursor, rounds);
      FullOnward(t, chat, count, more, cursor, rounds);
      HeldOnward(t, chat, count, more, cursor, rounds);
      WipesIff(AfterDelete(t, chat, o.newest, o.cursor, true), chat, count, more, Some(o.cursor), rounds[1..]);
    }
  }

  lemma {:induction false} WipesLast(t: Table, chat: string, count: nat, more: bool, cursor: Option<int>, r: Round)
    requires Consistent(t) && count > 0 && Run(t, chat, count, more, cursor, [r])
    requires forall k :: k in Todo(t, chat, r.anchor, cursor) ==> t[k].ts > 0
    ensures var m := Todo(t, chat, r.anchor, cursor);
      && m <= t.Keys
      && (Wipes(t, chat, count, more, cursor, [r])
          <==> more || EndsFull(t, m, count) || HeldBack(t, m, Delivered(t, chat, count, more, cursor, [r]), r.anchor))
  {
    hide Cut, NoOlderThan, AfterDelete, Left, Wipes, RoundOutcome, Todo, EndsFull, Distinct, NewestFirst, HeldBack,
         Sweep, AtTime;
    var o := RoundOutcome(t, chat, count, more, cursor, r);
    var m := Todo(t, chat, r.anchor, cursor);
    TodoInChat(t, chat, r.anchor, cursor);
    LastLeft(t, chat, count, more, cursor, r);
    PageHolds(t, m, count, r.page);
    if o.Batch? {
      BatchFacts(t, m, count, r.page);
      SmallNotFull(t, m, count);
      NoneHeld(t, m, count, r.page, r.anchor);
    } else {
      NothingIsFull(t, count);
      SweepEnds(t, m, count, r.page, r.anchor);
    }
  }

  lemma {:induction false} NoneHeld(t: Table, m: set<Key>, count: nat, page: seq<Key>, anchor: Option<Anchor>)
    requires Consistent(t) && IsPage(t, m, count + 1, page) && 0 < |page| <= count
    ensures !HeldBack(t, m, [Cut(t, page, count)], anchor)
  {
    hide Distinct, NewestFirst, NoOlderThan, AtTime;
    var b := Cut(t, page, count);
    BatchIsSlice(t, m, count, page);
    assert [b][1..] == [];
    assert Flatten([b]) == b;
    assert forall k :: k in m ==> k in SetOf(b);
  }

  /** Nor whether the oldest row is held back. */
  lemma {:induction false} HeldOnward(
      t: Table, chat: string, count: nat, more: bool, cursor: Option<int>, rounds: seq<Round>)
    requires Consistent(t) && Run(t, chat, count, more, cursor, rounds) && |rounds| > 1
    ensures var o := RoundOutcome(t, chat, count, more, cursor, rounds[0]); var last := rounds[|rounds| - 1].anchor;
      var m := Todo(t, chat, rounds[0].anchor, cursor);
      && o.Batch? && m <= t.Keys
      && var u := AfterDelete(t, chat, o.newest, o.cursor, true);
      var rest := Todo(u, chat, rounds[1].anchor, Some(o.cursor));
      && rest <= u.Keys && Run(u, chat, count, more, Some(o.cursor), rounds[1..])
      && (HeldBack(t, m, Delivered(t, chat, count, more, cursor, rounds), last)
          <==> HeldBack(u, rest, Delivered(u, chat, count, more, Some(o.cursor), rounds[1..]), last))
  {
    hide Cut, NoOlderThan, AfterDelete, RoundOutcome, Todo, Distinct, NewestFirst, TakesSlice, HeldBack, Delivered;
    var r := rounds[0];
    var m := Todo(t, chat, r.anchor, cursor);
    TodoInChat(t, chat, r.anchor, cursor);
    NextRound(t, chat, count, more, cursor, rounds);
    var o := RoundOutcome(t, chat, count, more, cursor, r);
    RoundRest(t, chat, count, more, cursor, r, rounds[1].anchor);
    PageTakesSlice(t, m, count, r.page);
    var u := AfterDelete(t, chat, o.newest, o.cursor, true);
    TodoInChat(u, chat, rounds[1].anchor, Some(o.cursor));
    HeldBelow(t, u, m, count, o.rows, Delivered(u, chat, count, more, Some(o.cursor), rounds[1..]),
              rounds[|rounds| - 1].anchor);
  }

  lemma {:induction false} HeldBelow(
      t: Table, u: Table, m: set<Key>, count: nat, b: seq<Key>, ds: seq<seq<Key>>, anchor: Option<Anchor>)
    requires TakesSlice(t, m, count, b) && m <= t.Keys
    requires var rest := m - NoOlderThan(t, m, Oldest(t, b));
      rest <= u.Keys && forall k :: k in rest ==> u[k] == t[k]
    ensures HeldBack(t, m, [b] + ds, anchor) <==> HeldBack(u, m - NoOlderThan(t, m, Oldest(t, b)), ds, anchor)
  {
    var rest := m - NoOlderThan(t, m, Oldest(t, b));
    assert ([b] + ds)[1..] == ds;
    assert forall k :: k in Flatten([b] + ds) <==> k in b || k in Flatten(ds);
    assert forall k :: k in b ==> k in SetOf(b);
    var low := b[|b| - 1];
    assert low in m;
    if HeldBack(t, m, [b] + ds, anchor) {
      var k :| k in m && k !in Flatten([b] + ds) && Anchors(anchor, k)
            && forall j :: j in m && j != k ==> t[j].ts > t[k].ts;
      assert low != k;
      assert k in rest && forall j :: j in rest && j != k ==> u[j].ts > u[k].ts;
    }
    if HeldBack(u, rest, ds, anchor) {
      var k :| k in rest && k !in Flatten(ds) && Anchors(anchor, k)
            && forall j :: j in rest && j != k ==> u[j].ts > u[k].ts;
      assert k !in b && forall j :: j in m && j != k ==> t[j].ts > t[k].ts;
    }
  }

  /** A round of a run that goes on does not change how the range ends. */
  lemma {:induction false} FullOnward(
      t: Table, chat: string, count: nat, more: bool, cursor: Option<int>, rounds: seq<Round>)
    requires Consistent(t) && Run(t, chat, count, more, cursor, rounds) && |rounds| > 1
    ensures var o := RoundOutcome(t, chat, count, more, cursor, rounds[0]);
      var m := Todo(t, chat, rounds[0].anchor, cursor);
      && o.Batch? && o.rows != [] && o.rows[0] in m
      && var u := AfterDelete(t, chat, o.newest, o.cursor, true);
      var rest := Todo(u, chat, rounds[1].anchor, Some(o.cursor));
      && rest <= m && (forall k :: k in rest ==> u[k] == t[k]) && Consistent(u)
      && (!more ==> (EndsFull(t, m, count) <==> EndsFull(u, rest, count)))
  {
    hide Cut, NoOlderThan, AfterDelete, RoundOutcome, Todo, EndsFull, Distinct, NewestFirst, TakesSlice;
    var r := rounds[0];
    var m := Todo(t, chat, r.anchor, cursor);
    NextRound(t, chat, count, more, cursor, rounds);
    NextLeft(t, chat, count, more, cursor, rounds);
    var o := RoundOutcome(t, chat, count, more, cursor, r);
    RoundRest(t, chat, count, more, cursor, r, rounds[1].anchor);
    PageTakesSlice(t, m, count, r.page);
    BatchFacts(t, m, count, r.page);
    PageHolds(t, m, count, r.page);
    var u := AfterDelete(t, chat, o.newest, o.cursor, true);
    TodoInChat(u, chat, rounds[1].anchor, Some(o.cursor));
    SliceWithin(t, m, o.cursor);
    if Todo(u, chat, rounds[1].anchor, Some(o.cursor)) != {} {
      EndsFullBelow(t, u, m, count, o.cursor);
    } else if !more {
      LastSlice(t, m, count, o.rows);
      NothingIsFull(u, count);
    }
  }

  /** A page is nonempty if anything is in range, holds all of it if it is not full, and is full
      otherwise. */
  lemma {:induction false} PageHolds(t: Table, m: set<Key>, count: nat, page: seq<Key>)
    requires IsPage(t, m, count + 1, page)
    ensures page == [] <==> m == {}
    ensures page != [] ==> page[0] in m
    ensures |page| <= count ==> |m| == |page|
    ensures |page| > count ==> |m| > count
  {
    if page != [] { assert page[0] in SetOf(page); }
  }

  lemma {:induction false} NothingIsFull(t: Table, count: nat)
    ensures EndsFull(t, {}, count)
  {
  }

  /** The same condition read off the table, for positive timestamps and a run whose anchors in range
      were delivered: no second in range holds more than count + 1 rows, and if more is to be had from the
      phone, nothing is in range or its oldest second holds more than count rows, then nothing but anchors
      lies outside the range. */
  lemma {:induction false} LosslessForecast(
      t: Table, chat: string, count: nat, more: bool, cursor: Option<int>, rounds: seq<Round>)
    requires Consistent(t) && count > 0 && Run(t, chat, count, more, cursor, rounds)
    requires forall k :: k in Todo(t, chat, rounds[0].anchor, cursor) ==> t[k].ts > 0
    requires AnchorsDelivered(Todo(t, chat, rounds[0].anchor, cursor), Delivered(t, chat, count, more, cursor, rounds),
                              AnchorIds(rounds))
    ensures var m := Todo(t, chat, rounds[0].anchor, cursor); var inRoom := AnchorIds(rounds);
      && m <= t.Keys
      && (Lossless(t, Left(t, chat, count, more, cursor, rounds),
                   Delivered(t, chat, count, more, cursor, rounds), inRoom)
          <==> && AtMostPerSecond(t, m, count + 1)
               && (more || EndsFull(t, m, count) ==> OnlyKnownOutside(t, chat, m, inRoom)))
  {
    hide Delivered, Left, Wipes, Todo, RoundOutcome, EndsFull, Lossless, OnlyKnownOutside, AtMostPerSecond;
    LosslessIff(t, chat, count, more, cursor, rounds);
    WipesIff(t, chat, count, more, cursor, rounds);
    var last := rounds[|rounds| - 1];
    assert last in rounds && (last.anchor.Some? ==> last.anchor.value.id in AnchorIds(rounds));
  }

  /** Each anchor of the run names no row in range, or a delivered one. */
  ghost predicate AnchorsKnown(m: set<Key>, batches: seq<seq<Key>>, rounds: seq<Round>) {
    forall r :: r in rounds && r.anchor.Some? ==>
      || (forall k :: k in m ==> k.id != r.anchor.value.id)
      || (exists k :: k in m && k in Flatten(batches) && k.id == r.anchor.value.id)
  }

  /** That is enough for the forecast if no message is stored twice in range. */
  lemma {:induction false} DistinctIdsSuffice(m: set<Key>, batches: seq<seq<Key>>, rounds: seq<Round>)
    requires forall j, k :: j in m && k in m && j.id == k.id ==> j == k
    requires AnchorsKnown(m, batches, rounds)
    ensures AnchorsDelivered(m, batches, AnchorIds(rounds))
  {
    forall k | k in m && k.id in AnchorIds(rounds) ensures k in Flatten(batches) {
      var r :| r in rounds && r.anchor.Some? && r.anchor.value.id == k.id;
    }
  }

  /** The anchor's second is never fetched: a message that shares it with the anchor is wiped without
      having been delivered, however few messages there are. */
  lemma {:induction false} AnchorSecondWiped(chat: string, count: nat, more: bool)
    returns (t: Table, rounds: seq<Round>, lost: Key)
    ensures Consistent(t) && Run(t, chat, count, more, None, rounds)
    ensures |ChatRows(t, chat)| == 2 && forall k :: k in t ==> t[k].ts > 0
    ensures AtMostPerSecond(t, Todo(t, chat, rounds[0].anchor, None), count + 1)
    ensures Delivered(t, chat, count, more, None, rounds) == []
    ensures lost in t && lost !in Left(t, chat, count, more, None, rounds) && lost.id !in AnchorIds(rounds)
  {
    var a, b := Key(chat, "p", "a"), Key(chat, "p", "b");
    var msg := Msg(100, Data(100, []));
    t, rounds, lost := map[a := msg, b := msg], [Round(Some(Anchor("a", 100)), [])], b;
    assert Todo(t, chat, rounds[0].anchor, None) == {};
    assert ChatRows(t, chat) == {a, b};
    assert AnchorIds(rounds) == {"a"};
  }

  /** A round in front of a run, or on its own, makes a run. */
  lemma {:induction false} RunCons(
      t: Table, chat: string, count: nat, more: bool, cursor: Option<int>, r: Round, rest: seq<Round>)
    requires IsPage(t, Todo(t, chat, r.anchor, cursor), count + 1, r.page)
    requires cursor.Some? && r.anchor.Some? ==> cursor.value <= r.anchor.value.ts
    requires var o := RoundOutcome(t, chat, count, more, cursor, r);
      && o.Batch?
      && if o.hasMore then Run(AfterDelete(t, chat, o.newest, o.cursor, true), chat, count, more, Some(o.cursor), rest)
         else rest == []
    ensures Run(t, chat, count, more, cursor, [r] + rest)
    ensures var o := RoundOutcome(t, chat, count, more, cursor, r);
      var u := AfterDelete(t, chat, o.newest, o.cursor, true);
      && Delivered(t, chat, count, more, cursor, [r] + rest)
         == [o.rows] + (if o.hasMore then Delivered(u, chat, count, more, Some(o.cursor), rest) else [])
      && Left(t, chat, count, more, cursor, [r] + rest)
         == if o.hasMore then Left(u, chat, count, more, Some(o.cursor), rest) else u
  {
    hide RoundOutcome, AfterDelete, Todo;
    assert ([r] + rest)[1..] == rest;
  }

  function At(ts: nat): Msg { Msg(ts, Data(ts, [])) }

  /** Two messages in one second and one stored under two senders. */
  function DuplicateTable(chat: string): Table {
    map[Key(chat, "p", "a") := At(10), Key(chat, "p", "z") := At(10),
        Key(chat, "lid", "x") := At(5), Key(chat, "phone", "x") := At(3)]
  }

  lemma {:induction false} DuplicateFirst(chat: string)
    ensures var t := DuplicateTable(chat); var lid, phone := Key(chat, "lid", "x"), Key(chat, "phone", "x");
      var r := Round(Some(Anchor("a", 10)), [lid, phone]);
      && Todo(t, chat, r.anchor, None) == {lid, phone} && IsPage(t, {lid, phone}, 2, r.page)
      && RoundOutcome(t, chat, 1, false, None, r) == Batch([lid], 5, 5, true)
      && AfterDelete(t, chat, 5, 5, true)
         == map[Key(chat, "p", "a") := At(10), Key(chat, "p", "z") := At(10), phone := At(3)]
  {
    hide IsPage, RoundOutcome, AfterDelete;
    DuplicatePage(chat);
    DuplicateDelete(chat);
    var t, lid, phone := DuplicateTable(chat), Key(chat, "lid", "x"), Key(chat, "phone", "x");
    assert Todo(t, chat, Some(Anchor("a", 10)), None) == {lid, phone};
  }

  lemma {:induction false} DuplicatePage(chat: string)
    ensures var t := DuplicateTable(chat); var lid, phone := Key(chat, "lid", "x"), Key(chat, "phone", "x");
      && IsPage(t, {lid, phone}, 2, [lid, phone])
      && RoundOutcome(t, chat, 1, false, None, Round(Some(Anchor("a", 10)), [lid, phone])) == Batch([lid], 5, 5, true)
  {
    var lid, phone := Key(chat, "lid", "x"), Key(chat, "phone", "x");
    assert SetOf([lid, phone]) == {lid, phone};
  }

  lemma {:induction false} DuplicateDelete(chat: string)
    ensures AfterDelete(DuplicateTable(chat), chat, 5, 5, true)
         == map[Key(chat, "p", "a") := At(10), Key(chat, "p", "z") := At(10), Key(chat, "phone", "x") := At(3)]
  {
  }

  lemma {:induction false} DuplicateSecond(chat: string)
    ensures var phone := Key(chat, "phone", "x"); var q := Round(Some(Anchor("x", 5)), [phone]);
      var u: Table := map[Key(chat, "p", "a") := At(10), Key(chat, "p", "z") := At(10), phone := At(3)];
      && Run(u, chat, 1, false, Some(5), [q]) && Delivered(u, chat, 1, false, Some(5), [q]) == []
      && Left(u, chat, 1, false, Some(5), [q]) == map[]
  {
    var phone := Key(chat, "phone", "x");
    var u: Table := map[Key(chat, "p", "a") := At(10), Key(chat, "p", "z") := At(10), phone := At(3)];
    assert Todo(u, chat, Some(Anchor("x", 5)), Some(5)) == {phone};
  }

  lemma {:induction false} DuplicateSpread(chat: string)
    ensures var t := DuplicateTable(chat); var m := {Key(chat, "lid", "x"), Key(chat, "phone", "x")};
      m <= t.Keys && AtMostPerSecond(t, m, 1) && !EndsFull(t, m, 1)
  {
    var t, lid, phone := DuplicateTable(chat), Key(chat, "lid", "x"), Key(chat, "phone", "x");
    forall ts: nat ensures |AtTime(t, {lid, phone}, ts)| <= 1 {
      assert AtTime(t, {lid, phone}, ts) == if ts == 5 then {lid} else if ts == 3 then {phone} else {};
    }
  }

  /** A message stored under two senders at different seconds, one of them delivered and then the
      anchor: the other is held back, the chat is wiped, and with it a message of the first anchor's
      second, though no second in range holds more than one row. */
  lemma {:induction false} DuplicateHeldBack(chat: string) returns (t: Table, rounds: seq<Round>, lost: Key)
    ensures Consistent(t) && Run(t, chat, 1, false, None, rounds) && forall k :: k in t ==> t[k].ts > 0
    ensures var m := Todo(t, chat, rounds[0].anchor, None);
      && m <= t.Keys && AtMostPerSecond(t, m, 1) && !EndsFull(t, m, 1)
      && HeldBack(t, m, Delivered(t, chat, 1, false, None, rounds), rounds[|rounds| - 1].anchor)
    ensures lost in t && lost !in Left(t, chat, 1, false, None, rounds) && lost.id !in AnchorIds(rounds)
    ensures lost !in Flatten(Delivered(t, chat, 1, false, None, rounds))
  {
    hide Run, Delivered, Left, Todo, RoundOutcome, AfterDelete, IsPage, EndsFull, AtMostPerSecond;
    var lid, phone := Key(chat, "lid", "x"), Key(chat, "phone", "x");
    t, lost := DuplicateTable(chat), Key(chat, "p", "z");
    var r, q := Round(Some(Anchor("a", 10)), [lid, phone]), Round(Some(Anchor("x", 5)), [phone]);
    DuplicateFirst(chat);
    DuplicateSecond(chat);
    DuplicateSpread(chat);
    RunCons(t, chat, 1, false, None, r, [q]);
    rounds := [r] + [q];
    assert AnchorIds(rounds) == {"a", "x"};
    assert [[lid]] + [] == [[lid]];
    assert Flatten([[lid]]) == [lid] + Flatten<Key>([][..]);
    assert phone in {lid, phone} && phone !in Flatten([[lid]]);
  }
}
