/** The table of stored history messages (pkg/connector/wadb/message.go), restricted to one bridge
    and one user login: both are equality conditions in every statement. */
module MessageTable {
  import opened Prelude

  /** The primary key of a row. */
  datatype Key = Key(chat: string, sender: string, id: string)

  /** A serialized message, as far as it is read back: its own timestamp and everything else. */
  datatype Data = Data(ts: nat, body: seq<nat>)

  /** The rest of a row. The timestamps are in whole seconds. */
  datatype Msg = Msg(ts: nat, data: Data)

  datatype Row = Row(sender: string, id: string, msg: Msg)

  type Table = map<Key, Msg>

  const CHUNK := 50

  /** INSERT ... ON CONFLICT DO NOTHING, for one row. */
  function Insert(t: Table, chat: string, row: Row): Table {
    var k := Key(chat, row.sender, row.id);
    if k in t then t else t[k := row.msg]
  }

  function InsertAll(t: Table, chat: string, rows: seq<Row>): Table
    decreases |rows|
  {
    if rows == [] then t else InsertAll(Insert(t, chat, rows[0]), chat, rows[1..])
  }

  /** The timestamp column repeats the timestamp inside the message. */
  ghost predicate Consistent(t: Table) {
    forall k :: k in t ==> t[k].ts == t[k].data.ts
  }

  /** The rows a WHERE clause with optional exclusive time bounds selects. */
  function Matching(t: Table, chat: string, start: Option<int>, end: Option<int>): set<Key> {
    set k | k in t && k.chat == chat
         && (start.Some? ==> t[k].ts > start.value)
         && (end.Some? ==> t[k].ts < end.value)
  }

  predicate NewestFirst(t: Table, page: seq<Key>)
    requires forall k :: k in page ==> k in t
  {
    forall i, j :: 0 <= i < j < |page| ==> t[page[i]].ts >= t[page[j]].ts
  }

  /** What ORDER BY timestamp DESC LIMIT promises: rows of equal timestamp come in any order. */
  ghost predicate IsPage(t: Table, matching: set<Key>, limit: int, page: seq<Key>) {
    && matching <= t.Keys
    && Distinct(page)
    && SetOf(page) <= matching
    && |page| == (if limit > 0 then Min(|matching|, limit) else |matching|)
    && (forall k :: k in page ==> k in t)
    && NewestFirst(t, page)
    && forall k, j :: k in matching && k !in page && 0 <= j < |page| ==> t[k].ts <= t[page[j]].ts
  }

  /** Both bounds are exclusive and each may be missing; without a limit everything comes back. */
  lemma {:induction false} PageReads(
      t: Table, chat: string, start: Option<int>, end: Option<int>, page: seq<Key>, k: Key)
    ensures k in Matching(t, chat, start, end) ==> k in t && k.chat == chat
    ensures k in t && k.chat == chat && start == None && end == None ==> k in Matching(t, chat, start, end)
    ensures k in t && start == Some(t[k].ts) ==> k !in Matching(t, chat, start, end)
    ensures k in t && end == Some(t[k].ts) ==> k !in Matching(t, chat, start, end)
    ensures k in t && k.chat == chat && start == Some(t[k].ts - 1) && end == Some(t[k].ts + 1) ==>
      k in Matching(t, chat, start, end)
    ensures IsPage(t, Matching(t, chat, start, end), 0, page) ==> SetOf(page) == Matching(t, chat, start, end)
  {
    if IsPage(t, Matching(t, chat, start, end), 0, page) {
      DistinctCard(page);
      SubsetCard(SetOf(page), Matching(t, chat, start, end));
    }
  }

  /** DELETE ... AND timestamp <= before AND timestamp >= after. */
  function WithoutBetween(t: Table, chat: string, before: nat, after: nat): Table {
    map k | k in t && !(k.chat == chat && after <= t[k].ts <= before) :: t[k]
  }

  function WithoutChat(t: Table, chat: string): Table {
    map k | k in t && k.chat != chat :: t[k]
  }

  lemma {:induction false} InsertAllAppend(t: Table, chat: string, a: seq<Row>, b: seq<Row>)
    ensures InsertAll(t, chat, a + b) == InsertAll(InsertAll(t, chat, a), chat, b)
    decreases |a|
  {
    if a == [] {
      assert a + b == b;
    } else {
      assert (a + b)[1..] == a[1..] + b;
      InsertAllAppend(Insert(t, chat, a[0]), chat, a[1..], b);
    }
  }

  lemma {:induction false} InsertAllConsistent(t: Table, chat: string, rows: seq<Row>)
    requires Consistent(t) && forall r :: r in rows ==> r.msg.ts == r.msg.data.ts
    ensures Consistent(InsertAll(t, chat, rows))
    decreases |rows|
  {
    if rows != [] {
      InsertAllConsistent(Insert(t, chat, rows[0]), chat, rows[1..]);
    }
  }

  /** Every nonempty set of stored rows has a newest member. */
  lemma {:induction false} NewestExists(t: Table, s: set<Key>) returns (k: Key)
    requires s != {} && s <= t.Keys
    ensures k in s && forall o :: o in s ==> t[o].ts <= t[k].ts
  {
    k :| k in s;
    if s != {k} {
      var rest := s - {k};
      assert s == rest + {k};
      var m := NewestExists(t, rest);
      assert forall o :: o in s ==> o in rest || o == k;
      if t[k].ts <= t[m].ts { k := m; }
    }
  }

  /** `page` holds the newest rows of `all`, in order, and `left` the others. */
  ghost predicate Drawn(t: Table, all: set<Key>, left: set<Key>, page: seq<Key>) {
    && all <= t.Keys
    && left <= all
    && Distinct(page)
    && |page| + |left| == |all|
    && (forall k :: k in page <==> k in all && k !in left)
    && NewestFirst(t, page)
    && forall k, j :: k in left && 0 <= j < |page| ==> t[k].ts <= t[page[j]].ts
  }

  lemma {:induction false} DrawNext(t: Table, all: set<Key>, left: set<Key>, page: seq<Key>, k: Key)
    requires Drawn(t, all, left, page)
    requires k in left && forall o :: o in left ==> t[o].ts <= t[k].ts
    ensures Drawn(t, all, left - {k}, page + [k])
  {
    var next := page + [k];
    forall i, j | 0 <= i < j < |next| ensures next[i] != next[j] && t[next[i]].ts >= t[next[j]].ts {
      assert i < |page| && next[i] == page[i] && page[i] in page;
      assert j < |page| ==> next[j] == page[j];
    }
  }

  class MessageQuery {
    var rows: Table

    constructor ()
      ensures rows == map[]
    {
      rows := map[];
    }

    /** Inserts in chunks inside one transaction; `execOk(i)` says whether the i-th statement
        succeeds. A failing chunk rolls everything back. */
    method Put(chat: string, messages: seq<Row>, execOk: nat -> bool) returns (ok: bool)
      modifies this
      ensures ok <==> forall i: nat :: i * CHUNK < |messages| ==> execOk(i)
      ensures rows == if ok then InsertAll(old(rows), chat, messages) else old(rows)
    {
      var txn := rows;
      var i: nat := 0;
      while i * CHUNK < |messages|
        invariant i * CHUNK <= |messages| || (i - 1) * CHUNK < |messages|
        invariant txn == InsertAll(rows, chat, messages[..Min(i * CHUNK, |messages|)])
        invariant forall j: nat :: j < i ==> execOk(j)
        invariant rows == old(rows)
        decreases |messages| - i * CHUNK
      {
        if !execOk(i) {
          assert i * CHUNK < |messages|;
          return false;
        }
        var lo, hi := i * CHUNK, Min((i + 1) * CHUNK, |messages|);
        InsertAllAppend(rows, chat, messages[..lo], messages[lo..hi]);
        assert messages[..lo] + messages[lo..hi] == messages[..hi];
        txn := InsertAll(txn, chat, messages[lo..hi]);
        i := i + 1;
      }
      assert messages[..|messages|] == messages;
      forall j: nat | j * CHUNK < |messages| ensures execOk(j) { assert j < i; }
      rows := txn;
      return true;
    }

    method GetBetween(chat: string, start: Option<int>, end: Option<int>, limit: int) returns (page: seq<Key>)
      ensures IsPage(rows, Matching(rows, chat, start, end), limit, page)
    {
      var all := Matching(rows, chat, start, end);
      var left := all;
      page := [];
      while left != {} && (limit <= 0 || |page| < limit)
        invariant Drawn(rows, all, left, page)
        invariant limit > 0 ==> |page| <= limit
        decreases |left|
      {
        ghost var newest := NewestExists(rows, left);
        var k :| k in left && forall o :: o in left ==> rows[o].ts <= rows[k].ts;
        DrawNext(rows, all, left, page, k);
        page := page + [k];
        left := left - {k};
      }
      DistinctCard(page);
    }

    method DeleteBetween(chat: string, before: nat, after: nat) returns (affected: nat)
      modifies this
      ensures rows == WithoutBetween(old(rows), chat, before, after)
      ensures affected == |old(rows)| - |rows|
    {
      var kept := WithoutBetween(rows, chat, before, after);
      SubsetCard(kept.Keys, rows.Keys);
      affected := |rows| - |kept|;
      rows := kept;
    }

    method DeleteAllInChat(chat: string) returns (affected: nat)
      modifies this
      ensures rows == WithoutChat(old(rows), chat)
      ensures affected == |old(rows)| - |rows|
    {
      var kept := WithoutChat(rows, chat);
      SubsetCard(kept.Keys, rows.Keys);
      affected := |rows| - |kept|;
      rows := kept;
    }
  }
}
