/** What the room receives from a backward pagination run (convertHistorySyncMessages in
    pkg/connector/backfill.go): each batch without repeated message IDs, and when that is enough for
    the run as a whole. */
module DeliveredMessages {
  import opened Prelude
  import opened MessageTable
  import opened Pagination

  /** The message IDs of a batch in order, each where it occurs first. Rows stored under both
      addresses of a sender have the same message ID. */
  function FirstIds(b: seq<Key>, idOf: Key -> string): seq<string> {
    if b == [] then []
    else
      var ids := FirstIds(b[..|b| - 1], idOf);
      var id := idOf(b[|b| - 1]);
      if id in ids then ids else ids + [id]
  }

  function Reversed<T>(s: seq<T>): (r: seq<T>)
    ensures |r| == |s| && forall i :: 0 <= i < |s| ==> r[i] == s[|s| - 1 - i]
  {
    seq(|s|, i requires 0 <= i < |s| => s[|s| - 1 - i])
  }

  /** `at` says where in the batch each converted message comes from: the first place its ID has, later
      places first, and no ID is left out. */
  ghost predicate OldestFirst(messages: seq<Key>, idOf: Key -> string, converted: seq<string>, at: seq<nat>) {
    && |at| == |converted|
    && (forall i :: 0 <= i < |at| ==> at[i] < |messages| && converted[i] == idOf(messages[at[i]]))
    && (forall i, j :: 0 <= i < |at| && 0 <= j < at[i] ==> idOf(messages[j]) != converted[i])
    && Falling(at)
    && (forall j :: 0 <= j < |messages| ==> idOf(messages[j]) in converted)
  }

  /** A repeated ID changes nothing. */
  lemma {:induction false} OldestFirstRepeats(
      messages: seq<Key>, idOf: Key -> string, converted: seq<string>, at: seq<nat>, k: Key)
    requires OldestFirst(messages, idOf, converted, at) && idOf(k) in converted
    ensures OldestFirst(messages + [k], idOf, converted, at)
  {
    assert forall j :: 0 <= j < |messages| ==> (messages + [k])[j] == messages[j];
  }

  /** A new ID comes in front of those before it. */
  lemma {:induction false} OldestFirstGrows(
      messages: seq<Key>, idOf: Key -> string, converted: seq<string>, at: seq<nat>, k: Key)
    requires OldestFirst(messages, idOf, converted, at) && idOf(k) !in converted
    ensures OldestFirst(messages + [k], idOf, [idOf(k)] + converted, [|messages|] + at)
  {
    var all, cs, ps := messages + [k], [idOf(k)] + converted, [|messages|] + at;
    forall i, j | 0 <= i < |ps| && 0 <= j < ps[i] ensures idOf(all[j]) != cs[i] {
      assert all[j] == messages[j];
      if i == 0 {
        assert idOf(messages[j]) in converted;
      } else {
        assert ps[i] == at[i - 1] && cs[i] == converted[i - 1];
      }
    }
    forall j | 0 <= j < |all| ensures idOf(all[j]) in cs {
      if j == |messages| {
        assert cs[0] == idOf(k);
      } else {
        assert idOf(messages[j]) in converted;
      }
    }
    assert Falling(ps) by {
      forall i, j | 0 <= i < j < |ps| ensures ps[i] > ps[j] {
        assert ps[j] == at[j - 1];
      }
    }
  }

  lemma {:induction false} FirstIdsOldestFirst(messages: seq<Key>, idOf: Key -> string) returns (at: seq<nat>)
    ensures OldestFirst(messages, idOf, Reversed(FirstIds(messages, idOf)), at)
  {
    hide OldestFirst;
    if messages == [] {
      at := [];
      NothingConverted(idOf);
    } else {
      var front, k := messages[..|messages| - 1], messages[|messages| - 1];
      var rest := FirstIdsOldestFirst(front, idOf);
      var ids := FirstIds(front, idOf);
      assert messages == front + [k];
      SameMembers(ids);
      if idOf(k) in ids {
        at := rest;
        OldestFirstRepeats(front, idOf, Reversed(ids), rest, k);
      } else {
        at := [|front|] + rest;
        OldestFirstGrows(front, idOf, Reversed(ids), rest, k);
        assert Reversed(ids + [idOf(k)]) == [idOf(k)] + Reversed(ids);
      }
    }
  }

  lemma {:induction false} NothingConverted(idOf: Key -> string)
    ensures OldestFirst([], idOf, Reversed(FirstIds([], idOf)), [])
  {
  }

  /** The converted messages of a batch: each ID once, where it occurs first, oldest first. */
  method ConvertHistorySyncMessages(messages: seq<Key>, idOf: Key -> string)
    returns (converted: seq<string>, ghost at: seq<nat>)
    ensures OldestFirst(messages, idOf, converted, at)
    ensures converted == Reversed(FirstIds(messages, idOf))
  {
    hide OldestFirst;
    var dups: set<string> := {};
    converted := [];
    for i := 0 to |messages|
      invariant converted == FirstIds(messages[..i], idOf)
      invariant forall id :: id in dups <==> id in converted
    {
      assert messages[..i + 1][..i] == messages[..i];
      var id := idOf(messages[i]);
      if id in dups { continue; }
      dups := dups + {id};
      converted := converted + [id];
    }
    assert messages[..|messages|] == messages;
    converted := Reversed(converted);
    at := FirstIdsOldestFirst(messages, idOf);
  }

  lemma {:induction false} SameMembers<T>(s: seq<T>)
    ensures forall x :: x in Reversed(s) <==> x in s
  {
    forall x | x in s ensures x in Reversed(s) {
      var i :| 0 <= i < |s| && s[i] == x;
      assert Reversed(s)[|s| - 1 - i] == x;
    }
  }

  /** Without repeated IDs the batch is simply turned round. */
  lemma {:induction false} DistinctTurnedRound(
      messages: seq<Key>, idOf: Key -> string, converted: seq<string>, at: seq<nat>, i: nat)
    requires OldestFirst(messages, idOf, converted, at) && i < |messages|
    requires forall j, k :: 0 <= j < k < |messages| ==> idOf(messages[j]) != idOf(messages[k])
    ensures |converted| == |messages| && converted[i] == idOf(messages[|messages| - 1 - i])
  {
    forall j | 0 <= j < |messages| ensures j in at {
      assert idOf(messages[j]) in converted;
      var k :| 0 <= k < |converted| && converted[k] == idOf(messages[j]);
      assert at[k] == j;
    }
    CountsDown(at, |messages|, i);
  }

  predicate Falling(at: seq<nat>) { forall i, j :: 0 <= i < j < |at| ==> at[i] > at[j] }

  lemma {:induction false} FallsFrom(at: seq<nat>, k: nat)
    requires Falling(at) && k < |at|
    ensures k == 0 || at[0] > at[k]
  {
  }

  lemma {:induction false} SomeBelow(at: seq<nat>, n: nat)
    requires forall i :: 0 <= i < |at| ==> at[i] < n
    ensures at != [] ==> n > 0
  {
    if at != [] { assert at[0] < n; }
  }

  /** A falling sequence below `n` that misses nothing counts down. */
  lemma {:induction false} CountsDown(at: seq<nat>, n: nat, i: nat)
    requires (forall i :: 0 <= i < |at| ==> at[i] < n) && Falling(at)
    requires forall j: nat :: j < n ==> j in at
    ensures |at| == n && (i < n ==> at[i] == n - 1 - i)
    decreases n
  {
    SomeBelow(at, n);
    if n > 0 {
      var last: nat := n - 1;
      assert last in at;
      var k :| 0 <= k < |at| && at[k] == last;
      FallsFrom(at, k);
      var rest := at[1..];
      forall j: nat | j < n - 1 ensures j in rest {
        assert j in at;
        var k :| 0 <= k < |at| && at[k] == j;
        assert rest[k - 1] == j;
      }
      forall i | 0 <= i < |rest| ensures rest[i] < n - 1 {
        FallsFrom(at, i + 1);
      }
      CountsDown(rest, n - 1, if i == 0 then 0 else i - 1);
    }
  }

  /** Within a batch that is newest first, converted messages never go back in time. */
  lemma {:induction false} ConvertedInTimeOrder(
      t: Table, messages: seq<Key>, idOf: Key -> string, converted: seq<string>, at: seq<nat>, i: nat, j: nat)
    requires OldestFirst(messages, idOf, converted, at) && i <= j < |at|
    requires (forall k :: k in messages ==> k in t) && NewestFirst(t, messages)
    ensures messages[at[i]] in t && messages[at[j]] in t && t[messages[at[i]]].ts <= t[messages[at[j]]].ts
  {
    assert messages[at[i]] in messages && messages[at[j]] in messages;
  }

  function Ids(m: set<Key>, idOf: Key -> string): set<string> {
    set k | k in m :: idOf(k)
  }

  lemma {:induction false} FirstIdsAreIds(b: seq<Key>, idOf: Key -> string)
    ensures Distinct(FirstIds(b, idOf)) && SetOf(FirstIds(b, idOf)) == Ids(SetOf(b), idOf)
  {
    if b != [] {
      var front := b[..|b| - 1];
      FirstIdsAreIds(front, idOf);
      var ids := FirstIds(front, idOf);
      var id := idOf(b[|b| - 1]);
      assert b == front + [b[|b| - 1]];
      assert SetOf(b) == SetOf(front) + {b[|b| - 1]};
      assert Ids(SetOf(b), idOf) == Ids(SetOf(front), idOf) + {id};
      assert forall x :: x in ids <==> x in SetOf(ids);
      assert SetOf(ids + [id]) == SetOf(ids) + {id};
    }
  }

  function AllIds(batches: seq<seq<Key>>, idOf: Key -> string): seq<string> {
    if batches == [] then [] else FirstIds(batches[0], idOf) + AllIds(batches[1..], idOf)
  }

  /** Exactly once over the whole run: if rows with the same message ID carry the same timestamp,
      the room gets each delivered message a single time, and nothing else. */
  lemma {:induction false} EachMessageOnce(
      t: Table, m: set<Key>, count: nat, batches: seq<seq<Key>>, anchor: Option<Anchor>, idOf: Key -> string)
    requires m <= t.Keys && Sweep(t, m, count, batches, anchor)
    requires forall j, k :: j in m && k in m && idOf(j) == idOf(k) ==> t[j].ts == t[k].ts
    ensures Distinct(AllIds(batches, idOf)) && SetOf(AllIds(batches, idOf)) == Ids(SetOf(Flatten(batches)), idOf)
    decreases |batches|
  {
    if batches != [] {
      var b := batches[0];
      var slice := NoOlderThan(t, m, Oldest(t, b));
      var rest := batches[1..];
      EachMessageOnce(t, m - slice, count, rest, anchor, idOf);
      SweepInOrder(t, m - slice, count, rest, anchor);
      FirstIdsAreIds(b, idOf);
      JoinIds(t, m, slice, b, Flatten(rest), FirstIds(b, idOf), AllIds(rest, idOf), idOf, Oldest(t, b));
    }
  }

  lemma {:induction false} JoinIds(
      t: Table, m: set<Key>, slice: set<Key>, b: seq<Key>, rest: seq<Key>, ids: seq<string>, more: seq<string>,
      idOf: Key -> string, cursor: nat)
    requires m <= t.Keys && slice == NoOlderThan(t, m, cursor) && SetOf(b) <= slice && SetOf(rest) <= m - slice
    requires forall j, k :: j in m && k in m && idOf(j) == idOf(k) ==> t[j].ts == t[k].ts
    requires Distinct(ids) && SetOf(ids) == Ids(SetOf(b), idOf)
    requires Distinct(more) && SetOf(more) == Ids(SetOf(rest), idOf)
    ensures Distinct(ids + more) && SetOf(ids + more) == Ids(SetOf(b + rest), idOf)
  {
    forall x, y | x in ids && y in more ensures x != y {
      assert x in SetOf(ids) && y in SetOf(more);
      var j :| j in SetOf(b) && idOf(j) == x;
      var k :| k in SetOf(rest) && idOf(k) == y;
    }
    var all := ids + more;
    forall i, j | 0 <= i < j < |all| ensures all[i] != all[j] {
      if i < |ids| <= j {
        assert all[i] in ids && all[j] in more;
      }
    }
    assert SetOf(b + rest) == SetOf(b) + SetOf(rest);
    assert Ids(SetOf(b) + SetOf(rest), idOf) == Ids(SetOf(b), idOf) + Ids(SetOf(rest), idOf);
    assert SetOf(all) == SetOf(ids) + SetOf(more);
  }

  // ----- Exactly once, for every page size -----

  /** No two stored rows of `want` share a second. */
  ghost predicate Spread(t: Table, want: set<Key>) {
    forall v, w :: v in want && w in want && v in t && w in t && t[v].ts == t[w].ts ==> v == w
  }

  lemma {:induction false} NoPage(t: Table)
    ensures IsPage(t, {}, 2, [])
  {
  }

  lemma {:induction false} SinglePage(t: Table, m: set<Key>, x: Key)
    requires m <= t.Keys && x in m && m - {x} == {}
    ensures IsPage(t, m, 2, [x])
  {
    assert m == {x};
  }

  lemma {:induction false} PairPage(t: Table, m: set<Key>, x: Key, y: Key)
    requires m <= t.Keys && x in m && y in m - {x}
    requires (forall o :: o in m ==> t[o].ts <= t[x].ts) && forall o :: o in m - {x} ==> t[o].ts <= t[y].ts
    ensures IsPage(t, m, 2, [x, y])
  {
    SubsetCard({x, y}, m);
    assert SetOf([x, y]) == {x, y};
  }

  /** A page of up to two rows that starts with a row of `want`, if the newest second holds one. */
  lemma {:induction false} PagePreferring(t: Table, m: set<Key>, want: set<Key>) returns (page: seq<Key>)
    requires m <= t.Keys && Spread(t, want)
    ensures IsPage(t, m, 2, page)
    ensures page != [] ==> forall w :: w in want && w in m && t[w].ts == t[page[0]].ts ==> w == page[0]
  {
    hide IsPage;
    page := [];
    if m == {} {
      NoPage(t);
    } else {
      var x := NewestExists(t, m);
      if w :| w in want && w in m && t[w].ts == t[x].ts {
        x := w;
      }
      var rest := m - {x};
      if rest == {} {
        page := [x];
        SinglePage(t, m, x);
      } else {
        var y := NewestExists(t, rest);
        page := [x, y];
        PairPage(t, m, x, y);
      }
    }
  }

  /** With pages of one, a slice holds no wanted row but the first of its batch. */
  lemma {:induction false} WantedInSlice(t: Table, m: set<Key>, b: seq<Key>, want: set<Key>)
    requires TakesSlice(t, m, 1, b)
    requires forall w :: w in want && w in m && t[w].ts == t[b[0]].ts ==> w == b[0]
    ensures forall w :: w in want && w in NoOlderThan(t, m, Oldest(t, b)) ==> w == b[0]
  {
    assert b[0] in SetOf(b);
    if |b| == 1 {
      assert b == [b[0]];
    }
  }

  /** A wanted row in range is delivered by this round or still in range for the next. */
  lemma {:induction false} WantedRound(t: Table, chat: string, cursor: Option<int>, want: set<Key>, r: Round)
    requires Consistent(t) && Spread(t, want) && r.anchor == None
    requires var m := Todo(t, chat, None, cursor);
      && m != {} && IsPage(t, m, 2, r.page) && r.page != []
      && forall w :: w in want && w in m && t[w].ts == t[r.page[0]].ts ==> w == r.page[0]
    ensures var m := Todo(t, chat, None, cursor); var o := RoundOutcome(t, chat, 1, false, cursor, r);
      && o.Batch?
      && var u := AfterDelete(t, chat, o.newest, o.cursor, true);
      && |u| < |t| && Consistent(u) && Spread(u, want)
      && forall w :: w in want && w in m ==> w in o.rows || (o.hasMore && w in Todo(u, chat, None, Some(o.cursor)))
  {
    hide Cut, NoOlderThan, AfterDelete, Todo, Distinct, NewestFirst, TakesSlice, RoundOutcome;
    var m := Todo(t, chat, None, cursor);
    OutcomeFacts(t, chat, 1, false, cursor, r);
    var o := RoundOutcome(t, chat, 1, false, cursor, r);
    PageTakesSlice(t, m, 1, r.page);
    OutcomeRows(t, chat, cursor, r);
    SliceStart(t, m, o.rows);
    WantedInSlice(t, m, o.rows, want);
    RoundRest(t, chat, 1, false, cursor, r, None);
  }

  lemma {:induction false} OutcomeRows(t: Table, chat: string, cursor: Option<int>, r: Round)
    requires Consistent(t) && r.page != [] && r.anchor == None && forall k :: k in r.page ==> k in t
    ensures var o := RoundOutcome(t, chat, 1, false, cursor, r);
      o.Batch? && o.rows != [] && o.rows[0] == r.page[0] && o.cursor == Oldest(t, o.rows)
  {
    hide CutFrom;
  }

  lemma {:induction false} SliceStart(t: Table, m: set<Key>, b: seq<Key>)
    requires TakesSlice(t, m, 1, b)
    ensures b != [] && b[0] in t && b[0] in b
  {
  }

  /** With pages of one, some run delivers all the wanted rows in range. */
  lemma {:induction false} DeliversWanted(t: Table, chat: string, cursor: Option<int>, want: set<Key>)
    returns (rounds: seq<Round>)
    requires Consistent(t) && Spread(t, want)
    ensures Run(t, chat, 1, false, cursor, rounds) && rounds[0].anchor == None
    ensures forall w :: w in want && w in Todo(t, chat, None, cursor) ==>
      w in Flatten(Delivered(t, chat, 1, false, cursor, rounds))
    decreases |t|
  {
    hide Cut, AfterDelete, Todo, Distinct, NewestFirst, Run, Delivered, RoundOutcome, Consistent, Spread;
    var m := Todo(t, chat, None, cursor);
    TodoInChat(t, chat, None, cursor);
    var page := PagePreferring(t, m, want);
    PageHolds(t, m, 1, page);
    var r := Round(None, page);
    if m == {} {
      EmptyRun(t, chat, cursor);
      return [r];
    }
    WantedRound(t, chat, cursor, want, r);
    var o := RoundOutcome(t, chat, 1, false, cursor, r);
    var rest: seq<Round>, later: seq<seq<Key>> := [], [];
    if o.hasMore {
      var u := AfterDelete(t, chat, o.newest, o.cursor, true);
      rest := DeliversWanted(u, chat, Some(o.cursor), want);
      later := Delivered(u, chat, 1, false, Some(o.cursor), rest);
    }
    RunCons(t, chat, 1, false, cursor, r, rest);
    FlattenCons(o.rows, later);
    rounds := [r] + rest;
  }

  lemma {:induction false} EmptyRun(t: Table, chat: string, cursor: Option<int>)
    requires Todo(t, chat, None, cursor) == {}
    ensures Run(t, chat, 1, false, cursor, [Round(None, [])])
  {
  }

  lemma {:induction false} FlattenCons<T>(xs: seq<T>, xss: seq<seq<T>>)
    ensures Flatten([xs] + xss) == xs + Flatten(xss)
  {
    assert ([xs] + xss)[1..] == xss;
  }

  /** No run over the chat delivers a message twice, whatever the page size and the anchors. */
  ghost predicate AlwaysOnce(t: Table, chat: string, idOf: Key -> string) {
    forall count: nat, more: bool, rounds: seq<Round> :: count > 0 && Run(t, chat, count, more, None, rounds) ==>
      Distinct(AllIds(Delivered(t, chat, count, more, None, rounds), idOf))
  }

  /** Exact condition: no run delivers a message twice if and only if rows of one message ID share a
      second. */
  lemma {:induction false} AlwaysOnceIff(t: Table, chat: string, idOf: Key -> string)
    requires Consistent(t)
    ensures AlwaysOnce(t, chat, idOf) <==>
      forall j, k :: j in ChatRows(t, chat) && k in ChatRows(t, chat) && idOf(j) == idOf(k) ==> t[j].ts == t[k].ts
  {
    hide Delivered, AllIds, Distinct, Todo, Sweep;
    if forall j, k :: j in ChatRows(t, chat) && k in ChatRows(t, chat) && idOf(j) == idOf(k) ==> t[j].ts == t[k].ts {
      forall count: nat, more: bool, rounds: seq<Round> | count > 0 && Run(t, chat, count, more, None, rounds)
        ensures Distinct(AllIds(Delivered(t, chat, count, more, None, rounds), idOf))
      {
        TodoInChat(t, chat, rounds[0].anchor, None);
        RunIsSweep(t, chat, count, more, None, rounds);
        EachMessageOnce(t, Todo(t, chat, rounds[0].anchor, None), count,
                        Delivered(t, chat, count, more, None, rounds), rounds[|rounds| - 1].anchor, idOf);
      }
    } else {
      var j, k :| j in ChatRows(t, chat) && k in ChatRows(t, chat) && idOf(j) == idOf(k) && t[j].ts != t[k].ts;
      var rounds := DeliversWanted(t, chat, None, {j, k});
      TodoIsOlder(t, chat, None, None, j);
      TodoIsOlder(t, chat, None, None, k);
      TwiceDelivered(t, chat, rounds, j, k, idOf);
    }
  }

  /** With pages of one, two delivered rows of one message ID and different seconds come out twice. */
  lemma {:induction false} TwiceDelivered(
      t: Table, chat: string, rounds: seq<Round>, j: Key, k: Key, idOf: Key -> string)
    requires Consistent(t) && Run(t, chat, 1, false, None, rounds)
    requires var ds := Flatten(Delivered(t, chat, 1, false, None, rounds)); j in ds && k in ds
    requires j in t && k in t && idOf(j) == idOf(k) && t[j].ts != t[k].ts
    ensures !Distinct(AllIds(Delivered(t, chat, 1, false, None, rounds), idOf))
  {
    var m := Todo(t, chat, rounds[0].anchor, None);
    RunIsSweep(t, chat, 1, false, None, rounds);
    TodoInChat(t, chat, rounds[0].anchor, None);
    TwiceInSweep(t, m, Delivered(t, chat, 1, false, None, rounds), rounds[|rounds| - 1].anchor, j, k, idOf);
  }

  lemma {:induction false} TwiceInSweep(
      t: Table, m: set<Key>, batches: seq<seq<Key>>, anchor: Option<Anchor>, j: Key, k: Key, idOf: Key -> string)
    requires m <= t.Keys && Sweep(t, m, 1, batches, anchor) && j in Flatten(batches) && k in Flatten(batches)
    requires j in t && k in t && idOf(j) == idOf(k) && t[j].ts != t[k].ts
    ensures !Distinct(AllIds(batches, idOf))
    decreases |batches|
  {
    hide NoOlderThan;
    var b, rest := batches[0], batches[1..];
    FirstIdsAreIds(b, idOf);
    AllIdsAreIds(rest, idOf);
    OneSecond(t, m, b);
    if j !in b && k !in b {
      TwiceInSweep(t, m - NoOlderThan(t, m, Oldest(t, b)), rest, anchor, j, k, idOf);
      NotDistinctTail(FirstIds(b, idOf), AllIds(rest, idOf));
    } else {
      assert idOf(j) in SetOf(FirstIds(b, idOf)) by {
        var x := if j in b then j else k;
        assert x in SetOf(b);
      }
      assert idOf(j) in SetOf(AllIds(rest, idOf)) by {
        var x := if j in b then k else j;
        assert x in SetOf(Flatten(rest));
      }
      SharedNotDistinct(FirstIds(b, idOf), AllIds(rest, idOf), idOf(j));
    }
  }

  lemma {:induction false} OneSecond(t: Table, m: set<Key>, b: seq<Key>)
    requires TakesSlice(t, m, 1, b)
    ensures forall x, y :: x in b && y in b ==> t[x].ts == t[y].ts
  {
    assert forall x :: x in b ==> x in SetOf(b);
    if |b| == 1 {
      assert b == [b[0]];
    }
  }

  lemma {:induction false} NotDistinctTail<T>(a: seq<T>, b: seq<T>)
    requires !Distinct(b)
    ensures !Distinct(a + b)
  {
    var i, j :| 0 <= i < j < |b| && b[i] == b[j];
    assert (a + b)[|a| + i] == (a + b)[|a| + j];
  }

  lemma {:induction false} SharedNotDistinct<T>(a: seq<T>, b: seq<T>, x: T)
    requires x in a && x in b
    ensures !Distinct(a + b)
  {
    var i :| 0 <= i < |a| && a[i] == x;
    var j :| 0 <= j < |b| && b[j] == x;
    assert (a + b)[i] == (a + b)[|a| + j];
  }

  lemma {:induction false} AllIdsAreIds(batches: seq<seq<Key>>, idOf: Key -> string)
    ensures SetOf(AllIds(batches, idOf)) == Ids(SetOf(Flatten(batches)), idOf)
  {
    if batches != [] {
      AllIdsAreIds(batches[1..], idOf);
      FirstIdsAreIds(batches[0], idOf);
      var ids, more := FirstIds(batches[0], idOf), AllIds(batches[1..], idOf);
      assert SetOf(ids + more) == SetOf(ids) + SetOf(more);
      var b, rest := batches[0], Flatten(batches[1..]);
      assert SetOf(b + rest) == SetOf(b) + SetOf(rest);
      assert Ids(SetOf(b) + SetOf(rest), idOf) == Ids(SetOf(b), idOf) + Ids(SetOf(rest), idOf);
    }
  }

  /** A witness: two rows of one message at different seconds, with pages of one. */
  lemma {:induction false} DeliveredTwice(chat: string, idOf: Key -> string)
    returns (t: Table, rounds: seq<Round>)
    requires forall sender, id :: idOf(Key(chat, sender, id)) == id
    ensures Consistent(t) && Run(t, chat, 1, false, None, rounds)
    ensures AllIds(Delivered(t, chat, 1, false, None, rounds), idOf) == ["x", "x"]
  {
    hide Todo, AfterDelete, RoundOutcome, IsPage, Run, Delivered;
    var a, b := Key(chat, "lid", "x"), Key(chat, "phone", "x");
    t := map[a := Msg(2, Data(2, [])), b := Msg(1, Data(1, []))];
    var r := Round(None, [a, b]);
    TwoRows(t, chat, a, b);
    var u := AfterDelete(t, chat, 2, 2, true);
    OneRow(u, chat, b);
    RunCons(t, chat, 1, false, None, r, [Round(None, [b])]);
    rounds := [r] + [Round(None, [b])];
    OneId(a, [[b]], idOf);
    OneId(b, [], idOf);
    assert [[a]] + [[b]] == [[a], [b]] && [[b]] + [] == [[b]];
  }

  lemma {:induction false} TwoRows(t: Table, chat: string, a: Key, b: Key)
    requires a.chat == b.chat == chat && a != b
    requires t == map[a := Msg(2, Data(2, [])), b := Msg(1, Data(1, []))]
    ensures IsPage(t, Todo(t, chat, None, None), 2, [a, b])
    ensures RoundOutcome(t, chat, 1, false, None, Round(None, [a, b])) == Batch([a], 2, 2, true)
    ensures AfterDelete(t, chat, 2, 2, true) == map[b := Msg(1, Data(1, []))]
  {
    assert Todo(t, chat, None, None) == {a, b};
  }

  lemma {:induction false} OneRow(u: Table, chat: string, b: Key)
    requires b.chat == chat && u == map[b := Msg(1, Data(1, []))]
    ensures Run(u, chat, 1, false, Some(2), [Round(None, [b])])
    ensures Delivered(u, chat, 1, false, Some(2), [Round(None, [b])]) == [[b]]
  {
    assert Todo(u, chat, None, Some(2)) == {b};
  }

  lemma {:induction false} OneId(k: Key, rest: seq<seq<Key>>, idOf: Key -> string)
    ensures AllIds([[k]] + rest, idOf) == [idOf(k)] + AllIds(rest, idOf)
  {
    assert [k][..0] == [];
    assert FirstIds([k][..0], idOf) == [];
    assert FirstIds([k], idOf) == [idOf(k)];
    assert ([[k]] + rest)[1..] == rest;
  }
}
