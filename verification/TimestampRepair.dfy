/** Repairing future timestamps while a conversation is read from a history sync payload, newest
    message first (the message loop of handleWAHistorySync in pkg/connector/backfill.go). */
module TimestampRepair {
  import opened Prelude
  import opened MessageTable

  /** A message of a payload. Whether it parses, is of an ignored type and can be serialized again
      is decided outside this model. */
  datatype Raw = Raw(ts: nat, sender: string, id: string, body: seq<nat>,
                     parses: bool, ignored: bool, comment: bool, marshals: bool)

  predicate Processed(r: Raw) { r.parses && !r.ignored }

  function Kept(raws: seq<Raw>): seq<Raw> {
    if raws == [] then [] else (if Processed(raws[0]) then [raws[0]] else []) + Kept(raws[1..])
  }

  function Clamp(ts: nat, newer: nat, allowed: bool): nat {
    if newer > 0 && allowed && ts > newer then newer else ts
  }

  /** The messages after the loop: `newer` is the timestamp of the previous processed message. */
  function Repair(raws: seq<Raw>, newer: nat, allowed: bool): seq<Raw>
    decreases |raws|
  {
    if raws == [] then []
    else if !Processed(raws[0]) then [raws[0]] + Repair(raws[1..], newer, allowed)
    else
      var still := allowed && !raws[0].comment;
      var ts := Clamp(raws[0].ts, newer, still);
      [raws[0].(ts := ts)] + Repair(raws[1..], ts, still)
  }

  function RowOf(r: Raw): Row { Row(r.sender, r.id, Msg(r.ts, Data(r.ts, r.body))) }

  /** The rows to insert: every processed message that could be serialized. */
  function RowsOf(raws: seq<Raw>): seq<Row> {
    if raws == [] then []
    else (if Processed(raws[0]) && raws[0].marshals then [RowOf(raws[0])] else []) + RowsOf(raws[1..])
  }

  lemma {:induction false} RowsOfSnoc(raws: seq<Raw>, r: Raw)
    ensures RowsOf(raws + [r]) == RowsOf(raws) + RowsOf([r])
  {
    hide Processed, RowOf;
    if raws == [] {
      assert raws + [r] == [r];
    } else {
      assert (raws + [r])[1..] == raws[1..] + [r];
      RowsOfSnoc(raws[1..], r);
      var head := if Processed(raws[0]) && raws[0].marshals then [RowOf(raws[0])] else [];
      assert RowsOf(raws + [r]) == head + RowsOf(raws[1..] + [r]);
    }
  }

  predicate Storable(r: Raw) { r.parses && !r.ignored && r.marshals }

  /** The row has the message's sender, ID and content, and in both places the timestamp `ts`. */
  predicate Carries(row: Row, r: Raw, ts: nat) {
    row.sender == r.sender && row.id == r.id && row.msg.data.body == r.body && row.msg.ts == row.msg.data.ts == ts
  }

  predicate Rising(at: seq<nat>) { forall i, j :: 0 <= i < j < |at| ==> at[i] < at[j] }

  ghost predicate SameButTimes(raws: seq<Raw>, out: seq<Raw>) {
    |out| == |raws| && forall j :: 0 <= j < |raws| ==> out[j] == raws[j].(ts := out[j].ts)
  }

  ghost predicate EachFrom(raws: seq<Raw>, out: seq<Raw>, rows: seq<Row>, at: seq<nat>)
    requires |out| == |raws|
  {
    |at| == |rows| && forall i :: 0 <= i < |at| ==>
      at[i] < |raws| && Storable(raws[at[i]]) && Carries(rows[i], raws[at[i]], out[at[i]].ts)
  }

  ghost predicate NoneMissing(raws: seq<Raw>, at: seq<nat>) {
    forall j: nat :: j < |raws| && Storable(raws[j]) ==> j in at
  }

  /** `at` says which message each row comes from: in order, every message that parses, is not of an
      ignored type and can be serialized. The row carries it with the timestamp it has in `out`, where
      nothing else is changed. */
  ghost predicate RowsFrom(raws: seq<Raw>, out: seq<Raw>, rows: seq<Row>, at: seq<nat>) {
    SameButTimes(raws, out) && Rising(at) && EachFrom(raws, out, rows, at) && NoneMissing(raws, at)
  }

  lemma {:induction false} RowsFromMessages(raws: seq<Raw>, newer: nat, allowed: bool) returns (at: seq<nat>)
    ensures var out := Repair(raws, newer, allowed); RowsFrom(raws, out, RowsOf(out), at)
    decreases |raws|
  {
    hide RowsFrom, Clamp;
    if raws == [] {
      at := [];
      NoRows();
    } else {
      var r, rest := raws[0], raws[1..];
      var still := allowed && !r.comment;
      var ts := Clamp(r.ts, newer, still);
      var out := Repair(raws, newer, allowed);
      var later: seq<nat>;
      if Processed(r) {
        later := RowsFromMessages(rest, ts, still);
        assert out[1..] == Repair(rest, ts, still);
      } else {
        later := RowsFromMessages(rest, newer, allowed);
        assert out[1..] == Repair(rest, newer, allowed);
      }
      at := OneMoreRow(r, out[0], rest, out[1..], later);
      assert [r] + rest == raws && [out[0]] + out[1..] == out;
    }
  }

  lemma {:induction false} NoRows()
    ensures RowsFrom([], [], RowsOf([]), [])
  {
  }

  function Moved(later: seq<nat>): (r: seq<nat>)
    ensures |r| == |later| && forall i :: 0 <= i < |r| ==> r[i] == later[i] + 1
  {
    seq(|later|, i requires 0 <= i < |later| => later[i] + 1)
  }

  lemma {:induction false} RowsOfCons(r: Raw, o: Raw, out: seq<Raw>)
    requires o == r.(ts := o.ts)
    ensures RowsOf([o] + out) == (if Storable(r) then [RowOf(o)] else []) + RowsOf(out)
    ensures [] + RowsOf(out) == RowsOf(out)
  {
    assert ([o] + out)[1..] == out;
  }

  lemma {:induction false} OneMoreRow(r: Raw, o: Raw, rest: seq<Raw>, out: seq<Raw>, later: seq<nat>)
    returns (at: seq<nat>)
    requires o == r.(ts := o.ts) && RowsFrom(rest, out, RowsOf(out), later)
    ensures RowsFrom([r] + rest, [o] + out, RowsOf([o] + out), at)
  {
    hide RowsFrom, RowsOf, Storable, RowOf, Moved;
    RowsOfCons(r, o, out);
    if Storable(r) {
      at := [0] + Moved(later);
      RowAdded(r, o, rest, out, RowsOf(out), later);
    } else {
      at := Moved(later);
      RowSkipped(r, o, rest, out, RowsOf(out), later);
    }
  }

  lemma {:induction false} RowSkipped(
      r: Raw, o: Raw, rest: seq<Raw>, out: seq<Raw>, rows: seq<Row>, later: seq<nat>)
    requires o == r.(ts := o.ts) && RowsFrom(rest, out, rows, later) && !Storable(r)
    ensures RowsFrom([r] + rest, [o] + out, rows, Moved(later))
  {
    hide Carries, Storable, Moved, NoneMissing;
    MissesNone(r, rest, later, []);
    assert [] + Moved(later) == Moved(later);
  }

  lemma {:induction false} MissesNone(r: Raw, rest: seq<Raw>, later: seq<nat>, first: seq<nat>)
    requires NoneMissing(rest, later) && (Storable(r) ==> 0 in first)
    ensures NoneMissing([r] + rest, first + Moved(later))
  {
    hide Storable, Moved;
    var raws, at := [r] + rest, first + Moved(later);
    forall j: nat | j < |raws| && Storable(raws[j]) ensures j in at {
      if j > 0 {
        var n: nat := j - 1;
        assert raws[j] == rest[n] && n in later;
        var i :| 0 <= i < |later| && later[i] == n;
        assert at[|first| + i] == j;
      }
    }
  }

  lemma {:induction false} RowCarries(r: Raw, o: Raw)
    requires o == r.(ts := o.ts)
    ensures Carries(RowOf(o), r, o.ts)
  {
  }

  lemma {:induction false} RowAdded(
      r: Raw, o: Raw, rest: seq<Raw>, out: seq<Raw>, rows: seq<Row>, later: seq<nat>)
    requires o == r.(ts := o.ts) && RowsFrom(rest, out, rows, later) && Storable(r)
    ensures RowsFrom([r] + rest, [o] + out, [RowOf(o)] + rows, [0] + Moved(later))
  {
    hide Storable, Carries, RowOf, Moved, NoneMissing, EachFrom, Rising;
    MissesNone(r, rest, later, [0]);
    RowCarries(r, o);
    EachAdded(r, o, rest, out, RowOf(o), rows, later);
    RisingAdded(later);
  }

  lemma {:induction false} RisingAdded(later: seq<nat>)
    requires Rising(later)
    ensures Rising([0] + Moved(later))
  {
    var at := [0] + Moved(later);
    forall i, j | 0 <= i < j < |at| ensures at[i] < at[j] {
      assert at[j] == later[j - 1] + 1;
      if i > 0 { assert at[i] == later[i - 1] + 1; }
    }
  }

  lemma {:induction false} EachAdded(
      r: Raw, o: Raw, rest: seq<Raw>, out: seq<Raw>, row: Row, rows: seq<Row>, later: seq<nat>)
    requires |out| == |rest| && EachFrom(rest, out, rows, later) && Storable(r) && Carries(row, r, o.ts)
    ensures EachFrom([r] + rest, [o] + out, [row] + rows, [0] + Moved(later))
  {
    hide Storable, Carries, Moved;
    var raws, all, stored, at := [r] + rest, [o] + out, [row] + rows, [0] + Moved(later);
    forall i | 0 <= i < |at|
      ensures at[i] < |raws| && Storable(raws[at[i]]) && Carries(stored[i], raws[at[i]], all[at[i]].ts)
    {
      if i > 0 {
        assert at[i] == later[i - 1] + 1 && stored[i] == rows[i - 1];
      }
    }
  }

  /** The loop itself. It writes repaired timestamps back into the payload; the row's timestamp
      column comes from the parsed message, which is corrected along with it. */
  method CollectMessages(raws: array<Raw>, commentsCount: nat) returns (messages: seq<Row>, ghost at: seq<nat>)
    modifies raws
    ensures RowsFrom(old(raws[..]), raws[..], messages, at)
    ensures raws[..] == Repair(old(raws[..]), 0, commentsCount == 0)
    ensures messages == RowsOf(Repair(old(raws[..]), 0, commentsCount == 0))
  {
    hide RowsFrom, Repair, RowsOf;
    at := RowsFromMessages(raws[..], 0, commentsCount == 0);
    StartRepair(commentsCount == 0);
    var allowClamp := commentsCount == 0;
    var newer: nat := 0;
    messages := [];
    ghost var was := raws[..];
    ghost var all := Repair(was, 0, allowClamp);
    assert was[0..] == was;
    for i := 0 to raws.Length
      invariant forall j :: i <= j < raws.Length ==> raws[j] == was[j]
      invariant raws[..i] + Repair(was[i..], newer, allowClamp) == all
      invariant messages == RowsOf(raws[..i])
    {
      ghost var front, n, ac := raws[..i], newer, allowClamp;
      if Processed(raws[i]) {
        var infoTs := raws[i].ts;
        if raws[i].comment {
          allowClamp := false;
        }
        var currentTs := raws[i].ts;
        if newer > 0 && allowClamp && currentTs > newer {
          raws[i] := raws[i].(ts := newer);
          infoTs := newer;
        }
        newer := raws[i].ts;
        if raws[i].marshals {
          messages := messages + [Row(raws[i].sender, raws[i].id, Msg(infoTs, Data(raws[i].ts, raws[i].body)))];
        }
      }
      LoopStep(front, was[i..], n, ac, raws[i]);
      assert was[i..][1..] == was[i + 1..];
      assert raws[..i + 1] == front + [raws[i]];
    }
    assert raws[..raws.Length] == raws[..];
    assert was[raws.Length..] == [] && raws[..] == all;
  }

  lemma {:induction false} StartRepair(allowed: bool)
    ensures RowsOf([]) == [] && forall newer, still :: Repair([], newer, still) == []
  {
  }

  /** One turn of the loop: `head` is the message at the front of `back` after its repair. */
  lemma {:induction false} LoopStep(front: seq<Raw>, back: seq<Raw>, newer: nat, allowed: bool, head: Raw)
    requires back != []
    requires var still := if Processed(back[0]) then allowed && !back[0].comment else allowed;
      head == if Processed(back[0]) then back[0].(ts := Clamp(back[0].ts, newer, still)) else back[0]
    ensures var still := if Processed(back[0]) then allowed && !back[0].comment else allowed;
      front + Repair(back, newer, allowed)
        == (front + [head]) + Repair(back[1..], if Processed(head) then head.ts else newer, still)
    ensures RowsOf(front + [head]) == RowsOf(front) + if Processed(head) && head.marshals then [RowOf(head)] else []
  {
    RowsOfSnoc(front, head);
    assert [head][1..] == [];
  }

  /** Row and serialized message carry the same timestamp. */
  lemma {:induction false} RowsConsistent(raws: seq<Raw>)
    ensures forall r :: r in RowsOf(raws) ==> r.msg.ts == r.msg.data.ts
  {
    if raws != [] { RowsConsistent(raws[1..]); }
  }

  /** Messages that are not processed play no part in the repair. */
  lemma {:induction false} RepairKept(raws: seq<Raw>, newer: nat, allowed: bool)
    ensures Kept(Repair(raws, newer, allowed)) == Repair(Kept(raws), newer, allowed)
    decreases |raws|
  {
    if raws != [] {
      var out := Repair(raws, newer, allowed);
      if Processed(raws[0]) {
        var still := allowed && !raws[0].comment;
        var ts := Clamp(raws[0].ts, newer, still);
        RepairKept(raws[1..], ts, still);
        assert out[1..] == Repair(raws[1..], ts, still);
        assert Kept(raws)[1..] == Kept(raws[1..]);
      } else {
        RepairKept(raws[1..], newer, allowed);
        assert out[1..] == Repair(raws[1..], newer, allowed);
        assert Kept(raws) == Kept(raws[1..]);
      }
    }
  }

  /** How many processed messages precede the first comment. */
  function BeforeComment(ps: seq<Raw>): (n: nat)
    ensures n <= |ps| && (forall i :: 0 <= i < n ==> !ps[i].comment) && (n < |ps| ==> ps[n].comment)
  {
    if ps == [] || ps[0].comment then 0 else 1 + BeforeComment(ps[1..])
  }

  /** `x` is the least timestamp among the messages up to and including index `i`. */
  ghost predicate IsRunningMin(ps: seq<Raw>, i: nat, x: nat)
    requires i < |ps|
  {
    (exists j :: 0 <= j <= i && ps[j].ts == x) && forall j :: 0 <= j <= i ==> x <= ps[j].ts
  }

  /** The step the loop takes at index `i`, read off the result. */
  lemma {:induction false} RepairAt(ps: seq<Raw>, newer: nat, allowed: bool, i: nat)
    requires i < |ps| && forall p :: p in ps ==> Processed(p)
    ensures |Repair(ps, newer, allowed)| == |ps|
    ensures var out := Repair(ps, newer, allowed);
      out[i] == ps[i].(ts := Clamp(ps[i].ts, if i == 0 then newer else out[i - 1].ts, allowed && i < BeforeComment(ps)))
    decreases |ps|
  {
    assert ps[0] in ps;
    var still := allowed && !ps[0].comment;
    var ts := Clamp(ps[0].ts, newer, still);
    var out := Repair(ps, newer, allowed);
    assert out[1..] == Repair(ps[1..], ts, still);
    if |ps| > 1 {
      RepairAt(ps[1..], ts, still, if i == 0 then 0 else i - 1);
      if i > 0 {
        assert ps[1..][i - 1] == ps[i] && out[1..][i - 1] == out[i];
        if i > 1 { assert out[1..][i - 2] == out[i - 1]; }
      }
    }
  }

  /** From the first comment on, and everywhere if comments were counted, nothing is changed. */
  lemma {:induction false} AfterCommentUntouched(ps: seq<Raw>, commentsCount: nat, i: nat)
    requires i < |ps| && (forall p :: p in ps ==> Processed(p)) && (commentsCount > 0 || i >= BeforeComment(ps))
    ensures |Repair(ps, 0, commentsCount == 0)| == |ps| && Repair(ps, 0, commentsCount == 0)[i] == ps[i]
  {
    RepairAt(ps, 0, commentsCount == 0, i);
  }

  /** A zero timestamp is never followed by a positive one among the first `n` messages. */
  ghost predicate ZeroStays(ps: seq<Raw>, n: nat)
    requires n <= |ps|
  {
    forall i, j :: 0 <= i < j < n && ps[i].ts == 0 ==> ps[j].ts == 0
  }

  /** Exact condition: before the first comment the stored timestamps are the running minimum of the
      original ones if and only if no zero timestamp is followed by a positive one. */
  lemma {:induction false} RunningMinIff(ps: seq<Raw>)
    requires forall p :: p in ps ==> Processed(p)
    ensures var out := Repair(ps, 0, true); var n := BeforeComment(ps);
      && |out| == |ps|
      && ((forall i :: 0 <= i < n ==> IsRunningMin(ps, i, out[i].ts)) <==> ZeroStays(ps, n))
  {
    var out := Repair(ps, 0, true);
    var n := BeforeComment(ps);
    if ps != [] { RepairAt(ps, 0, true, 0); }
    if ZeroStays(ps, n) {
      forall i | 0 <= i < n ensures IsRunningMin(ps, i, out[i].ts) { MinHolds(ps, i); }
    }
    if forall i :: 0 <= i < n ==> IsRunningMin(ps, i, out[i].ts) {
      forall i, j | 0 <= i < j < n && ps[i].ts == 0 ensures ps[j].ts == 0 {
        RepairAt(ps, 0, true, j);
        assert IsRunningMin(ps, j - 1, out[j - 1].ts) && IsRunningMin(ps, j, out[j].ts);
        assert out[j - 1].ts <= ps[i].ts;
        assert out[j].ts <= ps[i].ts;
      }
    }
  }

  lemma {:induction false} MinHolds(ps: seq<Raw>, i: nat)
    requires i < BeforeComment(ps) && (forall p :: p in ps ==> Processed(p)) && ZeroStays(ps, BeforeComment(ps))
    ensures |Repair(ps, 0, true)| == |ps| && IsRunningMin(ps, i, Repair(ps, 0, true)[i].ts)
  {
    RepairAt(ps, 0, true, i);
    if i > 0 {
      MinHolds(ps, i - 1);
      var prev := Repair(ps, 0, true)[i - 1].ts;
      var j :| 0 <= j <= i - 1 && ps[j].ts == prev;
      assert ps[i].ts <= prev || prev > 0;
    } else {
      assert ps[0].ts == Repair(ps, 0, true)[0].ts;
    }
  }

  /** With positive timestamps the repaired prefix is non-increasing, as pagination expects. */
  lemma {:induction false} RepairedNonIncreasing(ps: seq<Raw>, i: nat, j: nat)
    requires i <= j < BeforeComment(ps) && (forall p :: p in ps ==> Processed(p)) && (forall p :: p in ps ==> p.ts > 0)
    ensures |Repair(ps, 0, true)| == |ps| && Repair(ps, 0, true)[j].ts <= Repair(ps, 0, true)[i].ts
  {
    RunningMinIff(ps);
    var out := Repair(ps, 0, true);
    forall k | 0 <= k < |ps| ensures ps[k].ts > 0 { assert ps[k] in ps; }
    assert IsRunningMin(ps, i, out[i].ts) && IsRunningMin(ps, j, out[j].ts);
    var k :| 0 <= k <= i && ps[k].ts == out[i].ts;
  }

  lemma {:induction false} KeptProcessed(raws: seq<Raw>)
    ensures forall p :: p in Kept(raws) ==> Processed(p)
  {
    if raws != [] { KeptProcessed(raws[1..]); }
  }

  /** The same for a whole payload, whatever unparsable or ignored messages lie in between. */
  lemma {:induction false} PayloadRunningMinIff(raws: seq<Raw>)
    ensures var ps := Kept(raws); var out := Kept(Repair(raws, 0, true)); var n := BeforeComment(ps);
      && |out| == |ps|
      && ((forall i :: 0 <= i < n ==> IsRunningMin(ps, i, out[i].ts)) <==> ZeroStays(ps, n))
  {
    RepairKept(raws, 0, true);
    KeptProcessed(raws);
    RunningMinIff(Kept(raws));
  }
}
