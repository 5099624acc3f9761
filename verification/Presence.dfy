/** The presence manager (pkg/presence/presence.go): desired and sent state per remote user, a worker
    that sends what is due, and updates that arrive at any moment in between. Times are in seconds;
    None stands for Go's zero time. */
module Presence {
  import opened Prelude
  import opened TokenBucket

  const ONLINE := "online"
  const OFFLINE := "offline"
  const UNAVAILABLE := "unavailable"

  const ACTIVITY_ONLINE := 300.0
  const HOUR := 3600.0

  datatype Config = Config(debounce: real, refresh: real, rate: real, burst: nat, maxTracked: nat)

  /** Unset or negative settings get defaults. */
  function WithDefaults(debounce: real, refresh: real, rate: real, burst: int, maxTracked: int): (c: Config)
    ensures c.debounce > 0.0 && c.refresh > 0.0 && c.rate > 0.0 && c.burst > 0 && c.maxTracked > 0
    ensures (debounce > 0.0 ==> c.debounce == debounce) && (refresh > 0.0 ==> c.refresh == refresh)
    ensures (rate > 0.0 ==> c.rate == rate) && (burst > 0 ==> c.burst == burst)
    ensures maxTracked > 0 ==> c.maxTracked == maxTracked
  {
    Config(if debounce <= 0.0 then 10.0 else debounce, if refresh <= 0.0 then 240.0 else refresh,
           if rate <= 0.0 then 5.0 else rate, if burst <= 0 then 10 else burst,
           if maxTracked <= 0 then 10000 else maxTracked)
  }

  datatype Entry = Entry(desired: string, until: Option<real>, sent: string, sentAt: Option<real>, touched: real)

  type Entries = map<string, Entry>

  /** Idle counts as offline. */
  function Normal(presence: string): string { if presence == UNAVAILABLE then OFFLINE else presence }

  /** A record that may be forgotten: not wanted online, and the homeserver was told so. */
  predicate Settled(e: Entry) { e.desired != ONLINE && e.sent == e.desired }

  /** A record seen for the first time: anything but online counts as already sent. */
  function Fresh(presence: string, until: Option<real>, now: real): Entry {
    if presence == ONLINE then Entry(presence, until, "", None, now)
    else Entry(presence, until, presence, Some(now), now)
  }

  ghost predicate Evictable(es: Entries, k: string) {
    k in es && Settled(es[k]) && forall j :: j in es && Settled(es[j]) ==> es[k].touched <= es[j].touched
  }

  /** What Update may do; which of several equally old records goes is left open. */
  ghost predicate Updates(
      cfg: Config, es: Entries, u: string, reported: string, until: Option<real>, now: real, es': Entries)
  {
    var p := Normal(reported);
    if u == "" || reported == "" then es' == es
    else if u in es then es' == es[u := es[u].(desired := p, until := until, touched := now)]
    else if |es| < cfg.maxTracked then es' == es[u := Fresh(p, until, now)]
    else if exists k :: k in es && Settled(es[k]) then
      exists k :: Evictable(es, k) && es' == (es - {k})[u := Fresh(p, until, now)]
    else es' == es
  }

  /** The user is known to be online for longer than `until`. */
  predicate OnlineBeyond(es: Entries, u: string, until: real) {
    u in es && es[u].desired == ONLINE && (es[u].until.None? || es[u].until.value > until)
  }

  /** What an observed activity at time `at` is about to report: online until five minutes after it,
      unless that is past or the user is known to be online for longer. */
  function ActivityState(es: Entries, u: string, at: Option<real>, now: real): Option<real> {
    var seen := if at.None? || at.value > now then now else at.value;
    var until := seen + ACTIVITY_ONLINE;
    if until <= now || OnlineBeyond(es, u, until) then None else Some(until)
  }

  function Expire(e: Entry, now: real): Entry {
    if e.desired == ONLINE && e.until.Some? && e.until.value <= now then e.(desired := OFFLINE, until := None) else e
  }

  predicate Since(sentAt: Option<real>, now: real, d: real) { sentAt.None? || now - sentAt.value >= d }

  predicate Due(cfg: Config, e: Entry, now: real) {
    || (e.desired != e.sent && Since(e.sentAt, now, cfg.debounce))
    || (e.desired == ONLINE && e.sent == ONLINE && Since(e.sentAt, now, cfg.refresh))
  }

  predicate Forgotten(e: Entry, now: real) { Settled(e) && now - e.touched > HOUR }

  /** The records after the locked part of a tick. */
  function Scanned(es: Entries, now: real): Entries {
    map k | k in es && !Forgotten(Expire(es[k], now), now) :: Expire(es[k], now)
  }

  datatype Pending = Pending(key: string, presence: string, sentAt: Option<real>)

  function PendingOf(k: string, e: Entry): Pending { Pending(k, e.desired, e.sentAt) }

  predicate Earlier(a: Option<real>, b: Option<real>) { b.Some? && (a.None? || a.value < b.value) }

  /** The order of sending: online first, then whatever waited longest. */
  predicate Before(p: Pending, q: Pending) {
    if (p.presence == ONLINE) != (q.presence == ONLINE) then p.presence == ONLINE else Earlier(p.sentAt, q.sentAt)
  }

  predicate InSendOrder(due: seq<Pending>) {
    forall i, j :: 0 <= i < j < |due| ==> !Before(due[j], due[i])
  }

  predicate DistinctKeys(due: seq<Pending>) {
    forall i, j :: 0 <= i < j < |due| ==> due[i].key != due[j].key
  }

  /** `due` lists exactly the records due at `now`, each once. */
  ghost predicate ListsDue(cfg: Config, es: Entries, now: real, due: seq<Pending>) {
    && DistinctKeys(due)
    && (forall p :: p in due ==> p.key in es && p == PendingOf(p.key, es[p.key]) && Due(cfg, es[p.key], now))
    && (forall k :: k in es && Due(cfg, es[k], now) ==> PendingOf(k, es[k]) in due)
  }

  /** The list on the records' own fields: a change that was not sent within the debounce, or never, and
      an online that was last sent a refresh ago, are listed with the state wanted; nothing else is; and
      among those to be shown alike, the one sent longest ago comes first. */
  ghost predicate Serves(cfg: Config, es: Entries, now: real, due: seq<Pending>) {
    && (forall k :: k in es && Owed(cfg, es[k], now) ==> Lists(due, k, es[k].desired))
    && (forall p :: p in due ==> p.key in es && p.presence == es[p.key].desired && Owed(cfg, es[p.key], now))
    && (forall i, j :: 0 <= i < j < |due| && SameKind(due[i], due[j]) ==>
          (due[j].sentAt == None ==> due[i].sentAt == None))
    && (forall i, j :: 0 <= i < j < |due| && SameKind(due[i], due[j]) ==>
          (due[i].sentAt.Some? && due[j].sentAt.Some? ==> due[i].sentAt.value <= due[j].sentAt.value))
  }

  predicate Owed(cfg: Config, e: Entry, now: real) {
    || (e.desired != e.sent && (e.sentAt == None || now - e.sentAt.value >= cfg.debounce))
    || (e.desired == "online" == e.sent && (e.sentAt == None || now - e.sentAt.value >= cfg.refresh))
  }

  predicate SameKind(p: Pending, q: Pending) { (p.presence == "online") == (q.presence == "online") }

  ghost predicate Lists(due: seq<Pending>, k: string, presence: string) {
    exists p :: p in due && p.key == k && p.presence == presence
  }

  lemma {:induction false} DueIsServed(cfg: Config, es: Entries, now: real, due: seq<Pending>)
    requires ListsDue(cfg, es, now, due) && InSendOrder(due)
    ensures Serves(cfg, es, now, due)
  {
    forall k | k in es && Due(cfg, es[k], now) ensures Lists(due, k, es[k].desired) {
      assert PendingOf(k, es[k]) in due;
    }
    forall i, j | 0 <= i < j < |due| ensures !Before(due[j], due[i]) {
    }
  }

  /** Recording the outcome of a send; a failure still moves the time, as a backoff. */
  function Finished(es: Entries, p: Pending, ok: bool, now: real): Entries {
    if p.key in es then
      es[p.key := es[p.key].(sentAt := Some(now), sent := if ok then p.presence else es[p.key].sent)]
    else es
  }

  function InsertDue(p: Pending, due: seq<Pending>): seq<Pending> {
    if due == [] || Before(p, due[0]) then [p] + due else [due[0]] + InsertDue(p, due[1..])
  }

  lemma {:induction false} InsertDueKeeps(p: Pending, due: seq<Pending>)
    ensures forall q :: q in InsertDue(p, due) <==> q == p || q in due
    ensures DistinctKeys(due) && (forall q :: q in due ==> q.key != p.key) ==> DistinctKeys(InsertDue(p, due))
  {
    hide Before;
    if due != [] && !Before(p, due[0]) {
      InsertDueKeeps(p, due[1..]);
      var r := InsertDue(p, due[1..]);
      if DistinctKeys(due) && (forall q :: q in due ==> q.key != p.key) {
        assert forall q :: q in due[1..] ==> q in due;
        forall q | q in r ensures q.key != due[0].key {
          if q in due[1..] {
            var j :| 0 <= j < |due[1..]| && due[1..][j] == q;
            assert due[j + 1] == q;
          } else {
            assert due[0] in due;
          }
        }
      }
    }
  }

  lemma {:induction false} InsertDueSorts(p: Pending, due: seq<Pending>)
    requires InSendOrder(due)
    ensures InSendOrder(InsertDue(p, due))
  {
    if due != [] && !Before(p, due[0]) {
      InsertDueSorts(p, due[1..]);
      InsertDueKeeps(p, due[1..]);
      var r := InsertDue(p, due[1..]);
      forall q | q in r ensures !Before(q, due[0]) {
        if q in due[1..] {
          var j :| 0 <= j < |due[1..]| && due[1..][j] == q;
          assert due[j + 1] == q;
        }
      }
    } else if due != [] {
      forall j | 0 <= j < |due| ensures !Before(due[j], p) {
        if j > 0 { assert !Before(due[j], due[0]); }
      }
    }
  }

  /** The records and the list halfway through a scan, with `todo` still to visit. */
  ghost predicate Partway(cfg: Config, was: Entries, todo: set<string>, now: real, es: Entries, due: seq<Pending>) {
    && todo <= was.Keys && DistinctKeys(due) && InSendOrder(due)
    && (forall k :: k in es ==> k in was)
    && (forall k :: k in was && k in todo ==> k in es && es[k] == was[k])
    && (forall k :: k in was && k !in todo ==> (k in es <==> !Forgotten(Expire(was[k], now), now)))
    && (forall k :: k in es && k !in todo ==> es[k] == Expire(was[k], now))
    && (forall p :: p in due ==>
          p.key in es && p.key !in todo && p == PendingOf(p.key, es[p.key]) && Due(cfg, es[p.key], now))
    && (forall k :: k in es && k !in todo && Due(cfg, es[k], now) ==> PendingOf(k, es[k]) in due)
  }

  lemma {:induction false} DueNotForgotten(cfg: Config, e: Entry, now: real)
    ensures !(Due(cfg, e, now) && Forgotten(e, now))
  {
  }

  lemma {:induction false} ScanStep(
      cfg: Config, was: Entries, todo: set<string>, now: real, es: Entries, due: seq<Pending>, k: string)
    requires Partway(cfg, was, todo, now, es, due) && k in todo
    ensures var e := Expire(es[k], now); var visited := es[k := e];
      Partway(cfg, was, todo - {k}, now,
              if !Due(cfg, e, now) && Forgotten(e, now) then visited - {k} else visited,
              if Due(cfg, e, now) then InsertDue(PendingOf(k, e), due) else due)
  {
    hide Before, InsertDue, Expire, Due, Forgotten, InSendOrder;
    var e := Expire(es[k], now);
    DueNotForgotten(cfg, e, now);
    if Due(cfg, e, now) {
      InsertDueSorts(PendingOf(k, e), due);
      InsertDueKeeps(PendingOf(k, e), due);
    }
  }

  class Manager {
    const cfg: Config
    var entries: Entries

    ghost predicate Valid()
      reads this
    {
      "" !in entries && |entries| <= cfg.maxTracked && cfg.maxTracked > 0
    }

    constructor (c: Config)
      requires c.maxTracked > 0
      ensures Valid() && entries == map[] && cfg == c
    {
      cfg, entries := c, map[];
    }

    /** Drops the settled record that was touched longest ago, if there is one. */
    method EvictOne() returns (ok: bool)
      requires Valid()
      modifies this
      ensures Valid()
      ensures ok <==> exists k :: k in old(entries) && Settled(old(entries)[k])
      ensures if ok then exists k :: Evictable(old(entries), k) && entries == old(entries) - {k}
              else entries == old(entries)
    {
      var oldestKey := "";
      var oldest := 0.0;
      var todo := entries.Keys;
      while todo != {}
        invariant todo <= entries.Keys
        invariant oldestKey == "" ==> forall k :: k in entries && k !in todo ==> !Settled(entries[k])
        invariant oldestKey != "" ==>
          oldestKey in entries && Settled(entries[oldestKey]) && oldest == entries[oldestKey].touched
        invariant oldestKey != "" ==>
          forall k :: k in entries && k !in todo && Settled(entries[k]) ==> oldest <= entries[k].touched
        decreases |todo|
      {
        var k :| k in todo;
        var e := entries[k];
        if Settled(e) && (oldestKey == "" || e.touched < oldest) {
          oldestKey, oldest := k, e.touched;
        }
        todo := todo - {k};
      }
      if oldestKey == "" { return false; }
      ghost var was := entries;
      SubsetCard((entries - {oldestKey}).Keys, entries.Keys);
      entries := entries - {oldestKey};
      assert Evictable(was, oldestKey);
      return true;
    }

    method Update(u: string, reported: string, until: Option<real>, now: real)
      requires Valid()
      modifies this
      ensures Valid()
      ensures Updates(cfg, old(entries), u, reported, until, now, entries)
    {
      hide Normal, Fresh, Settled;
      if u == "" || reported == "" { return; }
      var p := Normal(reported);
      var e: Entry;
      ghost var was := entries;
      if u in entries {
        e := entries[u].(desired := p, until := until, touched := now);
      } else {
        if |entries| >= cfg.maxTracked {
          var ok := EvictOne();
          if !ok { return; }
          ghost var k :| Evictable(was, k) && entries == was - {k};
          assert |entries| < |was| by {
            SubsetCard(entries.Keys, was.Keys - {k});
          }
        }
        e := Fresh(p, until, now);
      }
      SubsetCard(entries.Keys, entries[u := e].Keys);
      assert entries[u := e].Keys == entries.Keys + {u};
      entries := entries[u := e];
    }

    /** The first half of Activity: someone did something at time `at` (None if unknown). The lock is
        released with the answer; the second half is an Update to online until then, if there is one. */
    method CheckActivity(u: string, at: Option<real>, now: real) returns (report: Option<real>)
      requires Valid()
      ensures report == ActivityState(entries, u, at, now)
      ensures report.Some? ==> now < report.value <= now + 300.0
      ensures at.Some? && at.value <= now && report.Some? ==> report.value == at.value + 300.0
      ensures (at.None? || at.value > now) && report.Some? ==> report.value == now + 300.0
      ensures u !in entries && (at.Some? ==> at.value + 300.0 > now) ==> report.Some?
    {
      var seen := if at.None? || at.value > now then now else at.value;
      var until := seen + ACTIVITY_ONLINE;
      if until <= now { return None; }
      var longer := u in entries && entries[u].desired == ONLINE
                 && (entries[u].until.None? || entries[u].until.value > until);
      return if longer then None else Some(until);
    }

    /** The locked first part of a tick: expire, forget, and list what is due in sending order. */
    method ScanDue(now: real) returns (due: seq<Pending>)
      requires Valid()
      modifies this
      ensures Valid()
      ensures entries == Scanned(old(entries), now)
      ensures ListsDue(cfg, entries, now, due) && InSendOrder(due)
      ensures Serves(cfg, entries, now, due)
    {
      due := [];
      ghost var was := entries;
      var todo := entries.Keys;
      while todo != {}
        invariant Partway(cfg, was, todo, now, entries, due)
        decreases |todo|
      {
        var k :| k in todo;
        var e := Expire(entries[k], now);
        ScanStep(cfg, was, todo, now, entries, due, k);
        entries := entries[k := e];
        todo := todo - {k};
        if Due(cfg, e, now) {
          due := InsertDue(PendingOf(k, e), due);
        } else if Forgotten(e, now) {
          entries := entries - {k};
        }
      }
      assert entries == Scanned(was, now);
      SubsetCard(entries.Keys, was.Keys);
      DueIsServed(cfg, entries, now, due);
    }

    /** The locked last part of a send. */
    method FinishSend(p: Pending, ok: bool, now: real)
      requires Valid()
      modifies this
      ensures Valid() && entries == Finished(old(entries), p, ok, now)
    {
      if p.key in entries {
        var e := entries[p.key].(sentAt := Some(now));
        if ok { e := e.(sent := p.presence); }
        assert entries[p.key := e].Keys == entries.Keys;
        entries := entries[p.key := e];
      }
    }
  }
}
