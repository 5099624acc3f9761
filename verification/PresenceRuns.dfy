/** Every interleaving of status updates with the presence worker (pkg/presence/presence.go). The
    worker holds the lock while it scans and while it records an outcome, but not in between: updates
    may change, evict or recreate any record while a send is under way. */
module PresenceRuns {
  import opened Prelude
  import opened TokenBucket
  import opened Presence

  /** A send for a user: `at` is when the limiter let it go. */
  datatype Attempt = Attempt(presence: string, at: real, ok: bool)

  datatype Worker =
    | Resting
    | Scanning(now: real)
    | Sending(due: seq<Pending>, scan: real)
    | InFlight(p: Pending, at: real, due: seq<Pending>, scan: real)

  /** `kept` is the history of each record since it was created, `log` the times of all attempts,
      `called` the users of all attempts, and `others` the users ever reported as anything but
      offline. */
  datatype State = State(
    clock: real, entries: Entries, bucket: Bucket, worker: Worker,
    kept: map<string, seq<Attempt>>, log: seq<real>, called: set<string>, others: set<string>)

  datatype Step =
    | Advance(t: real)
    | Report(u: string, presence: string, until: Option<real>, now: real, result: Entries)
    | BeginTick
    | Scan(due: seq<Pending>)
    | Allow
    | Done(ok: bool)
    | EndTick

  ghost predicate Init(cfg: Config, s: State) {
    && cfg.debounce > 0.0 && cfg.refresh > 0.0 && cfg.rate > 0.0 && cfg.maxTracked > 0
    && s.bucket == Bucket(cfg.rate, cfg.burst as real, cfg.burst as real, s.clock)
    && s == State(s.clock, map[], s.bucket, Resting, map[], [], {}, {})
  }

  /** A report reads the clock before it gets the lock, so its time may lie in the past. The update that
      follows an observed activity is a report like any other. */
  ghost predicate Enabled(cfg: Config, s: State, a: Step) {
    match a
    case Advance(t) => t >= s.clock
    case Report(u, p, until, now, result) => now <= s.clock && Updates(cfg, s.entries, u, p, until, now, result)
    case BeginTick => s.worker.Resting?
    case Scan(due) => s.worker.Scanning? && ListsDue(cfg, Scanned(s.entries, s.worker.now), s.worker.now, due)
      && InSendOrder(due)
    case Allow => s.worker.Sending? && s.worker.due != []
    case Done(_) => s.worker.InFlight?
    case EndTick => s.worker.Sending? && s.worker.due == []
  }

  function KeptAfter(kept: map<string, seq<Attempt>>, es: Entries): map<string, seq<Attempt>> {
    map k | k in es :: if k in kept then kept[k] else []
  }

  function AfterReport(s: State, u: string, p: string, result: Entries): State {
    s.(entries := result, kept := KeptAfter(s.kept, result),
       others := if u == "" || p == "" || Normal(p) == OFFLINE then s.others else s.others + {u})
  }

  function AfterScan(s: State, due: seq<Pending>): State
    requires s.worker.Scanning?
  {
    var es := Scanned(s.entries, s.worker.now);
    s.(entries := es, kept := KeptAfter(s.kept, es), worker := Sending(due, s.worker.now))
  }

  function AfterAllowed(s: State): State
    requires s.worker.Sending? && s.worker.due != []
  {
    var w := s.worker;
    if Grants(s.bucket, s.clock) then
      s.(bucket := AfterAllow(s.bucket, s.clock), worker := InFlight(w.due[0], s.clock, w.due[1..], w.scan),
         log := s.log + [s.clock], called := s.called + {w.due[0].key})
    else s.(bucket := AfterAllow(s.bucket, s.clock), worker := Resting)
  }

  function AfterDone(s: State, ok: bool): State
    requires s.worker.InFlight?
  {
    var w := s.worker;
    s.(entries := Finished(s.entries, w.p, ok, s.clock), worker := Sending(w.due, w.scan),
       kept := if w.p.key in s.entries && w.p.key in s.kept
               then s.kept[w.p.key := s.kept[w.p.key] + [Attempt(w.p.presence, w.at, ok)]] else s.kept)
  }

  ghost function Next(cfg: Config, s: State, a: Step): State
    requires Enabled(cfg, s, a)
  {
    match a
    case Advance(t) => s.(clock := t)
    case Report(u, p, _, _, result) => AfterReport(s, u, p, result)
    case BeginTick => s.(worker := Scanning(s.clock))
    case Scan(due) => AfterScan(s, due)
    case Allow => AfterAllowed(s)
    case Done(ok) => AfterDone(s, ok)
    case EndTick => s.(worker := Resting)
  }

  ghost predicate IsRun(cfg: Config, steps: seq<Step>, states: seq<State>) {
    && |states| == |steps| + 1
    && Init(cfg, states[0])
    && forall i :: 0 <= i < |steps| ==>
         Enabled(cfg, states[i], steps[i]) && states[i + 1] == Next(cfg, states[i], steps[i])
  }

  // ----- The rate bound -----

  ghost predicate RateInv(cfg: Config, s: State) {
    && s.bucket.rate == cfg.rate && s.bucket.burst == cfg.burst as real
    && s.bucket.last <= s.clock && Limited(s.bucket, s.log)
  }

  lemma {:induction false} StepKeepsRate(cfg: Config, s: State, a: Step)
    requires RateInv(cfg, s) && Enabled(cfg, s, a)
    ensures RateInv(cfg, Next(cfg, s, a))
  {
    hide Limited, Updates, ListsDue;
    if a.Allow? {
      AllowKeepsLimited(s.bucket, s.log, s.clock);
    }
  }

  // ----- Bounded memory -----

  ghost predicate TrackInv(cfg: Config, s: State) {
    && s.kept.Keys == s.entries.Keys && "" !in s.entries && |s.entries| <= cfg.maxTracked
  }

  /** What an update may do to the other records: at most one disappears, and only a settled one. */
  lemma {:induction false} UpdateFacts(
      cfg: Config, es: Entries, u: string, p: string, until: Option<real>, now: real, es': Entries)
    requires Updates(cfg, es, u, p, until, now, es') && cfg.maxTracked > 0
    ensures forall k :: k in es && k !in es' ==> Settled(es[k])
    ensures forall k :: k in es' && k != u ==> k in es && es'[k] == es[k]
    ensures u == "" || p == "" ==> es' == es
    ensures u in es && u in es' && es' != es ==>
      es'[u].sent == es[u].sent && es'[u].sentAt == es[u].sentAt && es'[u].desired == Normal(p)
    ensures u !in es && u in es' ==> es'[u] == Fresh(Normal(p), until, now)
  {
    hide Normal, Fresh, Settled;
    if u != "" && p != "" && u !in es && |es| >= cfg.maxTracked && exists k :: k in es && Settled(es[k]) {
      var k :| Evictable(es, k) && es' == (es - {k})[u := Fresh(Normal(p), until, now)];
    }
  }

  lemma {:induction false} UpdateBounded(
      cfg: Config, es: Entries, u: string, p: string, until: Option<real>, now: real, es': Entries)
    requires Updates(cfg, es, u, p, until, now, es') && cfg.maxTracked > 0
    requires |es| <= cfg.maxTracked && "" !in es
    ensures |es'| <= cfg.maxTracked && "" !in es'
  {
    hide Normal, Fresh, Settled;
    if u == "" || p == "" {
    } else if u in es {
      assert es'.Keys == es.Keys;
    } else if |es| < cfg.maxTracked {
      assert es'.Keys == es.Keys + {u};
    } else if exists k :: k in es && Settled(es[k]) {
      var k :| Evictable(es, k) && es' == (es - {k})[u := Fresh(Normal(p), until, now)];
      assert es'.Keys == (es.Keys - {k}) + {u};
    }
  }

  lemma {:induction false} StepKeepsTrack(cfg: Config, s: State, a: Step)
    requires TrackInv(cfg, s) && Enabled(cfg, s, a) && cfg.maxTracked > 0
    ensures TrackInv(cfg, Next(cfg, s, a))
    ensures forall k :: k in s.entries && k !in Next(cfg, s, a).entries ==>
              Settled(if a.Scan? then Expire(s.entries[k], s.worker.now) else s.entries[k])
  {
    hide Updates, ListsDue, InSendOrder, Settled;
    match a
    case Report(u, p, until, now, result) =>
      UpdateFacts(cfg, s.entries, u, p, until, now, result);
      UpdateBounded(cfg, s.entries, u, p, until, now, result);
    case Scan(due) =>
      SubsetCard(Scanned(s.entries, s.worker.now).Keys, s.entries.Keys);
      forall k | k in s.entries && k !in Next(cfg, s, a).entries ensures Settled(Expire(s.entries[k], s.worker.now)) {
        assert Forgotten(Expire(s.entries[k], s.worker.now), s.worker.now);
      }
    case Done(ok) => assert Next(cfg, s, a).entries.Keys == s.entries.Keys;
    case _ =>
  }

  /** How long a record vouches for the user being online; None if it does not, Some(None) for as long
      as nothing else is reported. */
  function OnlineUntil(es: Entries, u: string): Option<Option<real>> {
    if u in es && es[u].desired == ONLINE then Some(es[u].until) else None
  }

  /** Whatever online was known for `u` in `es` is known for as long in `es'`. */
  predicate NotShortened(es: Entries, es': Entries, u: string) {
    OnlineUntil(es, u).Some? ==>
      var before, after := OnlineUntil(es, u).value, OnlineUntil(es', u);
      after.Some? && (after.value.None? || (before.Some? && after.value.value >= before.value))
  }

  /** Activity checks the records as they were in `seen` and then, with the lock released in between,
      updates `es` to `es'`. */
  ghost predicate ActivityUpdates(cfg: Config, seen: Entries, es: Entries, u: string, at: Option<real>, checked: real,
                                  now: real, es': Entries) {
    var report := ActivityState(seen, u, at, checked);
    if report.None? then es' == es else Updates(cfg, es, u, ONLINE, report, now, es')
  }

  /** Exact condition: activity cuts a longer online short if and only if one was recorded between its
      check and its update. A tracked user it reports is online for the five minutes that follow. */
  lemma {:induction false} ActivityShortensIff(
      cfg: Config, seen: Entries, es: Entries, u: string, at: Option<real>, checked: real, now: real, es': Entries)
    requires cfg.maxTracked > 0 && ActivityUpdates(cfg, seen, es, u, at, checked, now, es')
    ensures var report := ActivityState(seen, u, at, checked);
      && (NotShortened(es, es', u) <==> u == "" || report.None? || !OnlineBeyond(es, u, report.value))
      && (report.Some? && u != "" && u in es ==> OnlineUntil(es', u) == Some(report))
  {
  }

  /** Hence with no report about the user in between nothing is cut short, and a tracked user is online
      for five minutes after the activity. */
  lemma {:induction false} ActivityAlone(
      cfg: Config, seen: Entries, es: Entries, u: string, at: Option<real>, checked: real, now: real, es': Entries)
    requires u != "" && cfg.maxTracked > 0 && ActivityUpdates(cfg, seen, es, u, at, checked, now, es')
    requires OnlineUntil(seen, u) == OnlineUntil(es, u) && (u in seen <==> u in es)
    ensures NotShortened(es, es', u)
    ensures u in es && at.Some? && checked - ACTIVITY_ONLINE < at.value <= checked ==> var after := OnlineUntil(es', u);
      after.Some? && (after.value.None? || after.value.value >= at.value + ACTIVITY_ONLINE)
  {
    ActivityShortensIff(cfg, seen, es, u, at, checked, now, es');
  }

  /** A scan takes an online back exactly when the time it was valid for is over, and forgets exactly the
      records that are not wanted online, were sent as they are and have not been touched for an hour. */
  lemma {:induction false} ScanExpires(es: Entries, now: real, k: string)
    requires k in es
    ensures var e := es[k]; var over := e.desired == "online" && e.until.Some? && e.until.value <= now;
      var d := if over then "offline" else e.desired;
      && (k in Scanned(es, now) <==> !(d != "online" && e.sent == d && now - e.touched > 3600.0))
      && (k in Scanned(es, now) ==>
            Scanned(es, now)[k] == e.(desired := d, until := if over then None else e.until))
    ensures k in Scanned(es, now) && Scanned(es, now)[k].desired == "online" && Scanned(es, now)[k].until.Some?
      ==> Scanned(es, now)[k].until.value > now
  {
  }

  /** What a report leaves in the record: idle counts as offline, what was sent is kept, and a user seen
      for the first time counts as sent unless online. */
  lemma {:induction false} ReportRecorded(
      cfg: Config, es: Entries, u: string, reported: string, until: Option<real>, now: real, es': Entries)
    requires Updates(cfg, es, u, reported, until, now, es') && cfg.maxTracked > 0 && u != "" && reported != ""
    ensures u in es || |es| < cfg.maxTracked ==> u in es'
    ensures u in es' ==> var e := es'[u];
      && e.desired == (if reported == "unavailable" then "offline" else reported)
      && e.until == until && e.touched == now
      && (u in es ==> e.sent == es[u].sent && e.sentAt == es[u].sentAt)
      && (u !in es && e.desired == "online" ==> e.sent == "" && e.sentAt == None)
      && (u !in es && e.desired != "online" ==> e.sent == e.desired && e.sentAt == Some(now))
  {
    if u !in es && |es| >= cfg.maxTracked {
      if exists k :: k in es && Settled(es[k]) {
        var k :| Evictable(es, k) && es' == (es - {k})[u := Fresh(Normal(reported), until, now)];
      } else {
        assert es' == es;
      }
    }
  }

  /** A record that has to make room for another is the one left alone for longest of those not wanted
      online and sent as they are, and only a full table gives one up. */
  lemma {:induction false} MakesRoom(
      cfg: Config, es: Entries, u: string, reported: string, until: Option<real>, now: real, es': Entries, k: string)
    requires Updates(cfg, es, u, reported, until, now, es') && k in es && k !in es'
    ensures |es| >= cfg.maxTracked && u !in es && u in es' && es[k].desired != "online" && es[k].sent == es[k].desired
    ensures forall j :: j in es && es[j].desired != "online" && es[j].sent == es[j].desired ==>
      es[k].touched <= es[j].touched
  {
    hide Normal, Fresh;
    if u !in es {
      var v :| Evictable(es, v) && es' == (es - {v})[u := Fresh(Normal(reported), until, now)];
      assert v == k;
      forall j | j in es && es[j].desired != "online" && es[j].sent == es[j].desired
        ensures es[k].touched <= es[j].touched
      {
        assert Settled(es[j]);
      }
    }
  }

  /** A user first seen online is due at the very next scan, unless that has run out by then. */
  lemma {:induction false} FirstOnlineIsDue(
      cfg: Config, es: Entries, u: string, until: Option<real>, now: real, es': Entries, scan: real, due: seq<Pending>)
    requires Updates(cfg, es, u, "online", until, now, es') && cfg.maxTracked > 0 && u != "" && u !in es && u in es'
    requires until.None? || until.value > scan
    requires ListsDue(cfg, Scanned(es', scan), scan, due) && InSendOrder(due)
    ensures Lists(due, u, "online")
  {
    hide Updates, ListsDue, InSendOrder;
    ReportRecorded(cfg, es, u, "online", until, now, es');
    ScanExpires(es', scan, u);
    DueIsServed(cfg, Scanned(es', scan), scan, due);
    assert Owed(cfg, Scanned(es', scan)[u], scan);
  }

  // ----- The history of a record -----

  function LastOk(h: seq<Attempt>): Option<Attempt> {
    if h == [] then None else if h[|h| - 1].ok then Some(h[|h| - 1]) else LastOk(h[..|h| - 1])
  }

  function Gap(cfg: Config): real { MinReal(cfg.debounce, cfg.refresh) }

  /** `a` may follow `h`: it keeps its distance from all of it, and if it repeats the last presence
      that got through, that is a refresh of online. */
  ghost predicate Follows(cfg: Config, h: seq<Attempt>, a: Attempt) {
    && (forall b :: b in h ==> a.at - b.at >= Gap(cfg))
    && ((a.ok && LastOk(h).Some? && LastOk(h).value.presence == a.presence) ==>
          a.presence == ONLINE && a.at - LastOk(h).value.at >= cfg.refresh)
  }

  ghost predicate GoodHistory(cfg: Config, h: seq<Attempt>) {
    h == [] || (GoodHistory(cfg, h[..|h| - 1]) && Follows(cfg, h[..|h| - 1], h[|h| - 1]))
  }

  /** What a record remembers about its history. */
  ghost predicate RecordOk(cfg: Config, e: Entry, h: seq<Attempt>, clock: real) {
    && GoodHistory(cfg, h)
    && (e.sentAt.Some? ==> e.sentAt.value <= clock)
    && (h != [] ==> e.sentAt.Some? && forall a :: a in h ==> a.at <= e.sentAt.value)
    && (LastOk(h).Some? ==> LastOk(h).value.presence == e.sent)
  }

  /** The scan at time `scan` was right to list `p` for a record with this history. A record that
      replaced the scanned one has no history yet. */
  ghost predicate Ready(cfg: Config, e: Entry, h: seq<Attempt>, p: Pending, scan: real) {
    h == [] || (e.sentAt.Some?
      && ((p.presence != e.sent && scan - e.sentAt.value >= cfg.debounce)
          || (p.presence == ONLINE && scan - e.sentAt.value >= cfg.refresh)))
  }

  function Waiting(w: Worker): seq<Pending> {
    match w
    case Sending(due, _) => due
    case InFlight(p, _, due, _) => [p] + due
    case _ => []
  }

  ghost predicate WorkerOk(cfg: Config, s: State) {
    && DistinctKeys(Waiting(s.worker))
    && (s.worker.Scanning? ==> s.worker.now <= s.clock)
    && (s.worker.Sending? ==> s.worker.scan <= s.clock)
    && (s.worker.InFlight? ==> s.worker.scan <= s.worker.at <= s.clock)
    && (s.worker.Sending? || s.worker.InFlight? ==>
          forall p :: p in Waiting(s.worker) && p.key in s.entries && p.key in s.kept
            ==> Ready(cfg, s.entries[p.key], s.kept[p.key], p, s.worker.scan))
  }

  ghost predicate SendInv(cfg: Config, s: State) {
    && s.kept.Keys == s.entries.Keys
    && (forall k :: k in s.entries && k in s.kept ==> RecordOk(cfg, s.entries[k], s.kept[k], s.clock))
    && WorkerOk(cfg, s)
  }

  lemma {:induction false} LastOkIn(h: seq<Attempt>)
    ensures LastOk(h).Some? ==> LastOk(h).value in h
  {
    if h != [] { LastOkIn(h[..|h| - 1]); }
  }

  /** The heart of it: an attempt that was ready may follow the record's history. */
  lemma {:induction false} AttemptFollows(
      cfg: Config, e: Entry, h: seq<Attempt>, p: Pending, scan: real, at: real, ok: bool, now: real)
    requires RecordOk(cfg, e, h, now) && Ready(cfg, e, h, p, scan) && scan <= at <= now
    ensures var a := Attempt(p.presence, at, ok);
      RecordOk(cfg, e.(sentAt := Some(now), sent := if ok then p.presence else e.sent), h + [a], now)
  {
    var a := Attempt(p.presence, at, ok);
    LastOkIn(h);
    assert (h + [a])[..|h|] == h;
    assert Follows(cfg, h, a);
  }

  lemma {:induction false} ReportKeepsSend(
      cfg: Config, s: State, u: string, p: string, until: Option<real>, now: real, result: Entries)
    requires SendInv(cfg, s) && now <= s.clock && Updates(cfg, s.entries, u, p, until, now, result)
      && cfg.maxTracked > 0
    ensures SendInv(cfg, AfterReport(s, u, p, result))
  {
    hide Updates, RecordOk, Ready, Fresh, Normal;
    UpdateFacts(cfg, s.entries, u, p, until, now, result);
    var t := AfterReport(s, u, p, result);
    forall k | k in t.entries ensures RecordOk(cfg, t.entries[k], t.kept[k], t.clock) {
      if k in s.entries {
        SameToHistory(cfg, s.entries[k], t.entries[k], s.kept[k], s.clock, Pending("", "", None), 0.0);
      } else {
        FreshOk(cfg, Normal(p), until, now, s.clock, Pending("", "", None), 0.0);
      }
    }
    if s.worker.Sending? || s.worker.InFlight? {
      var scan := s.worker.scan;
      forall q | q in Waiting(s.worker) && q.key in t.entries
        ensures Ready(cfg, t.entries[q.key], t.kept[q.key], q, scan)
      {
        if q.key in s.entries {
          SameToHistory(cfg, s.entries[q.key], t.entries[q.key], s.kept[q.key], s.clock, q, scan);
        } else {
          FreshOk(cfg, Normal(p), until, now, s.clock, q, scan);
        }
      }
    }
  }

  /** A record's history only concerns what was sent and when. */
  lemma {:induction false} SameToHistory(
      cfg: Config, e: Entry, f: Entry, h: seq<Attempt>, clock: real, p: Pending, scan: real)
    requires f.sent == e.sent && f.sentAt == e.sentAt
    ensures RecordOk(cfg, e, h, clock) == RecordOk(cfg, f, h, clock)
    ensures Ready(cfg, e, h, p, scan) == Ready(cfg, f, h, p, scan)
  {
  }

  lemma {:induction false} FreshOk(
      cfg: Config, presence: string, until: Option<real>, now: real, clock: real, p: Pending, scan: real)
    requires now <= clock
    ensures RecordOk(cfg, Fresh(presence, until, now), [], clock)
      && Ready(cfg, Fresh(presence, until, now), [], p, scan)
  {
  }

  lemma {:induction false} ScanKeepsSend(cfg: Config, s: State, due: seq<Pending>)
    requires SendInv(cfg, s) && Enabled(cfg, s, Scan(due))
    ensures SendInv(cfg, AfterScan(s, due))
  {
    hide Gap, InSendOrder, Forgotten, GoodHistory, LastOk;
    var t := AfterScan(s, due);
    forall k | k in t.entries ensures RecordOk(cfg, t.entries[k], t.kept[k], t.clock) {
      assert RecordOk(cfg, s.entries[k], s.kept[k], s.clock);
    }
    forall p | p in due ensures Ready(cfg, t.entries[p.key], t.kept[p.key], p, t.worker.scan) {
      assert Due(cfg, t.entries[p.key], s.worker.now);
      assert RecordOk(cfg, t.entries[p.key], t.kept[p.key], t.clock);
    }
  }

  lemma {:induction false} AllowKeepsSend(cfg: Config, s: State)
    requires SendInv(cfg, s) && s.worker.Sending? && s.worker.due != []
    ensures SendInv(cfg, AfterAllowed(s))
  {
    hide Grants, AfterAllow, RecordOk, Ready;
    var t := AfterAllowed(s);
    if Grants(s.bucket, s.clock) {
      assert Waiting(t.worker) == Waiting(s.worker);
    }
  }

  lemma {:induction false} DoneKeepsSend(cfg: Config, s: State, ok: bool)
    requires SendInv(cfg, s) && s.worker.InFlight?
    ensures SendInv(cfg, AfterDone(s, ok))
  {
    hide Gap, RecordOk, Ready;
    var t := AfterDone(s, ok);
    var w := s.worker;
    assert w.p in Waiting(w) && Waiting(w)[0] == w.p;
    if w.p.key in s.entries {
      AttemptFollows(cfg, s.entries[w.p.key], s.kept[w.p.key], w.p, w.scan, w.at, ok, s.clock);
    }
    forall p | p in w.due && p.key in t.entries && p.key in t.kept
      ensures Ready(cfg, t.entries[p.key], t.kept[p.key], p, w.scan)
    {
      var j :| 0 <= j < |w.due| && w.due[j] == p;
      assert Waiting(w)[j + 1] == p && p in Waiting(w);
    }
    assert DistinctKeys(w.due) by {
      forall i, j | 0 <= i < j < |w.due| ensures w.due[i].key != w.due[j].key {
        assert Waiting(w)[i + 1] == w.due[i] && Waiting(w)[j + 1] == w.due[j];
      }
    }
  }

  lemma {:induction false} StepKeepsSend(cfg: Config, s: State, a: Step)
    requires SendInv(cfg, s) && Enabled(cfg, s, a) && cfg.maxTracked > 0
    ensures SendInv(cfg, Next(cfg, s, a))
  {
    match a
    case Report(u, p, until, now, result) => ReportKeepsSend(cfg, s, u, p, until, now, result);
    case Scan(due) => ScanKeepsSend(cfg, s, due);
    case Allow => AllowKeepsSend(cfg, s);
    case Done(ok) => DoneKeepsSend(cfg, s, ok);
    case Advance(t) => { hide GoodHistory, LastOk, Ready; }
    case _ =>
  }

  // ----- Users only ever reported offline -----

  ghost predicate QuietInv(s: State) {
    && (forall k :: k in s.entries && k !in s.others ==>
          s.entries[k].desired == OFFLINE && s.entries[k].sent == OFFLINE)
    && (forall p :: p in Waiting(s.worker) ==> p.key in s.others)
    && s.called <= s.others
  }

  lemma {:induction false} StepKeepsQuiet(cfg: Config, s: State, a: Step)
    requires QuietInv(s) && Enabled(cfg, s, a) && cfg.maxTracked > 0
    ensures QuietInv(Next(cfg, s, a))
  {
    hide Updates, InSendOrder, Forgotten, Finished, Grants, AfterAllow;
    match a
    case Report(u, p, until, now, result) => ReportKeepsQuiet(cfg, s, u, p, until, now, result);
    case Done(ok) => DoneKeepsQuiet(s, ok);
    case Allow => assert s.worker.due[0] in Waiting(s.worker);
    case _ =>
  }

  lemma {:induction false} ReportKeepsQuiet(
      cfg: Config, s: State, u: string, p: string, until: Option<real>, now: real, result: Entries)
    requires QuietInv(s) && Updates(cfg, s.entries, u, p, until, now, result) && cfg.maxTracked > 0
    ensures QuietInv(AfterReport(s, u, p, result))
  {
    hide Updates;
    UpdateFacts(cfg, s.entries, u, p, until, now, result);
  }

  lemma {:induction false} DoneKeepsQuiet(s: State, ok: bool)
    requires QuietInv(s) && s.worker.InFlight?
    ensures QuietInv(AfterDone(s, ok))
  {
    assert s.worker.p in Waiting(s.worker);
    assert forall p :: p in s.worker.due ==> p in Waiting(s.worker);
  }

  // ----- Whole runs -----

  lemma {:induction false} RunInv(cfg: Config, steps: seq<Step>, states: seq<State>, n: nat)
    requires IsRun(cfg, steps, states) && n < |states|
    ensures RateInv(cfg, states[n]) && TrackInv(cfg, states[n]) && SendInv(cfg, states[n]) && QuietInv(states[n])
  {
    hide Next, Enabled, RateInv, TrackInv, SendInv, QuietInv;
    if n == 0 {
      InitInv(cfg, states[0]);
    } else {
      RunInv(cfg, steps, states, n - 1);
      var s, a := states[n - 1], steps[n - 1];
      assert Enabled(cfg, s, a) && states[n] == Next(cfg, s, a);
      StepKeepsRate(cfg, s, a);
      StepKeepsTrack(cfg, s, a);
      StepKeepsSend(cfg, s, a);
      StepKeepsQuiet(cfg, s, a);
    }
  }

  lemma {:induction false} InitInv(cfg: Config, s: State)
    requires Init(cfg, s)
    ensures RateInv(cfg, s) && TrackInv(cfg, s) && SendInv(cfg, s) && QuietInv(s)
  {
  }

  /** Neither of the attempts between `i` and `j` got through. */
  predicate SuccessiveSends(h: seq<Attempt>, i: nat, j: nat) {
    i < j < |h| && h[i].ok && h[j].ok && forall k :: i < k < j ==> !h[k].ok
  }

  lemma {:induction false} LastOkIs(h: seq<Attempt>, i: nat)
    requires i < |h| && h[i].ok && forall k :: i < k < |h| ==> !h[k].ok
    ensures LastOk(h) == Some(h[i])
  {
    if i < |h| - 1 { LastOkIs(h[..|h| - 1], i); }
  }

  lemma {:induction false} GoodHistoryReads(cfg: Config, h: seq<Attempt>, i: nat, j: nat)
    requires GoodHistory(cfg, h) && i < j < |h|
    ensures h[j].at - h[i].at >= Gap(cfg)
    ensures SuccessiveSends(h, i, j) && h[i].presence == h[j].presence ==>
              h[i].presence == ONLINE && h[j].at - h[i].at >= cfg.refresh
  {
    var front := h[..|h| - 1];
    if j < |h| - 1 {
      GoodHistoryReads(cfg, front, i, j);
      assert SuccessiveSends(h, i, j) ==> SuccessiveSends(front, i, j);
    } else {
      assert front[i] in front;
      if SuccessiveSends(h, i, j) { LastOkIs(front, i); }
    }
  }

  /** In every run, as long as a user's record is kept: any two attempts are at least the smaller of
      debounce and refresh apart, and of two successive sends that got through, equal ones are both
      online and a refresh apart; so never two offlines in a row. */
  lemma {:induction false} SendHistory(
      cfg: Config, steps: seq<Step>, states: seq<State>, n: nat, u: string, i: nat, j: nat)
    requires IsRun(cfg, steps, states) && n < |states| && u in states[n].kept
    requires i < j < |states[n].kept[u]|
    ensures var h := states[n].kept[u];
      && h[j].at - h[i].at >= Gap(cfg)
      && (SuccessiveSends(h, i, j) && h[i].presence == ONLINE == h[j].presence ==> h[j].at - h[i].at >= cfg.refresh)
      && !(SuccessiveSends(h, i, j) && h[i].presence == OFFLINE == h[j].presence)
  {
    RunInv(cfg, steps, states, n);
    var h := states[n].kept[u];
    assert RecordOk(cfg, states[n].entries[u], h, states[n].clock);
    GoodHistoryReads(cfg, h, i, j);
  }

  /** In every run and every time window, the attempts of all users together stay within the burst
      plus what the rate allows. */
  lemma {:induction false} RateBound(cfg: Config, steps: seq<Step>, states: seq<State>, n: nat, from: real, to: real)
    requires IsRun(cfg, steps, states) && n < |states| && from <= to
    ensures CountIn(states[n].log, from, to) as real <= cfg.burst as real + (to - from) * cfg.rate
  {
    RunInv(cfg, steps, states, n);
    WindowBound(states[n].bucket, states[n].log, from, to);
  }

  /** In every run: a user only ever reported offline is never sent anything, at most MaxTracked
      records exist, and no step drops a record that is wanted online or not yet settled. */
  lemma {:induction false} QuietAndBounded(cfg: Config, steps: seq<Step>, states: seq<State>, n: nat)
    requires IsRun(cfg, steps, states) && n < |states|
    ensures states[n].called <= states[n].others
    ensures |states[n].entries| <= cfg.maxTracked
    ensures n < |steps| ==> forall k :: k in states[n].entries && k !in states[n + 1].entries ==>
              Settled(if steps[n].Scan? then Expire(states[n].entries[k], states[n].worker.now)
                else states[n].entries[k])
  {
    RunInv(cfg, steps, states, n);
    if n < |steps| {
      StepKeepsTrack(cfg, states[n], steps[n]);
    }
  }

  /** The race is real: the check finds nothing known about the user, the network reports them online
      until further notice, and the update then limits that to five minutes. */
  lemma {:induction false} ActivityRace(cfg: Config, u: string)
    returns (steps: seq<Step>, states: seq<State>, report: real)
    requires cfg.debounce > 0.0 && cfg.refresh > 0.0 && cfg.rate > 0.0 && cfg.maxTracked > 0 && u != ""
    ensures IsRun(cfg, steps, states) && |steps| == 2
    ensures ActivityState(states[0].entries, u, None, states[0].clock) == Some(report)
    ensures OnlineUntil(states[1].entries, u) == Some(None)
    ensures steps[1] == Report(u, ONLINE, Some(report), states[0].clock, states[2].entries)
    ensures OnlineUntil(states[2].entries, u) == Some(Some(report))
    ensures !NotShortened(states[1].entries, states[2].entries, u)
  {
    var now := 1000.0;
    report := now + ACTIVITY_ONLINE;
    var burst := cfg.burst as real;
    var s0 := State(now, map[], Bucket(cfg.rate, burst, burst, now), Resting, map[], [], {}, {});
    var es1 := map[u := Fresh(ONLINE, None, now)];
    var es2 := es1[u := es1[u].(until := Some(report))];
    steps := [Report(u, ONLINE, None, now, es1), Report(u, ONLINE, Some(report), now, es2)];
    assert Updates(cfg, s0.entries, u, ONLINE, None, now, es1);
    var s1 := Next(cfg, s0, steps[0]);
    assert Updates(cfg, s1.entries, u, ONLINE, Some(report), now, es2);
    states := [s0, s1, Next(cfg, s1, steps[1])];
  }

  // ----- Online first -----

  /** `b` is what is left of `a` after its first elements. */
  predicate Suffix(a: seq<Pending>, b: seq<Pending>) {
    |b| <= |a| && b == a[|a| - |b|..]
  }

  lemma {:induction false} SuffixThrough(a: seq<Pending>, b: seq<Pending>, c: seq<Pending>)
    ensures Suffix(a, a) && (Suffix(a, b) && Suffix(b, c) ==> Suffix(a, c))
  {
  }

  lemma {:induction false} SuffixNone(a: seq<Pending>)
    ensures Suffix(a, [])
  {
  }

  lemma {:induction false} SuffixTail(p: Pending, due: seq<Pending>)
    ensures Suffix([p] + due, due)
  {
  }

  /** Within a tick the worker goes through its list from the front. */
  lemma {:induction false} StepWorksThrough(cfg: Config, s: State, a: Step)
    requires Enabled(cfg, s, a) && !a.BeginTick? && !s.worker.Scanning?
    ensures var t := Next(cfg, s, a); !t.worker.Scanning? && Suffix(Waiting(s.worker), Waiting(t.worker))
  {
    hide Updates, ListsDue, InSendOrder, Grants, AfterAllow, Suffix;
    var before := Waiting(s.worker);
    SuffixThrough(before, before, before);
    SuffixNone(before);
    if a.Done? {
      SuffixTail(s.worker.p, s.worker.due);
    } else if a.Allow? {
      assert [s.worker.due[0]] + s.worker.due[1..] == s.worker.due;
    }
  }

  lemma {:induction false} WorksThrough(cfg: Config, steps: seq<Step>, states: seq<State>, from: nat, n: nat)
    requires IsRun(cfg, steps, states) && from <= n < |states| && !states[from].worker.Scanning?
    requires forall i :: from <= i < n ==> !steps[i].BeginTick?
    ensures !states[n].worker.Scanning? && Suffix(Waiting(states[from].worker), Waiting(states[n].worker))
    decreases n
  {
    hide Enabled, Next, Suffix, Waiting;
    if from == n {
      SuffixThrough(Waiting(states[n].worker), Waiting(states[n].worker), Waiting(states[n].worker));
    } else {
      WorksThrough(cfg, steps, states, from, n - 1);
      assert Enabled(cfg, states[n - 1], steps[n - 1]) && states[n] == Next(cfg, states[n - 1], steps[n - 1]);
      StepWorksThrough(cfg, states[n - 1], steps[n - 1]);
      SuffixThrough(Waiting(states[from].worker), Waiting(states[n - 1].worker), Waiting(states[n].worker));
    }
  }

  /** What is waiting to be sent is in sending order. */
  lemma {:induction false} WaitingInOrder(cfg: Config, steps: seq<Step>, states: seq<State>, n: nat)
    requires IsRun(cfg, steps, states) && n < |states|
    ensures InSendOrder(Waiting(states[n].worker))
  {
    hide Enabled, Next, InSendOrder;
    if n == 0 {
      NothingInOrder();
      assert Waiting(states[0].worker) == [];
    } else {
      WaitingInOrder(cfg, steps, states, n - 1);
      assert Enabled(cfg, states[n - 1], steps[n - 1]) && states[n] == Next(cfg, states[n - 1], steps[n - 1]);
      StepKeepsOrder(cfg, states[n - 1], steps[n - 1]);
    }
  }

  lemma {:induction false} NothingInOrder()
    ensures InSendOrder([])
  {
  }

  lemma {:induction false} StepKeepsOrder(cfg: Config, s: State, a: Step)
    requires Enabled(cfg, s, a) && InSendOrder(Waiting(s.worker))
    ensures InSendOrder(Waiting(Next(cfg, s, a).worker))
  {
    hide Updates, ListsDue, InSendOrder, Suffix, Grants, AfterAllow;
    NothingInOrder();
    if !s.worker.Scanning? && !a.BeginTick? {
      StepWorksThrough(cfg, s, a);
      SuffixInOrder(Waiting(s.worker), Waiting(Next(cfg, s, a).worker));
    }
  }

  lemma {:induction false} SuffixInOrder(a: seq<Pending>, b: seq<Pending>)
    requires InSendOrder(a) && Suffix(a, b)
    ensures InSendOrder(b)
  {
    hide Before;
    var k := |a| - |b|;
    forall i, j | 0 <= i < j < |b| ensures !Before(b[j], b[i]) {
      assert b[i] == a[k + i] && b[j] == a[k + j];
    }
  }

  /** In every run: while a user still waits to appear online, in particular when the limiter ends the
      tick, every send of that tick was to online. */
  lemma {:induction false} OnlineFirst(cfg: Config, steps: seq<Step>, states: seq<State>, sent: nat, n: nat, j: nat)
    requires IsRun(cfg, steps, states) && sent < n < |states|
    requires steps[sent].Allow? && forall i :: sent <= i < n ==> !steps[i].BeginTick?
    requires states[n].worker.Sending? && j < |states[n].worker.due| && states[n].worker.due[j].presence == ONLINE
    ensures states[sent].worker.Sending? && states[sent].worker.due != []
    ensures states[sent].worker.due[0].presence == ONLINE
  {
    hide Next, Updates, ListsDue, InSendOrder;
    assert Enabled(cfg, states[sent], steps[sent]);
    WorksThrough(cfg, steps, states, sent, n);
    WaitingInOrder(cfg, steps, states, sent);
    var due, left := states[sent].worker.due, states[n].worker.due;
    assert left[j] == due[|due| - |left| + j];
    FrontOnline(due, |due| - |left| + j);
  }

  lemma {:induction false} FrontOnline(due: seq<Pending>, i: nat)
    requires InSendOrder(due) && i < |due| && due[i].presence == ONLINE
    ensures due[0].presence == ONLINE
  {
    if i > 0 { assert !Before(due[i], due[0]); }
  }

  // ----- What is owed gets sent -----

  /** The attempt that takes `p` off the front of the worker's list. */
  ghost predicate AttemptsAt(states: seq<State>, a: nat, p: Pending) {
    a + 1 < |states| && states[a].worker.Sending? && states[a + 1].worker.InFlight? && states[a + 1].worker.p == p
  }

  ghost predicate Attempted(states: seq<State>, from: nat, to: nat, k: string, presence: string) {
    exists a, p :: from < a < to && AttemptsAt(states, a, p) && p.key == k && p.presence == presence
  }

  /** Within a tick, whatever was waiting and no longer is has been attempted, unless the worker rests. */
  lemma {:induction false} WorkedOff(cfg: Config, steps: seq<Step>, states: seq<State>, from: nat, n: nat, p: Pending)
    requires IsRun(cfg, steps, states) && from <= n < |states| && states[from].worker.Sending?
    requires forall i :: from <= i < n ==> !steps[i].BeginTick?
    requires states[n].worker.Sending? || states[n].worker.InFlight?
    requires p in states[from].worker.due
    ensures p in Waiting(states[n].worker) || exists a :: from <= a < n && AttemptsAt(states, a, p)
    ensures states[n].worker.InFlight? && states[n].worker.p == p ==>
      exists a :: from <= a < n && AttemptsAt(states, a, p)
    decreases n
  {
    hide Enabled, Next, Waiting;
    if from == n {
      WaitingIsDue(states[n].worker);
    } else {
      var s, a := states[n - 1], steps[n - 1];
      assert Enabled(cfg, s, a) && states[n] == Next(cfg, s, a);
      WorksThrough(cfg, steps, states, from, n - 1);
      WorkerGoesOn(cfg, s, a, p);
      WorkedOff(cfg, steps, states, from, n - 1, p);
      if states[n].worker.InFlight? && s.worker.Sending? && states[n].worker.p == p {
        assert AttemptsAt(states, n - 1, p);
      }
    }
  }

  lemma {:induction false} WaitingIsDue(w: Worker)
    requires w.Sending?
    ensures Waiting(w) == w.due
  {
  }

  /** Only at work can a tick go on; what waits goes on waiting unless it was in flight, and what is in
      flight was so or was taken off the list. */
  lemma {:induction false} WorkerGoesOn(cfg: Config, s: State, a: Step, p: Pending)
    requires Enabled(cfg, s, a) && !a.BeginTick? && !s.worker.Scanning?
    ensures var t := Next(cfg, s, a); (t.worker.Sending? || t.worker.InFlight?) ==>
      && (s.worker.Sending? || s.worker.InFlight?)
      && (p in Waiting(s.worker) ==> p in Waiting(t.worker) || (s.worker.InFlight? && s.worker.p == p))
      && (t.worker.InFlight? && t.worker.p == p ==> s.worker.Sending? || s.worker.p == p)
  {
    hide Updates, ListsDue, InSendOrder, Grants, AfterAllow;
    if a.Allow? {
      assert [s.worker.due[0]] + s.worker.due[1..] == s.worker.due;
    }
  }

  /** In every run: a tick that the limiter does not end attempts every change that is owed and every
      online that is to be repeated, with the state wanted when it scanned. */
  lemma {:induction false} TickServes(cfg: Config, steps: seq<Step>, states: seq<State>, scan: nat, n: nat, k: string)
    requires IsRun(cfg, steps, states) && scan < n < |steps|
    requires steps[scan].Scan? && steps[n].EndTick? && forall i :: scan < i < n ==> !steps[i].BeginTick?
    requires k in states[scan + 1].entries && Owed(cfg, states[scan + 1].entries[k], states[scan + 1].worker.scan)
    ensures Attempted(states, scan, n, k, states[scan + 1].entries[k].desired)
  {
    hide WorkerOk, Waiting;
    var s, t := states[scan], states[scan + 1];
    assert Enabled(cfg, s, steps[scan]) && t == Next(cfg, s, steps[scan]);
    var due := steps[scan].due;
    DueIsServed(cfg, t.entries, t.worker.scan, due);
    var p :| p in due && p.key == k && p.presence == t.entries[k].desired;
    assert Enabled(cfg, states[n], steps[n]);
    WorkedOff(cfg, steps, states, scan + 1, n, p);
    NothingWaits(states[n].worker);
    var a :| scan + 1 <= a < n && AttemptsAt(states, a, p);
  }

  lemma {:induction false} NothingWaits(w: Worker)
    requires w.Sending? && w.due == []
    ensures Waiting(w) == []
  {
  }

  /** In every run the limiter holds back only what was used up: from any earlier moment on, its tokens
      are at least what it had plus what accrued, up to the burst, less the attempts since. */
  lemma {:induction false} TokensAccountedFor(cfg: Config, steps: seq<Step>, states: seq<State>, m: nat, n: nat)
    requires IsRun(cfg, steps, states) && m <= n < |states|
    ensures var b, c := states[m].bucket, states[n].bucket;
      && b.rate == c.rate == cfg.rate && b.burst == c.burst == cfg.burst as real
      && c.last >= b.last && c.last <= states[n].clock && |states[n].log| >= |states[m].log|
      && c.tokens >= MinReal(b.burst, b.tokens + Gain(b.rate, c.last - b.last))
                     - (|states[n].log| - |states[m].log|) as real
  {
    hide Gain, MinReal, Enabled, Next, RateInv, TrackInv, SendInv, QuietInv;
    RunRate(cfg, steps, states, m);
    if m == n {
      NoTimeNoGain(states[m].bucket);
    } else {
      TokensAccountedFor(cfg, steps, states, m, n - 1);
      var s, a := states[n - 1], steps[n - 1];
      assert Enabled(cfg, s, a) && states[n] == Next(cfg, s, a);
      TokensStep(cfg, s, a, states[m].bucket, |s.log| - |states[m].log|);
    }
  }

  lemma {:induction false} RunRate(cfg: Config, steps: seq<Step>, states: seq<State>, n: nat)
    requires IsRun(cfg, steps, states) && n < |states|
    ensures var b := states[n].bucket;
      b.rate == cfg.rate >= 0.0 && b.burst == cfg.burst as real && b.last <= states[n].clock && b.tokens <= b.burst
  {
    RunInv(cfg, steps, states, n);
  }

  lemma {:induction false} NoTimeNoGain(b: Bucket)
    requires b.tokens <= b.burst
    ensures b.tokens >= MinReal(b.burst, b.tokens + Gain(b.rate, b.last - b.last)) - (0 as real)
  {
    GainNothing(b.rate);
  }

  lemma {:induction false} TokensStep(cfg: Config, s: State, a: Step, b: Bucket, used: nat)
    requires Enabled(cfg, s, a) && s.bucket.rate == b.rate >= 0.0 && s.bucket.burst == b.burst
    requires b.last <= s.bucket.last <= s.clock
    requires s.bucket.tokens >= MinReal(b.burst, b.tokens + Gain(b.rate, s.bucket.last - b.last)) - used as real
    ensures var t := Next(cfg, s, a);
      && t.bucket.rate == b.rate && t.bucket.burst == b.burst
      && b.last <= t.bucket.last <= t.clock && |t.log| >= |s.log|
      && t.bucket.tokens >= MinReal(b.burst, b.tokens + Gain(b.rate, t.bucket.last - b.last))
                            - (used + |t.log| - |s.log|) as real
  {
    hide Gain, MinReal, Updates, ListsDue, InSendOrder, Grants;
    if a.Allow? {
      AllowKeepsFloor(s.bucket, s.clock, b.tokens + Gain(b.rate, s.bucket.last - b.last), used);
      AllowReads(s.bucket, s.clock);
      GainLinear(b.rate, s.clock, s.bucket.last);
      GainLinear(b.rate, s.bucket.last, b.last);
      GainLinear(b.rate, s.clock, b.last);
    }
  }

  lemma {:induction false} AllowReads(b: Bucket, now: real)
    requires now >= b.last
    ensures var c := AfterAllow(b, now); c.rate == b.rate && c.burst == b.burst && c.last == now
  {
  }

  /** So if it refuses, the attempts since then have used up all but a token of what the rate allows. */
  lemma {:induction false} RefusedOnlyWhenSpent(cfg: Config, steps: seq<Step>, states: seq<State>, m: nat, n: nat)
    requires IsRun(cfg, steps, states) && m <= n < |steps| && steps[n].Allow? && states[n + 1].worker.Resting?
    ensures var b := states[m].bucket; var used := |states[n].log| - |states[m].log|;
      used as real > MinReal(cfg.burst as real, b.tokens + Gain(cfg.rate, states[n].clock - b.last)) - 1.0
  {
    hide Gain, MinReal, RateInv, TrackInv, SendInv, QuietInv;
    TokensAccountedFor(cfg, steps, states, m, n + 1);
    assert Enabled(cfg, states[n], steps[n]) && states[n + 1] == Next(cfg, states[n], steps[n]);
    RunRate(cfg, steps, states, n);
    AllowReads(states[n].bucket, states[n].clock);
    RefusedLeavesLittle(states[n].bucket, states[n].clock);
  }

  lemma {:induction false} RefusedLeavesLittle(b: Bucket, now: real)
    ensures !Grants(b, now) ==> AfterAllow(b, now).tokens < 1.0
  {
  }
}
