/** The two goroutines of historySyncLoop and the producers that feed them
    (pkg/connector/backfill.go), as atomic steps on shared state: a one-slot wakeup channel, the
    durable notification queue, the dispatch timer and the timerPending flag. Stopping or resetting
    a timer discards an expiry nobody has received yet (Go 1.23 and later). */
module HistoryLoop {

  datatype Timer = Stopped | Armed | Expired

  /** Where the main loop is: the step it takes next. `reset` and `errored` are the results of
      handling a notification. */
  datatype Main =
    | Starting
    | Idle
    | Woken
    | Reading
    | Handling
    | Rewaking(reset: bool, errored: bool)
    | Pausing(reset: bool)
    | Flagging(reset: bool)
    | Checking
    | Rearming

  /** Where the portal creation goroutine is. */
  datatype Creator = Waiting | Received | Cleared | Creating

  /** `signalling` counts producers between storing a notification and sending the wakeup. Two
      fields record history: `stalled`, that the last queue read failed, and `unserved`, that a
      batch wanting portals was saved after the last creation run began. */
  datatype State = State(
    queued: nat, token: bool, signalling: nat, timer: Timer, pending: bool,
    main: Main, creator: Creator, stalled: bool, unserved: bool)

  datatype Step =
    | Store            // a producer stores a notification
    | Signal           // a producer sends the wakeup, or finds the slot full
    | Start            // the main loop wakes itself once
    | Take             // the main loop receives the wakeup
    | StopTimer
    | ReadQueue
    | ReadFails
    | Handle(removed: bool, reset: bool, errored: bool)
    | Rewake
    | PauseEnds
    | SetFlag
    | CheckFlag
    | ResetTimer
    | Fire             // the timer expires
    | Receive          // the creator receives the expiry
    | ClearFlag
    | BeginRun
    | EndRun

  /** `needCreating` is a run left over from an earlier login. Producers may have stored notifications
      and sent a wakeup before the loop starts. */
  predicate Init(s: State, needCreating: bool) {
    && s.main == Starting && s.creator == Waiting && !s.stalled
    && s.pending == needCreating && s.timer == (if needCreating then Armed else Stopped)
    && (s.unserved ==> needCreating)
  }

  predicate Enabled(s: State, a: Step) {
    match a
    case Store => true
    case Signal => s.signalling > 0
    case Start => s.main.Starting?
    case Take => s.main.Idle? && s.token
    case StopTimer => s.main.Woken?
    case ReadQueue => s.main.Reading?
    case ReadFails => s.main.Reading?
    // only a notification whose data was stored asks for the timer
    case Handle(removed, reset, _) => s.main.Handling? && (reset ==> removed) && (removed ==> s.queued > 0)
    case Rewake => s.main.Rewaking?
    case PauseEnds => s.main.Pausing?
    case SetFlag => s.main.Flagging?
    case CheckFlag => s.main.Checking?
    case ResetTimer => s.main.Rearming?
    case Fire => s.timer.Armed?
    case Receive => s.creator.Waiting? && s.timer.Expired?
    case ClearFlag => s.creator.Received?
    case BeginRun => s.creator.Cleared?
    case EndRun => s.creator.Creating?
  }

  function Next(s: State, a: Step): State
    requires Enabled(s, a)
  {
    match a
    case Store => s.(queued := s.queued + 1, signalling := s.signalling + 1)
    case Signal => s.(signalling := s.signalling - 1, token := true)
    case Start => s.(token := true, main := Idle)
    case Take => s.(token := false, main := Woken, stalled := false)
    case StopTimer => s.(timer := Stopped, main := Reading)
    case ReadQueue => s.(main := if s.queued == 0 then Flagging(false) else Handling)
    case ReadFails => s.(main := Flagging(false), stalled := true)
    case Handle(removed, reset, errored) =>
      s.(queued := if removed then s.queued - 1 else s.queued,
         unserved := s.unserved || reset, main := Rewaking(reset, errored))
    case Rewake => s.(token := true, main := if s.main.errored then Pausing(s.main.reset) else Flagging(s.main.reset))
    case PauseEnds => s.(main := Flagging(s.main.reset))
    case SetFlag => s.(pending := s.pending || s.main.reset, main := Checking)
    case CheckFlag => s.(main := if s.pending then Rearming else Idle)
    case ResetTimer => s.(timer := Armed, main := Idle)
    case Fire => s.(timer := Expired)
    case Receive => s.(timer := Stopped, creator := Received)
    case ClearFlag => s.(pending := false, creator := Cleared)
    case BeginRun => s.(unserved := false, creator := Creating)
    case EndRun => s.(creator := Waiting)
  }

  ghost predicate IsRun(steps: seq<Step>, states: seq<State>, needCreating: bool) {
    && |states| == |steps| + 1
    && Init(states[0], needCreating)
    && forall i :: 0 <= i < |steps| ==> Enabled(states[i], steps[i]) && states[i + 1] == Next(states[i], steps[i])
  }

  // ----- No lost wakeup -----

  /** The loop has taken a wakeup and not yet seen that the queue is empty or sent the next one, or
      has not sent its first. */
  predicate WillLook(s: State) {
    s.main.Starting? || s.main.Woken? || s.main.Reading? || s.main.Handling? || s.main.Rewaking?
  }

  predicate NoLostWakeup(s: State) {
    s.queued > 0 ==> s.token || s.signalling > 0 || WillLook(s) || s.stalled
  }

  // ----- No stranded batch -----

  /** The main loop is about to raise the flag. */
  predicate AboutToFlag(s: State) {
    (s.main.Rewaking? || s.main.Pausing? || s.main.Flagging?) && s.main.reset
  }

  predicate RunIsDue(s: State) {
    s.unserved ==> s.pending || AboutToFlag(s) || s.creator.Cleared?
  }

  /** Outside its own handling of the timer, the loop never leaves the flag up without a timer that
      will lead to a creation run. */
  predicate FlagHasTimer(s: State) {
    (s.pending && (s.main.Idle? || s.main.Starting? || s.main.Woken?)) ==>
      s.timer.Armed? || s.timer.Expired? || s.creator.Received?
  }

  predicate Inv(s: State) {
    NoLostWakeup(s) && RunIsDue(s) && FlagHasTimer(s)
  }

  lemma {:induction false} StepKeepsInv(s: State, a: Step)
    requires Inv(s) && Enabled(s, a)
    ensures Inv(Next(s, a))
  {
  }

  /** In every interleaving: a queued notification is going to be looked at (unless the last read of
      the queue failed), a saved batch is going to get a creation run, and an idle loop has left the
      timer in a state that leads there. */
  lemma {:induction false} NothingStranded(steps: seq<Step>, states: seq<State>, needCreating: bool, i: nat)
    requires IsRun(steps, states, needCreating) && i < |states|
    ensures Inv(states[i])
    ensures states[i].main.Idle? && states[i].unserved
      ==> || states[i].timer.Armed? || states[i].timer.Expired?
          || states[i].creator.Received? || states[i].creator.Cleared?
    ensures states[i].main.Idle? && states[i].queued > 0
      ==> states[i].token || states[i].signalling > 0 || states[i].stalled
  {
    hide Next, Enabled;
    if i > 0 {
      NothingStranded(steps, states, needCreating, i - 1);
      StepKeepsInv(states[i - 1], steps[i - 1]);
    }
  }

  // ----- A creation run does start -----

  predicate ServesTimer(a: Step) { a.Fire? || a.Receive? || a.ClearFlag? || a.BeginRun? || a.EndRun? }

  /** How many timer and creator steps are left before the run that serves the saved batch. */
  function Distance(s: State): nat {
    match s.creator
    case Cleared => 1
    case Received => 2
    case Waiting => if s.timer.Expired? then 3 else 4
    case Creating => if s.timer.Expired? then 4 else 5
  }

  /** While the main loop stays idle with an unserved batch, some timer or creator step is possible,
      every such step brings the creation run closer or is its start, and no producer sets it back. */
  lemma {:induction false} CreationComesCloser(s: State)
    requires Inv(s) && s.main.Idle? && s.unserved
    ensures exists a :: ServesTimer(a) && Enabled(s, a)
    ensures forall a :: ServesTimer(a) && Enabled(s, a) && (a.Fire? ==> !s.creator.Received? && !s.creator.Cleared?)
              ==> Distance(Next(s, a)) < Distance(s) || (a.BeginRun? && !Next(s, a).unserved)
    ensures forall a: Step :: (a.Store? || a.Signal? || a.Fire?) && Enabled(s, a)
              ==> Next(s, a).unserved && Distance(Next(s, a)) <= Distance(s)
  {
    assert s.timer.Armed? ==> Enabled(s, Fire);
    assert s.creator.Received? ==> Enabled(s, ClearFlag);
    assert s.creator.Cleared? ==> Enabled(s, BeginRun);
    assert s.creator.Creating? ==> Enabled(s, EndRun);
    assert s.creator.Waiting? && s.timer.Expired? ==> Enabled(s, Receive);
  }

  /** The one exception is real: after a failed read the loop goes idle over a nonempty queue with
      nothing left to wake it. */
  lemma {:induction false} FailedReadStalls() returns (steps: seq<Step>, states: seq<State>)
    ensures IsRun(steps, states, false)
    ensures var s := states[|states| - 1];
      s.main.Idle? && s.queued > 0 && !s.token && s.signalling == 0
  {
    var s0 := State(1, false, 0, Stopped, false, Starting, Waiting, false, false);
    steps := [Start, Take, StopTimer, ReadFails, SetFlag, CheckFlag];
    var s1 := Next(s0, Start);
    var s2 := Next(s1, Take);
    var s3 := Next(s2, StopTimer);
    var s4 := Next(s3, ReadFails);
    var s5 := Next(s4, SetFlag);
    states := [s0, s1, s2, s3, s4, s5, Next(s5, CheckFlag)];
  }

  // ----- Nothing happens without a reason -----

  /** If no payload that wants portals is saved and no run is left over, the flag stays down, the timer
      stopped and the creator waiting, however often the loop wakes up. */
  lemma {:induction false} NothingSavedNothingCreated(steps: seq<Step>, states: seq<State>, n: nat)
    requires IsRun(steps, states, false) && n < |states|
    requires forall i :: 0 <= i < n && steps[i].Handle? ==> !steps[i].reset
    ensures !states[n].pending && states[n].timer.Stopped? && states[n].creator.Waiting? && !states[n].unserved
    ensures !AboutToFlag(states[n]) && !states[n].main.Rearming?
  {
    hide Next, Enabled, AboutToFlag;
    if n == 0 {
      QuietStart(states[0]);
    } else {
      NothingSavedNothingCreated(steps, states, n - 1);
      assert Enabled(states[n - 1], steps[n - 1]) && states[n] == Next(states[n - 1], steps[n - 1]);
      QuietStep(states[n - 1], steps[n - 1]);
    }
  }

  lemma {:induction false} QuietStart(s: State)
    requires Init(s, false)
    ensures !AboutToFlag(s)
  {
  }

  lemma {:induction false} QuietStep(s: State, a: Step)
    requires Enabled(s, a) && (a.Handle? ==> !a.reset)
    requires !s.pending && s.timer.Stopped? && s.creator.Waiting? && !s.unserved
    requires !AboutToFlag(s) && !s.main.Rearming?
    ensures var t := Next(s, a);
      && !t.pending && t.timer.Stopped? && t.creator.Waiting? && !t.unserved && !AboutToFlag(t) && !t.main.Rearming?
  {
  }

  /** From its wakeup on until it is done, the loop keeps the timer stopped: no creation run is set off
      while payloads are being saved. */
  predicate Busy(m: Main) {
    m.Reading? || m.Handling? || m.Rewaking? || m.Pausing? || m.Flagging? || m.Checking? || m.Rearming?
  }

  lemma {:induction false} TimerRestsWhileBusy(steps: seq<Step>, states: seq<State>, needCreating: bool, n: nat)
    requires IsRun(steps, states, needCreating) && n < |states|
    ensures Busy(states[n].main) ==> states[n].timer.Stopped?
  {
    if n > 0 {
      TimerRestsWhileBusy(steps, states, needCreating, n - 1);
      assert Enabled(states[n - 1], steps[n - 1]) && states[n] == Next(states[n - 1], steps[n - 1]);
    }
  }

  /** None of the steps from `a` up to `b` is one of `kinds`. */
  predicate Without(steps: seq<Step>, a: int, b: int, kinds: set<Step>) {
    forall i :: a <= i < b && 0 <= i < |steps| ==> steps[i] !in kinds
  }

  /** Step `j` is one of `kinds`, and since then, up to `n`, there was none of `undoing`. */
  predicate Since(steps: seq<Step>, j: int, n: nat, kinds: set<Step>, undoing: set<Step>) {
    0 <= j < n <= |steps| && steps[j] in kinds && Without(steps, j + 1, n, undoing)
  }

  lemma {:induction false} SinceOnward(steps: seq<Step>, j: int, n: nat, kinds: set<Step>, undoing: set<Step>)
    requires Since(steps, j, n, kinds, undoing) && n < |steps| && steps[n] !in undoing
    ensures Since(steps, j, n + 1, kinds, undoing)
  {
  }

  /** Whenever the timer is about to be armed, the loop has just seen the flag up. */
  lemma {:induction false} RearmedForTheFlag(steps: seq<Step>, states: seq<State>, needCreating: bool, n: nat)
    returns (j: nat)
    requires IsRun(steps, states, needCreating) && n < |states| && states[n].main.Rearming?
    ensures j < n && steps[j].CheckFlag? && states[j].pending
    ensures forall k :: j < k <= n ==> states[k].main.Rearming?
  {
    hide Next, Enabled;
    assert n > 0 && Enabled(states[n - 1], steps[n - 1]) && states[n] == Next(states[n - 1], steps[n - 1]);
    RearmingStep(states[n - 1], steps[n - 1]);
    if states[n - 1].main.Rearming? {
      j := RearmedForTheFlag(steps, states, needCreating, n - 1);
    } else {
      j := n - 1;
    }
  }

  lemma {:induction false} RearmingStep(s: State, a: Step)
    requires Enabled(s, a)
    ensures Next(s, a).main.Rearming? ==> s.main.Rearming? || (a.CheckFlag? && s.pending)
  {
  }

  /** A wakeup is there because someone sent it after the loop last took one. */
  lemma {:induction false} WakeupWasSent(steps: seq<Step>, states: seq<State>, needCreating: bool, n: nat)
    requires IsRun(steps, states, needCreating) && n < |states| && states[n].token
    ensures || (states[0].token && Without(steps, 0, n, {Take}))
            || exists j :: Since(steps, j, n, {Signal, Start, Rewake}, {Take})
  {
    if n > 0 {
      var s, a := states[n - 1], steps[n - 1];
      assert Enabled(s, a) && states[n] == Next(s, a);
      if a in {Signal, Start, Rewake} {
        assert Since(steps, n - 1, n, {Signal, Start, Rewake}, {Take});
      } else {
        WakeupWasSent(steps, states, needCreating, n - 1);
        SourceKept(steps, n - 1, n, {Signal, Start, Rewake}, {Take});
      }
    }
  }

  /** The flag is up because a saved batch raised it after the last creation run took it down. */
  lemma {:induction false} FlagWasRaised(steps: seq<Step>, states: seq<State>, needCreating: bool, n: nat)
    requires IsRun(steps, states, needCreating) && n < |states| && states[n].pending
    ensures || (needCreating && Without(steps, 0, n, {ClearFlag}))
            || exists j :: Since(steps, j, n, {SetFlag}, {ClearFlag}) && AboutToFlag(states[j])
  {
    if n > 0 {
      var s, a := states[n - 1], steps[n - 1];
      assert Enabled(s, a) && states[n] == Next(s, a);
      if a.SetFlag? && s.main.reset {
        assert Since(steps, n - 1, n, {SetFlag}, {ClearFlag});
      } else {
        FlagWasRaised(steps, states, needCreating, n - 1);
        if j :| Since(steps, j, n - 1, {SetFlag}, {ClearFlag}) && AboutToFlag(states[j]) {
          SinceOnward(steps, j, n - 1, {SetFlag}, {ClearFlag});
        }
      }
    }
  }

  /** Each arming gives at most one creation run: an armed timer was armed after it last expired or was
      stopped, an expiry is received once, and a creator on its way has received one. */
  lemma {:induction false} OneRunPerArming(steps: seq<Step>, states: seq<State>, needCreating: bool, n: nat)
    requires IsRun(steps, states, needCreating) && n < |states|
    ensures states[n].timer.Armed? ==>
      || (needCreating && Without(steps, 0, n, {Fire, StopTimer}))
      || exists j :: Since(steps, j, n, {ResetTimer}, {Fire, StopTimer})
    ensures states[n].timer.Expired? ==> exists j :: Since(steps, j, n, {Fire}, {Receive, StopTimer})
    ensures states[n].creator.Received? ==> exists j :: Since(steps, j, n, {Receive}, {ClearFlag})
    ensures states[n].creator.Cleared? ==> exists j :: Since(steps, j, n, {ClearFlag}, {BeginRun})
    ensures states[n].creator.Creating? ==> exists j :: Since(steps, j, n, {BeginRun}, {EndRun})
  {
    hide Next, Enabled, Since, Without;
    if n == 0 {
      NoStepsYet(steps);
    } else {
      var s, a := states[n - 1], steps[n - 1];
      assert Enabled(s, a) && states[n] == Next(s, a);
      OneRunPerArming(steps, states, needCreating, n - 1);
      ArmingStep(s, a);
      WithoutOnward(steps, n - 1, {Fire, StopTimer});
      SourceKept(steps, n - 1, n, {ResetTimer}, {Fire, StopTimer});
      SourceKept(steps, n - 1, n, {Fire}, {Receive, StopTimer});
      SourceKept(steps, n - 1, n, {Receive}, {ClearFlag});
      SourceKept(steps, n - 1, n, {ClearFlag}, {BeginRun});
      SourceKept(steps, n - 1, n, {BeginRun}, {EndRun});
    }
  }

  lemma {:induction false} NoStepsYet(steps: seq<Step>)
    ensures Without(steps, 0, 0, {Fire, StopTimer})
  {
  }

  lemma {:induction false} WithoutOnward(steps: seq<Step>, n: nat, kinds: set<Step>)
    requires n < |steps|
    ensures Without(steps, 0, n, kinds) && steps[n] !in kinds ==> Without(steps, 0, n + 1, kinds)
  {
  }

  lemma {:induction false} ArmingStep(s: State, a: Step)
    requires Enabled(s, a)
    ensures var t := Next(s, a);
      && (t.timer.Armed? ==> a == ResetTimer || (s.timer.Armed? && a !in {Fire, StopTimer}))
      && (t.timer.Expired? ==> a == Fire || (s.timer.Expired? && a !in {Receive, StopTimer}))
      && (t.creator.Received? ==> a == Receive || (s.creator.Received? && a !in {ClearFlag}))
      && (t.creator.Cleared? ==> a == ClearFlag || (s.creator.Cleared? && a !in {BeginRun}))
      && (t.creator.Creating? ==> a == BeginRun || (s.creator.Creating? && a !in {EndRun}))
  {
  }

  lemma {:induction false} SourceKept(steps: seq<Step>, m: nat, n: nat, kinds: set<Step>, undoing: set<Step>)
    requires m < |steps| && n == m + 1
    ensures steps[m] in kinds ==> exists j :: Since(steps, j, n, kinds, undoing)
    ensures (exists j :: Since(steps, j, m, kinds, undoing)) && steps[m] !in undoing
      ==> exists j :: Since(steps, j, n, kinds, undoing)
  {
    if steps[m] in kinds {
      assert Since(steps, m, n, kinds, undoing);
    }
    if steps[m] !in undoing {
      if j :| Since(steps, j, m, kinds, undoing) {
        SinceOnward(steps, j, m, kinds, undoing);
      }
    }
  }

  /** After an error the loop pauses before it takes another wakeup. */
  lemma {:induction false} PausesAfterError(steps: seq<Step>, states: seq<State>, needCreating: bool, i: nat, n: nat)
    requires IsRun(steps, states, needCreating) && i < n < |states|
    requires steps[i].Handle? && steps[i].errored && Without(steps, i, n, {PauseEnds})
    ensures (states[n].main.Rewaking? && states[n].main.errored) || states[n].main.Pausing?
  {
    hide Next, Enabled;
    assert Enabled(states[n - 1], steps[n - 1]) && states[n] == Next(states[n - 1], steps[n - 1]);
    PauseStep(states[n - 1], steps[n - 1]);
    if n > i + 1 {
      PausesAfterError(steps, states, needCreating, i, n - 1);
      assert steps[n - 1] !in {PauseEnds};
    }
  }

  lemma {:induction false} PauseStep(s: State, a: Step)
    requires Enabled(s, a)
    ensures var t := Next(s, a);
      (a.Handle? && a.errored) || ((s.main.Pausing? || (s.main.Rewaking? && s.main.errored)) && a != PauseEnds) ==>
        t.main.Pausing? || (t.main.Rewaking? && t.main.errored)
  {
  }
}
