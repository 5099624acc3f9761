/** The life of a bridged call (pkg/connector/callbridging.go) in every interleaving of its
    goroutines, at the granularity of the two locks and of calls made to the WhatsApp side. */
module CallSession {
  import opened Prelude

  datatype Phase =
    | Checking   // about to look whether another call is active
    | Building   // the slot was free; portal, ghost and session are being looked up
    | Refusing   // found busy, about to be rejected
    | Refused
    | GaveUp     // no portal or ghost
    | Installed

  /** How far the once-only ending has come. `hasCall` and `answering` are what it read. */
  datatype Ending =
    | NotEnding
    | Entered(notify: bool)
    | Snapshot(notify: bool, hasCall: bool, answering: bool)
    | Told
    | Cancelled
    | Finished

  datatype Answering = Unanswered | Claimed | Done

  /** The counters record what was done to the WhatsApp call. */
  datatype Session = Session(
    incoming: bool, phase: Phase, hasCall: bool, ending: Ending, answering: Answering, mediaStarted: bool,
    rejects: nat, hangups: nat, answers: nat, pumps: nat)

  datatype State = State(active: Option<nat>, sessions: map<nat, Session>)

  datatype Step =
    | Arrive(id: nat, incoming: bool)
    | FirstCheck(id: nat)
    | Refuse(id: nat)
    | GiveUp(id: nat)
    | Recheck(id: nat)               // install, or find the slot taken meanwhile
    | PlaceCall(id: nat)             // an outgoing call gets its WhatsApp call
    | EnterEnd(id: nat, notify: bool)
    | ReadEnd(id: nat)
    | TellEnd(id: nat)
    | CancelEnd(id: nat)
    | ClearEnd(id: nat)
    | ClaimAnswer(id: nat)
    | Answer(id: nat, placed: bool)  // `placed` if it gets as far as answering at WhatsApp
    | MediaReady(id: nat)

  function Get(s: State, id: nat): Option<Session> {
    if id in s.sessions then Some(s.sessions[id]) else None
  }

  /** Whether the session can take the step; a step that the once-guards or a check under the lock
      turn into nothing is left out. */
  predicate Allowed(x: Session, a: Step) {
    match a
    case Arrive(_, _) => false
    case FirstCheck(_) => x.phase.Checking?
    case Refuse(_) => x.phase.Refusing?
    case GiveUp(_) => x.phase.Building?
    case Recheck(_) => x.phase.Building?
    case PlaceCall(_) => x.phase.Installed? && !x.incoming && !x.hasCall
    case EnterEnd(_, _) => x.phase.Installed? && x.ending.NotEnding?
    case ReadEnd(_) => x.ending.Entered?
    case TellEnd(_) => x.ending.Snapshot?
    case CancelEnd(_) => x.ending.Told?
    case ClearEnd(_) => x.ending.Cancelled?
    case ClaimAnswer(_) => x.phase.Installed? && x.incoming && x.answering.Unanswered? && !x.ending.Cancelled?
      && !x.ending.Finished?
    case Answer(_, _) => x.answering.Claimed?
    case MediaReady(_) => x.phase.Installed? && x.hasCall && !x.mediaStarted
  }

  predicate Enabled(s: State, a: Step) {
    if a.Arrive? then a.id !in s.sessions else a.id in s.sessions && Allowed(s.sessions[a.id], a)
  }

  /** What the step does to its session; `busy` is whether the slot is taken. */
  function Moved(x: Session, a: Step, busy: bool): Session
    requires Allowed(x, a)
  {
    match a
    case FirstCheck(_) => x.(phase := if busy then Refusing else Building)
    case Refuse(_) => x.(phase := Refused, rejects := x.rejects + if x.incoming then 1 else 0)
    case GiveUp(_) => x.(phase := GaveUp)
    case Recheck(_) => x.(phase := if busy then Refusing else Installed)
    case PlaceCall(_) => x.(hasCall := true)
    case EnterEnd(_, notify) => x.(ending := Entered(notify))
    case ReadEnd(_) => x.(ending := Snapshot(x.ending.notify, x.hasCall, !x.answering.Unanswered?))
    case TellEnd(_) =>
      var e := x.ending;
      if !(e.notify && e.hasCall) then x.(ending := Told)
      else if x.incoming && !e.answering then x.(ending := Told, rejects := x.rejects + 1)
      else x.(ending := Told, hangups := x.hangups + 1)
    case CancelEnd(_) => x.(ending := Cancelled)
    case ClearEnd(_) => x.(ending := Finished)
    case ClaimAnswer(_) => x.(answering := Claimed)
    case Answer(_, placed) => x.(answering := Done, answers := x.answers + if placed then 1 else 0)
    case MediaReady(_) => x.(mediaStarted := true, pumps := x.pumps + 1)
  }

  function Next(s: State, a: Step): State
    requires Enabled(s, a)
  {
    if a.Arrive? then
      var x := Session(a.incoming, Checking, a.incoming, NotEnding, Unanswered, false, 0, 0, 0, 0);
      s.(sessions := s.sessions[a.id := x])
    else
      State(if a.Recheck? && s.active.None? then Some(a.id)
            else if a.ClearEnd? && s.active == Some(a.id) then None
            else s.active,
            s.sessions[a.id := Moved(s.sessions[a.id], a, s.active.Some?)])
  }

  ghost predicate IsRun(steps: seq<Step>, states: seq<State>) {
    && |states| == |steps| + 1
    && states[0] == State(None, map[])
    && forall i :: 0 <= i < |steps| ==> Enabled(states[i], steps[i]) && states[i + 1] == Next(states[i], steps[i])
  }

  // ----- Invariants -----

  /** Installed and not finished ending. */
  predicate Live(x: Session) { x.phase.Installed? && !x.ending.Finished? }

  predicate Ended(x: Session) { x.phase.Installed? && x.ending.Finished? }

  /** Refused as busy. */
  predicate TurnedAway(x: Session) { x.phase.Refusing? || x.phase.Refused? }

  /** Nothing is done to a WhatsApp call twice. */
  predicate OnceEach(x: Session) {
    && (!x.phase.Installed? ==> x.ending.NotEnding? && x.answering.Unanswered? && !x.mediaStarted && x.hangups == 0)
    && x.rejects + x.hangups
       <= (if x.phase.Refused? || x.ending.Told? || x.ending.Cancelled? || x.ending.Finished? then 1 else 0)
    && x.answers <= (if x.answering.Done? then 1 else 0)
    && x.pumps == (if x.mediaStarted then 1 else 0)
    && (!x.incoming ==> x.answers == 0 && x.rejects == 0 && x.answering.Unanswered?)
  }

  /** The active session is exactly the one installed session that has not finished ending. */
  ghost predicate Inv(s: State) {
    && (forall id :: id in s.sessions ==> OnceEach(s.sessions[id]))
    && (forall id :: id in s.sessions && Live(s.sessions[id]) ==> s.active == Some(id))
    && (s.active.Some? ==> s.active.value in s.sessions && Live(s.sessions[s.active.value]))
  }

  lemma {:induction false} MovedKeepsOnce(x: Session, a: Step, busy: bool)
    requires OnceEach(x) && Allowed(x, a)
    ensures OnceEach(Moved(x, a, busy))
    ensures Live(Moved(x, a, busy)) == (if a.Recheck? then !busy else if a.ClearEnd? then false else Live(x))
    ensures Ended(x) ==> Ended(Moved(x, a, busy))
    ensures TurnedAway(x) ==> TurnedAway(Moved(x, a, busy))
  {
  }

  lemma {:induction false} StepKeepsInv(s: State, a: Step)
    requires Inv(s) && Enabled(s, a)
    ensures Inv(Next(s, a))
  {
    hide OnceEach, Moved, Allowed, Live;
    if a.Arrive? {
      FreshSession(a.incoming);
    } else {
      MovedKeepsOnce(s.sessions[a.id], a, s.active.Some?);
      AllowedFacts(s.sessions[a.id], a);
    }
  }

  lemma {:induction false} FreshSession(incoming: bool)
    ensures var x := Session(incoming, Checking, incoming, NotEnding, Unanswered, false, 0, 0, 0, 0);
      OnceEach(x) && !Live(x)
  {
  }

  lemma {:induction false} AllowedFacts(x: Session, a: Step)
    requires OnceEach(x) && Allowed(x, a)
    ensures a.Recheck? ==> !Live(x)
    ensures a.ClearEnd? ==> Live(x)
  {
  }

  /** In every interleaving: at most one installed session has not finished ending, and it is the
      active one; each session rejects or hangs up at most once, answers at most once and starts its
      pumps at most once. */
  lemma {:induction false} OneCallAtATime(steps: seq<Step>, states: seq<State>, n: nat)
    requires IsRun(steps, states) && n < |states|
    ensures Inv(states[n])
    ensures forall a, b :: (a in states[n].sessions && b in states[n].sessions
              && Live(states[n].sessions[a]) && Live(states[n].sessions[b])) ==> a == b && states[n].active == Some(a)
    ensures forall a :: a in states[n].sessions ==>
      var x := states[n].sessions[a]; x.rejects + x.hangups <= 1 && x.answers <= 1 && x.pumps <= 1
  {
    if n > 0 {
      OneCallAtATime(steps, states, n - 1);
      StepKeepsInv(states[n - 1], steps[n - 1]);
    }
    forall a | a in states[n].sessions ensures OnceEach(states[n].sessions[a]) { }
  }

  /** A session that has finished, and a call that was refused as busy, stay that way: neither is
      ever active later on. */
  lemma {:induction false} NeverActiveAgain(steps: seq<Step>, states: seq<State>, m: nat, n: nat, id: nat)
    requires IsRun(steps, states) && m <= n < |states| && id in states[m].sessions
    requires Ended(states[m].sessions[id]) || TurnedAway(states[m].sessions[id])
    ensures id in states[n].sessions && states[n].active != Some(id)
    ensures Ended(states[m].sessions[id]) ==> Ended(states[n].sessions[id])
    ensures TurnedAway(states[m].sessions[id]) ==> TurnedAway(states[n].sessions[id])
  {
    if m < n {
      NeverActiveAgain(steps, states, m, n - 1, id);
      OneCallAtATime(steps, states, n - 1);
      assert states[n] == Next(states[n - 1], steps[n - 1]);
      OverStays(states[n - 1], steps[n - 1], id);
    }
    OneCallAtATime(steps, states, n);
  }

  lemma {:induction false} OverStays(s: State, a: Step, id: nat)
    requires Inv(s) && Enabled(s, a) && id in s.sessions
    ensures id in Next(s, a).sessions
    ensures Ended(s.sessions[id]) ==> Ended(Next(s, a).sessions[id])
    ensures TurnedAway(s.sessions[id]) ==> TurnedAway(Next(s, a).sessions[id])
  {
    hide Moved, Allowed, OnceEach;
    if !a.Arrive? && a.id == id {
      MovedKeepsOnce(s.sessions[id], a, s.active.Some?);
    }
  }

  /** The slot is given back: once the ending of the active session has run through, the next call
      can be installed. */
  lemma {:induction false} SlotFreed(s: State, id: nat)
    requires Inv(s) && id in s.sessions && s.sessions[id].ending.Cancelled?
    ensures Enabled(s, ClearEnd(id)) && Next(s, ClearEnd(id)).active.None?
  {
    assert OnceEach(s.sessions[id]);
  }

  // ----- What is done to the call, and when -----

  predicate IsEnding(a: Step, id: nat) {
    (a.EnterEnd? || a.ReadEnd? || a.TellEnd? || a.CancelEnd? || a.ClearEnd?) && a.id == id
  }

  /** Only its own ending moves a session's ending on, and a session's direction never changes. */
  lemma {:induction false} EndingStays(steps: seq<Step>, states: seq<State>, m: nat, n: nat, id: nat)
    requires IsRun(steps, states) && m <= n < |states| && id in states[m].sessions
    requires forall i :: m <= i < n ==> !IsEnding(steps[i], id)
    ensures id in states[n].sessions
    ensures states[n].sessions[id].ending == states[m].sessions[id].ending
    ensures states[n].sessions[id].incoming == states[m].sessions[id].incoming
  {
    if m < n {
      EndingStays(steps, states, m, n - 1, id);
      assert Enabled(states[n - 1], steps[n - 1]) && states[n] == Next(states[n - 1], steps[n - 1]);
    }
  }

  /** In every interleaving: what an ending does to the WhatsApp call is settled by what it found when it
      read the session. If it is to tell WhatsApp and there was a call, an incoming one nobody had begun
      to answer is rejected, any other hung up; otherwise neither. */
  lemma {:induction false} EndingTells(
      steps: seq<Step>, states: seq<State>, enter: nat, read: nat, tell: nat, id: nat, notify: bool)
    requires IsRun(steps, states) && enter < read < tell < |steps|
    requires steps[enter] == EnterEnd(id, notify) && steps[read] == ReadEnd(id) && steps[tell] == TellEnd(id)
    requires forall i :: enter < i < tell && i != read ==> !IsEnding(steps[i], id)
    ensures id in states[read].sessions && id in states[tell].sessions && id in states[tell + 1].sessions
    ensures var found, x, y := states[read].sessions[id], states[tell].sessions[id], states[tell + 1].sessions[id];
      var told := notify && found.hasCall;
      && y.rejects == x.rejects + (if told && found.incoming && found.answering.Unanswered? then 1 else 0)
      && y.hangups == x.hangups + (if told && !(found.incoming && found.answering.Unanswered?) then 1 else 0)
  {
    hide OnceEach;
    assert Enabled(states[enter], steps[enter]) && states[enter + 1] == Next(states[enter], steps[enter]);
    EndingStays(steps, states, enter + 1, read, id);
    assert Enabled(states[read], steps[read]) && states[read + 1] == Next(states[read], steps[read]);
    EndingStays(steps, states, read + 1, tell, id);
    assert Enabled(states[tell], steps[tell]) && states[tell + 1] == Next(states[tell], steps[tell]);
  }

  /** In every interleaving: a call that finds the slot taken, at either check, is turned away, and then
      rejected if it came in; one that finds it free goes on, and with the second check holds it. */
  lemma {:induction false} BusyIsRefused(steps: seq<Step>, states: seq<State>, n: nat)
    requires IsRun(steps, states) && n < |steps|
    requires steps[n].FirstCheck? || steps[n].Recheck? || steps[n].Refuse?
    ensures var id := steps[n].id; id in states[n].sessions && id in states[n + 1].sessions
    ensures var id := steps[n].id; var x, y := states[n].sessions[id], states[n + 1].sessions[id];
      && (steps[n].Refuse? ==> y.phase == Refused && y.rejects == x.rejects + (if x.incoming then 1 else 0))
      && (!steps[n].Refuse? && states[n].active.Some? ==>
            y.phase == Refusing && states[n + 1].active == states[n].active)
      && (steps[n].FirstCheck? && states[n].active.None? ==> y.phase == Building && states[n + 1].active.None?)
      && (steps[n].Recheck? && states[n].active.None? ==> y.phase == Installed && states[n + 1].active == Some(id))
  {
    assert Enabled(states[n], steps[n]) && states[n + 1] == Next(states[n], steps[n]);
  }

  /** In every interleaving: once its ending has cancelled it, nobody begins to answer a session. */
  lemma {:induction false} NoAnswerOnceCancelled(steps: seq<Step>, states: seq<State>, m: nat, n: nat, id: nat)
    requires IsRun(steps, states) && m <= n < |states| && id in states[m].sessions
    requires states[m].sessions[id].ending.Cancelled? || states[m].sessions[id].ending.Finished?
    ensures id in states[n].sessions
    ensures states[n].sessions[id].ending.Cancelled? || states[n].sessions[id].ending.Finished?
    ensures states[m].sessions[id].answering.Unanswered? ==> states[n].sessions[id].answering.Unanswered?
    ensures states[m].sessions[id].answering.Unanswered? ==>
      states[n].sessions[id].answers == states[m].sessions[id].answers
  {
    hide Next, Enabled;
    if m < n {
      NoAnswerOnceCancelled(steps, states, m, n - 1, id);
      assert Enabled(states[n - 1], steps[n - 1]) && states[n] == Next(states[n - 1], steps[n - 1]);
      CancelledStep(states[n - 1], steps[n - 1], id);
    }
  }

  lemma {:induction false} CancelledStep(s: State, a: Step, id: nat)
    requires Enabled(s, a) && id in s.sessions
    requires s.sessions[id].ending.Cancelled? || s.sessions[id].ending.Finished?
    ensures id in Next(s, a).sessions
    ensures var x, y := s.sessions[id], Next(s, a).sessions[id];
      && (y.ending.Cancelled? || y.ending.Finished?)
      && (x.answering.Unanswered? ==> y.answering.Unanswered? && y.answers == x.answers)
  {
  }

  /** In every interleaving: a call is answered only when it came in and was claimed, and its media pumps
      start only for an installed session that has a call. */
  lemma {:induction false} ActsOnACall(steps: seq<Step>, states: seq<State>, n: nat, id: nat)
    requires IsRun(steps, states) && n < |states| && id in states[n].sessions
    ensures var x := states[n].sessions[id];
      && (x.answers > 0 ==> x.incoming && x.answering.Done?)
      && (x.incoming ==> x.hasCall) && (x.pumps > 0 ==> x.hasCall && x.phase.Installed?)
  {
    hide Next, Enabled, Live;
    if n > 0 {
      var s, a := states[n - 1], steps[n - 1];
      assert Enabled(s, a) && states[n] == Next(s, a);
      if id in s.sessions {
        ActsOnACall(steps, states, n - 1, id);
        OneCallAtATime(steps, states, n - 1);
        assert OnceEach(s.sessions[id]);
      }
      ActStep(s, a, id);
    }
  }

  lemma {:induction false} ActStep(s: State, a: Step, id: nat)
    requires Enabled(s, a) && id in Next(s, a).sessions
    requires id in s.sessions ==> var x := s.sessions[id];
      && OnceEach(x) && (x.answers > 0 ==> x.incoming && x.answering.Done?)
      && (x.incoming ==> x.hasCall) && (x.pumps > 0 ==> x.hasCall && x.phase.Installed?)
    ensures var y := Next(s, a).sessions[id];
      && (y.answers > 0 ==> y.incoming && y.answering.Done?)
      && (y.incoming ==> y.hasCall) && (y.pumps > 0 ==> y.hasCall && y.phase.Installed?)
  {
  }
}
