/** The goroutine that runs a tunnel of the client, and those that are to stop it: `startTunnel` against
    `RemoveTunnel`, the cleanup, `RestartTunnel`, `StopAllTunnels`, `LoadTunnels` and `Close`, any number of calls
    at once.  A state is that of one `ManagedTunnel`; others do not touch it.  A step is one critical section of
    `tm.mu`, or a stop outside of it. */
module Lifetime {

  /** Where `startTunnel` is: before it has stored the inner tunnel, before it has marked the managed tunnel active,
      waiting for one of the two stop channels, woken and not yet marked inactive, returned. */
  datatype Phase = Absent | Launched | Starting | Running | Waking | Over {
    predicate Attached() { !Absent? && !Launched? }
  }

  /** The counts are those of the calls that hold the tunnel, by what they do next. */
  datatype State = State(
    present: bool,          // in the map
    phase: Phase,
    active: bool,
    signalled: bool,        // stopChan is closed
    ended: bool,            // the stopCh of the inner tunnel is closed
    due: bool,              // a remover is to stop the inner tunnel
    restarts: nat,          // RestartTunnel is to stop the inner tunnel
    marks: nat,             // RestartTunnel is to mark it inactive
    stopAlls: nat,          // StopAllTunnels is to stop the inner tunnel
    copies: nat,            // Close has copied it and is to close stopChan
    closing: nat,           // Close is to stop the inner tunnel
    clearing: nat,          // Close is to clear the map; so are those that copied it without this tunnel
    copied: bool)           // some Close has copied it

  /** `inner` says whether the inner tunnel is there and running, so that stopping it closes its channel. */
  datatype Event =
    | Create                      // CreateTunnel, LoadTunnels
    | Attach
    | StartOk                     // started, and marked active
    | StartFails
    | Wake
    | Finish                      // marked inactive
    | SelfStop                    // the inner tunnel gives up
    | Remove                      // RemoveTunnel, or the cleanup of an expired tunnel
    | StopInner
    | RestartLook
    | RestartStop(inner: bool)
    | RestartMark
    | StopAllCopy
    | StopAllStop
    | Replace                     // LoadTunnels stores another tunnel under the same identifier
    | CloseCopy
    | CloseSignal
    | CloseStop(inner: bool)
    | CloseClear

  predicate Enabled(s: State, e: Event) {
    match e
    case Create => s.phase.Absent?
    case Attach => s.phase.Launched?
    case StartOk => s.phase.Starting?
    case StartFails => s.phase.Starting?
    case Wake => s.phase.Running? && (s.signalled || s.ended)
    case Finish => s.phase.Waking?
    case SelfStop => s.phase.Starting? || s.phase.Running?
    case Remove => s.present
    case StopInner => s.due
    case RestartLook => s.present
    case RestartStop(inner) => s.restarts > 0 && MayFind(s, inner)
    case RestartMark => s.marks > 0
    case StopAllCopy => s.present && s.active
    case StopAllStop => s.stopAlls > 0
    case Replace => s.present
    case CloseCopy => true
    case CloseSignal => s.copies > 0
    case CloseStop(inner) => s.closing > 0 && MayFind(s, inner)
    case CloseClear => s.clearing > 0
  }

  /** A tunnel that runs has an inner tunnel that runs, unless that was stopped; one that was not attached has none. */
  predicate MayFind(s: State, inner: bool) {
    if inner then s.phase.Attached() else s.phase.Running? ==> s.ended
  }

  function Next(s: State, e: Event): State
    requires Enabled(s, e)
  {
    match e
    case Create => s.(present := true, phase := Launched)
    case Attach => s.(phase := Starting)
    case StartOk => s.(phase := Running, active := true)
    case StartFails => s.(phase := Over, active := false)
    case Wake => s.(phase := Waking, ended := true)
    case Finish => s.(phase := Over, active := false)
    case SelfStop => s.(ended := true)
    case Remove => if s.active then s.(present := false, signalled := true, due := true) else s.(present := false)
    case StopInner => s.(due := false, ended := true)
    case RestartLook => s.(restarts := s.restarts + 1)
    case RestartStop(inner) => s.(restarts := s.restarts - 1, marks := s.marks + 1, ended := s.ended || inner)
    case RestartMark => s.(marks := s.marks - 1, active := false)
    case StopAllCopy => s.(stopAlls := s.stopAlls + 1)
    case StopAllStop => s.(stopAlls := s.stopAlls - 1, ended := true)
    case Replace => s.(present := false)
    case CloseCopy => if s.present then s.(copies := s.copies + 1, copied := true) else s.(clearing := s.clearing + 1)
    case CloseSignal => s.(copies := s.copies - 1, closing := s.closing + 1, signalled := true)
    case CloseStop(inner) => s.(closing := s.closing - 1, clearing := s.clearing + 1, ended := s.ended || inner)
    case CloseClear => s.(clearing := s.clearing - 1, present := false)
  }

  const NEW := State(false, Absent, false, false, false, false, 0, 0, 0, 0, 0, 0, false)

  ghost predicate Behaviour(states: seq<State>, events: seq<Event>) {
    && |states| == |events| + 1
    && states[0] == NEW
    && forall i: nat | i < |events| :: StepAt(states, events, i)
  }

  ghost predicate StepAt(states: seq<State>, events: seq<Event>, i: nat) {
    i + 1 < |states| && i < |events| && Enabled(states[i], events[i]) && states[i + 1] == Next(states[i], events[i])
  }

  // ------------------------------------------------------------------ who can still stop it

  /** It was told to stop, or will be by a `Close` that holds a copy. */
  ghost predicate Told(s: State) {
    s.signalled || s.copies > 0
  }

  /** A call that found it in the map before is still to stop its inner tunnel. */
  ghost predicate Held(s: State) {
    s.restarts > 0 || s.stopAlls > 0
  }

  /** It runs outside the map, has not given up itself, and nobody has told it to stop or is about to. */
  ghost predicate Abandoned(s: State) {
    s.phase.Running? && !s.present && !s.ended && !Told(s) && !Held(s)
  }

  ghost predicate MarkedRight(s: State) {
    !s.phase.Running? && !s.phase.Waking? ==> !s.active
  }

  ghost predicate AbsentIsNew(s: State) {
    s.phase.Absent? ==> !s.present && !Told(s) && !s.copied && !Held(s)
  }

  ghost predicate ToldIfCopied(s: State) {
    && (s.due || s.closing > 0 ==> s.signalled)
    && (s.present ==> (Told(s) <==> s.copied))
  }

  ghost predicate Inv(s: State) {
    MarkedRight(s) && AbsentIsNew(s) && ToldIfCopied(s)
  }

  lemma StepKeepsMarks(s: State, e: Event)
    requires MarkedRight(s) && Enabled(s, e)
    ensures MarkedRight(Next(s, e))
  {
  }

  lemma StepKeepsAbsent(s: State, e: Event)
    requires AbsentIsNew(s) && MarkedRight(s) && Enabled(s, e)
    ensures AbsentIsNew(Next(s, e))
  {
  }

  lemma StepKeepsTold(s: State, e: Event)
    requires AbsentIsNew(s) && ToldIfCopied(s) && Enabled(s, e)
    ensures ToldIfCopied(Next(s, e))
  {
  }

  lemma StepKeepsInv(s: State, e: Event)
    requires Inv(s) && Enabled(s, e)
    ensures Inv(Next(s, e))
  {
    StepKeepsMarks(s, e);
    StepKeepsAbsent(s, e);
    StepKeepsTold(s, e);
  }

  lemma {:induction false} RunKeepsInv(states: seq<State>, events: seq<Event>, n: nat)
    requires Behaviour(states, events) && n < |states|
    ensures Inv(states[n])
  {
    if n > 0 {
      RunKeepsInv(states, events, n - 1);
      assert StepAt(states, events, n - 1);
      StepKeepsInv(states[n - 1], events[n - 1]);
    }
  }

  /** An abandoned tunnel stays so: only it can end itself. */
  lemma AbandonedForGood(s: State, e: Event)
    requires Inv(s) && Abandoned(s) && Enabled(s, e) && !e.SelfStop?
    ensures Abandoned(Next(s, e))
  {
  }

  /** `e` can happen, and then the tunnel can wake. */
  ghost predicate Wakes(s: State, e: Event) {
    Enabled(s, e) && Enabled(Next(s, e), Wake)
  }

  /** Any other that runs outside the map comes to its end: it can wake, or can once a call that holds it goes on. */
  lemma OthersAreStopped(s: State)
    requires s.phase.Running? && !s.present && !Abandoned(s)
    ensures Enabled(s, Wake) || Wakes(s, CloseSignal) || Wakes(s, RestartStop(true)) || Wakes(s, StopAllStop)
  {
  }

  /** A step in which it leaves the map. */
  ghost predicate Leaves(s: State, e: Event) {
    s.present && (e.Remove? || e.Replace? || e.CloseClear?)
  }

  ghost predicate Gone(s: State) {
    !s.present && !s.phase.Absent?
  }

  /** What stays of `s` in a later state. */
  ghost predicate Lasts(s: State, t: State) {
    && Gone(t) && (Told(t) <==> Told(s)) && (Held(t) ==> Held(s))
    && (s.ended ==> t.ended)
  }

  lemma GoneStep(s: State, e: Event)
    requires Gone(s) && Enabled(s, e)
    ensures Lasts(s, Next(s, e))
  {
  }

  lemma LastsOn(s: State, t: State, e: Event, next: State)
    requires Lasts(s, t) && Enabled(t, e) && next == Next(t, e)
    ensures Lasts(s, next)
  {
    GoneStep(t, e);
  }

  /** Once it has left nobody tells it any more who was not about to. */
  lemma {:induction false} ToldBeforeOrNever(states: seq<State>, events: seq<Event>, i: nat, n: nat)
    requires Behaviour(states, events) && i <= n < |states| && Gone(states[i])
    ensures Lasts(states[i], states[n])
  {
    if i < n {
      ToldBeforeOrNever(states, events, i, n - 1);
      assert StepAt(states, events, n - 1);
      LastsOn(states[i], states[n - 1], events[n - 1], states[n]);
    }
  }

  lemma ToldOnLeaving(s: State, e: Event)
    requires Inv(s) && Enabled(s, e) && Leaves(s, e)
    ensures Gone(Next(s, e))
    ensures Told(Next(s, e)) <==> s.copied || (e.Remove? && s.active)
  {
  }

  /** A tunnel that has left the map and is running, without having given up itself, is abandoned exactly when no
      `Close` had copied it, it did not leave by a removal that found it marked active, and no call that found it
      before is still to stop it. */
  lemma AbandonedExactlyWhen(states: seq<State>, events: seq<Event>, i: nat, n: nat)
    requires Behaviour(states, events) && i < n < |states| && Leaves(states[i], events[i])
    requires states[n].phase.Running? && !states[n].ended
    ensures Abandoned(states[n]) <==> !states[i].copied && (events[i].Remove? ==> !states[i].active) && !Held(states[n])
  {
    RunKeepsInv(states, events, i);
    assert StepAt(states, events, i);
    ToldOnLeaving(states[i], events[i]);
    ToldBeforeOrNever(states, events, i + 1, n);
  }

  /** A removal that finds the tunnel active closes both channels, one at once and one outside the lock, so that it
      wakes as soon as it runs; one that does not find it active closes neither. */
  lemma RemovalStopsTheActive(s: State)
    requires Inv(s) && Enabled(s, Remove)
    ensures
      var t := Next(s, Remove);
      && !t.present
      && (s.active ==> t.signalled && Enabled(t, StopInner) && Next(t, StopInner).ended)
      && (s.active && s.phase.Running? ==> Enabled(t, Wake))
      && (!s.active ==> t == s.(present := false))
  {
  }

  // ------------------------------------------------------------------ the ways in which it happens

  ghost predicate Leads(states: seq<State>, events: seq<Event>, s: State) {
    Behaviour(states, events) && states[|events|] == s
  }

  /** Some behaviour ends in `s`. */
  ghost predicate Reachable(s: State) {
    exists states, events :: Leads(states, events, s)
  }

  lemma NewIsReachable()
    ensures Reachable(NEW)
  {
    assert Leads([NEW], [], NEW);
  }

  lemma Reach(s: State, e: Event)
    requires Reachable(s) && Enabled(s, e)
    ensures Reachable(Next(s, e))
  {
    var states, events :| Leads(states, events, s);
    var longer, more := states + [Next(s, e)], events + [e];
    forall i: nat | i < |more| ensures StepAt(longer, more, i) {
      assert i < |events| ==> StepAt(states, events, i);
    }
    assert Leads(longer, more, Next(s, e));
  }

  /** Created, and running as it should. */
  lemma RunningIsReachable(before: State) returns (s: State)
    requires Reachable(before) && before.phase.Absent?
    ensures Reachable(s) && s == before.(present := true, phase := Running, active := true)
  {
    Reach(before, Create);
    s := Next(before, Create);
    Reach(s, Attach);
    s := Next(s, Attach);
    Reach(s, StartOk);
    s := Next(s, StartOk);
  }

  /** A removal finds it while it starts: once it has started it is abandoned. */
  lemma RemovedWhileStarting() returns (s: State)
    ensures Reachable(s) && s.phase.Starting? && Leaves(s, Remove) && Enabled(s, Remove)
    ensures Enabled(Next(s, Remove), StartOk) && Abandoned(Next(Next(s, Remove), StartOk))
  {
    NewIsReachable();
    Reach(NEW, Create);
    s := Next(NEW, Create);
    Reach(s, Attach);
    s := Next(s, Attach);
  }

  /** A removal finds it running, but marked inactive by a restart that had come before it was attached. */
  lemma RemovedAfterALateMark() returns (s: State)
    ensures Reachable(s) && s.phase.Running? && Leaves(s, Remove) && Enabled(s, Remove) && Abandoned(Next(s, Remove))
  {
    NewIsReachable();
    Reach(NEW, Create);
    s := Next(NEW, Create);
    Reach(s, RestartLook);
    s := Next(s, RestartLook);
    Reach(s, RestartStop(false));
    s := Next(s, RestartStop(false));
    Reach(s, Attach);
    s := Next(s, Attach);
    Reach(s, StartOk);
    s := Next(s, StartOk);
    Reach(s, RestartMark);
    s := Next(s, RestartMark);
  }

  /** A load replaces it while it runs and is active. */
  lemma ReplacedByALoad() returns (s: State)
    ensures Reachable(s) && s.active && Leaves(s, Replace) && Enabled(s, Replace) && Abandoned(Next(s, Replace))
  {
    NewIsReachable();
    s := RunningIsReachable(NEW);
  }

  lemma ClosingANewOne()
    ensures Enabled(NEW, CloseCopy) && Next(NEW, CloseCopy) == NEW.(clearing := 1)
  {
  }

  lemma ClearedIsAbandoned(s: State)
    requires s == NEW.(present := true, phase := Running, active := true, clearing := 1)
    ensures Enabled(s, CloseClear) && Leaves(s, CloseClear) && Abandoned(Next(s, CloseClear))
  {
  }

  /** `Close` clears it, active, because it was created after the copy. */
  lemma CreatedWhileClosing() returns (s: State)
    ensures Reachable(s) && s.active && Leaves(s, CloseClear) && Enabled(s, CloseClear) && Abandoned(Next(s, CloseClear))
  {
    NewIsReachable();
    ClosingANewOne();
    Reach(NEW, CloseCopy);
    s := RunningIsReachable(NEW.(clearing := 1));
    ClearedIsAbandoned(s);
  }
}
