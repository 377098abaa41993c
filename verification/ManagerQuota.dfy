/** The client's `TunnelManager` with Redis: the counter is read and incremented under `tm.mu`, but
    decremented after a removal has released it, and neither `LoadTunnels` nor `Close` touches it.  A step is one
    Redis call or one change of the map; the creator keeps the lock over several steps.  The key of a user belongs
    to this manager alone. */
module ManagerQuota {
  import opened Common
  import opened Redis

  type Id = string

  /** Who holds `tm.mu`: nobody, or a creator that has passed the user limit, or one that has inserted its
      tunnel and not yet incremented. */
  datatype Lock = Free | Admitted(id: Id, user: User) | Inserted(id: Id, user: User)

  datatype State = State(
    live: map<Id, User>,
    counter: map<User, nat>,
    due: multiset<User>,        // removals whose decrement is still to come
    lock: Lock)

  datatype Event =
    | Admit(id: Id, user: User)
    | Refuse                    // one of the other checks fails
    | Insert
    | Increment
    | Remove(id: Id)            // RemoveTunnel, or one tunnel of a cleanup
    | Decrement(user: User)
    | Load(loaded: map<Id, User>)
    | Close

  predicate Enabled(max: int, s: State, e: Event) {
    match e
    case Admit(id, u) => s.lock.Free? && id !in s.live && !(max > 0 && u != "" && At(s.counter, u) >= max)
    case Refuse => s.lock.Admitted?
    case Insert => s.lock.Admitted?
    case Increment => s.lock.Inserted?
    case Remove(id) => s.lock.Free? && id in s.live
    case Decrement(u) => u in s.due
    case Load(_) => s.lock.Free?
    case Close => s.lock.Free?
  }

  function Next(max: int, s: State, e: Event): State
    requires Enabled(max, s, e)
  {
    match e
    case Admit(id, u) => s.(lock := Admitted(id, u))
    case Refuse => s.(lock := Free)
    case Insert =>
      s.(live := s.live[s.lock.id := s.lock.user],
         lock := if s.lock.user == "" then Free else Inserted(s.lock.id, s.lock.user))
    case Increment => s.(counter := Incr(s.counter, s.lock.user), lock := Free)
    case Remove(id) =>
      s.(live := s.live - {id}, due := if s.live[id] == "" then s.due else s.due + multiset{s.live[id]})
    case Decrement(u) => s.(counter := Decr(s.counter, u), due := s.due - multiset{u})
    case Load(loaded) => s.(live := s.live + loaded)
    case Close => s.(live := map[])
  }

  ghost predicate Behaviour(max: int, states: seq<State>, events: seq<Event>) {
    && |states| == |events| + 1
    && states[0] == State(map[], map[], multiset{}, Free)
    && forall i: nat | i < |events| :: StepAt(max, states, events, i)
  }

  ghost predicate StepAt(max: int, states: seq<State>, events: seq<Event>, i: nat) {
    i + 1 < |states| && i < |events| && Enabled(max, states[i], events[i]) && states[i + 1] == Next(max, states[i], events[i])
  }

  ghost function Live(s: State, u: User): nat { |Owned(s.live, s.live.Keys, u)| }

  ghost function IncrementDue(s: State, u: User): nat {
    if s.lock.Inserted? && s.lock.user == u then 1 else 0
  }

  ghost predicate LockOk(max: int, s: State) {
    match s.lock
    case Free => true
    case Admitted(id, u) => id !in s.live && (max > 0 && u != "" ==> At(s.counter, u) < max)
    case Inserted(id, u) => u != "" && id in s.live && s.live[id] == u && (max > 0 ==> At(s.counter, u) < max)
  }

  ghost predicate Inv(max: int, s: State) {
    && s.due[""] == 0 && LockOk(max, s)
    && (forall u | u in s.counter :: u != "" && (max > 0 ==> s.counter[u] <= max))
  }

  lemma StepKeepsInv(max: int, s: State, e: Event)
    requires Inv(max, s) && Enabled(max, s, e)
    ensures Inv(max, Next(max, s, e))
  {
  }

  lemma {:induction false} RunKeepsInv(max: int, states: seq<State>, events: seq<Event>, n: nat)
    requires Behaviour(max, states, events) && n < |states|
    ensures Inv(max, states[n])
  {
    if n > 0 {
      RunKeepsInv(max, states, events, n - 1);
      assert StepAt(max, states, events, n - 1);
      StepKeepsInv(max, states[n - 1], events[n - 1]);
    }
  }

  // ------------------------------------------------------------------ what one step does for one user

  /** Tunnels of `u` that a load brings, less those that it replaces. */
  ghost function Brought(s: State, loaded: map<Id, User>, u: User): int {
    |Owned(loaded, loaded.Keys, u)| - |Owned(s.live, s.live.Keys * loaded.Keys, u)|
  }

  /** Tunnels of `u` that come without an increment, or go without a decrement. */
  ghost function Uncounted(s: State, e: Event, u: User): int {
    var live: int := Live(s, u);
    match e
    case Load(loaded) => Brought(s, loaded, u)
    case Close => -live
    case _ => 0
  }

  ghost function Incremented(s: State, e: Event, u: User): nat {
    if e.Increment? && s.lock.Inserted? && s.lock.user == u then 1 else 0
  }

  function Decremented(e: Event, u: User): nat {
    if e == Decrement(u) then 1 else 0
  }

  /** A decrement that finds zero is lost. */
  function Lost(s: State, e: Event, u: User): nat {
    if e == Decrement(u) && At(s.counter, u) == 0 then 1 else 0
  }

  lemma LiveAfterInsert(live: map<Id, User>, id: Id, who: User, u: User)
    requires id !in live
    ensures |Owned(live[id := who], live[id := who].Keys, u)| == |Owned(live, live.Keys, u)| + if who == u then 1 else 0
  {
    OwnedExtend(live, id, who, live.Keys, u);
    OwnedAdd(live[id := who], live.Keys, id, u);
    assert live[id := who].Keys == live.Keys + {id};
  }

  lemma LiveAfterRemove(live: map<Id, User>, id: Id, u: User)
    requires id in live
    ensures |Owned(live - {id}, (live - {id}).Keys, u)| == |Owned(live, live.Keys, u)| - if live[id] == u then 1 else 0
  {
    var left := live - {id};
    assert left[id := live[id]] == live;
    LiveAfterInsert(left, id, live[id], u);
  }

  lemma LiveAfterLoad(s: State, loaded: map<Id, User>, u: User)
    ensures |Owned(s.live + loaded, (s.live + loaded).Keys, u)| == Live(s, u) + Brought(s, loaded, u)
  {
    var all, stay, go := s.live + loaded, s.live.Keys - loaded.Keys, s.live.Keys * loaded.Keys;
    assert all.Keys == stay + loaded.Keys && s.live.Keys == stay + go;
    OwnedUnion(all, stay, loaded.Keys, u);
    OwnedUnion(s.live, stay, go, u);
    assert Owned(all, stay, u) == Owned(s.live, stay, u) && Owned(all, loaded.Keys, u) == Owned(loaded, loaded.Keys, u);
  }

  lemma NobodyLeft(live: map<Id, User>, u: User)
    requires live == map[]
    ensures |Owned(live, live.Keys, u)| == 0
  {
    assert Owned(live, live.Keys, u) == {};
  }

  /** Every tunnel of a user is live, or its decrement is due, or was made. */
  lemma StepAccounts(max: int, s: State, e: Event, u: User)
    requires u != "" && Inv(max, s) && Enabled(max, s, e)
    ensures
      var t := Next(max, s, e);
      Live(t, u) + t.due[u] + Decremented(e, u) + IncrementDue(s, u)
        == Live(s, u) + s.due[u] + Incremented(s, e, u) + IncrementDue(t, u) + Uncounted(s, e, u)
  {
    match e
    case Insert => LiveAfterInsert(s.live, s.lock.id, s.lock.user, u);
    case Remove(id) => LiveAfterRemove(s.live, id, u);
    case Load(loaded) => LiveAfterLoad(s, loaded, u);
    case Close => NobodyLeft(Next(max, s, e).live, u);
    case _ =>
  }

  lemma StepCounts(max: int, s: State, e: Event, u: User)
    requires Enabled(max, s, e)
    ensures At(Next(max, s, e).counter, u) + Decremented(e, u) == At(s.counter, u) + Incremented(s, e, u) + Lost(s, e, u)
  {
  }

  // ------------------------------------------------------------------ and a whole life

  /** The tunnels that have come uncounted so far. */
  ghost function AllUncounted(states: seq<State>, events: seq<Event>, u: User, n: nat): int
    requires n <= |events| <= |states|
  {
    if n == 0 then 0 else AllUncounted(states, events, u, n - 1) + Uncounted(states[n - 1], events[n - 1], u)
  }

  /** The increments, the decrements and the lost decrements made so far. */
  ghost function Increments(states: seq<State>, events: seq<Event>, u: User, n: nat): nat
    requires n <= |events| <= |states|
  {
    if n == 0 then 0 else Increments(states, events, u, n - 1) + Incremented(states[n - 1], events[n - 1], u)
  }

  ghost function Decrements(events: seq<Event>, u: User, n: nat): nat
    requires n <= |events|
  {
    if n == 0 then 0 else Decrements(events, u, n - 1) + Decremented(events[n - 1], u)
  }

  ghost function AllLost(states: seq<State>, events: seq<Event>, u: User, n: nat): nat
    requires n <= |events| <= |states|
  {
    if n == 0 then 0 else AllLost(states, events, u, n - 1) + Lost(states[n - 1], events[n - 1], u)
  }

  lemma {:induction false} RunCounts(max: int, states: seq<State>, events: seq<Event>, u: User, n: nat)
    requires Behaviour(max, states, events) && n < |states|
    ensures At(states[n].counter, u) + Decrements(events, u, n) == Increments(states, events, u, n) + AllLost(states, events, u, n)
  {
    if n > 0 {
      RunCounts(max, states, events, u, n - 1);
      assert StepAt(max, states, events, n - 1);
      StepCounts(max, states[n - 1], events[n - 1], u);
    }
  }

  lemma {:induction false} RunAccounts(max: int, states: seq<State>, events: seq<Event>, u: User, n: nat)
    requires Behaviour(max, states, events) && n < |states| && u != ""
    ensures Live(states[n], u) + states[n].due[u] + Decrements(events, u, n)
         == Increments(states, events, u, n) + IncrementDue(states[n], u) + AllUncounted(states, events, u, n)
  {
    if n == 0 {
      NobodyLeft(states[0].live, u);
    } else {
      RunAccounts(max, states, events, u, n - 1);
      RunKeepsInv(max, states, events, n - 1);
      assert StepAt(max, states, events, n - 1);
      StepAccounts(max, states[n - 1], events[n - 1], u);
    }
  }

  /** In every interleaving, over the whole life of a manager, the counter of a user is the number of live tunnels,
      plus the decrements still due and those lost at zero, less the tunnels that came uncounted and one while a
      creator is about to increment.  It never exceeds the limit. */
  lemma CounterIsConserved(max: int, states: seq<State>, events: seq<Event>, n: nat, u: User)
    requires Behaviour(max, states, events) && n < |states| && u != ""
    ensures
      var s := states[n];
      && At(s.counter, u) + IncrementDue(s, u) + AllUncounted(states, events, u, n)
           == Live(s, u) + s.due[u] + AllLost(states, events, u, n)
      && (max > 0 ==> At(s.counter, u) <= max)
  {
    RunCounts(max, states, events, u, n);
    RunAccounts(max, states, events, u, n);
    RunKeepsInv(max, states, events, n);
  }

  /** By how much the decrements made for a user have ever exceeded the increments made. */
  ghost function WorstExcess(states: seq<State>, events: seq<Event>, u: User, n: nat): nat
    requires n <= |events| <= |states|
  {
    var excess := Floor(Decrements(events, u, n) - Increments(states, events, u, n));
    if n == 0 then excess
    else if WorstExcess(states, events, u, n - 1) < excess then excess
    else WorstExcess(states, events, u, n - 1)
  }

  /** The decrements lost are exactly that: one is lost when, and only when, the excess grows beyond all before. */
  lemma {:induction false} LostIsTheWorstExcess(max: int, states: seq<State>, events: seq<Event>, u: User, n: nat)
    requires Behaviour(max, states, events) && n < |states|
    ensures AllLost(states, events, u, n) == WorstExcess(states, events, u, n)
  {
    if n > 0 {
      LostIsTheWorstExcess(max, states, events, u, n - 1);
      RunCounts(max, states, events, u, n - 1);
      RunCounts(max, states, events, u, n);
      assert StepAt(max, states, events, n - 1);
    }
  }

  /** Once nothing is due the counter tells the truth exactly when as many tunnels came uncounted as decrements ever
      exceeded increments. */
  lemma CounterIsExactIff(max: int, states: seq<State>, events: seq<Event>, n: nat, u: User)
    requires Behaviour(max, states, events) && n < |states| && u != ""
    requires states[n].lock.Free? && states[n].due[u] == 0
    ensures At(states[n].counter, u) == Live(states[n], u)
       <==> AllUncounted(states, events, u, n) == WorstExcess(states, events, u, n)
  {
    CounterIsConserved(max, states, events, n, u);
    LostIsTheWorstExcess(max, states, events, u, n);
  }

  // ------------------------------------------------------------------ lives without loads and closes

  ghost predicate NeverLoadedNorClosed(events: seq<Event>, n: nat) {
    forall i | 0 <= i < n && i < |events| :: !events[i].Load? && !events[i].Close?
  }

  lemma InsertedLives(max: int, s: State, u: User)
    requires Inv(max, s)
    ensures IncrementDue(s, u) <= Live(s, u)
  {
    if IncrementDue(s, u) == 1 {
      assert s.lock.id in Owned(s.live, s.live.Keys, u);
    }
  }

  lemma {:induction false} NothingIsLost(max: int, states: seq<State>, events: seq<Event>, u: User, n: nat)
    requires Behaviour(max, states, events) && n < |states| && u != "" && NeverLoadedNorClosed(events, n)
    ensures AllUncounted(states, events, u, n) == 0 && WorstExcess(states, events, u, n) == 0
  {
    if n > 0 {
      NothingIsLost(max, states, events, u, n - 1);
    }
    RunAccounts(max, states, events, u, n);
    RunKeepsInv(max, states, events, n);
    InsertedLives(max, states[n], u);
  }

  /** In every interleaving of creates, removals, cleanups and late decrements the counter of a user is the
      number of live tunnels plus the decrements still due (one less while a creator is about to
      increment), it never exceeds the limit, and no decrement ever finds zero. */
  lemma CounterTellsTheTruth(max: int, states: seq<State>, events: seq<Event>, n: nat, u: User)
    requires Behaviour(max, states, events) && n < |states| && u != "" && NeverLoadedNorClosed(events, n)
    ensures
      var s := states[n];
      && At(s.counter, u) + IncrementDue(s, u) == Live(s, u) + s.due[u]
      && AllLost(states, events, u, n) == 0
      && (max > 0 ==> At(s.counter, u) <= max)
  {
    CounterIsConserved(max, states, events, n, u);
    NothingIsLost(max, states, events, u, n);
    LostIsTheWorstExcess(max, states, events, u, n);
  }

  /** So a user never has more live tunnels than the limit, even before the counter catches up; with loads and
      `Close`, never more than the limit and the tunnels that came uncounted. */
  lemma LimitHolds(max: int, states: seq<State>, events: seq<Event>, n: nat, u: User)
    requires Behaviour(max, states, events) && n < |states| && u != "" && max > 0
    ensures Live(states[n], u) <= max + AllUncounted(states, events, u, n)
    ensures NeverLoadedNorClosed(events, n) ==> Live(states[n], u) <= max
  {
    CounterIsConserved(max, states, events, n, u);
    RunKeepsInv(max, states, events, n);
    if NeverLoadedNorClosed(events, n) {
      NothingIsLost(max, states, events, u, n);
    }
  }

  /** And below the limit nobody is refused: when the lock is free, a user may create a tunnel exactly when the live
      ones and those whose decrement is still to come are fewer than the limit. */
  lemma AdmittedExactlyBelowTheLimit(max: int, states: seq<State>, events: seq<Event>, n: nat, id: Id, u: User)
    requires Behaviour(max, states, events) && n < |states| && NeverLoadedNorClosed(events, n)
    requires states[n].lock.Free? && id !in states[n].live
    ensures Enabled(max, states[n], Admit(id, u)) <==> u == "" || max <= 0 || Live(states[n], u) + states[n].due[u] < max
  {
    if u != "" {
      CounterTellsTheTruth(max, states, events, n, u);
    }
  }

  /** A user can have more than the limit: one tunnel loaded, which Redis does not know of, and one created. */
  lemma ALoadOvershoots() returns (states: seq<State>, events: seq<Event>)
    ensures events == [Load(map["a" := "u"]), Admit("b", "u"), Insert, Increment]
    ensures Behaviour(1, states, events) && states[4].lock.Free?
    ensures Live(states[4], "u") == 2 && At(states[4].counter, "u") == 1
  {
    var s0 := State(map[], map[], multiset{}, Free);
    var s1 := Next(1, s0, Load(map["a" := "u"]));
    var s2 := Next(1, s1, Admit("b", "u"));
    var s3 := Next(1, s2, Insert);
    var s4 := Next(1, s3, Increment);
    states := [s0, s1, s2, s3, s4];
    events := [Load(map["a" := "u"]), Admit("b", "u"), Insert, Increment];
    assert s4.live == map["a" := "u", "b" := "u"];
    assert Owned(s4.live, s4.live.Keys, "u") == {"a", "b"};
  }
}
