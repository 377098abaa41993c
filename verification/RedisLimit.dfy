/** The limit on a user's tunnels when Redis counts them: `handleTunnel` reads the counter, inserts, and
    increments later, while removers decrement at any time.  This joins the machine of `Quota`, where a tunnel
    is due from its insertion to its increment, with the handlers that have passed the check and not yet
    inserted. */
module RedisLimit {
  import opened Common
  import opened Redis
  import Limit
  import Quota

  type Tid = string

  datatype State = State(q: Quota.State, admitted: map<nat, User>)

  /** `Other` is any step of `Quota` but an insertion. */
  datatype Event =
    | Check(handler: nat, user: User)
    | Insert(handler: nat, id: Tid)
    | Other(step: Quota.Event)

  predicate Enabled(s: State, e: Event) {
    match e
    case Check(h, _) => h !in s.admitted
    case Insert(h, id) => h in s.admitted && Quota.Enabled(s.q, Quota.Create(id, s.admitted[h]))
    case Other(step) => !step.Create? && Quota.Enabled(s.q, step)
  }

  /** The check is made for a known user and a positive limit only. */
  predicate Refused(max: int, s: State, u: User) {
    u != "" && max > 0 && At(s.q.counter, u) >= max
  }

  ghost function Next(max: int, s: State, e: Event): State
    requires Enabled(s, e)
  {
    match e
    case Check(h, u) => if Refused(max, s, u) then s else s.(admitted := s.admitted[h := u])
    case Insert(h, id) => State(Quota.Next(s.q, Quota.Create(id, s.admitted[h])), s.admitted - {h})
    case Other(step) => s.(q := Quota.Next(s.q, step))
  }

  ghost predicate Behaviour(max: int, states: seq<State>, events: seq<Event>) {
    && |states| == |events| + 1
    && Quota.Init(states[0].q) && states[0].admitted == map[]
    && forall i | 0 <= i < |events| ::
         Enabled(states[i], events[i]) && states[i + 1] == Next(max, states[i], events[i])
  }

  ghost function Handlers(admitted: map<nat, User>, u: User): set<nat> {
    set h | h in admitted && admitted[h] == u
  }

  /** The handlers of `u` between the read of the counter and the increment. */
  ghost function Window(s: State, u: User): nat {
    |Handlers(s.admitted, u)| + Quota.IncrementsDue(s.q, u)
  }

  /** At most `k` of them at any time. */
  ghost predicate Overlap(states: seq<State>, u: User, k: nat) {
    forall i | 0 <= i < |states| :: Window(states[i], u) <= k
  }

  ghost predicate Bounded(max: int, s: State, u: User, k: nat) {
    At(s.q.counter, u) + Window(s, u) <= max - 1 + k
  }

  /** The step of `Quota` in a step of this machine. */
  function StepOf(s: State, e: Event): Quota.Event
    requires Enabled(s, e) && !e.Check?
  {
    if e.Insert? then Quota.Create(e.id, s.admitted[e.handler]) else e.step
  }

  lemma HandlersWithout(admitted: map<nat, User>, h: nat, u: User)
    requires h in admitted
    ensures |Handlers(admitted - {h}, u)| == |Handlers(admitted, u)| - if admitted[h] == u then 1 else 0
  {
    if admitted[h] == u {
      assert Handlers(admitted - {h}, u) == Handlers(admitted, u) - {h};
    } else {
      assert Handlers(admitted - {h}, u) == Handlers(admitted, u);
    }
  }

  /** What a step of `Quota` does to the counter, by which increments and decrements come when they like. */
  lemma CounterAfterStep(s: Quota.State, e: Quota.Event, u: User)
    requires Quota.Enabled(s, e)
    ensures At(Quota.Next(s, e).counter, u) <= At(s.counter, u) + if e.Increment? && s.owner[e.id] == u then 1 else 0
  {
  }

  lemma StepKeepsBound(max: int, s: State, e: Event, u: User, k: nat)
    requires max > 0 && u != "" && Enabled(s, e) && Quota.Inv(s.q)
    requires Bounded(max, s, u, k) && Window(Next(max, s, e), u) <= k
    ensures Bounded(max, Next(max, s, e), u, k)
  {
    var t := Next(max, s, e);
    match e
    case Check(h, v) =>
      if v != u {
        assert Handlers(t.admitted, u) == Handlers(s.admitted, u);
      }
    case Insert(h, id) =>
      HandlersWithout(s.admitted, h, u);
      Quota.DueAfterStep(s.q, StepOf(s, e), u);
      CounterAfterStep(s.q, StepOf(s, e), u);
    case Other(step) =>
      Quota.DueAfterStep(s.q, step, u);
      CounterAfterStep(s.q, step, u);
  }

  lemma {:induction false} RunKeepsBound(max: int, states: seq<State>, events: seq<Event>, u: User, k: nat, n: nat)
    requires max > 0 && u != "" && Behaviour(max, states, events) && n < |states| && Overlap(states, u, k)
    ensures Quota.Inv(states[n].q) && Quota.Balanced(states[n].q, u) && Bounded(max, states[n], u, k)
  {
    if n == 0 {
      assert Handlers(states[0].admitted, u) == {};
      assert Owned(map[], {}, u) == {};
    } else {
      RunKeepsBound(max, states, events, u, k, n - 1);
      var s, e := states[n - 1], events[n - 1];
      assert Enabled(s, e) && states[n] == Next(max, s, e);
      StepKeepsBound(max, s, e, u, k);
      if !e.Check? {
        Quota.StepKeepsInv(s.q, StepOf(s, e));
        Quota.StepKeepsBalance(s.q, StepOf(s, e), u);
      }
    }
  }

  lemma {:induction false} RunKeepsQuota(max: int, states: seq<State>, events: seq<Event>, u: User, n: nat)
    requires Behaviour(max, states, events) && n < |states|
    ensures Quota.Inv(states[n].q) && Quota.Balanced(states[n].q, u)
  {
    if n > 0 {
      RunKeepsQuota(max, states, events, u, n - 1);
      var s, e := states[n - 1], events[n - 1];
      assert Enabled(s, e) && states[n] == Next(max, s, e);
      if !e.Check? {
        Quota.StepKeepsInv(s.q, StepOf(s, e));
        Quota.StepKeepsBalance(s.q, StepOf(s, e), u);
      }
    }
  }

  /** A handler passes the check exactly when its user is not known, or there is no limit, or the live tunnels of the
      user, with the decrements due and those lost at zero and without those not yet counted, are fewer than the limit. */
  lemma PassesExactlyWhen(max: int, states: seq<State>, events: seq<Event>, n: nat, h: nat, u: User)
    requires Behaviour(max, states, events) && n < |events| && events[n] == Check(h, u)
    ensures
      var q := states[n].q;
      h in states[n + 1].admitted <==>
        u == "" || max <= 0 || Quota.Live(q, u) + Quota.DecrementsDue(q, u) + At(q.clamps, u) - Quota.IncrementsDue(q, u) < max
  {
    RunKeepsQuota(max, states, events, u, n);
    assert Enabled(states[n], events[n]) && states[n + 1] == Next(max, states[n], events[n]);
    Quota.BalanceIsConservation(states[n].q, u);
  }

  /** However kills and sweeps interleave, and whatever the counter has lost, with at most `k` handlers of a user
      between read and increment the counter never exceeds `max - 1 + k`, nor do the live tunnels and those about
      to be inserted together. */
  lemma RedisLimitIsOvershotByTheOverlap(
    max: int, states: seq<State>, events: seq<Event>, u: User, k: nat, n: nat)
    requires max > 0 && u != "" && Behaviour(max, states, events) && n < |states| && Overlap(states, u, k)
    ensures At(states[n].q.counter, u) <= max - 1 + k
    ensures Quota.Live(states[n].q, u) + |Handlers(states[n].admitted, u)| <= max - 1 + k
  {
    RunKeepsBound(max, states, events, u, k, n);
    Quota.BalanceIsConservation(states[n].q, u);
  }

  // ------------------------------------------------------------------ the bound is reached

  /** `n` tunnels of `u` stored, the first `m` of them counted, handlers `lo` to `hi - 1` admitted. */
  ghost function Stage(u: User, n: nat, m: nat, lo: nat, hi: nat): State {
    var owner := map id | id in Limit.Names(n) :: u;
    State(
      Quota.State(owner, if m == 0 then map[] else map[u := m], [], owner, map[], Limit.Names(m), {}, {}, map[], []),
      map h | h in Limit.Range(lo, hi) :: u)
  }

  lemma {:induction false} NamesGrow(m: nat, n: nat)
    requires m <= n
    ensures Limit.Names(m) <= Limit.Names(n) && (m < n ==> Limit.Name(m) in Limit.Names(n))
    decreases n
  {
    if m < n {
      NamesGrow(m, n - 1);
    }
  }

  lemma StageCounts(u: User, n: nat, m: nat, lo: nat, hi: nat)
    requires m <= n && lo <= hi
    ensures Window(Stage(u, n, m, lo, hi), u) == hi - lo + n - m
    ensures Quota.Live(Stage(u, n, m, lo, hi).q, u) == n && At(Stage(u, n, m, lo, hi).q.counter, u) == m
  {
    var s := Stage(u, n, m, lo, hi);
    NamesGrow(m, n);
    Limit.NamesSize(n);
    Limit.NamesSize(m);
    Limit.RangeSize(lo, hi);
    assert Handlers(s.admitted, u) == Limit.Range(lo, hi);
    assert Owned(s.q.owner, s.q.registry.Keys, u) == Limit.Names(n);
    assert Owned(s.q.owner, s.q.owner.Keys - s.q.incremented, u) == Limit.Names(n) - Limit.Names(m);
  }

  ghost predicate Leads(max: int, states: seq<State>, events: seq<Event>, u: User, k: nat, last: State) {
    Behaviour(max, states, events) && Overlap(states, u, k) && states[|events|] == last
  }

  /** Some run that never has more than `k` handlers of `u` in the window ends in `s`. */
  ghost predicate Reaches(max: int, u: User, k: nat, s: State) {
    exists states, events :: Leads(max, states, events, u, k, s)
  }

  lemma Extend(max: int, u: User, k: nat, s: State, e: Event)
    requires Reaches(max, u, k, s) && Enabled(s, e) && Window(Next(max, s, e), u) <= k
    ensures Reaches(max, u, k, Next(max, s, e))
  {
    var states, events :| Leads(max, states, events, u, k, s);
    assert Leads(max, states + [Next(max, s, e)], events + [e], u, k, Next(max, s, e));
  }

  lemma CheckNext(max: int, u: User, k: nat, n: nat, m: nat, lo: nat, hi: nat)
    requires m < max && m <= n && lo < hi <= lo + k + m - n
    requires Reaches(max, u, k, Stage(u, n, m, lo, hi - 1))
    ensures Reaches(max, u, k, Stage(u, n, m, lo, hi))
  {
    var s := Stage(u, n, m, lo, hi - 1);
    StageCounts(u, n, m, lo, hi - 1);
    StageCounts(u, n, m, lo, hi);
    assert Limit.Range(lo, hi) == Limit.Range(lo, hi - 1) + {hi - 1};
    assert Next(max, s, Check(hi - 1, u)) == Stage(u, n, m, lo, hi);
    Extend(max, u, k, s, Check(hi - 1, u));
  }

  lemma InsertStage(max: int, u: User, n: nat, m: nat, lo: nat, hi: nat)
    requires m < n && 0 < lo <= hi
    ensures Enabled(Stage(u, n - 1, m, lo - 1, hi), Insert(lo - 1, Limit.Name(n - 1)))
    ensures Next(max, Stage(u, n - 1, m, lo - 1, hi), Insert(lo - 1, Limit.Name(n - 1))) == Stage(u, n, m, lo, hi)
  {
    Limit.NamesSize(n - 1);
    assert |Limit.Name(n - 1)| == n - 1;
    var s, t := Stage(u, n - 1, m, lo - 1, hi), Stage(u, n, m, lo, hi);
    assert s.admitted - {lo - 1} == t.admitted;
    assert Limit.Names(n) == Limit.Names(n - 1) + {Limit.Name(n - 1)};
    assert s.q.owner[Limit.Name(n - 1) := u] == t.q.owner;
  }

  lemma InsertNext(max: int, u: User, k: nat, n: nat, m: nat, lo: nat, hi: nat)
    requires m < n && 0 < lo <= hi <= lo + k + m - n
    requires Reaches(max, u, k, Stage(u, n - 1, m, lo - 1, hi))
    ensures Reaches(max, u, k, Stage(u, n, m, lo, hi))
  {
    StageCounts(u, n, m, lo, hi);
    InsertStage(max, u, n, m, lo, hi);
    Extend(max, u, k, Stage(u, n - 1, m, lo - 1, hi), Insert(lo - 1, Limit.Name(n - 1)));
  }

  lemma NextName(m: nat, n: nat)
    requires 0 < m <= n
    ensures Limit.Name(m - 1) in Limit.Names(n) && Limit.Name(m - 1) !in Limit.Names(m - 1)
    ensures Limit.Names(m) == Limit.Names(m - 1) + {Limit.Name(m - 1)}
  {
    NamesGrow(m - 1, n);
    Limit.NamesSize(m - 1);
    assert |Limit.Name(m - 1)| == m - 1;
  }

  lemma IncrementStage(max: int, u: User, n: nat, m: nat, lo: nat, hi: nat)
    requires u != "" && 0 < m <= n && lo <= hi
    ensures Enabled(Stage(u, n, m - 1, lo, hi), Other(Quota.Increment(Limit.Name(m - 1))))
    ensures Next(max, Stage(u, n, m - 1, lo, hi), Other(Quota.Increment(Limit.Name(m - 1)))) == Stage(u, n, m, lo, hi)
  {
    var s, t := Stage(u, n, m - 1, lo, hi), Stage(u, n, m, lo, hi);
    NextName(m, n);
    assert Incr(s.q.counter, u) == t.q.counter;
    assert s.q.incremented + {Limit.Name(m - 1)} == t.q.incremented;
  }

  lemma IncrementNext(max: int, u: User, k: nat, n: nat, m: nat, lo: nat, hi: nat)
    requires u != "" && 0 < m <= n && lo <= hi <= lo + k + m - n
    requires Reaches(max, u, k, Stage(u, n, m - 1, lo, hi))
    ensures Reaches(max, u, k, Stage(u, n, m, lo, hi))
  {
    StageCounts(u, n, m, lo, hi);
    IncrementStage(max, u, n, m, lo, hi);
    Extend(max, u, k, Stage(u, n, m - 1, lo, hi), Other(Quota.Increment(Limit.Name(m - 1))));
  }

  lemma StartsEmpty(max: int, u: User, k: nat)
    ensures Reaches(max, u, k, Stage(u, 0, 0, 0, 0))
  {
    StageCounts(u, 0, 0, 0, 0);
    assert Leads(max, [Stage(u, 0, 0, 0, 0)], [], u, k, Stage(u, 0, 0, 0, 0));
  }

  /** One handler after another: check, insert, increment. */
  lemma {:induction false} FillSerially(max: int, u: User, k: nat, n: nat)
    requires u != "" && k > 0 && n < max
    ensures Reaches(max, u, k, Stage(u, n, n, n, n))
  {
    if n == 0 {
      StartsEmpty(max, u, k);
    } else {
      FillSerially(max, u, k, n - 1);
      CheckNext(max, u, k, n - 1, n - 1, n - 1, n);
      InsertNext(max, u, k, n, n - 1, n, n);
      IncrementNext(max, u, k, n, n, n, n);
    }
  }

  /** Then handlers up to `hi` pass the check before any of them inserts. */
  lemma {:induction false} CheckTogether(max: int, u: User, k: nat, n: nat, hi: nat)
    requires u != "" && k > 0 && n + 1 == max && n <= hi <= n + k
    ensures Reaches(max, u, k, Stage(u, n, n, n, hi))
    decreases hi
  {
    if n == hi {
      FillSerially(max, u, k, n);
    } else {
      CheckTogether(max, u, k, n, hi - 1);
      CheckNext(max, u, k, n, n, n, hi);
    }
  }

  /** And then they insert. */
  lemma {:induction false} InsertTogether(max: int, u: User, k: nat, m: nat, n: nat)
    requires u != "" && k > 0 && m + 1 == max && m <= n <= m + k
    ensures Reaches(max, u, k, Stage(u, n, m, n, m + k))
    decreases n
  {
    if m == n {
      CheckTogether(max, u, k, m, m + k);
    } else {
      InsertTogether(max, u, k, m, n - 1);
      InsertNext(max, u, k, n, m, n, m + k);
    }
  }

  /** The bound is exact: for every limit and every overlap some run reaches it. */
  lemma OvershootIsReached(max: int, u: User, k: nat) returns (states: seq<State>, events: seq<Event>)
    requires u != "" && 0 < k && 0 < max
    ensures Behaviour(max, states, events) && Overlap(states, u, k)
    ensures Quota.Live(states[|events|].q, u) == max - 1 + k
  {
    var last := Stage(u, max - 1 + k, max - 1, max - 1 + k, max - 1 + k);
    InsertTogether(max, u, k, max - 1, max - 1 + k);
    StageCounts(u, max - 1 + k, max - 1, max - 1 + k, max - 1 + k);
    states, events :| Leads(max, states, events, u, k, last);
  }
}
