/** The limit on a user's tunnels when the server counts them itself (no Redis): `handleTunnel` counts
    under a read lock, and inserts under a write lock later.  In between the handler is in the window
    in which other handlers do not see its tunnel. */
module Limit {
  import opened Common

  type Tid = string
  type User = string

  /** `window` holds the handlers that have passed the check and not yet inserted, with their users. */
  datatype State = State(registry: map<Tid, User>, window: map<nat, User>)

  datatype Event =
    | Check(handler: nat, user: User)
    | Insert(handler: nat, id: Tid)
    | Remove(ids: set<Tid>)

  ghost function Live(s: State, u: User): nat { |Owned(s.registry, s.registry.Keys, u)| }

  ghost function Handlers(window: map<nat, User>, u: User): set<nat> {
    set h | h in window && window[h] == u
  }

  ghost function Pending(s: State, u: User): nat { |Handlers(s.window, u)| }

  predicate Enabled(s: State, e: Event) {
    match e
    case Check(h, _) => h !in s.window
    case Insert(h, id) => h in s.window && id !in s.registry
    case Remove(_) => true
  }

  /** The check is made for a known user and a positive limit only. */
  ghost predicate Refused(s: State, max: int, u: User) {
    u != "" && max > 0 && Live(s, u) >= max
  }

  ghost function Next(max: int, s: State, e: Event): State
    requires Enabled(s, e)
  {
    match e
    case Check(h, u) => if Refused(s, max, u) then s else s.(window := s.window[h := u])
    case Insert(h, id) => State(s.registry[id := s.window[h]], s.window - {h})
    case Remove(ids) => s.(registry := s.registry - ids)
  }

  ghost predicate Behaviour(max: int, states: seq<State>, events: seq<Event>) {
    && |states| == |events| + 1
    && states[0] == State(map[], map[])
    && forall i | 0 <= i < |events| ::
         Enabled(states[i], events[i]) && states[i + 1] == Next(max, states[i], events[i])
  }

  /** At most `k` handlers of `u` are ever between the count and the insert. */
  ghost predicate Overlap(states: seq<State>, u: User, k: nat) {
    forall i | 0 <= i < |states| :: Pending(states[i], u) <= k
  }

  lemma InsertMoves(s: State, h: nat, id: Tid, u: User)
    requires Enabled(s, Insert(h, id))
    ensures Live(Next(0, s, Insert(h, id)), u) == Live(s, u) + (if s.window[h] == u then 1 else 0)
    ensures Pending(Next(0, s, Insert(h, id)), u) == Pending(s, u) - (if s.window[h] == u then 1 else 0)
  {
    var s' := Next(0, s, Insert(h, id));
    OwnedExtend(s.registry, id, s.window[h], s.registry.Keys, u);
    OwnedAdd(s'.registry, s.registry.Keys, id, u);
    assert s'.registry.Keys == s.registry.Keys + {id};
    if s.window[h] == u {
      assert Handlers(s'.window, u) == Handlers(s.window, u) - {h};
    } else {
      assert Handlers(s'.window, u) == Handlers(s.window, u);
    }
  }

  lemma StepKeepsBound(max: int, s: State, e: Event, u: User, k: nat)
    requires max > 0 && u != "" && Enabled(s, e)
    requires Live(s, u) + Pending(s, u) <= max - 1 + k
    requires Pending(Next(max, s, e), u) <= k
    ensures Live(Next(max, s, e), u) + Pending(Next(max, s, e), u) <= max - 1 + k
  {
    var s' := Next(max, s, e);
    match e
    case Check(h, v) =>
      if v != u {
        assert Handlers(s'.window, u) == Handlers(s.window, u);
      }
    case Insert(h, id) => InsertMoves(s, h, id, u);
    case Remove(ids) =>
      SubsetSize(Owned(s'.registry, s'.registry.Keys, u), Owned(s.registry, s.registry.Keys, u));
  }

  /** With at most `k` overlapping handlers a user never has more than `max - 1 + k` tunnels; handled one
      at a time (`k == 1`), never more than `max`. */
  lemma {:induction false} LimitIsOvershotByTheOverlap(
    max: int, states: seq<State>, events: seq<Event>, u: User, k: nat, n: nat)
    requires max > 0 && u != "" && Behaviour(max, states, events) && n < |states|
    requires Overlap(states, u, k)
    ensures Live(states[n], u) + Pending(states[n], u) <= max - 1 + k
  {
    if n == 0 {
      assert Owned(states[0].registry, states[0].registry.Keys, u) == {};
      assert Handlers(states[0].window, u) == {};
      assert Pending(states[0], u) == 0;
    } else {
      LimitIsOvershotByTheOverlap(max, states, events, u, k, n - 1);
      assert Enabled(states[n - 1], events[n - 1]) && states[n] == Next(max, states[n - 1], events[n - 1]);
      assert Pending(states[n], u) <= k;
      StepKeepsBound(max, states[n - 1], events[n - 1], u, k);
    }
  }

  /** A handler passes the check exactly when its user is not known, or there is no limit, or the user has fewer
      tunnels in the registry than that; those about to be inserted do not count. */
  lemma PassesExactlyWhen(max: int, states: seq<State>, events: seq<Event>, n: nat, h: nat, u: User)
    requires Behaviour(max, states, events) && n < |events| && events[n] == Check(h, u)
    ensures
      var registry := states[n].registry;
      h in states[n + 1].window <==> u == "" || max <= 0 || |set id | id in registry && registry[id] == u| < max
  {
    assert Enabled(states[n], events[n]) && states[n + 1] == Next(max, states[n], events[n]);
    var registry := states[n].registry;
    assert Owned(registry, registry.Keys, u) == set id | id in registry && registry[id] == u;
  }

  // ------------------------------------------------------------------ the bound is reached

  function Name(n: nat): Tid { seq(n, _ => 'x') }

  ghost function Names(n: nat): set<Tid> {
    if n == 0 then {} else Names(n - 1) + {Name(n - 1)}
  }

  ghost function Range(lo: nat, hi: nat): (range: set<nat>)
    ensures forall h: nat :: h in range <==> lo <= h < hi
  {
    if hi <= lo then {} else Range(lo, hi - 1) + {hi - 1}
  }

  /** `n` tunnels of `u` stored, handlers `lo` to `hi - 1` in the window. */
  ghost function Stage(u: User, n: nat, lo: nat, hi: nat): State {
    State(map id | id in Names(n) :: u, map h | h in Range(lo, hi) :: u)
  }

  lemma {:induction false} NamesSize(n: nat)
    ensures |Names(n)| == n && forall id | id in Names(n) :: |id| < n
  {
    if n > 0 {
      NamesSize(n - 1);
    }
  }

  lemma {:induction false} RangeSize(lo: nat, hi: nat)
    requires lo <= hi
    ensures |Range(lo, hi)| == hi - lo
    decreases hi
  {
    if lo < hi {
      RangeSize(lo, hi - 1);
    }
  }

  lemma StageCounts(u: User, n: nat, lo: nat, hi: nat)
    requires lo <= hi
    ensures Live(Stage(u, n, lo, hi), u) == n && Pending(Stage(u, n, lo, hi), u) == hi - lo
  {
    NamesSize(n);
    RangeSize(lo, hi);
    var s := Stage(u, n, lo, hi);
    assert Owned(s.registry, s.registry.Keys, u) == Names(n);
    assert Handlers(s.window, u) == Range(lo, hi);
  }

  /** A run that never has more than `k` handlers of `u` in the window, and where it ends. */
  ghost predicate Leads(max: int, states: seq<State>, events: seq<Event>, u: User, k: nat, last: State) {
    Behaviour(max, states, events) && Overlap(states, u, k) && states[|events|] == last
  }

  lemma Extend(max: int, states: seq<State>, events: seq<Event>, u: User, k: nat, last: State, e: Event)
    returns (states': seq<State>, events': seq<Event>)
    requires Leads(max, states, events, u, k, last) && Enabled(last, e) && Pending(Next(max, last, e), u) <= k
    ensures Leads(max, states', events', u, k, Next(max, last, e))
  {
    states', events' := states + [Next(max, last, e)], events + [e];
  }

  lemma CheckNext(max: int, states: seq<State>, events: seq<Event>, u: User, k: nat, n: nat, lo: nat, hi: nat)
    returns (states': seq<State>, events': seq<Event>)
    requires n < max && lo <= hi && hi + 1 - lo <= k
    requires Leads(max, states, events, u, k, Stage(u, n, lo, hi))
    ensures Leads(max, states', events', u, k, Stage(u, n, lo, hi + 1))
  {
    StageCounts(u, n, lo, hi);
    StageCounts(u, n, lo, hi + 1);
    assert Next(max, Stage(u, n, lo, hi), Check(hi, u)) == Stage(u, n, lo, hi + 1);
    states', events' := Extend(max, states, events, u, k, Stage(u, n, lo, hi), Check(hi, u));
  }

  lemma InsertStage(max: int, u: User, n: nat, lo: nat, hi: nat)
    requires lo < hi
    ensures Enabled(Stage(u, n, lo, hi), Insert(lo, Name(n)))
    ensures Next(max, Stage(u, n, lo, hi), Insert(lo, Name(n))) == Stage(u, n + 1, lo + 1, hi)
  {
    NamesSize(n);
    assert |Name(n)| == n;
    assert Range(lo + 1, hi) == Range(lo, hi) - {lo};
    assert Names(n + 1) == Names(n) + {Name(n)};
  }

  lemma InsertNext(max: int, states: seq<State>, events: seq<Event>, u: User, k: nat, n: nat, lo: nat, hi: nat)
    returns (states': seq<State>, events': seq<Event>)
    requires lo < hi && hi - lo <= k
    requires Leads(max, states, events, u, k, Stage(u, n, lo, hi))
    ensures Leads(max, states', events', u, k, Stage(u, n + 1, lo + 1, hi))
  {
    StageCounts(u, n + 1, lo + 1, hi);
    InsertStage(max, u, n, lo, hi);
    states', events' := Extend(max, states, events, u, k, Stage(u, n, lo, hi), Insert(lo, Name(n)));
  }

  /** One handler after another: check, insert. */
  lemma {:induction false} FillSerially(max: int, u: User, k: nat, n: nat)
    returns (states: seq<State>, events: seq<Event>)
    requires k > 0 && n < max
    ensures Leads(max, states, events, u, k, Stage(u, n, n, n))
  {
    if n == 0 {
      states, events := [Stage(u, 0, 0, 0)], [];
      StageCounts(u, 0, 0, 0);
      assert Stage(u, 0, 0, 0) == State(map[], map[]);
    } else {
      states, events := FillSerially(max, u, k, n - 1);
      states, events := CheckNext(max, states, events, u, k, n - 1, n - 1, n - 1);
      states, events := InsertNext(max, states, events, u, k, n - 1, n - 1, n);
    }
  }

  /** Then `j` handlers all pass the check before any of them inserts. */
  lemma {:induction false} CheckTogether(max: int, u: User, k: nat, j: nat)
    returns (states: seq<State>, events: seq<Event>)
    requires 0 < k && j <= k && 0 < max
    ensures Leads(max, states, events, u, k, Stage(u, max - 1, max - 1, max - 1 + j))
  {
    if j == 0 {
      states, events := FillSerially(max, u, k, max - 1);
    } else {
      states, events := CheckTogether(max, u, k, j - 1);
      states, events := CheckNext(max, states, events, u, k, max - 1, max - 1, max - 2 + j);
    }
  }

  /** And then they insert. */
  lemma {:induction false} InsertTogether(max: int, u: User, k: nat, j: nat)
    returns (states: seq<State>, events: seq<Event>)
    requires 0 < k && j <= k && 0 < max
    ensures Leads(max, states, events, u, k, Stage(u, max - 1 + j, max - 1 + j, max - 1 + k))
  {
    if j == 0 {
      states, events := CheckTogether(max, u, k, k);
    } else {
      states, events := InsertTogether(max, u, k, j - 1);
      states, events := InsertNext(max, states, events, u, k, max - 2 + j, max - 2 + j, max - 1 + k);
    }
  }

  /** The bound is exact: for every limit and every overlap some run reaches it. */
  lemma OvershootIsReached(max: int, u: User, k: nat) returns (states: seq<State>, events: seq<Event>)
    requires u != "" && 0 < k && 0 < max
    ensures Behaviour(max, states, events) && Overlap(states, u, k)
    ensures Live(states[|events|], u) == max - 1 + k
  {
    states, events := InsertTogether(max, u, k, k);
    StageCounts(u, max - 1 + k, max - 1 + k, max - 1 + k);
  }
}
