/** The server's tunnel registry, the per-user counter in Redis, and the three ways a tunnel is removed:
    `KillTunnel`, `cleanupExpiredTunnels` and `cleanupInactiveTunnels`.

    A step is one critical section of the registry lock or one Redis call; any number of creators and
    removers run at once.  Tunnel identifiers are uuids, so a creator inserts one never used before.
    `decs` of a user's counter that find it at zero leave it there; `clamps` counts them. */
module Quota {
  import opened Common
  import opened Redis

  type Tid = string

  /** A tunnel that a remover took out of the registry, together with the owner it read there. */
  datatype Item = Item(id: Tid, user: User)

  /** What a remover did outside the lock. */
  datatype Effect = Decremented(who: nat, id: Tid) | Unregistered(who: nat, id: Tid)

  /** `Collected` is the first phase of the inactivity sweep.  `counted` says that the decrement for the
      first item was made. */
  datatype Remover = Collected(candidates: seq<Tid>) | Working(items: seq<Item>, counted: bool) {
    predicate Done() { Working? && items == [] }
  }

  datatype State = State(
    registry: map<Tid, User>,     // TunnelRegistry.tunnels, reduced to the owner
    counter: map<User, nat>,      // the Redis keys
    removers: seq<Remover>,
    owner: map<Tid, User>,        // every tunnel ever inserted
    claimedBy: map<Tid, nat>,     // which remover deleted it
    incremented: set<Tid>,
    decremented: set<Tid>,
    unregistered: set<Tid>,
    clamps: map<User, nat>,
    log: seq<Effect>)

  datatype Event =
    | Create(id: Tid, user: User)
    | Increment(id: Tid)
    | Kill(id: Tid)
    | Expire(ids: seq<Tid>)
    | Collect(ids: seq<Tid>)
    | Sweep(r: nat)
    | Decrement(r: nat)
    | Unregister(r: nat)

  /** The loop over candidates under the lock: those still present are taken, the others skipped. */
  function Claim(registry: map<Tid, User>, ids: seq<Tid>): seq<Item> {
    if ids == [] then []
    else if ids[0] !in registry then Claim(registry, ids[1..])
    else [Item(ids[0], registry[ids[0]])] + Claim(registry - {ids[0]}, ids[1..])
  }

  ghost function Ids(items: seq<Item>): set<Tid> {
    set item | item in items :: item.id
  }

  ghost predicate Distinct(items: seq<Item>) {
    forall i, j | 0 <= i < j < |items| :: items[i].id != items[j].id
  }

  lemma IdsCons(first: Item, rest: seq<Item>)
    ensures Ids([first] + rest) == {first.id} + Ids(rest)
    ensures first.id !in Ids(rest) && Distinct(rest) ==> Distinct([first] + rest)
  {
    assert forall i | 0 <= i < |rest| :: rest[i].id in Ids(rest) by {
      assert forall i | 0 <= i < |rest| :: rest[i] in rest;
    }
  }

  lemma IdsSplit(items: seq<Item>)
    requires items != []
    ensures Ids(items) == {items[0].id} + Ids(items[1..])
    ensures Distinct(items) ==> items[0].id !in Ids(items[1..])
  {
    assert items == [items[0]] + items[1..];
    IdsCons(items[0], items[1..]);
  }

  lemma IdsSnoc(items: seq<Item>, last: Item)
    ensures Ids(items + [last]) == Ids(items) + {last.id}
  {
  }

  lemma IdsJoin(items: seq<Item>, more: seq<Item>)
    ensures Ids(items + more) == Ids(items) + Ids(more)
  {
  }

  lemma DistinctJoin(items: seq<Item>, more: seq<Item>)
    requires Distinct(items) && Distinct(more) && Ids(items) !! Ids(more)
    ensures Distinct(items + more)
  {
    assert forall i | 0 <= i < |items| :: items[i] in items && items[i].id in Ids(items);
    assert forall i | 0 <= i < |more| :: more[i] in more && more[i].id in Ids(more);
  }

  /** Each candidate still present is taken once, with the owner found in the registry. */
  lemma {:induction false} ClaimTakesThePresent(registry: map<Tid, User>, ids: seq<Tid>)
    ensures Ids(Claim(registry, ids)) == set id | id in ids && id in registry
    ensures Distinct(Claim(registry, ids))
    ensures forall item | item in Claim(registry, ids) :: item.id in registry && item.user == registry[item.id]
  {
    if ids != [] {
      if ids[0] !in registry {
        ClaimTakesThePresent(registry, ids[1..]);
      } else {
        var left := registry - {ids[0]};
        ClaimTakesThePresent(left, ids[1..]);
        IdsCons(Item(ids[0], registry[ids[0]]), Claim(left, ids[1..]));
        assert (set id | id in ids && id in registry) == {ids[0]} + set id | id in ids[1..] && id in left;
      }
    }
  }

  /** Take the candidates out of the registry and hand them to remover `r`. */
  ghost function Take(s: State, r: nat, ids: seq<Tid>): State {
    var items := Claim(s.registry, ids);
    s.(registry := s.registry - Ids(items),
       claimedBy := s.claimedBy + (map id | id in Ids(items) :: r),
       removers := if r < |s.removers| then s.removers[r := Working(items, false)] else s.removers + [Working(items, false)])
  }

  predicate Enabled(s: State, e: Event) {
    match e
    case Create(id, _) => id !in s.owner
    case Increment(id) => id in s.owner && s.owner[id] != "" && id !in s.incremented
    case Kill(_) => true
    case Expire(_) => true
    case Collect(_) => true
    case Sweep(r) => r < |s.removers| && s.removers[r].Collected?
    case Decrement(r) =>
      && r < |s.removers| && s.removers[r].Working? && s.removers[r].items != []
      && s.removers[r].items[0].user != "" && !s.removers[r].counted
    case Unregister(r) =>
      && r < |s.removers| && s.removers[r].Working? && s.removers[r].items != []
      && (s.removers[r].items[0].user == "" || s.removers[r].counted)
  }

  ghost function Next(s: State, e: Event): State
    requires Enabled(s, e)
  {
    match e
    case Create(id, user) => s.(registry := s.registry[id := user], owner := s.owner[id := user])
    case Increment(id) =>
      s.(counter := Incr(s.counter, s.owner[id]), incremented := s.incremented + {id})
    case Kill(id) => Take(s, |s.removers|, [id])
    case Expire(ids) => Take(s, |s.removers|, ids)
    case Collect(ids) => s.(removers := s.removers + [Collected(ids)])
    case Sweep(r) => Take(s, r, s.removers[r].candidates)
    case Decrement(r) =>
      var item := s.removers[r].items[0];
      s.(counter := Decr(s.counter, item.user),
         clamps := s.clamps[item.user := At(s.clamps, item.user) + if At(s.counter, item.user) == 0 then 1 else 0],
         removers := s.removers[r := Working(s.removers[r].items, true)],
         decremented := s.decremented + {item.id},
         log := s.log + [Decremented(r, item.id)])
    case Unregister(r) =>
      var item := s.removers[r].items[0];
      s.(removers := s.removers[r := Working(s.removers[r].items[1..], false)],
         unregistered := s.unregistered + {item.id},
         log := s.log + [Unregistered(r, item.id)])
  }

  ghost predicate Init(s: State) {
    s == State(map[], map[], [], map[], map[], {}, {}, {}, map[], [])
  }

  ghost predicate Behaviour(states: seq<State>, events: seq<Event>) {
    && |states| == |events| + 1
    && Init(states[0])
    && forall i | 0 <= i < |events| :: Enabled(states[i], events[i]) && states[i + 1] == Next(states[i], events[i])
  }

  // ------------------------------------------------------------------ who removes what

  ghost predicate Partition(s: State) {
    && (forall id | id in s.registry :: id in s.owner && id !in s.claimedBy && s.registry[id] == s.owner[id])
    && (forall id | id in s.claimedBy :: id in s.owner && s.claimedBy[id] < |s.removers|)
    && (forall id | id in s.owner :: id in s.registry || id in s.claimedBy)
    && s.incremented <= s.owner.Keys
    && s.decremented <= s.claimedBy.Keys
    && s.unregistered <= s.claimedBy.Keys
  }

  ghost predicate ItemOk(s: State, r: nat, i: nat)
    requires r < |s.removers| && s.removers[r].Working? && i < |s.removers[r].items|
  {
    var item := s.removers[r].items[i];
    && item.id in s.claimedBy && s.claimedBy[item.id] == r
    && item.id in s.owner && s.owner[item.id] == item.user
    && item.id !in s.unregistered
    && (item.id in s.decremented <==> i == 0 && s.removers[r].counted)
  }

  ghost predicate ListOk(s: State, r: nat)
    requires r < |s.removers|
  {
    s.removers[r].Working? ==>
      && (forall i | 0 <= i < |s.removers[r].items| :: ItemOk(s, r, i))
      && Distinct(s.removers[r].items)
      && (s.removers[r].counted ==> s.removers[r].items != [] && s.removers[r].items[0].user != "")
  }

  /** A claimed tunnel is still on its remover's list, or that remover has finished with it. */
  ghost predicate Settled(s: State, id: Tid) {
    id in s.unregistered && id in s.owner && (s.owner[id] != "" ==> id in s.decremented)
  }

  ghost predicate OnList(s: State, id: Tid)
    requires id in s.claimedBy
  {
    var r := s.claimedBy[id];
    r < |s.removers| && s.removers[r].Working? && id in Ids(s.removers[r].items)
  }

  ghost predicate LogOk(s: State) {
    && (forall i | 0 <= i < |s.log| ::
          && s.log[i].id in s.claimedBy && s.claimedBy[s.log[i].id] == s.log[i].who
          && s.log[i].id in (if s.log[i].Decremented? then s.decremented else s.unregistered))
    && (forall i, j | 0 <= i < j < |s.log| && s.log[i].Decremented? == s.log[j].Decremented? ::
          s.log[i].id != s.log[j].id)
    && (forall id | id in s.decremented :: id in s.claimedBy && Decremented(s.claimedBy[id], id) in s.log)
    && (forall id | id in s.unregistered :: id in s.claimedBy && Unregistered(s.claimedBy[id], id) in s.log)
  }

  ghost predicate Inv(s: State) {
    && Partition(s)
    && (forall r | 0 <= r < |s.removers| :: ListOk(s, r))
    && (forall id | id in s.claimedBy :: OnList(s, id) || Settled(s, id))
    && LogOk(s)
  }

  lemma TakeKeepsPartition(s: State, r: nat, ids: seq<Tid>)
    requires Inv(s) && r <= |s.removers|
    ensures Partition(Take(s, r, ids)) && LogOk(Take(s, r, ids))
  {
    ClaimTakesThePresent(s.registry, ids);
  }

  lemma TakeKeepsLists(s: State, r: nat, ids: seq<Tid>)
    requires Inv(s) && r <= |s.removers|
    requires r < |s.removers| ==> s.removers[r].Collected?
    ensures forall q | 0 <= q < |Take(s, r, ids).removers| :: ListOk(Take(s, r, ids), q)
  {
    ClaimTakesThePresent(s.registry, ids);
    var s' := Take(s, r, ids);
    var items := Claim(s.registry, ids);
    forall i | 0 <= i < |items| ensures ItemOk(s', r, i) {
      assert items[i] in items && items[i].id in Ids(items);
    }
    forall q | 0 <= q < |s.removers| && q != r ensures ListOk(s', q) {
      OtherListIsUntouched(s, r, ids, q);
    }
  }

  lemma OtherListIsUntouched(s: State, r: nat, ids: seq<Tid>, q: nat)
    requires Inv(s) && r <= |s.removers| && q < |s.removers| && q != r
    ensures ListOk(Take(s, r, ids), q)
  {
    ClaimTakesThePresent(s.registry, ids);
    var s' := Take(s, r, ids);
    assert ListOk(s, q) && s'.removers[q] == s.removers[q];
    if s.removers[q].Working? {
      forall i | 0 <= i < |s'.removers[q].items| ensures ItemOk(s', q, i) {
        assert ItemOk(s, q, i);
      }
    }
  }

  lemma TakeKeepsSettled(s: State, r: nat, ids: seq<Tid>)
    requires Inv(s) && r <= |s.removers|
    requires r < |s.removers| ==> s.removers[r].Collected?
    ensures forall id | id in Take(s, r, ids).claimedBy :: OnList(Take(s, r, ids), id) || Settled(Take(s, r, ids), id)
  {
    ClaimTakesThePresent(s.registry, ids);
    var s' := Take(s, r, ids);
    forall id | id in s'.claimedBy ensures OnList(s', id) || Settled(s', id) {
      if id in s.claimedBy {
        assert OnList(s, id) || Settled(s, id);
        assert s'.claimedBy[id] == s.claimedBy[id];
      }
    }
  }

  lemma TakeKeepsInv(s: State, r: nat, ids: seq<Tid>)
    requires Inv(s) && r <= |s.removers|
    requires r < |s.removers| ==> s.removers[r].Collected?
    ensures Inv(Take(s, r, ids))
  {
    TakeKeepsPartition(s, r, ids);
    TakeKeepsLists(s, r, ids);
    TakeKeepsSettled(s, r, ids);
  }

  /** The steps outside the lock: a decrement or an unregistration for the first item of a list. */
  lemma EffectKeepsLists(s: State, e: Event)
    requires Inv(s) && Enabled(s, e) && (e.Decrement? || e.Unregister?)
    ensures forall q | 0 <= q < |Next(s, e).removers| :: ListOk(Next(s, e), q)
  {
    var s' := Next(s, e);
    assert ListOk(s, e.r);
    assert ItemOk(s, e.r, 0);
    forall q | 0 <= q < |s'.removers| && s'.removers[q].Working? ensures ListOk(s', q) {
      assert ListOk(s, q);
      forall i | 0 <= i < |s'.removers[q].items| ensures ItemOk(s', q, i) {
        if q == e.r && e.Unregister? {
          assert ItemOk(s, q, i + 1);
        } else {
          assert ItemOk(s, q, i);
        }
      }
    }
  }

  lemma EffectKeepsSettled(s: State, e: Event)
    requires Inv(s) && Enabled(s, e) && (e.Decrement? || e.Unregister?)
    ensures forall id | id in Next(s, e).claimedBy :: OnList(Next(s, e), id) || Settled(Next(s, e), id)
  {
    var s' := Next(s, e);
    assert ListOk(s, e.r) && ItemOk(s, e.r, 0);
    var was := s.removers[e.r].items;
    IdsSplit(was);
    forall id | id in s'.claimedBy ensures OnList(s', id) || Settled(s', id) {
      assert OnList(s, id) || Settled(s, id);
    }
  }

  lemma EffectKeepsLog(s: State, e: Event)
    requires Inv(s) && Enabled(s, e) && (e.Decrement? || e.Unregister?)
    ensures LogOk(Next(s, e)) && Partition(Next(s, e))
  {
    var s' := Next(s, e);
    assert ListOk(s, e.r) && ItemOk(s, e.r, 0);
    assert s'.log[|s.log|] in s'.log;
  }

  lemma StepKeepsInv(s: State, e: Event)
    requires Inv(s) && Enabled(s, e)
    ensures Inv(Next(s, e))
  {
    match e
    case Create(_, _) => OtherStepKeepsInv(s, e);
    case Increment(_) => OtherStepKeepsInv(s, e);
    case Collect(_) => OtherStepKeepsInv(s, e);
    case Kill(id) => TakeKeepsInv(s, |s.removers|, [id]);
    case Expire(ids) => TakeKeepsInv(s, |s.removers|, ids);
    case Sweep(r) => TakeKeepsInv(s, r, s.removers[r].candidates);
    case Decrement(_) => EffectKeepsLists(s, e); EffectKeepsSettled(s, e); EffectKeepsLog(s, e);
    case Unregister(_) => EffectKeepsLists(s, e); EffectKeepsSettled(s, e); EffectKeepsLog(s, e);
  }

  lemma OtherStepKeepsInv(s: State, e: Event)
    requires Inv(s) && Enabled(s, e) && (e.Create? || e.Increment? || e.Collect?)
    ensures Inv(Next(s, e))
  {
    var s' := Next(s, e);
    forall q | 0 <= q < |s'.removers| && s'.removers[q].Working? ensures ListOk(s', q) {
      assert ListOk(s, q);
      forall i | 0 <= i < |s'.removers[q].items| ensures ItemOk(s', q, i) {
        assert ItemOk(s, q, i);
      }
    }
    forall id | id in s'.claimedBy ensures OnList(s', id) || Settled(s', id) {
      assert OnList(s, id) || Settled(s, id);
    }
  }

  lemma {:induction false} RunKeepsInv(states: seq<State>, events: seq<Event>, n: nat)
    requires Behaviour(states, events) && n < |states|
    ensures Inv(states[n])
  {
    if n > 0 {
      RunKeepsInv(states, events, n - 1);
      StepKeepsInv(states[n - 1], events[n - 1]);
    }
  }

  // ------------------------------------------------------------------ exactly-once removal

  /** However the removers race, a tunnel's counter is decremented at most once and its WebSocket is
      unregistered at most once, each time by the one remover that deleted it from the registry. */
  lemma EachTunnelIsRemovedOnce(states: seq<State>, events: seq<Event>, n: nat, i: nat, j: nat)
    requires Behaviour(states, events) && n < |states|
    requires i < j < |states[n].log| && states[n].log[i].id == states[n].log[j].id
    ensures
      var s := states[n];
      && s.log[i].id !in s.registry && s.log[i].id in s.claimedBy
      && s.log[i].who == s.log[j].who == s.claimedBy[s.log[i].id]
      && s.log[i].Decremented? != s.log[j].Decremented?
  {
    RunKeepsInv(states, events, n);
  }

  lemma StepKeepsClaim(s: State, e: Event, id: Tid)
    requires Inv(s) && Enabled(s, e) && id in s.claimedBy
    ensures id in Next(s, e).claimedBy && Next(s, e).claimedBy[id] == s.claimedBy[id]
  {
    match e
    case Kill(k) => ClaimTakesThePresent(s.registry, [k]);
    case Expire(ids) => ClaimTakesThePresent(s.registry, ids);
    case Sweep(r) => ClaimTakesThePresent(s.registry, s.removers[r].candidates);
    case _ =>
  }

  lemma {:induction false} ClaimsAreKept(states: seq<State>, events: seq<Event>, n: nat, later: nat, id: Tid)
    requires Behaviour(states, events) && n <= later < |states| && id in states[n].claimedBy
    ensures id in states[later].claimedBy && states[later].claimedBy[id] == states[n].claimedBy[id]
  {
    if n < later {
      ClaimsAreKept(states, events, n, later - 1, id);
      RunKeepsInv(states, events, later - 1);
      StepKeepsClaim(states[later - 1], events[later - 1], id);
    }
  }

  /** The remover that deleted a tunnel never changes, and a deleted tunnel never comes back. */
  lemma ClaimsAreFinal(states: seq<State>, events: seq<Event>, n: nat, later: nat, id: Tid)
    requires Behaviour(states, events) && n <= later < |states| && id in states[n].claimedBy
    ensures id in states[later].claimedBy && states[later].claimedBy[id] == states[n].claimedBy[id]
    ensures id !in states[later].registry
  {
    ClaimsAreKept(states, events, n, later, id);
    RunKeepsInv(states, events, later);
  }

  /** A remover that is done has decremented (when there is an owner) and unregistered everything it took. */
  lemma DoneRemoversLeaveNothing(states: seq<State>, events: seq<Event>, n: nat, id: Tid)
    requires Behaviour(states, events) && n < |states| && id in states[n].claimedBy
    requires states[n].claimedBy[id] < |states[n].removers| && states[n].removers[states[n].claimedBy[id]].Done()
    ensures
      var s := states[n];
      var r := s.claimedBy[id];
      Unregistered(r, id) in s.log && (id in s.owner && s.owner[id] != "" ==> Decremented(r, id) in s.log)
  {
    RunKeepsInv(states, events, n);
    assert OnList(states[n], id) || Settled(states[n], id);
  }

  // ------------------------------------------------------------------ conservation

  ghost function Live(s: State, u: User): nat { |Owned(s.owner, s.registry.Keys, u)| }

  /** Tunnels inserted whose increment is still to come. */
  ghost function IncrementsDue(s: State, u: User): nat { |Owned(s.owner, s.owner.Keys - s.incremented, u)| }

  /** Tunnels deleted whose decrement is still to come. */
  ghost function DecrementsDue(s: State, u: User): nat { |Owned(s.owner, s.claimedBy.Keys - s.decremented, u)| }

  ghost function Increments(s: State, u: User): nat { |Owned(s.owner, s.incremented, u)| }
  ghost function Decrements(s: State, u: User): nat { |Owned(s.owner, s.decremented, u)| }

  ghost predicate Balanced(s: State, u: User) {
    At(s.counter, u) + Decrements(s, u) == Increments(s, u) + At(s.clamps, u)
  }

  lemma TakeKeepsCounts(s: State, r: nat, ids: seq<Tid>, u: User)
    ensures Increments(Take(s, r, ids), u) == Increments(s, u) && Decrements(Take(s, r, ids), u) == Decrements(s, u)
    ensures Take(s, r, ids).counter == s.counter && Take(s, r, ids).clamps == s.clamps
  {
  }

  /** What one step does to the numbers of increments and decrements made for a user. */
  lemma StepCounts(s: State, e: Event, u: User)
    requires Inv(s) && Enabled(s, e)
    ensures Increments(Next(s, e), u) == Increments(s, u) + (if e.Increment? && s.owner[e.id] == u then 1 else 0)
    ensures Decrements(Next(s, e), u)
         == Decrements(s, u) + (if e.Decrement? && s.removers[e.r].items[0].user == u then 1 else 0)
  {
    match e
    case Create(id, user) =>
      OwnedExtend(s.owner, id, user, s.incremented, u);
      OwnedExtend(s.owner, id, user, s.decremented, u);
    case Increment(id) => OwnedAdd(s.owner, s.incremented, id, u);
    case Decrement(r) =>
      assert ListOk(s, r) && ItemOk(s, r, 0);
      OwnedAdd(s.owner, s.decremented, s.removers[r].items[0].id, u);
    case Kill(id) => TakeKeepsCounts(s, |s.removers|, [id], u);
    case Expire(ids) => TakeKeepsCounts(s, |s.removers|, ids, u);
    case Sweep(r) => TakeKeepsCounts(s, r, s.removers[r].candidates, u);
    case Collect(_) =>
    case Unregister(_) =>
  }

  /** A tunnel becomes due with its insertion and ceases to be with its increment. */
  lemma DueAfterStep(s: State, e: Event, u: User)
    requires Inv(s) && Enabled(s, e)
    ensures IncrementsDue(Next(s, e), u)
         == IncrementsDue(s, u) + (if e.Create? && e.user == u then 1 else 0) - (if e.Increment? && s.owner[e.id] == u then 1 else 0)
  {
    var due, t := s.owner.Keys - s.incremented, Next(s, e);
    match e
    case Create(id, user) =>
      OwnedExtend(s.owner, id, user, due, u);
      OwnedAdd(t.owner, due, id, u);
      assert t.owner.Keys - t.incremented == due + {id};
    case Increment(id) =>
      OwnedAdd(s.owner, due - {id}, id, u);
      assert due - {id} + {id} == due && t.owner.Keys - t.incremented == due - {id};
    case _ =>
      assert t.owner.Keys - t.incremented == due;
  }

  lemma StepKeepsBalance(s: State, e: Event, u: User)
    requires Inv(s) && Enabled(s, e) && Balanced(s, u)
    ensures Balanced(Next(s, e), u)
  {
    StepCounts(s, e, u);
  }

  lemma {:induction false} RunIsBalanced(states: seq<State>, events: seq<Event>, n: nat, u: User)
    requires Behaviour(states, events) && n < |states|
    ensures Balanced(states[n], u)
  {
    if n > 0 {
      RunIsBalanced(states, events, n - 1, u);
      RunKeepsInv(states, events, n - 1);
      StepKeepsBalance(states[n - 1], events[n - 1], u);
    }
  }

  lemma BalanceIsConservation(s: State, u: User)
    requires Inv(s) && Balanced(s, u)
    ensures At(s.counter, u) + IncrementsDue(s, u) == Live(s, u) + DecrementsDue(s, u) + At(s.clamps, u)
  {
    OwnedUnion(s.owner, s.incremented, s.owner.Keys - s.incremented, u);
    OwnedUnion(s.owner, s.decremented, s.claimedBy.Keys - s.decremented, u);
    OwnedUnion(s.owner, s.registry.Keys, s.claimedBy.Keys, u);
    assert s.incremented + (s.owner.Keys - s.incremented) == s.owner.Keys == s.registry.Keys + s.claimedBy.Keys;
    assert s.decremented + (s.claimedBy.Keys - s.decremented) == s.claimedBy.Keys;
  }

  /** Conservation: in every interleaving the counter of a user is the number of live tunnels, less the
      increments still due, plus the decrements still due, plus the decrements lost at zero. */
  lemma CounterIsConserved(states: seq<State>, events: seq<Event>, n: nat, u: User)
    requires Behaviour(states, events) && n < |states|
    ensures
      var s := states[n];
      At(s.counter, u) + IncrementsDue(s, u) == Live(s, u) + DecrementsDue(s, u) + At(s.clamps, u)
  {
    RunIsBalanced(states, events, n, u);
    RunKeepsInv(states, events, n);
    BalanceIsConservation(states[n], u);
  }

  /** By how much the decrements made for a user have ever exceeded the increments made. */
  ghost function WorstOvertaking(states: seq<State>, u: User, n: nat): nat
    requires n < |states|
  {
    var excess := if Decrements(states[n], u) > Increments(states[n], u)
                  then Decrements(states[n], u) - Increments(states[n], u) else 0;
    if n == 0 then excess
    else if WorstOvertaking(states, u, n - 1) < excess then excess
    else WorstOvertaking(states, u, n - 1)
  }

  /** The counter drifts above its true value by exactly the worst overtaking of increments by
      decrements: clamping at zero loses that many decrements for good. */
  lemma {:induction false} DriftIsTheWorstOvertaking(states: seq<State>, events: seq<Event>, n: nat, u: User)
    requires Behaviour(states, events) && n < |states|
    ensures At(states[n].clamps, u) == WorstOvertaking(states, u, n)
  {
    if n > 0 {
      DriftIsTheWorstOvertaking(states, events, n - 1, u);
      RunIsBalanced(states, events, n - 1, u);
      RunIsBalanced(states, events, n, u);
      RunKeepsInv(states, events, n - 1);
      StepCounts(states[n - 1], events[n - 1], u);
      ClampsOnlyAtZero(states[n - 1], events[n - 1], u);
    }
  }

  lemma ClampsOnlyAtZero(s: State, e: Event, u: User)
    requires Enabled(s, e)
    ensures At(Next(s, e).clamps, u)
         == At(s.clamps, u) + (if e.Decrement? && s.removers[e.r].items[0].user == u && At(s.counter, u) == 0 then 1 else 0)
  {
  }

  /** Every decrement of the run is for a tunnel whose increment was already made. */
  ghost predicate DecrementsFollowIncrements(states: seq<State>, events: seq<Event>)
    requires Behaviour(states, events)
  {
    forall i | 0 <= i < |events| && events[i].Decrement? ::
      Enabled(states[i], events[i]) && states[i].removers[events[i].r].items[0].id in states[i].incremented
  }

  lemma OrderedStepNeverClamps(s: State, e: Event, u: User)
    requires Inv(s) && Enabled(s, e) && Balanced(s, u)
    requires s.decremented <= s.incremented
    requires e.Decrement? ==> s.removers[e.r].items[0].id in s.incremented
    ensures At(Next(s, e).clamps, u) == At(s.clamps, u)
  {
    ClampsOnlyAtZero(s, e, u);
    if e.Decrement? && s.removers[e.r].items[0].user == u {
      var id := s.removers[e.r].items[0].id;
      assert ListOk(s, e.r) && ItemOk(s, e.r, 0);
      OwnedAdd(s.owner, s.decremented, id, u);
      SubsetSize(Owned(s.owner, s.decremented + {id}, u), Owned(s.owner, s.incremented, u));
    }
  }

  /** When every tunnel's decrement follows its own increment the clamp at zero never fires, and the counter
      is exact up to the calls still due. */
  lemma {:induction false} OrderedRunNeverClamps(states: seq<State>, events: seq<Event>, n: nat, u: User)
    requires Behaviour(states, events) && n < |states|
    requires DecrementsFollowIncrements(states, events)
    ensures states[n].decremented <= states[n].incremented
    ensures At(states[n].clamps, u) == 0
    ensures At(states[n].counter, u) + IncrementsDue(states[n], u) == Live(states[n], u) + DecrementsDue(states[n], u)
  {
    CounterIsConserved(states, events, n, u);
    if n > 0 {
      OrderedRunNeverClamps(states, events, n - 1, u);
      RunIsBalanced(states, events, n - 1, u);
      RunKeepsInv(states, events, n - 1);
      assert Enabled(states[n - 1], events[n - 1]) && states[n] == Next(states[n - 1], events[n - 1]);
      OrderedStepNeverClamps(states[n - 1], events[n - 1], u);
    }
  }

  /** Once nothing is due, the counter tells the truth exactly when decrements never overtook increments. */
  lemma CounterIsExactIffNeverOvertaken(states: seq<State>, events: seq<Event>, n: nat, u: User)
    requires Behaviour(states, events) && n < |states|
    requires IncrementsDue(states[n], u) == 0 && DecrementsDue(states[n], u) == 0
    ensures At(states[n].counter, u) == Live(states[n], u) <==> WorstOvertaking(states, u, n) == 0
  {
    CounterIsConserved(states, events, n, u);
    DriftIsTheWorstOvertaking(states, events, n, u);
  }

  /** It can happen: a tunnel killed between its insertion and its increment leaves the counter at one
      although no tunnel is live. */
  lemma EarlyKillDrifts() returns (states: seq<State>, events: seq<Event>)
    ensures Behaviour(states, events) && |states| == 6
    ensures states[5].registry == map[] && IncrementsDue(states[5], "u") == 0 && DecrementsDue(states[5], "u") == 0
    ensures At(states[5].counter, "u") == 1
  {
    var s0 := State(map[], map[], [], map[], map[], {}, {}, {}, map[], []);
    var s1 := Next(s0, Create("a", "u"));
    ClaimTakesThePresent(s1.registry, ["a"]);
    var s2 := Next(s1, Kill("a"));
    assert s2.removers[0].items == [Item("a", "u")] by {
      assert Claim(s1.registry, ["a"]) == [Item("a", "u")] + Claim(map[], []);
    }
    var s3 := Next(s2, Decrement(0));
    var s4 := Next(s3, Increment("a"));
    var s5 := Next(s4, Unregister(0));
    events := [Create("a", "u"), Kill("a"), Decrement(0), Increment("a"), Unregister(0)];
    states := [s0, s1, s2, s3, s4, s5];
    assert Owned(s5.owner, s5.owner.Keys - s5.incremented, "u") == {};
    assert Owned(s5.owner, s5.claimedBy.Keys - s5.decremented, "u") == {};
  }

  // ------------------------------------------------------------------ a remover left undisturbed

  /** The loop outside the lock: one decrement for each item that has an owner. */
  function Reduce(counter: map<User, nat>, items: seq<Item>): map<User, nat>
    decreases items
  {
    if items == [] then counter
    else Reduce(if items[0].user != "" then Decr(counter, items[0].user) else counter, items[1..])
  }

  lemma OneRound(counter: map<User, nat>, items: seq<Item>, i: nat)
    requires i < |items|
    ensures Reduce(counter, items[i..])
         == Reduce(if items[i].user != "" then Decr(counter, items[i].user) else counter, items[i + 1..])
    ensures Ids(items[..i + 1]) == Ids(items[..i]) + {items[i].id}
  {
    assert items[i..][0] == items[i] && items[i..][1..] == items[i + 1..];
    assert items[..i + 1] == items[..i] + [items[i]];
    IdsSnoc(items[..i], items[i]);
  }

  /** The order of the items does not matter: each user loses one per item, down to zero. */
  lemma {:induction false} ReduceSubtracts(owner: map<Tid, User>, counter: map<User, nat>, items: seq<Item>, u: User)
    requires u != "" && Distinct(items)
    requires forall item | item in items :: item.id in owner && owner[item.id] == item.user
    decreases items
    ensures At(Reduce(counter, items), u) == Floor(At(counter, u) - |Owned(owner, Ids(items), u)|)
  {
    if items == [] {
      assert Owned(owner, Ids(items), u) == {};
    } else {
      var item, rest := items[0], items[1..];
      ReduceSubtracts(owner, if item.user != "" then Decr(counter, item.user) else counter, rest, u);
      IdsSplit(items);
      assert Ids(items) == Ids(rest) + {item.id};
      OwnedAdd(owner, Ids(rest), item.id, u);
    }
  }

  /** What has no owner is not counted down. */
  lemma {:induction false} ReduceSparesNobody(counter: map<User, nat>, items: seq<Item>)
    ensures At(Reduce(counter, items), "") == At(counter, "")
    decreases items
  {
    if items != [] {
      ReduceSparesNobody(if items[0].user != "" then Decr(counter, items[0].user) else counter, items[1..]);
    }
  }

  /** One round of that loop, as steps of remover `r`. */
  ghost function FinishFirst(s: State, r: nat): State
    requires r < |s.removers| && s.removers[r].Working? && !s.removers[r].counted && s.removers[r].items != []
  {
    Next(if s.removers[r].items[0].user != "" then Next(s, Decrement(r)) else s, Unregister(r))
  }

  lemma FinishFirstIsOneRound(s: State, r: nat)
    requires r < |s.removers| && s.removers[r].Working? && !s.removers[r].counted && s.removers[r].items != []
    ensures
      var item, t := s.removers[r].items[0], FinishFirst(s, r);
      && |t.removers| == |s.removers| && t.removers[r] == Working(s.removers[r].items[1..], false)
      && t.counter == (if item.user != "" then Decr(s.counter, item.user) else s.counter)
      && t.unregistered == s.unregistered + {item.id} && t.registry == s.registry
  {
  }

  /** Let remover `r` finish its list with nobody in between. */
  ghost function Drain(s: State, r: nat): State
    requires r < |s.removers| && s.removers[r].Working? && !s.removers[r].counted
    decreases |s.removers[r].items|
  {
    if s.removers[r].items == [] then s
    else
      FinishFirstIsOneRound(s, r);
      Drain(FinishFirst(s, r), r)
  }

  /** The steps of an undisturbed remover add up to the loop of the sequential code. */
  lemma {:induction false} DrainIsTheLoop(s: State, r: nat)
    requires r < |s.removers| && s.removers[r].Working? && !s.removers[r].counted
    ensures Drain(s, r).counter == Reduce(s.counter, s.removers[r].items)
    ensures Drain(s, r).unregistered == s.unregistered + Ids(s.removers[r].items)
    ensures Drain(s, r).registry == s.registry
    decreases |s.removers[r].items|
  {
    var items := s.removers[r].items;
    if items != [] {
      FinishFirstIsOneRound(s, r);
      var t := FinishFirst(s, r);
      DrainIsTheLoop(t, r);
      IdsSplit(items);
      assert t.removers[r].items == items[1..];
    }
  }
}
