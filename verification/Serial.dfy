/** The server when its handlers and cleaners take turns: over whole runs of complete operations the
    counters are exact and the limit holds, whichever way the tunnels are counted.  `Registry` shows that
    its methods are such operations; `Quota` and `Limit` say what is left of this when they overlap. */
module Serial {
  import opened Common
  import opened Sweeps
  import Redis

  /** `max` is MaxPerUser; `redis` says whether there is a Redis to count with. */
  datatype Config = Config(max: int, redis: bool)

  datatype State = State(v: View, count: map<string, nat>)

  datatype Op =
    | Open(id: Tid, tunnel: TunnelRec)
    | Kill(id: Tid)
    | SweepExpired(now: int)
    | SweepInactive(now: int)
    | Connect(id: Tid, now: int)
    | Disconnect(id: Tid)

  ghost function Live(v: View, u: string): nat { |Owned(Owners(v), v.tunnels.Keys, u)| }

  /** What `handleTunnel` compares with the limit. */
  ghost function Counted(cfg: Config, s: State, u: string): nat {
    if cfg.redis then Redis.At(s.count, u) else Live(s.v, u)
  }

  ghost predicate Refused(cfg: Config, s: State, u: string) {
    u != "" && cfg.max > 0 && Counted(cfg, s, u) >= cfg.max
  }

  /** The counters after a removal of `doomed`. */
  ghost predicate Uncounted(cfg: Config, s: State, doomed: set<Tid>, t: State) {
    if cfg.redis then forall u | u != "" :: Redis.At(t.count, u) == Left(s.v, doomed, Redis.At(s.count, u), u)
    else t.count == s.count
  }

  /** One decrement is what removing one tunnel takes from the counters. */
  lemma KillUncounts(cfg: Config, s: State, id: Tid, t: State)
    requires id in s.v.tunnels
    requires t.count == if cfg.redis && s.v.tunnels[id].client != "" then Redis.Decr(s.count, s.v.tunnels[id].client) else s.count
    ensures Uncounted(cfg, s, {id}, t)
  {
    var client := s.v.tunnels[id].client;
    forall u ensures |Owned(Owners(s.v), {id}, u)| == if client == u then 1 else 0 {
      OwnedAdd(Owners(s.v), {}, id, u);
      assert Owned(Owners(s.v), {}, u) == {} && {} + {id} == {id};
    }
  }

  ghost predicate Opens(cfg: Config, s: State, id: Tid, tunnel: TunnelRec, t: State) {
    && id !in s.v.tunnels && !Refused(cfg, s, tunnel.client)
    && t.v == View(s.v.tunnels[id := tunnel], s.v.ws)
    && t.count == if cfg.redis && tunnel.client != "" then Redis.Incr(s.count, tunnel.client) else s.count
  }

  ghost predicate Step(cfg: Config, s: State, op: Op, t: State) {
    match op
    case Open(id, tunnel) => if Refused(cfg, s, tunnel.client) then t == s else Opens(cfg, s, id, tunnel, t)
    case Kill(id) => if id in s.v.tunnels then t.v == Remove(s.v, {id}) && Uncounted(cfg, s, {id}, t) else t == s
    case SweepExpired(now) => t.v == AfterExpired(s.v, now) && Uncounted(cfg, s, Expired(s.v, now), t)
    case SweepInactive(now) => t.v == AfterInactive(s.v, now) && Uncounted(cfg, s, Inactive(s.v, now), t)
    case Connect(id, now) => t == State(View(s.v.tunnels, s.v.ws[id := now]), s.count)
    case Disconnect(id) => t == State(View(s.v.tunnels, s.v.ws - {id}), s.count)
  }

  ghost predicate Run(cfg: Config, states: seq<State>, ops: seq<Op>) {
    && |states| == |ops| + 1
    && states[0] == State(View(map[], map[]), map[])
    && forall i | 0 <= i < |ops| :: Step(cfg, states[i], ops[i], states[i + 1])
  }

  ghost predicate Within(cfg: Config, v: View) {
    cfg.max > 0 ==> forall u | u != "" :: Live(v, u) <= cfg.max
  }

  ghost predicate Sound(cfg: Config, s: State) {
    Within(cfg, s.v) && (cfg.redis ==> Exact(s.v, s.count))
  }

  lemma OneMore(v: View, id: Tid, tunnel: TunnelRec, u: string)
    requires id !in v.tunnels
    ensures Live(View(v.tunnels[id := tunnel], v.ws), u) == Live(v, u) + if tunnel.client == u then 1 else 0
  {
    var w := View(v.tunnels[id := tunnel], v.ws);
    OwnedExtend(Owners(v), id, tunnel.client, v.tunnels.Keys, u);
    OwnedAdd(Owners(w), v.tunnels.Keys, id, u);
    assert Owners(w) == Owners(v)[id := tunnel.client] && w.tunnels.Keys == v.tunnels.Keys + {id};
  }

  /** The check refuses a tunnel before it would be one too many. */
  lemma OpeningKeepsWithin(cfg: Config, s: State, id: Tid, tunnel: TunnelRec, t: State)
    requires Sound(cfg, s) && Opens(cfg, s, id, tunnel, t)
    ensures Within(cfg, t.v)
  {
    forall u | u != "" && cfg.max > 0 ensures Live(t.v, u) <= cfg.max {
      OneMore(s.v, id, tunnel, u);
      assert Counted(cfg, s, u) == Live(s.v, u) <= cfg.max;
    }
  }

  lemma RemovalKeepsWithin(cfg: Config, v: View, w: View)
    requires Within(cfg, v) && w.tunnels.Keys <= v.tunnels.Keys
    requires forall id | id in w.tunnels :: w.tunnels[id].client == v.tunnels[id].client
    ensures Within(cfg, w)
  {
    forall u | u != "" && cfg.max > 0 ensures Live(w, u) <= cfg.max {
      assert Live(v, u) <= cfg.max;
      SubsetSize(Owned(Owners(w), w.tunnels.Keys, u), Owned(Owners(v), v.tunnels.Keys, u));
    }
  }

  lemma OwnersTellExact(v: View, w: View, count: map<string, nat>)
    requires Owners(v) == Owners(w) && Exact(w, count)
    ensures Exact(v, count)
  {
    OwnersTellKeys(v, w);
  }

  lemma RemovalIsSound(cfg: Config, s: State, doomed: set<Tid>, t: State)
    requires Sound(cfg, s) && doomed <= s.v.tunnels.Keys && Uncounted(cfg, s, doomed, t)
    requires Owners(t.v) == Owners(Remove(s.v, doomed))
    ensures Sound(cfg, t)
  {
    OwnersTellKeys(t.v, Remove(s.v, doomed));
    RemovalKeepsWithin(cfg, s.v, t.v);
    if cfg.redis {
      RemovalKeepsExact(s.v, doomed, s.count, t.count);
      OwnersTellExact(t.v, Remove(s.v, doomed), t.count);
    }
  }

  lemma OwnersTellKeys(v: View, w: View)
    requires Owners(v) == Owners(w)
    ensures v.tunnels.Keys == w.tunnels.Keys
    ensures forall id | id in v.tunnels :: v.tunnels[id].client == w.tunnels[id].client
  {
    assert v.tunnels.Keys == Owners(v).Keys == Owners(w).Keys == w.tunnels.Keys;
    forall id | id in v.tunnels ensures v.tunnels[id].client == w.tunnels[id].client {
      assert Owners(v)[id] == Owners(w)[id];
    }
  }

  lemma SameTunnelsSameSoundness(cfg: Config, s: State, t: State)
    requires Sound(cfg, s) && t.v.tunnels == s.v.tunnels && t.count == s.count
    ensures Sound(cfg, t)
  {
    assert Owners(t.v) == Owners(s.v);
    RemovalKeepsWithin(cfg, s.v, t.v);
    if cfg.redis {
      OwnersTellExact(t.v, s.v, t.count);
    }
  }

  lemma StepIsSound(cfg: Config, s: State, op: Op, t: State)
    requires Sound(cfg, s) && Step(cfg, s, op, t)
    ensures Sound(cfg, t)
  {
    match op
    case Open(id, tunnel) =>
      if !Refused(cfg, s, tunnel.client) {
        OpeningKeepsWithin(cfg, s, id, tunnel, t);
        if cfg.redis {
          OpeningKeepsExact(s.v, id, tunnel, s.count);
        }
      }
    case Kill(id) =>
      if id in s.v.tunnels {
        RemovalIsSound(cfg, s, {id}, t);
      }
    case SweepExpired(now) => RemovalIsSound(cfg, s, Expired(s.v, now), t);
    case SweepInactive(now) =>
      assert Owners(t.v) == Owners(Remove(s.v, Inactive(s.v, now)));
      RemovalIsSound(cfg, s, Inactive(s.v, now), t);
    case Connect(_, _) => SameTunnelsSameSoundness(cfg, s, t);
    case Disconnect(_) => SameTunnelsSameSoundness(cfg, s, t);
  }

  /** When operations take turns no user ever has more than MaxPerUser tunnels, counted by the server or by
      Redis, and the counters of Redis are exact after every one. */
  lemma {:induction false} TakingTurnsIsExact(cfg: Config, states: seq<State>, ops: seq<Op>, n: nat, u: string)
    requires Run(cfg, states, ops) && n < |states| && u != ""
    ensures cfg.max > 0 ==> Live(states[n].v, u) <= cfg.max
    ensures cfg.redis ==> Redis.At(states[n].count, u) == Live(states[n].v, u)
    ensures Sound(cfg, states[n])
  {
    if n == 0 {
      assert forall w :: Owned(Owners(states[0].v), {}, w) == {};
    } else {
      TakingTurnsIsExact(cfg, states, ops, n - 1, u);
      StepIsSound(cfg, states[n - 1], ops[n - 1], states[n]);
    }
  }

  /** When operations take turns a tunnel is opened exactly when its user is not known, or there is no limit, or the
      user has fewer tunnels than that, whoever counts. */
  lemma OpenedExactlyBelowTheLimit(cfg: Config, states: seq<State>, ops: seq<Op>, n: nat)
    requires Run(cfg, states, ops) && n < |ops| && ops[n].Open? && ops[n].id !in states[n].v.tunnels
    ensures
      var user, tunnels := ops[n].tunnel.client, states[n].v.tunnels;
      ops[n].id in states[n + 1].v.tunnels <==>
        user == "" || cfg.max <= 0 || |set id | id in tunnels && tunnels[id].client == user| < cfg.max
  {
    var v, user := states[n].v, ops[n].tunnel.client;
    assert Step(cfg, states[n], ops[n], states[n + 1]);
    if user != "" {
      TakingTurnsIsExact(cfg, states, ops, n, user);
      assert (set id | id in v.tunnels && v.tunnels[id].client == user) == Owned(Owners(v), v.tunnels.Keys, user);
    }
  }
}
