/** What the two cleaners of the server leave behind: `cleanupExpiredTunnels` and
    `cleanupInactiveTunnels`, as functions of the registry, the WebSocket map and the clock. */
module Sweeps {
  import opened Common
  import Quota
  import Redis

  type Tid = string

  const HOUR: int := 3_600_000_000_000   // nanoseconds
  const DAY: int := 24 * HOUR

  /** A `Tunnel` at one moment; no `expiresAt` stands for the zero time. */
  datatype TunnelRec = TunnelRec(
    client: string, protocol: string, subdomain: string, port: int,
    createTime: int, lastActive: int, expiresAt: Option<int>, connections: int)

  /** The registry, and the last activity of each registered WebSocket connection. */
  datatype View = View(tunnels: map<Tid, TunnelRec>, ws: map<Tid, int>)

  predicate IsExpired(t: TunnelRec, now: int) {
    t.expiresAt.Some? && now > t.expiresAt.value
  }

  predicate IsInactive(t: TunnelRec, connected: bool, now: int) {
    (!connected && now - t.lastActive > HOUR) || now - t.createTime > DAY
  }

  ghost function Expired(v: View, now: int): set<Tid> {
    set id | id in v.tunnels && IsExpired(v.tunnels[id], now)
  }

  ghost function Inactive(v: View, now: int): set<Tid> {
    set id | id in v.tunnels && IsInactive(v.tunnels[id], id in v.ws, now)
  }

  ghost function Present(v: View, ids: seq<Tid>): set<Tid> {
    set id | id in ids && id in v.tunnels
  }

  ghost function Remove(v: View, doomed: set<Tid>): View {
    View(v.tunnels - doomed, v.ws - doomed)
  }

  /** A connected tunnel takes over the activity of its WebSocket. */
  function Touched(v: View, id: Tid): TunnelRec
    requires id in v.tunnels
  {
    if id in v.ws then v.tunnels[id].(lastActive := v.ws[id]) else v.tunnels[id]
  }

  ghost function AfterExpired(v: View, now: int): View {
    Remove(v, Expired(v, now))
  }

  ghost function TouchAll(v: View): View {
    v.(tunnels := map id | id in v.tunnels :: Touched(v, id))
  }

  ghost function AfterInactive(v: View, now: int): View {
    Remove(TouchAll(v), Inactive(v, now))
  }

  ghost function Owners(v: View): map<Tid, string> {
    map id | id in v.tunnels :: v.tunnels[id].client
  }

  /** What removing `doomed` leaves of the counter of a user. */
  ghost function Left(v: View, doomed: set<Tid>, count: nat, user: string): nat {
    Redis.Floor(count - |Owned(Owners(v), doomed, user)|)
  }

  /** The decrements made for the tunnels removed leave exactly this of every counter. */
  lemma ReduceLeaves(v: View, items: seq<Quota.Item>, count: map<string, nat>)
    requires Quota.Distinct(items)
    requires forall item | item in items :: item.id in v.tunnels && v.tunnels[item.id].client == item.user
    ensures forall u | u != "" :: Redis.At(Quota.Reduce(count, items), u) == Left(v, Quota.Ids(items), Redis.At(count, u), u)
  {
    forall u | u != "" ensures Redis.At(Quota.Reduce(count, items), u) == Left(v, Quota.Ids(items), Redis.At(count, u), u) {
      Quota.ReduceSubtracts(Owners(v), count, items, u);
    }
  }

  /** Every counter is the number of live tunnels of its user. */
  ghost predicate Exact(v: View, count: map<string, nat>) {
    forall u | u != "" :: Redis.At(count, u) == |Owned(Owners(v), v.tunnels.Keys, u)|
  }

  /** A removal that nothing interrupts keeps exact counters exact: the clamp at zero is never reached. */
  lemma RemovalKeepsExact(v: View, doomed: set<Tid>, count: map<string, nat>, count': map<string, nat>)
    requires doomed <= v.tunnels.Keys && Exact(v, count)
    requires forall u | u != "" :: Redis.At(count', u) == Left(v, doomed, Redis.At(count, u), u)
    ensures Exact(Remove(v, doomed), count')
  {
    var w := Remove(v, doomed);
    forall u | u != "" ensures Redis.At(count', u) == |Owned(Owners(w), w.tunnels.Keys, u)| {
      OwnedUnion(Owners(v), doomed, v.tunnels.Keys - doomed, u);
      assert doomed + (v.tunnels.Keys - doomed) == v.tunnels.Keys;
      assert Owned(Owners(w), w.tunnels.Keys, u) == Owned(Owners(v), v.tunnels.Keys - doomed, u);
    }
  }

  /** So does a new tunnel that is counted. */
  lemma OpeningKeepsExact(v: View, id: Tid, t: TunnelRec, count: map<string, nat>)
    requires id !in v.tunnels && Exact(v, count)
    ensures Exact(View(v.tunnels[id := t], v.ws), if t.client != "" then Redis.Incr(count, t.client) else count)
  {
    var w := View(v.tunnels[id := t], v.ws);
    forall u | u != ""
      ensures |Owned(Owners(w), w.tunnels.Keys, u)| == |Owned(Owners(v), v.tunnels.Keys, u)| + if t.client == u then 1 else 0
    {
      OwnedExtend(Owners(v), id, t.client, v.tunnels.Keys, u);
      OwnedAdd(Owners(w), v.tunnels.Keys, id, u);
      assert Owners(w) == Owners(v)[id := t.client] && w.tunnels.Keys == v.tunnels.Keys + {id};
    }
  }

  /** Which tunnels a sweep leaves: the unconnected ones for an hour after their last activity, all of them for a day
      after they were made; and those whose time is not over. */
  lemma SparedExactlyWhen(v: View, id: Tid, now: int)
    requires id in v.tunnels
    ensures id in AfterInactive(v, now).tunnels <==>
      && (id in v.ws || now <= v.tunnels[id].lastActive + 3_600_000_000_000)
      && now <= v.tunnels[id].createTime + 86_400_000_000_000
    ensures id in AfterExpired(v, now).tunnels <==> v.tunnels[id].expiresAt.None? || now <= v.tunnels[id].expiresAt.value
  {
    assert id in TouchAll(v).tunnels;
    assert id in Inactive(v, now) <==> IsInactive(v.tunnels[id], id in v.ws, now);
  }

  /** For one reading of the clock the two sweeps commute: the same registry, the same activity times
      and the same WebSocket map, whichever runs first. */
  lemma SweepsCommute(v: View, now: int)
    ensures AfterInactive(AfterExpired(v, now), now) == AfterExpired(AfterInactive(v, now), now)
  {
    var e, i := AfterExpired(v, now), AfterInactive(v, now);
    SweepsTakeWhatIsLeft(v, now);
    assert AfterInactive(e, now).tunnels == AfterExpired(i, now).tunnels;
    assert AfterInactive(e, now).ws == AfterExpired(i, now).ws;
  }

  lemma SweepsTakeWhatIsLeft(v: View, now: int)
    ensures Inactive(AfterExpired(v, now), now) == Inactive(v, now) - Expired(v, now)
    ensures Expired(AfterInactive(v, now), now) == Expired(v, now) - Inactive(v, now)
  {
  }

  /** The counter of every user ends up the same too: a tunnel that both sweeps would take counts once. */
  lemma SweepsCommuteOnCounters(v: View, now: int, count: nat, user: string)
    ensures
      var e, i := AfterExpired(v, now), AfterInactive(v, now);
      Left(e, Inactive(e, now), Left(v, Expired(v, now), count, user), user)
        == Left(i, Expired(i, now), Left(v, Inactive(v, now), count, user), user)
        == Left(v, Expired(v, now) + Inactive(v, now), count, user)
  {
    var x, y := Expired(v, now), Inactive(v, now);
    SweepsTakeWhatIsLeft(v, now);
    SweptTwiceCountsOnce(v, AfterExpired(v, now), x, y, user);
    SweptTwiceCountsOnce(v, AfterInactive(v, now), y, x, user);
    assert x + y == y + x;
  }

  lemma SweptTwiceCountsOnce(v: View, w: View, first: set<Tid>, second: set<Tid>, user: string)
    requires second <= v.tunnels.Keys
    requires forall id | id in second - first :: id in w.tunnels && w.tunnels[id].client == v.tunnels[id].client
    ensures |Owned(Owners(v), first, user)| + |Owned(Owners(w), second - first, user)|
         == |Owned(Owners(v), first + second, user)|
  {
    OwnedUnion(Owners(v), first, second - first, user);
    assert first + (second - first) == first + second;
    assert Owned(Owners(w), second - first, user) == Owned(Owners(v), second - first, user);
  }

  /** Neither sweep touches a tunnel it does not remove, except that the inactivity sweep copies the
      activity of a connection; and a second sweep at the same moment finds nothing more. */
  lemma SweepsAreIdempotent(v: View, now: int)
    ensures Expired(AfterExpired(v, now), now) == {}
    ensures AfterExpired(AfterExpired(v, now), now) == AfterExpired(v, now)
    ensures Inactive(AfterInactive(v, now), now) == {}
    ensures AfterInactive(AfterInactive(v, now), now) == AfterInactive(v, now)
  {
    assert Inactive(AfterInactive(v, now), now) == {};
  }
}
