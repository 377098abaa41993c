/** The server's tunnel registry with its WebSocket map and per-user counters, and the operations on them
    that run one at a time: each method here is the sequential code of a handler or of a cleaner.  How these
    interleave is the matter of the modules Quota, Limit and Ownership. */
module Registry {
  import opened Common
  import opened Sweeps
  import Dashboard
  import PublicUrl
  import Quota
  import Redis
  import Serial

  class Tunnel {
    const id: Tid
    const clientID: string
    const subdomain: string
    const targetPort: int
    const createTime: int
    const expiresAt: Option<int>
    var protocol: string
    var lastActive: int
    var connections: int

    constructor (id: Tid, clientID: string, protocol: string, subdomain: string, targetPort: int, now: int, expiresAt: Option<int>)
      ensures this.id == id && this.clientID == clientID
      ensures At() == TunnelRec(clientID, protocol, subdomain, targetPort, now, now, expiresAt, 0)
    {
      this.id, this.clientID, this.subdomain, this.targetPort := id, clientID, subdomain, targetPort;
      this.createTime, this.expiresAt := now, expiresAt;
      this.protocol, lastActive, connections := protocol, now, 0;
    }

    function At(): TunnelRec
      reads this
    {
      TunnelRec(clientID, protocol, subdomain, targetPort, createTime, lastActive, expiresAt, connections)
    }
  }

  class WebSocketTunnel {
    var lastActive: int

    constructor (now: int)
      ensures lastActive == now
    {
      lastActive := now;
    }
  }

  /** `session` is the user of the session cookie, if there is one. */
  datatype TunnelRequest = TunnelRequest(
    clientID: string, protocol: string, port: int, certificate: string, session: Option<string>)

  datatype Reply =
    | Opened(id: Tid, url: string)
    | InMaintenance
    | BadCertificate
    | BadProtocol
    | LimitReached(max: int)

  function UserOf(q: TunnelRequest): string {
    if q.session.Some? && q.session.value != "" then q.session.value else q.clientID
  }

  function StoredProtocol(protocol: string, httpsAvailable: bool): string {
    if protocol == "https" && !httpsAvailable then "http" else protocol
  }

  class Server {
    const baseDomain: string
    const port: int
    const httpsAvailable: bool
    const maxPerUser: int
    const maxConnection: Option<int>
    const redis: Redis.RedisClient?
    var maintenance: bool
    var tunnels: map<Tid, Tunnel>
    var ws: map<Tid, WebSocketTunnel>
    var closed: set<WebSocketTunnel>   // those whose connection was closed

    constructor (baseDomain: string, port: int, httpsAvailable: bool, maxPerUser: int, maxConnection: Option<int>,
                 redis: Redis.RedisClient?)
      ensures Valid() && Now() == View(map[], map[]) && this.redis == redis
    {
      this.baseDomain, this.port, this.httpsAvailable := baseDomain, port, httpsAvailable;
      this.maxPerUser, this.maxConnection, this.redis := maxPerUser, maxConnection, redis;
      maintenance, tunnels, ws, closed := false, map[], map[], {};
    }

    /** A tunnel is registered under its own identifier. */
    ghost predicate Valid()
      reads this
    {
      forall id | id in tunnels :: tunnels[id].id == id
    }

    ghost function Now(): View
      reads this, tunnels.Values, ws.Values
    {
      View(map id | id in tunnels :: tunnels[id].At(), map id | id in ws :: ws[id].lastActive)
    }

    /** The counters, if there is a Redis to keep them. */
    function Count(): map<string, nat>
      reads redis
    {
      if redis != null then redis.keys else map[]
    }

    ghost function State(): Serial.State
      reads this, tunnels.Values, ws.Values, redis
    {
      Serial.State(Now(), Count())
    }

    ghost function Cfg(): Serial.Config {
      Serial.Config(maxPerUser, redis != null)
    }

    ghost function ClientIDs(): map<Tid, string>
      reads this
    {
      map id | id in tunnels :: tunnels[id].clientID
    }

    // ---------------------------------------------------------------- removing tunnels

    /** One round of the loop of a remover under the lock: a candidate that is gone already is skipped. */
    method RemoveIfPresent(id: Tid, ghost rest: seq<Tid>) returns (items: seq<Quota.Item>)
      modifies this`tunnels
      ensures Quota.Claim(old(ClientIDs()), [id] + rest) == items + Quota.Claim(ClientIDs(), rest)
      ensures tunnels == old(tunnels) - Quota.Ids(items)
    {
      assert ([id] + rest)[1..] == rest;
      if id !in tunnels {
        return [];
      }
      items := [Quota.Item(id, tunnels[id].clientID)];
      tunnels := tunnels - {id};
      assert ClientIDs() == old(ClientIDs()) - {id};
      assert items == [] + items;
      Quota.IdsSnoc([], items[0]);
    }

    /** The part of a remover under the lock. */
    method RemovePresent(ids: seq<Tid>) returns (items: seq<Quota.Item>)
      modifies this`tunnels
      ensures items == Quota.Claim(old(ClientIDs()), ids)
      ensures Now() == View(old(Now()).tunnels - Quota.Ids(items), old(Now()).ws)
      ensures tunnels == old(tunnels) - Quota.Ids(items)
    {
      items := [];
      for i := 0 to |ids|
        invariant Quota.Claim(old(ClientIDs()), ids) == items + Quota.Claim(ClientIDs(), ids[i..])
        invariant tunnels == old(tunnels) - Quota.Ids(items)
      {
        assert ids[i..] == [ids[i]] + ids[i + 1..];
        var item := RemoveIfPresent(ids[i], ids[i + 1..]);
        Quota.IdsJoin(items, item);
        items := items + item;
      }
    }

    /** `UnregisterWebSocketTunnel`. */
    method UnregisterWebSocketTunnel(id: Tid)
      modifies this`ws, this`closed
      ensures ws == old(ws) - {id}
      ensures closed == old(closed) + if id in old(ws) then {old(ws)[id]} else {}
    {
      if id in ws {
        closed := closed + {ws[id]};
      }
      ws := ws - {id};
    }

    /** One round of the loop of a remover after the lock is released. */
    method CleanUpAfter(item: Quota.Item)
      modifies this`ws, redis, this`closed
      ensures Count() == if redis != null && item.user != "" then Redis.Decr(old(Count()), item.user) else old(Count())
      ensures ws == old(ws) - {item.id}
      ensures closed == old(closed) + if item.id in old(ws) then {old(ws)[item.id]} else {}
    {
      if redis != null && item.user != "" {
        var _ := redis.DecrementTunnelCount(item.user);
      }
      UnregisterWebSocketTunnel(item.id);
    }

    method CleanUp(items: seq<Quota.Item>)
      modifies this`ws, redis, this`closed
      ensures Count() == if redis != null then Quota.Reduce(old(Count()), items) else old(Count())
      ensures ws == old(ws) - Quota.Ids(items)
      ensures Now() == View(old(Now()).tunnels, old(Now()).ws - Quota.Ids(items))
      ensures closed == old(closed) + set id | id in Quota.Ids(items) && id in old(ws) :: old(ws)[id]
    {
      for i := 0 to |items|
        invariant redis != null ==> Quota.Reduce(Count(), items[i..]) == Quota.Reduce(old(Count()), items)
        invariant redis == null ==> Count() == old(Count())
        invariant ws == old(ws) - Quota.Ids(items[..i])
        invariant closed == old(closed) + set id | id in Quota.Ids(items[..i]) && id in old(ws) :: old(ws)[id]
      {
        Quota.OneRound(Count(), items, i);
        CleanUpAfter(items[i]);
      }
      assert items[..|items|] == items;
    }

    /** One round of the collecting loop of the inactivity sweep. */
    method Inspect(id: Tid, t: Tunnel, now: int) returns (remove: bool)
      modifies t`lastActive
      ensures remove == IsInactive(old(t.At()), id in ws, now)
      ensures remove <==>
        (id !in ws && now > old(t.lastActive) + 3_600_000_000_000) || now > t.createTime + 86_400_000_000_000
      ensures t.lastActive == if id in ws then ws[id].lastActive else old(t.lastActive)
    {
      if id !in ws {
        if now - t.lastActive > HOUR {
          return true;
        }
      } else {
        t.lastActive := ws[id].lastActive;
      }
      return now - t.createTime > DAY;
    }

    /** The loop of the read-locked first phase. */
    method InspectAll(now: int) returns (ids: seq<Tid>)
      requires Valid()
      modifies tunnels.Values`lastActive
      ensures forall id :: id in ids <==> id in tunnels && IsInactive(old(tunnels[id].At()), id in ws, now)
      ensures forall i, j | 0 <= i < j < |ids| :: ids[i] != ids[j]
      ensures forall id | id in tunnels ::
        tunnels[id].lastActive == if id in ws then ws[id].lastActive else old(tunnels[id].lastActive)
    {
      ids := [];
      var todo := tunnels.Keys;
      while todo != {}
        invariant todo <= tunnels.Keys
        invariant forall id | id in tunnels ::
          tunnels[id].lastActive == if id in ws && id !in todo then ws[id].lastActive else old(tunnels[id].lastActive)
        invariant forall id :: id in ids <==> id in tunnels && id !in todo && IsInactive(old(tunnels[id].At()), id in ws, now)
        invariant forall i, j | 0 <= i < j < |ids| :: ids[i] != ids[j]
      {
        var id :| id in todo;
        todo := todo - {id};
        var remove := Inspect(id, tunnels[id], now);
        if remove {
          ids := ids + [id];
        }
      }
    }

    /** Which tunnels to remove, each once. */
    method CollectInactive(now: int) returns (ids: seq<Tid>)
      requires Valid()
      modifies tunnels.Values`lastActive
      ensures forall id | id in tunnels ::
        tunnels[id].lastActive == if id in ws then ws[id].lastActive else old(tunnels[id].lastActive)
      ensures forall id :: id in ids <==> id in Inactive(old(Now()), now)
      ensures forall i, j | 0 <= i < j < |ids| :: ids[i] != ids[j]
      ensures Now() == TouchAll(old(Now()))
    {
      ids := InspectAll(now);
      OnlyTouched();
    }

    twostate lemma OnlyTouched()
      requires tunnels == old(tunnels) && ws == old(ws) && forall id | id in ws :: ws[id].lastActive == old(ws[id].lastActive)
      requires forall id | id in tunnels ::
        && tunnels[id].protocol == old(tunnels[id].protocol) && tunnels[id].connections == old(tunnels[id].connections)
        && tunnels[id].lastActive == if id in ws then ws[id].lastActive else old(tunnels[id].lastActive)
      ensures Now() == TouchAll(old(Now()))
    {
      assert Now().tunnels == TouchAll(old(Now())).tunnels;
    }

    /** Since the state given, the tunnels that are gone took their connections along, which are closed, and one count
        of their owner each, down to zero; everything else is as it was. */
    ghost predicate TookTheirs(
      was: map<Tid, Tunnel>, wasWs: map<Tid, WebSocketTunnel>, wasClosed: set<WebSocketTunnel>, count: map<string, nat>)
      reads this, redis
    {
      var gone := was.Keys - tunnels.Keys;
      && tunnels == was - gone && ws == wasWs - gone
      && closed == wasClosed + (set id | id in gone && id in wasWs :: wasWs[id])
      && (redis != null ==> Redis.At(Count(), "") == Redis.At(count, "") && forall u | u != "" :: LostAsMany(was, gone, count, u))
    }

    ghost predicate LostAsMany(was: map<Tid, Tunnel>, gone: set<Tid>, count: map<string, nat>, u: string)
      reads redis
    {
      Redis.At(Count(), u) == Redis.Floor(Redis.At(count, u) - |TheirsOf(was, gone, u)|)
    }

    ghost function TheirsOf(was: map<Tid, Tunnel>, gone: set<Tid>, u: string): set<Tid> {
      set id | id in gone && id in was && was[id].clientID == u
    }

    lemma UncountedTookTheirs(
      was: map<Tid, Tunnel>, wasWs: map<Tid, WebSocketTunnel>, wasClosed: set<WebSocketTunnel>, count: map<string, nat>,
      v: View, doomed: set<Tid>)
      requires Owners(v) == (map id | id in was :: was[id].clientID) && doomed <= was.Keys
      requires tunnels == was - doomed && ws == wasWs - doomed
      requires closed == wasClosed + set id | id in doomed && id in wasWs :: wasWs[id]
      requires redis != null ==> Redis.At(Count(), "") == Redis.At(count, "")
      requires redis != null ==> forall u | u != "" :: Redis.At(Count(), u) == Left(v, doomed, Redis.At(count, u), u)
      ensures TookTheirs(was, wasWs, wasClosed, count)
    {
      assert was.Keys - tunnels.Keys == doomed;
      if redis != null {
        forall u | u != "" ensures LostAsMany(was, doomed, count, u) {
          assert Owned(Owners(v), doomed, u) == TheirsOf(was, doomed, u);
        }
      }
    }

    /** Nothing gone, nothing taken. */
    lemma NoneTaken()
      ensures TookTheirs(tunnels, ws, closed, Count())
    {
      assert tunnels.Keys - tunnels.Keys == {} && tunnels - {} == tunnels && ws - {} == ws;
      forall u ensures LostAsMany(tunnels, {}, Count(), u) {
        assert TheirsOf(tunnels, {}, u) == {};
      }
    }

    /** What a remover does for the tunnels that it took out of `was`. */
    method CleanUpTaken(items: seq<Quota.Item>, ghost v: View, ghost was: map<Tid, Tunnel>)
      requires Owners(v) == map id | id in was :: was[id].clientID
      requires Quota.Distinct(items) && forall item | item in items :: item.id in was && was[item.id].clientID == item.user
      requires tunnels == was - Quota.Ids(items)
      modifies this`ws, redis, this`closed
      ensures ws == old(ws) - Quota.Ids(items) && Now() == View(old(Now()).tunnels, old(Now()).ws - Quota.Ids(items))
      ensures Serial.Uncounted(Cfg(), Serial.State(v, old(Count())), Quota.Ids(items), State())
      ensures TookTheirs(was, old(ws), old(closed), old(Count()))
    {
      ghost var before := Count();
      CleanUp(items);
      assert forall id | id in was :: id in Owners(v) && Owners(v)[id] == was[id].clientID;
      ReduceLeaves(v, items, before);
      Quota.ReduceSparesNobody(before, items);
      UncountedTookTheirs(was, old(ws), old(closed), before, v, Quota.Ids(items));
    }

    method RemoveAll(ids: seq<Tid>)
      modifies this`tunnels, this`ws, redis, this`closed
      ensures tunnels == old(tunnels) - Present(old(Now()), ids)
      ensures Now() == Remove(old(Now()), Present(old(Now()), ids))
      ensures Serial.Uncounted(Cfg(), old(State()), Present(old(Now()), ids), State())
      ensures TookTheirs(old(tunnels), old(ws), old(closed), old(Count()))
    {
      ghost var v := Now();
      assert ClientIDs() == Owners(v);
      Quota.ClaimTakesThePresent(Owners(v), ids);
      var items := RemovePresent(ids);
      assert Quota.Ids(items) == Present(v, ids);
      CleanUpTaken(items, v, old(tunnels));
    }

    /** The second phase of the inactivity sweep; `v` is what the first phase began with. */
    method RemoveCollected(ids: seq<Tid>, ghost v: View, ghost now: int)
      requires Now() == TouchAll(v) && forall id :: id in ids <==> id in Inactive(v, now)
      modifies this`tunnels, this`ws, redis, this`closed
      ensures Now() == AfterInactive(v, now)
      ensures Serial.Uncounted(Cfg(), Serial.State(v, old(Count())), Inactive(v, now), State())
      ensures TookTheirs(old(tunnels), old(ws), old(closed), old(Count()))
    {
      SweepOf(v, ids, now);
      NoneTaken();
      if |ids| > 0 {
        RemoveAll(ids);
      }
    }

    method CleanupInactiveTunnels(now: int)
      requires Valid()
      modifies this`tunnels, this`ws, redis, this`closed, tunnels.Values`lastActive
      ensures Valid() && Serial.Step(Cfg(), old(State()), Serial.SweepInactive(now), State())
      ensures TookTheirs(old(tunnels), old(ws), old(closed), old(Count()))
      ensures forall id | id in old(tunnels) :: id in tunnels <==>
        && (id in old(ws) || now <= old(tunnels[id].lastActive) + 3_600_000_000_000)
        && now <= old(tunnels)[id].createTime + 86_400_000_000_000
      ensures forall id | id in tunnels ::
        tunnels[id].lastActive == if id in ws then ws[id].lastActive else old(tunnels[id].lastActive)
    {
      ghost var v := Now();
      var ids := CollectInactive(now);
      RemoveCollected(ids, v, now);
      SparedOutright(now);
    }

    /** Which tunnels the sweep leaves, by their fields. */
    twostate lemma SparedOutright(now: int)
      requires Now() == AfterInactive(old(Now()), now)
      ensures forall id | id in old(tunnels) :: id in tunnels <==>
        && (id in old(ws) || now <= old(tunnels[id].lastActive) + 3_600_000_000_000)
        && now <= old(tunnels)[id].createTime + 86_400_000_000_000
    {
      forall id | id in old(tunnels) ensures id in tunnels <==>
        && (id in old(ws) || now <= old(tunnels[id].lastActive) + 3_600_000_000_000)
        && now <= old(tunnels)[id].createTime + 86_400_000_000_000
      {
        assert id in tunnels <==> id in Now().tunnels;
        SparedExactlyWhen(old(Now()), id, now);
        assert old(Now()).tunnels[id] == old(tunnels[id].At());
      }
    }

    lemma SweepOf(v: View, ids: seq<Tid>, now: int)
      requires forall id :: id in ids <==> id in Inactive(v, now)
      ensures Remove(TouchAll(v), Present(TouchAll(v), ids)) == AfterInactive(v, now)
      ensures forall c: nat, u :: Left(TouchAll(v), Present(TouchAll(v), ids), c, u) == Left(v, Inactive(v, now), c, u)
      ensures ids == [] ==> TouchAll(v) == AfterInactive(v, now) && forall c: nat, u :: Left(v, Inactive(v, now), c, u) == c
    {
      assert Present(TouchAll(v), ids) == Inactive(v, now);
      assert Owners(TouchAll(v)) == Owners(v);
      if ids == [] {
        assert Inactive(v, now) == {};
        assert TouchAll(v).tunnels - {} == TouchAll(v).tunnels && v.ws - {} == v.ws;
        forall u ensures Owned(Owners(v), {}, u) == {} {}
      }
    }

    /** One round of the loop of the expiry sweep. */
    method RemoveIfExpired(id: Tid, now: int) returns (items: seq<Quota.Item>)
      requires id in tunnels
      modifies this`tunnels
      ensures items == if IsExpired(old(tunnels[id].At()), now) then [Quota.Item(id, old(tunnels[id].clientID))] else []
      ensures tunnels == old(tunnels) - Quota.Ids(items)
    {
      var t := tunnels[id];
      if t.expiresAt.None? {
        return [];
      }
      if now > t.expiresAt.value {
        items := [Quota.Item(id, t.clientID)];
        tunnels := tunnels - {id};
        assert items == [] + items;
        Quota.IdsSnoc([], items[0]);
      } else {
        items := [];
      }
    }

    /** The part of the expiry sweep under the lock. */
    method CollectExpired(now: int) returns (items: seq<Quota.Item>)
      modifies this`tunnels
      ensures Quota.Distinct(items) && forall item | item in items :: item.id in old(tunnels) && old(tunnels)[item.id].clientID == item.user
      ensures forall id :: id in Quota.Ids(items) <==> id in old(tunnels) && IsExpired(old(tunnels[id].At()), now)
      ensures tunnels == old(tunnels) - Quota.Ids(items)
    {
      items := [];
      var todo := tunnels.Keys;
      while todo != {}
        invariant todo <= tunnels.Keys && tunnels == old(tunnels) - Quota.Ids(items)
        invariant Quota.Distinct(items) && forall item | item in items :: item.id in old(tunnels) && old(tunnels)[item.id].clientID == item.user
        invariant forall id :: id in Quota.Ids(items) <==> id in old(tunnels) && id !in todo && IsExpired(old(tunnels[id].At()), now)
        decreases todo
      {
        var id :| id in todo;
        todo := todo - {id};
        var item := RemoveIfExpired(id, now);
        Quota.IdsJoin(items, item);
        Quota.DistinctJoin(items, item);
        items := items + item;
      }
    }

    method CleanupExpiredTunnels(now: int)
      modifies this`tunnels, this`ws, redis, this`closed
      ensures old(Valid()) ==> Valid()
      ensures Serial.Step(Cfg(), old(State()), Serial.SweepExpired(now), State())
      ensures TookTheirs(old(tunnels), old(ws), old(closed), old(Count())) && forall id | id in old(tunnels) ::
        id in tunnels <==> old(tunnels)[id].expiresAt.None? || now <= old(tunnels)[id].expiresAt.value
    {
      ghost var v := Now();
      assert ClientIDs() == Owners(v);
      var items := CollectExpired(now);
      assert Quota.Ids(items) == Expired(v, now);
      assert Now() == View(v.tunnels - Quota.Ids(items), v.ws);
      CleanUpTaken(items, v, old(tunnels));
      UnexpiredOutright(now);
    }

    twostate lemma UnexpiredOutright(now: int)
      requires Now().tunnels.Keys == AfterExpired(old(Now()), now).tunnels.Keys
      ensures forall id | id in old(tunnels) ::
        id in tunnels <==> old(tunnels)[id].expiresAt.None? || now <= old(tunnels)[id].expiresAt.value
    {
      forall id | id in old(tunnels)
        ensures id in tunnels <==> old(tunnels)[id].expiresAt.None? || now <= old(tunnels)[id].expiresAt.value
      {
        assert id in tunnels <==> id in Now().tunnels;
        SparedExactlyWhen(old(Now()), id, now);
        assert old(Now()).tunnels[id] == old(tunnels[id].At());
      }
    }

    method RemoveOne(id: Tid)
      requires id in tunnels
      modifies this`tunnels, this`ws, redis, this`closed
      ensures tunnels == old(tunnels) - {id} && ws == old(ws) - {id} && Now() == Remove(old(Now()), {id})
      ensures Count() == if redis != null && old(tunnels)[id].clientID != "" then Redis.Decr(old(Count()), old(tunnels)[id].clientID) else old(Count())
      ensures closed == old(closed) + if id in old(ws) then {old(ws)[id]} else {}
    {
      var item := Quota.Item(id, tunnels[id].clientID);
      tunnels := tunnels - {id};
      CleanUpAfter(item);
    }

    /** A tunnel that is gone already is not removed again: neither counter nor connection is touched. */
    method KillTunnel(id: Tid) returns (ok: bool)
      modifies this`tunnels, this`ws, redis, this`closed
      ensures old(Valid()) ==> Valid()
      ensures ok <==> id in old(tunnels)
      ensures Serial.Step(Cfg(), old(State()), Serial.Kill(id), State())
      ensures ok ==> tunnels == old(tunnels) - {id} && TookTheirs(old(tunnels), old(ws), old(closed), old(Count()))
      ensures !ok ==> tunnels == old(tunnels) && ws == old(ws) && closed == old(closed) && Count() == old(Count())
    {
      if id !in tunnels {
        return false;
      }
      ghost var before := State();
      assert before.v.tunnels[id].client == tunnels[id].clientID;
      RemoveOne(id);
      Serial.KillUncounts(Cfg(), before, id, State());
      UncountedTookTheirs(old(tunnels), old(ws), old(closed), old(Count()), before.v, {id});
      return true;
    }

    // ---------------------------------------------------------------- opening tunnels

    /** The loop of `handleTunnel` that counts when there is no Redis. */
    method CountTunnels(user: string) returns (n: nat)
      ensures n == Serial.Live(Now(), user)
    {
      assert ClientIDs() == Owners(Now()) && Now().tunnels.Keys == tunnels.Keys;
      n := 0;
      var todo := tunnels.Keys;
      while todo != {}
        invariant todo <= tunnels.Keys
        invariant n == |Owned(ClientIDs(), tunnels.Keys - todo, user)|
      {
        var id :| id in todo;
        OwnedAdd(ClientIDs(), tunnels.Keys - todo, id, user);
        assert tunnels.Keys - (todo - {id}) == tunnels.Keys - todo + {id};
        todo := todo - {id};
        if tunnels[id].clientID == user {
          n := n + 1;
        }
      }
      assert tunnels.Keys - todo == tunnels.Keys;
    }

    /** What is compared with the limit: what Redis has for the user, or else the tunnels in the registry. */
    ghost function TunnelsOf(user: string): nat
      reads this, redis
    {
      if redis != null then (if user in redis.keys then redis.keys[user] else 0)
      else |set id | id in tunnels && tunnels[id].clientID == user|
    }

    lemma CountedIsTunnelsOf(user: string)
      ensures Serial.Counted(Cfg(), State(), user) == TunnelsOf(user)
    {
      assert Owned(Owners(Now()), Now().tunnels.Keys, user) == set id | id in tunnels && tunnels[id].clientID == user;
    }

    /** The error that `handleTunnel` answers with, if any: the first check that fails. */
    method Refuse(q: TunnelRequest) returns (refused: Option<Reply>)
      ensures refused == Some(InMaintenance) <==> maintenance
      ensures refused == Some(BadCertificate) <==> !maintenance && q.certificate == ""
      ensures refused == Some(BadProtocol) <==>
        !maintenance && q.certificate != "" && q.protocol != "http" && q.protocol != "https" && q.protocol != "tcp"
      ensures refused == Some(LimitReached(maxPerUser)) <==>
        && !maintenance && q.certificate != "" && PublicUrl.IsProtocol(q.protocol)
        && maxPerUser > 0 && UserOf(q) != "" && TunnelsOf(UserOf(q)) >= maxPerUser
      ensures refused.Some? ==> refused.value in {InMaintenance, BadCertificate, BadProtocol, LimitReached(maxPerUser)}
      ensures refused.None? ==> !Serial.Refused(Cfg(), State(), UserOf(q))
    {
      if maintenance {
        return Some(InMaintenance);
      }
      if q.certificate == "" {
        return Some(BadCertificate);
      }
      if q.protocol != "http" && q.protocol != "https" && q.protocol != "tcp" {
        return Some(BadProtocol);
      }
      var userID := UserOf(q);
      CountedIsTunnelsOf(userID);
      if userID != "" && maxPerUser > 0 {
        var tunnelCount;
        if redis != null {
          tunnelCount := redis.GetTunnelCount(userID);
        } else {
          tunnelCount := CountTunnels(userID);
        }
        if tunnelCount >= maxPerUser {
          return Some(LimitReached(maxPerUser));
        }
      }
      return None;
    }

    /** Store the tunnel, count it, and give its protocol up for http when there is no certificate. */
    method Open(id: Tid, q: TunnelRequest, subdomain: string, now: int) returns (t: Tunnel)
      modifies this`tunnels, redis
      ensures fresh(t) && t.id == id && t.At() == Recorded(q, subdomain, now)
      ensures tunnels == old(tunnels)[id := t]
      ensures Count() == if redis != null && UserOf(q) != "" then Redis.Incr(old(Count()), UserOf(q)) else old(Count())
    {
      var expiresAt := if maxConnection.Some? then Some(now + maxConnection.value) else None;
      t := new Tunnel(id, UserOf(q), q.protocol, subdomain, q.port, now, expiresAt);
      tunnels := tunnels[id := t];
      if redis != null && UserOf(q) != "" {
        var _ := redis.IncrementTunnelCount(UserOf(q));
      }
      if q.protocol == "https" && !httpsAvailable {
        t.protocol := "http";
      }
    }

    method Store(id: Tid, q: TunnelRequest, subdomain: string, now: int)
      requires id !in tunnels
      modifies this`tunnels, redis
      ensures Now() == View(old(Now()).tunnels[id := Recorded(q, subdomain, now)], old(Now()).ws)
      ensures id in tunnels && tunnels - {id} == old(tunnels) && fresh(tunnels[id]) && tunnels[id].At() == Recorded(q, subdomain, now)
      ensures old(Valid()) ==> Valid()
      ensures Count() == if redis != null && UserOf(q) != "" then Redis.Incr(old(Count()), UserOf(q)) else old(Count())
    {
      var t := Open(id, q, subdomain, now);
      assert forall other | other in old(tunnels) :: tunnels[other].At() == old(tunnels[other].At());
      assert Now().tunnels == old(Now()).tunnels[id := t.At()];
    }

    function Recorded(q: TunnelRequest, subdomain: string, now: int): TunnelRec {
      TunnelRec(UserOf(q), StoredProtocol(q.protocol, httpsAvailable), subdomain, q.port, now, now,
                if maxConnection.Some? then Some(now + maxConnection.value) else None, 0)
    }

    /** A new tunnel is spared by the expiry sweep for as long as connections may last, and by the inactivity
        sweep for an hour, or for a day while it is connected. */
    lemma NewTunnelIsSpared(v: View, id: Tid, now: int, later: int)
      requires id in v.tunnels && v.tunnels[id].createTime == v.tunnels[id].lastActive == now
      requires v.tunnels[id].expiresAt == if maxConnection.Some? then Some(now + maxConnection.value) else None
      ensures id in AfterExpired(v, later).tunnels <==> maxConnection.None? || later <= now + maxConnection.value
      ensures id in AfterInactive(v, later).tunnels <==> later <= now + if id in v.ws then 86_400_000_000_000 else 3_600_000_000_000
    {
      SparedExactlyWhen(v, id, later);
    }

    /** `handleTunnel` once nothing refuses the request. */
    method Grant(q: TunnelRequest, id: Tid, random: seq<nat>, now: int) returns (r: Reply)
      requires id !in tunnels && |random| == 8 && forall i | 0 <= i < 8 :: random[i] < |PublicUrl.CHARSET|
      requires PublicUrl.IsProtocol(q.protocol) && !Serial.Refused(Cfg(), State(), UserOf(q))
      modifies this`tunnels, redis
      ensures old(Valid()) ==> Valid()
      ensures id in tunnels && tunnels - {id} == old(tunnels) && fresh(tunnels[id])
      ensures tunnels[id].At() == Recorded(q, tunnels[id].subdomain, now)
      ensures |tunnels[id].subdomain| == 8 && forall i | 0 <= i < 8 :: tunnels[id].subdomain[i] == PublicUrl.CHARSET[random[i]]
      ensures ':' !in tunnels[id].subdomain
      ensures r == Opened(id, PublicUrl.Url(q.protocol, tunnels[id].subdomain, baseDomain, port, httpsAvailable))
      ensures PublicUrl.Subdomain(PublicUrl.Authority(r.url), baseDomain) == tunnels[id].subdomain <==> ':' !in baseDomain
      ensures Serial.Opens(Cfg(), old(State()), id, tunnels[id].At(), State())
    {
      var subdomain := PublicUrl.GenerateSubdomain(random);
      Store(id, q, subdomain, now);
      r := Opened(id, PublicUrl.Url(q.protocol, subdomain, baseDomain, port, httpsAvailable));
      PublicUrl.UrlRoundTrip(q.protocol, subdomain, baseDomain, port, httpsAvailable);
    }

    /** `id` is a fresh uuid and `random` the indices drawn for the subdomain. */
    method HandleTunnel(q: TunnelRequest, id: Tid, random: seq<nat>, now: int) returns (r: Reply)
      requires id !in tunnels && |random| == 8 && forall i | 0 <= i < 8 :: random[i] < |PublicUrl.CHARSET|
      modifies this`tunnels, redis
      ensures old(Valid()) ==> Valid()
      // who is refused, and why
      ensures r.InMaintenance? <==> maintenance
      ensures r.BadCertificate? <==> !maintenance && q.certificate == ""
      ensures r.BadProtocol? <==>
        !maintenance && q.certificate != "" && q.protocol != "http" && q.protocol != "https" && q.protocol != "tcp"
      ensures r.LimitReached? <==>
        var user := if q.session.Some? && q.session.value != "" then q.session.value else q.clientID;
        && !maintenance && q.certificate != "" && (q.protocol == "http" || q.protocol == "https" || q.protocol == "tcp")
        && maxPerUser > 0 && user != "" && old(TunnelsOf(user)) >= maxPerUser
      ensures r.LimitReached? ==> r.max == maxPerUser
      ensures !r.Opened? ==> tunnels == old(tunnels) && Count() == old(Count())
      // what is stored, and what is answered
      ensures r.Opened? ==> id in tunnels && tunnels - {id} == old(tunnels) && fresh(tunnels[id]) && r.id == id
      ensures r.Opened? ==>
        var t := tunnels[id];
        && t.clientID == (if q.session.Some? && q.session.value != "" then q.session.value else q.clientID)
        && t.protocol == (if q.protocol == "https" && !httpsAvailable then "http" else q.protocol)
        && t.targetPort == q.port && t.createTime == t.lastActive == now && t.connections == 0
        && t.expiresAt == (if maxConnection.Some? then Some(now + maxConnection.value) else None)
        && |t.subdomain| == 8 && (forall i | 0 <= i < 8 :: t.subdomain[i] == PublicUrl.CHARSET[random[i]])
        && r.url == t.protocol + "://" + (t.subdomain + "." + baseDomain + PublicUrl.PortSuffix(q.protocol, port))
      ensures r.Opened? && redis != null ==> forall u ::
        Redis.At(redis.keys, u) == Redis.At(old(redis.keys), u) + if u == tunnels[id].clientID != "" then 1 else 0
      // where the answer leads
      ensures r.Opened? ==>
        (PublicUrl.Subdomain(PublicUrl.Authority(r.url), baseDomain) == tunnels[id].subdomain <==> ':' !in baseDomain)
      ensures r.Opened? ==> Serial.Opens(Cfg(), old(State()), id, tunnels[id].At(), State())
    {
      var refused := Refuse(q);
      if refused.Some? {
        return refused.value;
      }
      r := Grant(q, id, random, now);
      PublicUrl.UrlSplits(q.protocol, tunnels[id].subdomain, baseDomain, port, httpsAvailable);
    }

    /** A request, and then a visitor of the URL that it is answered with: the visitor is led to the new tunnel,
        whatever the protocol, the port and the certificates, unless another tunnel has drawn the same subdomain. */
    method OpenAndVisit(q: TunnelRequest, id: Tid, random: seq<nat>, now: int) returns (r: Reply, found: Option<Tid>)
      requires id !in tunnels && |random| == 8 && (forall i | 0 <= i < 8 :: random[i] < |PublicUrl.CHARSET|) && ':' !in baseDomain
      modifies this`tunnels, redis
      ensures r.Opened? ==> found.Some? && id in tunnels
      ensures r.Opened? && found != Some(id) ==>
        found.value in old(tunnels) && old(tunnels)[found.value].subdomain == tunnels[id].subdomain
    {
      found := None;
      r := HandleTunnel(q, id, random, now);
      if r.Opened? {
        found := Visit(PublicUrl.Authority(r.url), id);
      }
    }

    // ---------------------------------------------------------------- visitors

    /** The lookup of `handleTunnelRequest`; the empty subdomain is answered with the welcome page. */
    method FindTunnel(host: string) returns (found: Option<Tid>)
      ensures found.None? <==>
        PublicUrl.Subdomain(host, baseDomain) == "" || forall id | id in tunnels :: tunnels[id].subdomain != PublicUrl.Subdomain(host, baseDomain)
      ensures found.Some? ==> found.value in tunnels && tunnels[found.value].subdomain == PublicUrl.Subdomain(host, baseDomain)
    {
      var subdomain := PublicUrl.ExtractSubdomain(host, baseDomain);
      if subdomain == "" {
        return None;
      }
      var todo := tunnels.Keys;
      while todo != {}
        invariant todo <= tunnels.Keys
        invariant forall id | id in tunnels && id !in todo :: tunnels[id].subdomain != subdomain
      {
        var id :| id in todo;
        if tunnels[id].subdomain == subdomain {
          return Some(id);
        }
        todo := todo - {id};
      }
      return None;
    }

    /** A visitor of a host that leads to the subdomain of a tunnel finds that one, or another with the same. */
    method Visit(host: string, ghost id: Tid) returns (found: Option<Tid>)
      requires id in tunnels && tunnels[id].subdomain == PublicUrl.Subdomain(host, baseDomain) != ""
      ensures found.Some? && found.value in tunnels && tunnels[found.value].subdomain == tunnels[id].subdomain
    {
      found := FindTunnel(host);
    }

    /** A visitor of the URL answered for a tunnel is led to that tunnel, whatever the protocol, the port and
        the certificates, unless another tunnel drew the same subdomain. */
    method FollowUrl(id: Tid, protocol: string) returns (found: Option<Tid>)
      requires id in tunnels && PublicUrl.IsProtocol(protocol) && ':' !in baseDomain
      requires tunnels[id].subdomain != "" && ':' !in tunnels[id].subdomain
      ensures found.Some? && found.value in tunnels && tunnels[found.value].subdomain == tunnels[id].subdomain
      ensures found != Some(id) ==> exists other :: other in tunnels && other != id && tunnels[other].subdomain == tunnels[id].subdomain
    {
      var url := PublicUrl.Url(protocol, tunnels[id].subdomain, baseDomain, port, httpsAvailable);
      PublicUrl.UrlRoundTrip(protocol, tunnels[id].subdomain, baseDomain, port, httpsAvailable);
      found := FindTunnel(PublicUrl.Authority(url));
    }

    // ---------------------------------------------------------------- the dashboard

    function Shown(t: Tunnel): Dashboard.TunnelInfo
      reads this, t
    {
      Dashboard.TunnelInfo(t.id, t.At(), t.id in ws)
    }

    method GetClients(ghost v: View) returns (list: seq<Dashboard.ClientInfo>)
      requires Valid() && v == Now()
      ensures Dashboard.IsClientList(v, list)
    {
      var clients := GroupByClient(v);
      list := Dashboard.ListClients(v, clients);
    }

    /** The first loop of `GetClients`. */
    method GroupByClient(ghost v: View) returns (clients: map<string, Dashboard.ClientInfo>)
      requires Valid() && v == Now()
      ensures Dashboard.Groups(v, v.tunnels.Keys, clients)
    {
      clients := map[];
      ghost var seen := {};
      var todo := tunnels.Keys;
      while todo != {}
        invariant seen !! todo && seen + todo == v.tunnels.Keys == tunnels.Keys
        invariant Dashboard.Groups(v, seen, clients)
      {
        var id :| id in todo;
        todo := todo - {id};
        clients := AddToGroup(v, seen, clients, id);
        seen := seen + {id};
      }
      assert seen == v.tunnels.Keys;
    }

    method AddToGroup(ghost v: View, ghost seen: set<Tid>, clients: map<string, Dashboard.ClientInfo>, id: Tid)
      returns (more: map<string, Dashboard.ClientInfo>)
      requires Valid() && v == Now() && id in tunnels && id !in seen
      requires Dashboard.Groups(v, seen, clients)
      ensures Dashboard.Groups(v, seen + {id}, more)
    {
      assert id in v.tunnels && Shown(tunnels[id]) == Dashboard.InfoOf(v, id);
      Dashboard.AddKeepsGroups(v, seen, clients, id);
      more := Dashboard.Add(clients, Shown(tunnels[id]));
    }

    method GetStats(ghost v: View) returns (s: Dashboard.Stats)
      requires Valid() && v == Now()
      ensures Dashboard.IsStats(v, s)
    {
      assert v.tunnels.Keys == tunnels.Keys;
      var totalConns, connected := CountAll(v);
      s := Dashboard.Stats(|tunnels|, |connected|, totalConns);
    }

    /** The loop of `GetStats`. */
    method CountAll(ghost v: View) returns (totalConns: int, connected: set<string>)
      requires Valid() && v == Now()
      ensures totalConns == Dashboard.Total(v, v.tunnels.Keys)
      ensures connected == Dashboard.ConnectedClients(v, v.tunnels.Keys)
    {
      totalConns, connected := 0, {};
      ghost var seen := {};
      var todo := tunnels.Keys;
      while todo != {}
        invariant seen !! todo && seen + todo == v.tunnels.Keys == tunnels.Keys
        invariant totalConns == Dashboard.Total(v, seen)
        invariant connected == Dashboard.ConnectedClients(v, seen)
      {
        var id :| id in todo;
        todo := todo - {id};
        Dashboard.OneMoreSeen(v, seen, id);
        seen := seen + {id};
        totalConns, connected := CountOne(tunnels[id], totalConns, connected);
      }
      assert seen == v.tunnels.Keys;
    }

    method CountOne(t: Tunnel, total: int, connected: set<string>) returns (total': int, connected': set<string>)
      ensures total' == total + t.connections
      ensures connected' == connected + if t.id in ws then {t.clientID} else {}
    {
      total', connected' := total + t.connections, connected;
      if t.id in ws {
        connected' := connected' + {t.clientID};
      }
    }
  }
}
