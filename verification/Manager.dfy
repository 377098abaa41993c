/** The client's `TunnelManager` without Redis: its primary map, its per-user index, its two limits, and
    every operation that changes them.  Each operation is one critical section of `tm.mu`, so a run is a
    sequence of operations, in whatever order the goroutines come. */
module Manager {
  import opened Common
  import PublicUrl

  type Id = string
  type User = string
  type Cert = seq<int>

  /** What never changes in a `ManagedTunnel`; no `expiresAt` stands for the zero time. */
  datatype Info = Info(
    id: Id, user: User, protocol: string, localPort: int, url: string, host: string, port: int,
    created: int, expiresAt: Option<int>, cert: Cert)

  /** A managed tunnel at one moment. */
  datatype Rec = Rec(info: Info, lastActive: int, active: bool)

  datatype View = View(tunnels: map<Id, Rec>, users: map<User, set<Id>>)

  /** The limits of the manager; zero and less mean no limit. */
  datatype Config = Config(maxTunnels: int, maxPerUser: int, maxTime: int)

  datatype Request = Request(protocol: string, localPort: int, host: string, port: int, cert: Cert, user: User)

  datatype Outcome = Created(info: Info) | TooManyTunnels | TooManyForUser | PortTaken | UnsupportedProtocol

  // ------------------------------------------------------------------ the operations

  /** The name of an http or https tunnel in its URL. */
  function NameOf(id: Id, protocol: string): string {
    id + if protocol == "https" then "-s" else ""
  }

  function UrlOf(id: Id, protocol: string, host: string, port: int): string {
    protocol + "://" + if protocol == "tcp" then host + ":" + PublicUrl.Decimal(port) else NameOf(id, protocol) + "." + host
  }

  function InfoOf(cfg: Config, id: Id, q: Request, now: int): Info {
    Info(id, q.user, q.protocol, q.localPort, UrlOf(id, q.protocol, q.host, q.port), q.host, q.port, now,
         if cfg.maxTime > 0 then Some(now + cfg.maxTime) else None, q.cert)
  }

  predicate UsesPort(t: Rec, protocol: string, port: int) {
    t.info.protocol == protocol && t.info.localPort == port
  }

  /** What `CreateTunnel` decides, in the order of its checks. */
  ghost function Decide(v: View, cfg: Config, id: Id, q: Request, now: int): Outcome {
    if cfg.maxTunnels > 0 && |v.tunnels| >= cfg.maxTunnels then TooManyTunnels
    else if cfg.maxPerUser > 0 && q.user != "" && (if q.user in v.users then |v.users[q.user]| else 0) >= cfg.maxPerUser then
      TooManyForUser
    else if exists i :: i in v.tunnels && UsesPort(v.tunnels[i], q.protocol, q.localPort) then PortTaken
    else if !PublicUrl.IsProtocol(q.protocol) then UnsupportedProtocol
    else Created(InfoOf(cfg, id, q, now))
  }

  function AddUser(users: map<User, set<Id>>, u: User, id: Id): map<User, set<Id>> {
    if u == "" then users else users[u := (if u in users then users[u] else {}) + {id}]
  }

  function DropUser(users: map<User, set<Id>>, u: User, id: Id): map<User, set<Id>> {
    if u == "" || u !in users then users
    else if users[u] - {id} == {} then users - {u}
    else users[u := users[u] - {id}]
  }

  ghost function AfterCreate(v: View, cfg: Config, id: Id, q: Request, now: int): View {
    if Decide(v, cfg, id, q, now).Created? then
      View(v.tunnels[id := Rec(InfoOf(cfg, id, q, now), now, false)], AddUser(v.users, q.user, id))
    else
      v
  }

  function AfterRemove(v: View, id: Id): View {
    if id in v.tunnels then View(v.tunnels - {id}, DropUser(v.users, v.tunnels[id].info.user, id)) else v
  }

  predicate IsExpired(t: Rec, now: int) {
    t.info.expiresAt.Some? && now > t.info.expiresAt.value
  }

  ghost function Expired(v: View, now: int): set<Id> {
    set id | id in v.tunnels && IsExpired(v.tunnels[id], now)
  }

  /** What a removal of `doomed` takes from the index entry of a user. */
  ghost function Gone(v: View, doomed: set<Id>, u: User): set<Id> {
    if u == "" then {} else doomed * IdsOf(v.tunnels, u)
  }

  /** An entry goes when its last tunnel does. */
  ghost predicate Emptied(v: View, doomed: set<Id>, u: User) {
    Gone(v, doomed, u) != {} && u in v.users && v.users[u] <= Gone(v, doomed, u)
  }

  /** All of `doomed` gone at once: what a cleanup leaves, in whatever order it goes. */
  ghost function Without(v: View, doomed: set<Id>): View {
    View(v.tunnels - doomed, map u | u in v.users && !Emptied(v, doomed, u) :: v.users[u] - Gone(v, doomed, u))
  }

  ghost function AfterCleanup(v: View, now: int): View {
    Without(v, Expired(v, now))
  }

  /** `startTunnel` and `RestartTunnel` note whether a tunnel runs. */
  function AfterTouch(v: View, id: Id, active: bool, now: int): View {
    if id in v.tunnels then v.(tunnels := v.tunnels[id := v.tunnels[id].(active := active, lastActive := now)]) else v
  }

  // ------------------------------------------------------------------ what every operation keeps

  ghost function IdsOf(tunnels: map<Id, Rec>, u: User): set<Id> {
    set id | id in tunnels && tunnels[id].info.user == u
  }

  /** The index that a scan of the primary map gives: no entry for the empty user, no empty set. */
  ghost function IndexOf(tunnels: map<Id, Rec>): map<User, set<Id>> {
    map u | u in (set id | id in tunnels :: tunnels[id].info.user) && u != "" :: IdsOf(tunnels, u)
  }

  ghost predicate Indexed(v: View) {
    v.users == IndexOf(v.tunnels)
  }

  ghost predicate Keyed(v: View) {
    forall id | id in v.tunnels :: v.tunnels[id].info.id == id
  }

  ghost predicate PortsUnique(v: View) {
    forall i, j | i in v.tunnels && j in v.tunnels && i != j ::
      v.tunnels[i].info.protocol != v.tunnels[j].info.protocol || v.tunnels[i].info.localPort != v.tunnels[j].info.localPort
  }

  ghost predicate WithinLimits(v: View, cfg: Config) {
    && (cfg.maxTunnels > 0 ==> |v.tunnels| <= cfg.maxTunnels)
    && (cfg.maxPerUser > 0 ==> forall u | u in v.users :: |v.users[u]| <= cfg.maxPerUser)
  }

  ghost predicate Good(v: View, cfg: Config) {
    Indexed(v) && Keyed(v) && PortsUnique(v) && WithinLimits(v, cfg)
  }

  lemma IndexHas(tunnels: map<Id, Rec>, u: User)
    ensures u in IndexOf(tunnels) <==> u != "" && IdsOf(tunnels, u) != {}
  {
    if u in IndexOf(tunnels) {
      var id :| id in tunnels && tunnels[id].info.user == u;
      assert id in IdsOf(tunnels, u);
    }
    if u != "" && IdsOf(tunnels, u) != {} {
      var id :| id in IdsOf(tunnels, u);
      assert tunnels[id].info.user == u;
    }
  }

  ghost predicate EntryOk(users: map<User, set<Id>>, tunnels: map<Id, Rec>, u: User) {
    && (u in users <==> u != "" && IdsOf(tunnels, u) != {})
    && (u in users ==> users[u] == IdsOf(tunnels, u))
  }

  lemma EntriesMakeTheIndex(users: map<User, set<Id>>, tunnels: map<Id, Rec>)
    ensures users == IndexOf(tunnels) <==> forall u :: EntryOk(users, tunnels, u)
  {
    forall u ensures u in IndexOf(tunnels) <==> u != "" && IdsOf(tunnels, u) != {} {
      IndexHas(tunnels, u);
    }
    if forall u :: EntryOk(users, tunnels, u) {
      forall u ensures u in users <==> u in IndexOf(tunnels) {
        assert EntryOk(users, tunnels, u);
      }
      forall u | u in users ensures users[u] == IndexOf(tunnels)[u] {
        assert EntryOk(users, tunnels, u);
      }
      assert users.Keys == IndexOf(tunnels).Keys;
    }
  }

  lemma CreateKeepsIndex(v: View, id: Id, t: Rec)
    requires Indexed(v) && id !in v.tunnels
    ensures Indexed(View(v.tunnels[id := t], AddUser(v.users, t.info.user, id)))
  {
    var tunnels, users := v.tunnels[id := t], AddUser(v.users, t.info.user, id);
    EntriesMakeTheIndex(v.users, v.tunnels);
    forall u ensures EntryOk(users, tunnels, u) {
      assert EntryOk(v.users, v.tunnels, u);
      assert IdsOf(tunnels, u) == IdsOf(v.tunnels, u) + if u == t.info.user then {id} else {};
    }
    EntriesMakeTheIndex(users, tunnels);
  }

  lemma RemoveKeepsIndex(v: View, id: Id)
    requires Indexed(v) && id in v.tunnels
    ensures Indexed(AfterRemove(v, id))
  {
    var w := AfterRemove(v, id);
    EntriesMakeTheIndex(v.users, v.tunnels);
    forall u ensures EntryOk(w.users, w.tunnels, u) {
      assert EntryOk(v.users, v.tunnels, u);
      assert IdsOf(w.tunnels, u) == IdsOf(v.tunnels, u) - if u == v.tunnels[id].info.user then {id} else {};
    }
    EntriesMakeTheIndex(w.users, w.tunnels);
  }

  lemma WithoutKeepsIndex(v: View, doomed: set<Id>)
    requires Indexed(v)
    ensures Indexed(Without(v, doomed))
  {
    var w := Without(v, doomed);
    EntriesMakeTheIndex(v.users, v.tunnels);
    forall u ensures EntryOk(w.users, w.tunnels, u) {
      assert EntryOk(v.users, v.tunnels, u);
      assert IdsOf(w.tunnels, u) == IdsOf(v.tunnels, u) - doomed;
    }
    EntriesMakeTheIndex(w.users, w.tunnels);
  }

  lemma GoneWithOneMore(v: View, doomed: set<Id>, id: Id, u: User)
    requires id in v.tunnels && id !in doomed
    ensures Gone(v, doomed + {id}, u) == Gone(v, doomed, u) + if u == v.tunnels[id].info.user && u != "" then {id} else {}
  {
  }

  /** Two maps agree about `u`. */
  ghost predicate SameEntry(left: map<User, set<Id>>, right: map<User, set<Id>>, u: User) {
    (u in left <==> u in right) && (u in left ==> left[u] == right[u])
  }

  lemma OtherEntryAfterOneMore(v: View, doomed: set<Id>, id: Id, u: User)
    requires id in v.tunnels && id !in doomed && (u == "" || u != v.tunnels[id].info.user)
    ensures SameEntry(DropUser(Without(v, doomed).users, v.tunnels[id].info.user, id), Without(v, doomed + {id}).users, u)
  {
    GoneWithOneMore(v, doomed, id, u);
    assert Gone(v, doomed + {id}, u) == Gone(v, doomed, u);
    DropUserIsLocal(Without(v, doomed).users, v.tunnels[id].info.user, id, u);
  }

  lemma DropUserIsLocal(users: map<User, set<Id>>, who: User, id: Id, u: User)
    requires u == "" || u != who
    ensures SameEntry(DropUser(users, who, id), users, u)
  {
  }

  lemma OwnEntryAfterOneMore(v: View, doomed: set<Id>, id: Id, u: User)
    requires id in v.tunnels && id !in doomed && u == v.tunnels[id].info.user && u != ""
    ensures SameEntry(DropUser(Without(v, doomed).users, u, id), Without(v, doomed + {id}).users, u)
  {
    GoneWithOneMore(v, doomed, id, u);
    if u in v.users {
      var gone, more := Gone(v, doomed, u), Gone(v, doomed + {id}, u);
      assert id in more && v.users[u] - gone - {id} == v.users[u] - more;
      assert v.users[u] - more == {} <==> v.users[u] <= more;
    }
  }

  lemma SameEntriesSameMap(left: map<User, set<Id>>, right: map<User, set<Id>>)
    requires forall u :: SameEntry(left, right, u)
    ensures left == right
  {
    forall u ensures (u in left <==> u in right) && (u in left ==> left[u] == right[u]) {
      assert SameEntry(left, right, u);
    }
  }

  lemma IndexAfterOneMore(v: View, doomed: set<Id>, id: Id)
    requires id in v.tunnels && id !in doomed
    ensures DropUser(Without(v, doomed).users, v.tunnels[id].info.user, id) == Without(v, doomed + {id}).users
  {
    var user := v.tunnels[id].info.user;
    var w, t := DropUser(Without(v, doomed).users, user, id), Without(v, doomed + {id}).users;
    forall u ensures SameEntry(w, t, u) {
      if u == user && u != "" {
        OwnEntryAfterOneMore(v, doomed, id, u);
      } else {
        OtherEntryAfterOneMore(v, doomed, id, u);
      }
    }
    SameEntriesSameMap(w, t);
  }

  /** Removing one tunnel after another, each with its entry in the index, is removing them all at once; also
      when the index does not agree with the tunnels. */
  lemma RemoveIsWithout(v: View, doomed: set<Id>, id: Id)
    requires id in v.tunnels && id !in doomed
    ensures AfterRemove(Without(v, doomed), id) == Without(v, doomed + {id})
  {
    IndexAfterOneMore(v, doomed, id);
    assert v.tunnels - doomed - {id} == v.tunnels - (doomed + {id});
  }

  /** A tunnel is created exactly when no check refuses it. */
  lemma CreatedExactlyWhen(v: View, cfg: Config, id: Id, q: Request, now: int)
    ensures Decide(v, cfg, id, q, now).Created? <==>
      && (cfg.maxTunnels > 0 ==> |v.tunnels| < cfg.maxTunnels)
      && (cfg.maxPerUser > 0 && q.user in v.users && q.user != "" ==> |v.users[q.user]| < cfg.maxPerUser)
      && (forall i | i in v.tunnels :: v.tunnels[i].info.protocol != q.protocol || v.tunnels[i].info.localPort != q.localPort)
      && (q.protocol == "http" || q.protocol == "https" || q.protocol == "tcp")
  {
  }

  /** And otherwise the first check that fails is the answer. */
  lemma RefusedExactlyWhen(v: View, cfg: Config, id: Id, q: Request, now: int)
    ensures
      var o := Decide(v, cfg, id, q, now);
      var full := cfg.maxTunnels > 0 && |v.tunnels| >= cfg.maxTunnels;
      var used := cfg.maxPerUser > 0 && q.user != "" && q.user in v.users && |v.users[q.user]| >= cfg.maxPerUser;
      var taken := exists i :: i in v.tunnels && v.tunnels[i].info.protocol == q.protocol && v.tunnels[i].info.localPort == q.localPort;
      && (o.TooManyTunnels? <==> full)
      && (o.TooManyForUser? <==> !full && used)
      && (o.PortTaken? <==> !full && !used && taken)
      && (o.UnsupportedProtocol? <==> !full && !used && !taken && q.protocol != "http" && q.protocol != "https" && q.protocol != "tcp")
  {
    if i :| i in v.tunnels && v.tunnels[i].info.protocol == q.protocol && v.tunnels[i].info.localPort == q.localPort {
      assert UsesPort(v.tunnels[i], q.protocol, q.localPort);
    }
  }

  lemma AddUserKeepsLimit(users: map<User, set<Id>>, max: int, u: User, id: Id)
    requires max > 0 && forall w | w in users :: |users[w]| <= max
    requires u in users && u != "" ==> |users[u]| < max
    ensures forall w | w in AddUser(users, u, id) :: |AddUser(users, u, id)[w]| <= max
  {
    if u in users {
      assert id in users[u] ==> users[u] + {id} == users[u];
    }
  }

  lemma CreateKeepsLimits(v: View, cfg: Config, id: Id, q: Request, now: int)
    requires WithinLimits(v, cfg) && id !in v.tunnels
    ensures WithinLimits(AfterCreate(v, cfg, id, q, now), cfg)
  {
    CreatedExactlyWhen(v, cfg, id, q, now);
    if Decide(v, cfg, id, q, now).Created? && cfg.maxPerUser > 0 {
      AddUserKeepsLimit(v.users, cfg.maxPerUser, q.user, id);
    }
  }

  lemma CreateKeepsGood(v: View, cfg: Config, id: Id, q: Request, now: int)
    requires Good(v, cfg) && id !in v.tunnels
    ensures Good(AfterCreate(v, cfg, id, q, now), cfg)
  {
    CreateKeepsLimits(v, cfg, id, q, now);
    if Decide(v, cfg, id, q, now).Created? {
      CreateKeepsIndex(v, id, Rec(InfoOf(cfg, id, q, now), now, false));
    }
  }

  lemma WithoutKeepsGood(v: View, cfg: Config, doomed: set<Id>)
    requires Good(v, cfg)
    ensures Good(Without(v, doomed), cfg)
  {
    var w := Without(v, doomed);
    WithoutKeepsIndex(v, doomed);
    SubsetSize(w.tunnels.Keys, v.tunnels.Keys);
    forall u | u in w.users ensures |w.users[u]| <= |v.users[u]| {
      SubsetSize(w.users[u], v.users[u]);
    }
  }

  lemma NextExpired(v: View, now: int, todo: set<Id>, id: Id)
    requires todo <= v.tunnels.Keys && id in todo
    ensures Expired(v, now) - (todo - {id}) == Expired(v, now) - todo + if IsExpired(v.tunnels[id], now) then {id} else {}
  {
  }

  lemma WithoutNone(v: View)
    ensures Without(v, {}) == v
  {
    assert v.tunnels - {} == v.tunnels;
    forall u ensures SameEntry(Without(v, {}).users, v.users, u) {
      assert Gone(v, {}, u) == {};
    }
    SameEntriesSameMap(Without(v, {}).users, v.users);
  }

  lemma RemoveKeepsGood(v: View, cfg: Config, id: Id)
    requires Good(v, cfg)
    ensures Good(AfterRemove(v, id), cfg)
  {
    if id in v.tunnels {
      WithoutNone(v);
      RemoveIsWithout(v, {}, id);
      WithoutKeepsGood(v, cfg, {} + {id});
    }
  }

  lemma TouchKeepsGood(v: View, cfg: Config, id: Id, active: bool, now: int)
    requires Good(v, cfg)
    ensures Good(AfterTouch(v, id, active, now), cfg)
  {
    if id in v.tunnels {
      TouchKeepsIndex(v, id, active, now);
      assert AfterTouch(v, id, active, now).tunnels.Keys == v.tunnels.Keys;
    }
  }

  lemma TouchKeepsIndex(v: View, id: Id, active: bool, now: int)
    requires Indexed(v)
    ensures Indexed(AfterTouch(v, id, active, now))
  {
    if id in v.tunnels {
      var w := AfterTouch(v, id, active, now);
      EntriesMakeTheIndex(v.users, v.tunnels);
      forall u ensures EntryOk(w.users, w.tunnels, u) {
        assert EntryOk(v.users, v.tunnels, u);
        assert IdsOf(w.tunnels, u) == IdsOf(v.tunnels, u);
      }
      EntriesMakeTheIndex(w.users, w.tunnels);
    }
  }

  // ------------------------------------------------------------------ runs

  datatype Op =
    | Create(id: Id, request: Request, now: int)
    | Remove(id: Id)
    | Cleanup(now: int)
    | Touch(id: Id, active: bool, now: int)

  ghost function Apply(v: View, cfg: Config, op: Op): View {
    match op
    case Create(id, q, now) => AfterCreate(v, cfg, id, q, now)
    case Remove(id) => AfterRemove(v, id)
    case Cleanup(now) => AfterCleanup(v, now)
    case Touch(id, active, now) => AfterTouch(v, id, active, now)
  }

  /** The states of a run from a new manager; a created tunnel gets a fresh uuid. */
  ghost predicate Run(cfg: Config, states: seq<View>, ops: seq<Op>) {
    && |states| == |ops| + 1
    && states[0] == View(map[], map[])
    && forall i | 0 <= i < |ops| ::
         && (ops[i].Create? ==> ops[i].id !in states[i].tunnels)
         && states[i + 1] == Apply(states[i], cfg, ops[i])
  }

  lemma ApplyKeepsGood(v: View, cfg: Config, op: Op)
    requires Good(v, cfg) && (op.Create? ==> op.id !in v.tunnels)
    ensures Good(Apply(v, cfg, op), cfg)
  {
    match op
    case Create(id, q, now) => CreateKeepsGood(v, cfg, id, q, now);
    case Remove(id) => RemoveKeepsGood(v, cfg, id);
    case Cleanup(now) => WithoutKeepsGood(v, cfg, Expired(v, now));
    case Touch(id, active, now) => TouchKeepsGood(v, cfg, id, active, now);
  }

  /** Over every run the index is the one that a scan gives, both limits hold, and no two tunnels share a
      protocol and port. */
  lemma {:induction false} RunStaysGood(cfg: Config, states: seq<View>, ops: seq<Op>, n: nat)
    requires Run(cfg, states, ops) && n < |states|
    ensures Good(states[n], cfg)
  {
    if n > 0 {
      RunStaysGood(cfg, states, ops, n - 1);
      assert ops[n - 1].Create? ==> ops[n - 1].id !in states[n - 1].tunnels;
      ApplyKeepsGood(states[n - 1], cfg, ops[n - 1]);
    }
  }

  /** Creating a tunnel and removing it again is as if nothing had happened, in both maps. */
  lemma RemoveUndoesCreate(v: View, cfg: Config, id: Id, q: Request, now: int)
    requires Indexed(v) && id !in v.tunnels
    ensures AfterRemove(AfterCreate(v, cfg, id, q, now), id) == v
  {
    if Decide(v, cfg, id, q, now).Created? {
      var t := Rec(InfoOf(cfg, id, q, now), now, false);
      CreateKeepsIndex(v, id, t);
      RemoveKeepsIndex(AfterCreate(v, cfg, id, q, now), id);
      assert v.tunnels[id := t] - {id} == v.tunnels;
    }
  }

  /** A new tunnel outlives every cleanup of its time and none after: for ever when there is no time limit. */
  lemma CreatedTunnelLivesItsTime(v: View, cfg: Config, id: Id, q: Request, now: int, later: int)
    requires id !in v.tunnels && Decide(v, cfg, id, q, now).Created?
    ensures id in AfterCleanup(AfterCreate(v, cfg, id, q, now), later).tunnels <==> cfg.maxTime <= 0 || later <= now + cfg.maxTime
  {
    var w := AfterCreate(v, cfg, id, q, now);
    assert id in Expired(w, later) <==> IsExpired(w.tunnels[id], later);
  }

  /** The end of a tunnel made at `made`. */
  ghost predicate EndsAt(v: View, cfg: Config, id: Id, made: int) {
    id in v.tunnels ==> v.tunnels[id].info.expiresAt == if cfg.maxTime > 0 then Some(made + cfg.maxTime) else None
  }

  lemma AnyOpSpares(v: View, cfg: Config, op: Op, id: Id, made: int)
    requires id in v.tunnels && EndsAt(v, cfg, id, made) && op != Remove(id) && (op.Create? ==> op.id != id)
    ensures EndsAt(Apply(v, cfg, op), cfg, id, made)
    ensures id in Apply(v, cfg, op).tunnels <==> (op.Cleanup? ==> cfg.maxTime <= 0 || op.now <= made + cfg.maxTime)
  {
    if op.Cleanup? {
      assert id in Expired(v, op.now) <==> IsExpired(v.tunnels[id], op.now);
    }
  }

  lemma AnyOpMakesNothing(v: View, cfg: Config, op: Op, id: Id)
    requires id !in v.tunnels && (op.Create? ==> op.id != id)
    ensures id !in Apply(v, cfg, op).tunnels
  {
  }

  lemma CreateSetsTheEnd(v: View, cfg: Config, op: Op)
    requires op.Create? && op.id !in v.tunnels
    ensures EndsAt(Apply(v, cfg, op), cfg, op.id, op.now)
  {
  }

  /** A cleanup by `op`, if that is one, comes in time for a tunnel made at `made`. */
  predicate InTime(cfg: Config, op: Op, made: int) {
    op.Cleanup? ==> cfg.maxTime <= 0 || op.now <= made + cfg.maxTime
  }

  /** Neither removed by hand nor made again. */
  predicate LeavesAlone(op: Op, id: Id) {
    op != Remove(id) && (op.Create? ==> op.id != id)
  }

  /** Whether `id` is there, and for how long. */
  ghost predicate LivesOn(v: View, cfg: Config, id: Id, made: int, inTime: bool) {
    (id in v.tunnels <==> inTime) && EndsAt(v, cfg, id, made)
  }

  lemma LivesOnAfter(v: View, w: View, cfg: Config, op: Op, id: Id, made: int, inTime: bool)
    requires LivesOn(v, cfg, id, made, inTime) && LeavesAlone(op, id) && w == Apply(v, cfg, op)
    ensures LivesOn(w, cfg, id, made, inTime && InTime(cfg, op, made))
  {
    if id in v.tunnels {
      AnyOpSpares(v, cfg, op, id, made);
    } else {
      AnyOpMakesNothing(v, cfg, op, id);
    }
  }

  lemma {:induction false} LivesOnThrough(cfg: Config, states: seq<View>, ops: seq<Op>, i: nat, id: Id, made: int, n: nat)
    returns (inTime: bool)
    requires i < n < |states| == |ops| + 1 && forall j | i < j < n :: states[j + 1] == Apply(states[j], cfg, ops[j])
    requires LivesOn(states[i + 1], cfg, id, made, true)
    requires forall j | i < j < n :: LeavesAlone(ops[j], id)
    ensures inTime <==> forall j | i < j < n :: InTime(cfg, ops[j], made)
    ensures LivesOn(states[n], cfg, id, made, inTime)
  {
    inTime := true;
    if i + 1 < n {
      inTime := LivesOnThrough(cfg, states, ops, i, id, made, n - 1);
      LivesOnAfter(states[n - 1], states[n], cfg, ops[n - 1], id, made, inTime);
      inTime := inTime && InTime(cfg, ops[n - 1], made);
    }
  }

  /** So does one that was started, stopped or touched in between: a tunnel that is not removed by hand is there
      exactly as long as no cleanup comes after its time, counted from its creation. */
  lemma TunnelsLiveTheirTime(cfg: Config, states: seq<View>, ops: seq<Op>, i: nat, n: nat)
    requires Run(cfg, states, ops) && i < n < |states| && ops[i].Create? && ops[i].id in states[i + 1].tunnels
    requires forall j | i < j < n :: LeavesAlone(ops[j], ops[i].id)
    ensures ops[i].id in states[n].tunnels <==> forall j | i < j < n :: InTime(cfg, ops[j], ops[i].now)
  {
    CreateSetsTheEnd(states[i], cfg, ops[i]);
    var inTime := LivesOnThrough(cfg, states, ops, i, ops[i].id, ops[i].now, n);
  }

  // ------------------------------------------------------------------ public URLs

  /** When the URLs of two tunnels agree: http and https ones only for one identifier, tcp ones for one server
      address. */
  lemma UrlsAgreeExactlyWhen(
    a: Id, protocol: string, host: string, port: int, b: Id, protocol': string, host': string, port': int)
    requires PublicUrl.IsProtocol(protocol) && PublicUrl.IsProtocol(protocol') && '.' !in a && '.' !in b
    ensures UrlOf(a, protocol, host, port) == UrlOf(b, protocol', host', port') <==>
      protocol == protocol' && host == host' && if protocol == "tcp" then port == port' else a == b
  {
    var rest := if protocol == "tcp" then host + ":" + PublicUrl.Decimal(port) else NameOf(a, protocol) + "." + host;
    var rest' := if protocol' == "tcp" then host' + ":" + PublicUrl.Decimal(port') else NameOf(b, protocol') + "." + host';
    PublicUrl.SchemesAndRests(protocol, rest, protocol', rest');
    PublicUrl.HostsAndPorts(host, port, host', port');
    PublicUrl.LabelsAndRests(NameOf(a, protocol), host, NameOf(b, protocol'), host');
    if protocol == protocol' {
      NamesTellIdentifiers(a, b, protocol);
    }
  }

  lemma NamesTellIdentifiers(a: Id, b: Id, protocol: string)
    ensures NameOf(a, protocol) == NameOf(b, protocol) <==> a == b
  {
    var tail := if protocol == "https" then "-s" else "";
    assert NameOf(a, protocol)[..|NameOf(a, protocol)| - |tail|] == a;
    assert NameOf(b, protocol)[..|NameOf(b, protocol)| - |tail|] == b;
  }

  /** What `CreateTunnel` makes of a URL; a uuid holds no dot. */
  ghost predicate Named(i: Info) {
    i.url == UrlOf(i.id, i.protocol, i.host, i.port) && PublicUrl.IsProtocol(i.protocol) && '.' !in i.id
  }

  /** The three forms of a URL. */
  lemma UrlsByProtocol(id: Id, host: string, port: int)
    ensures UrlOf(id, "http", host, port) == "http://" + (id + "." + host)
    ensures UrlOf(id, "https", host, port) == "https://" + (id + "-s." + host)
    ensures UrlOf(id, "tcp", host, port) == "tcp://" + (host + ":" + PublicUrl.Decimal(port))
  {
    assert id + "" == id;
    assert id + "-s" + "." == id + ("-s" + ".") && "-s" + "." == "-s.";
    assert "http" + "://" == "http://" && "https" + "://" == "https://" && "tcp" + "://" == "tcp://";
  }

  lemma {:induction false} RunNamesItsTunnels(cfg: Config, states: seq<View>, ops: seq<Op>, n: nat, id: Id)
    requires Run(cfg, states, ops) && n < |states| && id in states[n].tunnels
    requires forall i | 0 <= i < |ops| && ops[i].Create? :: '.' !in ops[i].id
    ensures
      var i := states[n].tunnels[id].info;
      && Named(i)
      && (|| (i.protocol == "http" && i.url == "http://" + (i.id + "." + i.host))
          || (i.protocol == "https" && i.url == "https://" + (i.id + "-s." + i.host))
          || (i.protocol == "tcp" && i.url == "tcp://" + (i.host + ":" + PublicUrl.Decimal(i.port))))
  {
    assert n > 0;
    if id in states[n - 1].tunnels {
      RunNamesItsTunnels(cfg, states, ops, n - 1, id);
    }
    var i := states[n].tunnels[id].info;
    UrlsByProtocol(i.id, i.host, i.port);
  }

  /** At any time of any run two live tunnels have the same public URL exactly when both are tcp tunnels to the
      same server and port. */
  lemma LiveTunnelsShareAUrlExactlyWhen(cfg: Config, states: seq<View>, ops: seq<Op>, n: nat, a: Id, b: Id)
    requires Run(cfg, states, ops) && n < |states| && a in states[n].tunnels && b in states[n].tunnels && a != b
    requires forall i | 0 <= i < |ops| && ops[i].Create? :: '.' !in ops[i].id
    ensures
      var i, j := states[n].tunnels[a].info, states[n].tunnels[b].info;
      i.url == j.url <==> i.protocol == j.protocol == "tcp" && i.host == j.host && i.port == j.port
  {
    RunNamesItsTunnels(cfg, states, ops, n, a);
    RunNamesItsTunnels(cfg, states, ops, n, b);
    RunStaysGood(cfg, states, ops, n);
    var i, j := states[n].tunnels[a].info, states[n].tunnels[b].info;
    UrlsAgreeExactlyWhen(i.id, i.protocol, i.host, i.port, j.id, j.protocol, j.host, j.port);
  }

  const TCP_TO_ONE_SERVER := Request("tcp", 22, "nx.io", 8443, [], "")

  /** And they do: two tunnels for different local ports, asked for one after the other. */
  lemma TwoTunnelsShareAUrl(cfg: Config, now: int) returns (states: seq<View>, ops: seq<Op>)
    requires cfg.maxTunnels <= 0
    ensures Run(cfg, states, ops) && |states| == 3
    ensures "a" in states[2].tunnels && "b" in states[2].tunnels
    ensures states[2].tunnels["a"].info.url == states[2].tunnels["b"].info.url
  {
    var first, second := TCP_TO_ONE_SERVER, TCP_TO_ONE_SERVER.(localPort := 80);
    var s0 := View(map[], map[]);
    var s1 := AfterCreate(s0, cfg, "a", first, now);
    var s2 := AfterCreate(s1, cfg, "b", second, now);
    states, ops := [s0, s1, s2], [Create("a", first, now), Create("b", second, now)];
    CreatedExactlyWhen(s0, cfg, "a", first, now);
    CreatedExactlyWhen(s1, cfg, "b", second, now);
  }

  // ------------------------------------------------------------------ after Close

  /** `Close` clears the tunnels and forgets the index. */
  function AfterClose(v: View): View {
    v.(tunnels := map[])
  }

  /** Then the index agrees with a scan exactly when it was empty. */
  lemma IndexAfterClose(v: View)
    ensures Indexed(AfterClose(v)) <==> v.users == map[]
  {
    assert IndexOf(map[]) == map[];
  }

  /** The index says that `u` has all the tunnels allowed. */
  ghost predicate Full(v: View, cfg: Config, u: User) {
    u != "" && u in v.users && 0 < cfg.maxPerUser <= |v.users[u]|
  }

  /** Then, and only then, a create for `u` fails for that reason, if the manager has room at all. */
  lemma FullRefuses(v: View, cfg: Config, id: Id, q: Request, now: int)
    ensures Decide(v, cfg, id, q, now).TooManyForUser? <==> Full(v, cfg, q.user) && (cfg.maxTunnels > 0 ==> |v.tunnels| < cfg.maxTunnels)
    ensures Full(v, cfg, q.user) ==> !Decide(v, cfg, id, q, now).Created?
  {
  }

  /** The stale index refuses the next create exactly for a user who had all the tunnels allowed, as the index has
      it, when the manager was closed; every other create fares as in a new manager. */
  lemma StaleIndexRefusesExactlyWhen(v: View, cfg: Config, id: Id, q: Request, now: int)
    ensures
      var stale, empty := Decide(AfterClose(v), cfg, id, q, now), Decide(View(map[], map[]), cfg, id, q, now);
      && (stale != empty <==> Full(v, cfg, q.user))
      && (stale != empty ==> stale.TooManyForUser?)
    ensures Indexed(v) ==> (Full(v, cfg, q.user) <==> q.user != "" && 0 < cfg.maxPerUser <= |IdsOf(v.tunnels, q.user)|)
  {
    if Indexed(v) {
      IndexHas(v.tunnels, q.user);
    }
  }

  /** `LoadTunnels` lays the tunnels of a list over those present and leaves the index alone. */
  function AfterLoad(v: View, loaded: map<Id, Rec>): View {
    v.(tunnels := v.tunnels + loaded)
  }

  /** Everything that changes the maps, in the whole life of a manager. */
  datatype LifeOp = Do(op: Op) | Load(loaded: map<Id, Rec>) | Close

  ghost function Live(v: View, cfg: Config, op: LifeOp): View {
    match op
    case Do(op) => Apply(v, cfg, op)
    case Load(loaded) => AfterLoad(v, loaded)
    case Close => AfterClose(v)
  }

  /** `op` removes the tunnel that is present as `id`, and this is a tunnel of `u`. */
  ghost predicate RemovesFor(v: View, op: LifeOp, u: User, id: Id) {
    && u != "" && op.Do? && id in v.tunnels && v.tunnels[id].info.user == u
    && match op.op
       case Remove(removed) => removed == id
       case Cleanup(now) => IsExpired(v.tunnels[id], now)
       case _ => false
  }

  ghost predicate Counts(v: View, u: User, id: Id) {
    HasEntry(v.users, u, id)
  }

  lemma CleanupLosesExactlyWhen(v: View, doomed: set<Id>, u: User, id: Id)
    requires Counts(v, u, id)
    ensures !Counts(Without(v, doomed), u, id) <==> id in Gone(v, doomed, u)
  {
    var w := Without(v, doomed);
    if Emptied(v, doomed, u) {
      assert id in Gone(v, doomed, u) && u !in w.users;
    } else {
      assert u in w.users && w.users[u] == v.users[u] - Gone(v, doomed, u);
    }
  }

  lemma CreateLosesNothing(v: View, cfg: Config, created: Id, q: Request, now: int, u: User, id: Id)
    requires Counts(v, u, id)
    ensures Counts(AfterCreate(v, cfg, created, q, now), u, id)
  {
  }

  lemma RemoveLosesExactlyWhen(v: View, removed: Id, u: User, id: Id)
    requires Counts(v, u, id)
    ensures !Counts(AfterRemove(v, removed), u, id) <==>
      u != "" && removed == id && id in v.tunnels && v.tunnels[id].info.user == u
  {
    assert id in v.users[u] - {removed} <==> id != removed;
  }

  /** An identifier leaves the index of a user exactly with the removal, by hand or by a cleanup, of a tunnel of
      that user that is present under it: whatever the index holds, whatever was loaded and closed before. */
  lemma IndexLosesExactlyWhen(v: View, cfg: Config, op: LifeOp, u: User, id: Id)
    requires Counts(v, u, id)
    ensures !Counts(Live(v, cfg, op), u, id) <==> RemovesFor(v, op, u, id)
  {
    match op
    case Load(_) =>
    case Close =>
    case Do(Create(created, q, now)) => CreateLosesNothing(v, cfg, created, q, now, u, id);
    case Do(Remove(removed)) => RemoveLosesExactlyWhen(v, removed, u, id);
    case Do(Cleanup(now)) => CleanupLosesExactlyWhen(v, Expired(v, now), u, id);
    case Do(Touch(touched, active, now)) =>
  }

  /** While the index says that a user has all the tunnels allowed nothing is added to its entry. */
  lemma FullOnlyShrinks(v: View, cfg: Config, op: LifeOp, u: User)
    requires Full(v, cfg, u) && u in Live(v, cfg, op).users
    ensures Live(v, cfg, op).users[u] <= v.users[u]
  {
    if op.Do? && op.op.Create? && op.op.request.user == u {
      FullRefuses(v, cfg, op.op.id, op.op.request, op.op.now);
    }
  }

  /** A life of a manager, from a new one on. */
  ghost predicate Life(cfg: Config, states: seq<View>, ops: seq<LifeOp>) {
    && |states| == |ops| + 1
    && states[0] == View(map[], map[])
    && forall i: nat | i < |ops| :: LivesAt(cfg, states, ops, i)
  }

  ghost predicate LivesAt(cfg: Config, states: seq<View>, ops: seq<LifeOp>, i: nat) {
    i < |ops| && i + 1 < |states| && states[i + 1] == Live(states[i], cfg, ops[i])
  }

  /** The index never has more for a user than the limit, whatever it has to do with the tunnels. */
  ghost predicate IndexWithin(v: View, cfg: Config) {
    cfg.maxPerUser > 0 ==> forall u | u in v.users :: |v.users[u]| <= cfg.maxPerUser
  }

  lemma WithoutKeepsWithin(v: View, cfg: Config, doomed: set<Id>)
    requires IndexWithin(v, cfg)
    ensures IndexWithin(Without(v, doomed), cfg)
  {
    var w := Without(v, doomed);
    forall u | u in w.users ensures |w.users[u]| <= |v.users[u]| {
      SubsetSize(w.users[u], v.users[u]);
    }
  }

  lemma RemoveKeepsWithin(v: View, cfg: Config, id: Id)
    requires IndexWithin(v, cfg)
    ensures IndexWithin(AfterRemove(v, id), cfg)
  {
    if id in v.tunnels {
      WithoutNone(v);
      RemoveIsWithout(v, {}, id);
      WithoutKeepsWithin(v, cfg, {} + {id});
    }
  }

  lemma CreateKeepsWithin(v: View, cfg: Config, id: Id, q: Request, now: int)
    requires IndexWithin(v, cfg)
    ensures IndexWithin(AfterCreate(v, cfg, id, q, now), cfg)
  {
    CreatedExactlyWhen(v, cfg, id, q, now);
    if Decide(v, cfg, id, q, now).Created? && cfg.maxPerUser > 0 {
      AddUserKeepsLimit(v.users, cfg.maxPerUser, q.user, id);
    }
  }

  lemma LiveKeepsWithin(v: View, cfg: Config, op: LifeOp, w: View)
    requires IndexWithin(v, cfg) && w == Live(v, cfg, op)
    ensures IndexWithin(w, cfg)
  {
    match op
    case Load(_) =>
    case Close =>
    case Do(Create(id, q, now)) => CreateKeepsWithin(v, cfg, id, q, now);
    case Do(Remove(id)) => RemoveKeepsWithin(v, cfg, id);
    case Do(Cleanup(now)) => WithoutKeepsWithin(v, cfg, Expired(v, now));
    case Do(Touch(id, active, now)) =>
  }

  lemma WithinAfterStep(cfg: Config, states: seq<View>, ops: seq<LifeOp>, i: nat)
    requires i < |ops| && i + 1 < |states| && LivesAt(cfg, states, ops, i) && IndexWithin(states[i], cfg)
    ensures IndexWithin(states[i + 1], cfg)
  {
    LiveKeepsWithin(states[i], cfg, ops[i], states[i + 1]);
  }

  lemma {:induction false} LifeKeepsWithin(cfg: Config, states: seq<View>, ops: seq<LifeOp>, n: nat)
    requires Life(cfg, states, ops) && n < |states|
    ensures IndexWithin(states[n], cfg)
  {
    if n > 0 {
      LifeKeepsWithin(cfg, states, ops, n - 1);
      WithinAfterStep(cfg, states, ops, n - 1);
    }
  }

  /** Step `i` removes a tunnel of `u` that is present under one of `ids`. */
  ghost predicate LetsIn(states: seq<View>, ops: seq<LifeOp>, u: User, ids: set<Id>, i: nat) {
    i < |ops| && i < |states| && exists id :: id in ids && RemovesFor(states[i], ops[i], u, id)
  }

  lemma FullKeepsAll(v: View, cfg: Config, op: LifeOp, w: View, u: User, ids: set<Id>)
    requires Full(v, cfg, u) && v.users[u] == ids && |ids| == cfg.maxPerUser && w == Live(v, cfg, op)
    ensures Full(w, cfg, u) ==> w.users[u] == ids
    ensures Full(w, cfg, u) <==> forall id | id in ids :: !RemovesFor(v, op, u, id)
  {
    forall id | id in ids ensures Counts(w, u, id) <==> !RemovesFor(v, op, u, id) {
      IndexLosesExactlyWhen(v, cfg, op, u, id);
    }
    if u in w.users {
      FullOnlyShrinks(v, cfg, op, u);
      SubsetSize(w.users[u], ids);
    } else {
      var id :| id in ids;
      assert RemovesFor(v, op, u, id);
    }
  }

  lemma FullAfterStep(cfg: Config, states: seq<View>, ops: seq<LifeOp>, u: User, ids: set<Id>, i: nat)
    requires i < |ops| && i + 1 < |states| && LivesAt(cfg, states, ops, i)
    requires IndexWithin(states[i], cfg) && Full(states[i], cfg, u) && states[i].users[u] == ids
    ensures Full(states[i + 1], cfg, u) <==> !LetsIn(states, ops, u, ids, i)
    ensures Full(states[i + 1], cfg, u) ==> states[i + 1].users[u] == ids
  {
    FullKeepsAll(states[i], cfg, ops[i], states[i + 1], u, ids);
  }

  lemma {:induction false} FullUntilLetIn(cfg: Config, states: seq<View>, ops: seq<LifeOp>, u: User, m: nat, n: nat)
    requires Life(cfg, states, ops) && m <= n < |states| && Full(states[m], cfg, u)
    requires forall i: nat | m <= i < n :: !LetsIn(states, ops, u, states[m].users[u], i)
    ensures Full(states[n], cfg, u) && states[n].users[u] == states[m].users[u]
  {
    var ids := states[m].users[u];
    if m < n {
      FullUntilLetIn(cfg, states, ops, u, m, n - 1);
      LifeKeepsWithin(cfg, states, ops, n - 1);
      FullAfterStep(cfg, states, ops, u, ids, n - 1);
    }
  }

  /** Whenever in its life a manager counts all the tunnels allowed for a user, truly or because it was closed, the
      user is refused in every state from then on, however tunnels are created, loaded, removed and closed, up to
      the first removal of a tunnel that is present under one of the identifiers then counted; and in the state
      after that one no longer. */
  lemma ClosedOutUntilLetIn(cfg: Config, states: seq<View>, ops: seq<LifeOp>, u: User, m: nat, n: nat)
    requires Life(cfg, states, ops) && m <= n < |states| && Full(states[m], cfg, u)
    ensures (forall i | m <= i <= n :: Full(states[i], cfg, u))
       <==> forall i: nat | m <= i < n :: !LetsIn(states, ops, u, states[m].users[u], i)
  {
    var ids := states[m].users[u];
    if i: nat :| m <= i < n && LetsIn(states, ops, u, ids, i) {
      var first := FirstLetIn(states, ops, u, ids, m, i);
      FullUntilLetIn(cfg, states, ops, u, m, first);
      LifeKeepsWithin(cfg, states, ops, first);
      FullAfterStep(cfg, states, ops, u, ids, first);
    } else {
      forall i | m <= i <= n ensures Full(states[i], cfg, u) {
        FullUntilLetIn(cfg, states, ops, u, m, i);
      }
    }
  }

  lemma {:induction false} FirstLetIn(states: seq<View>, ops: seq<LifeOp>, u: User, ids: set<Id>, m: nat, i: nat) returns (first: nat)
    requires m <= i && LetsIn(states, ops, u, ids, i)
    ensures m <= first <= i && LetsIn(states, ops, u, ids, first)
    ensures forall j: nat | m <= j < first :: !LetsIn(states, ops, u, ids, j)
  {
    if j: nat :| m <= j < i && LetsIn(states, ops, u, ids, j) {
      first := FirstLetIn(states, ops, u, ids, m, j);
    } else {
      first := i;
    }
  }

  const ONE_EACH := Config(0, 1, 0)
  const HTTP_FOR_U := Request("http", 80, "nx.io", 8443, [], "u")

  /** A new manager with its first tunnel. */
  ghost const FIRST := AfterCreate(View(map[], map[]), ONE_EACH, "a", HTTP_FOR_U, 0)

  lemma FirstIsGood()
    ensures Good(FIRST, ONE_EACH) && IdsOf(FIRST.tunnels, "u") == {"a"}
    ensures AfterRemove(FIRST, "a") == View(map[], map[])
  {
    var empty := View(map[], map[]);
    CreatedExactlyWhen(empty, ONE_EACH, "a", HTTP_FOR_U, 0);
    CreateKeepsGood(empty, ONE_EACH, "a", HTTP_FOR_U, 0);
    RemoveUndoesCreate(empty, ONE_EACH, "a", HTTP_FOR_U, 0);
  }

  /** And it does happen: closed out, loaded back, removed, and let in again. */
  lemma LoadedBackAndLetIn() returns (states: seq<View>, ops: seq<LifeOp>)
    ensures ops == [Do(Create("a", HTTP_FOR_U, 0)), Close, Load(FIRST.tunnels), Do(Remove("a"))]
    ensures Life(ONE_EACH, states, ops)
    ensures Decide(states[2], ONE_EACH, "b", HTTP_FOR_U, 0).TooManyForUser?
    ensures Decide(states[4], ONE_EACH, "b", HTTP_FOR_U, 0).Created?
  {
    FirstIsGood();
    ops := [Do(Create("a", HTTP_FOR_U, 0)), Close, Load(FIRST.tunnels), Do(Remove("a"))];
    states := [View(map[], map[]), FIRST, AfterClose(FIRST), FIRST, View(map[], map[])];
    ClosedOutAtFirst();
    forall i: nat | i < |ops| ensures LivesAt(ONE_EACH, states, ops, i) {
      assert i == 2 ==> map[] + FIRST.tunnels == FIRST.tunnels;
    }
  }

  lemma ClosedOutAtFirst()
    ensures Decide(AfterClose(FIRST), ONE_EACH, "b", HTTP_FOR_U, 0).TooManyForUser?
    ensures Decide(View(map[], map[]), ONE_EACH, "b", HTTP_FOR_U, 0).Created?
  {
    FirstIsGood();
    StaleIndexRefusesExactlyWhen(FIRST, ONE_EACH, "b", HTTP_FOR_U, 0);
    CreatedExactlyWhen(View(map[], map[]), ONE_EACH, "b", HTTP_FOR_U, 0);
  }

  // ------------------------------------------------------------------ the index, entry by entry

  ghost predicate HasEntry(users: map<User, set<Id>>, u: User, id: Id) {
    u in users && id in users[u]
  }

  lemma AddUserAddsOne(users: map<User, set<Id>>, who: User, id: Id)
    ensures forall u, i :: HasEntry(AddUser(users, who, id), u, i) <==> HasEntry(users, u, i) || (u == who != "" && i == id)
  {
  }

  lemma DropUserDropsOne(users: map<User, set<Id>>, who: User, id: Id)
    ensures forall u, i :: HasEntry(DropUser(users, who, id), u, i) <==> HasEntry(users, u, i) && !(u == who != "" && i == id)
  {
    forall u, i ensures HasEntry(DropUser(users, who, id), u, i) <==> HasEntry(users, u, i) && !(u == who != "" && i == id) {
      if u == who && u != "" && u in users {
        assert i in users[u] - {id} <==> i in users[u] && i != id;
      }
    }
  }

  lemma WithoutDropsThem(v: View, doomed: set<Id>)
    ensures forall u, i :: HasEntry(Without(v, doomed).users, u, i) <==>
      HasEntry(v.users, u, i) && !(i in doomed && i in v.tunnels && u == v.tunnels[i].info.user != "")
  {
    forall u, i ensures HasEntry(Without(v, doomed).users, u, i) <==>
      HasEntry(v.users, u, i) && !(i in doomed && i in v.tunnels && u == v.tunnels[i].info.user != "")
    {
      if Counts(v, u, i) {
        CleanupLosesExactlyWhen(v, doomed, u, i);
      }
    }
  }

  // ------------------------------------------------------------------ the manager itself

  class ManagedTunnel {
    const info: Info
    var active: bool
    var lastActive: int
    var stopped: bool          // stopOnce is done
    var closes: nat            // how often stopChan was closed; a second time would panic

    ghost predicate Valid()
      reads this
    {
      closes == if stopped then 1 else 0
    }

    constructor (info: Info, now: int)
      ensures this.info == info && At() == Rec(info, now, false) && !stopped && Valid()
    {
      this.info := info;
      active, lastActive, stopped, closes := false, now, false, 0;
    }

    function At(): Rec reads this { Rec(info, lastActive, active) }

    /** `stop`: only the first call closes the channel. */
    method Stop()
      modifies this`stopped, this`closes
      ensures stopped && closes == old(closes) + if old(stopped) then 0 else 1
      ensures old(Valid()) ==> Valid() && closes == 1
    {
      if !stopped {
        stopped := true;
        closes := closes + 1;
      }
    }
  }

  class TunnelManager {
    const cfg: Config
    var tunnels: map<Id, ManagedTunnel>
    var users: map<User, set<Id>>

    constructor (cfg: Config)
      ensures this.cfg == cfg && tunnels == map[] && users == map[]
      ensures Good(Now(), cfg)
    {
      this.cfg := cfg;
      tunnels, users := map[], map[];
    }

    ghost function Now(): View
      reads this, tunnels.Values
    {
      View(map id | id in tunnels :: tunnels[id].At(), users)
    }

    /** The loop of `CreateTunnel` and of `GetTunnelByPort`. */
    method FindPort(protocol: string, port: int) returns (found: Option<Id>)
      ensures found.None? ==> forall id | id in tunnels :: tunnels[id].info.protocol != protocol || tunnels[id].info.localPort != port
      ensures found.Some? ==>
        found.value in tunnels && tunnels[found.value].info.protocol == protocol && tunnels[found.value].info.localPort == port
    {
      var todo := tunnels.Keys;
      while todo != {}
        invariant todo <= tunnels.Keys
        invariant forall id | id in tunnels && id !in todo :: tunnels[id].info.protocol != protocol || tunnels[id].info.localPort != port
      {
        var id :| id in todo;
        if tunnels[id].info.protocol == protocol && tunnels[id].info.localPort == port {
          return Some(id);
        }
        todo := todo - {id};
      }
      return None;
    }

    /** The checks of `CreateTunnel`, in their order. */
    method Refuse(q: Request, ghost id: Id, ghost now: int) returns (refused: Option<Outcome>)
      ensures Decide(Now(), cfg, id, q, now) == if refused.Some? then refused.value else Created(InfoOf(cfg, id, q, now))
      ensures refused.Some? ==> !refused.value.Created?
    {
      assert Now().tunnels.Keys == tunnels.Keys;
      if cfg.maxTunnels > 0 && |tunnels| >= cfg.maxTunnels {
        return Some(TooManyTunnels);
      }
      if cfg.maxPerUser > 0 && q.user != "" {
        var count := if q.user in users then |users[q.user]| else 0;
        if count >= cfg.maxPerUser {
          return Some(TooManyForUser);
        }
      }
      var taken := FindPort(q.protocol, q.localPort);
      if taken.Some? {
        assert UsesPort(Now().tunnels[taken.value], q.protocol, q.localPort);
        return Some(PortTaken);
      }
      assert forall i | i in Now().tunnels :: !UsesPort(Now().tunnels[i], q.protocol, q.localPort);
      return if PublicUrl.IsProtocol(q.protocol) then None else Some(UnsupportedProtocol);
    }

    /** Add the tunnel to both maps. */
    method Insert(info: Info, now: int)
      requires info.id !in tunnels
      modifies this
      ensures Now() == View(old(Now()).tunnels[info.id := Rec(info, now, false)], AddUser(old(users), info.user, info.id))
      ensures info.id in tunnels && tunnels - {info.id} == old(tunnels) && fresh(tunnels[info.id])
      ensures tunnels[info.id].At() == Rec(info, now, false) && !tunnels[info.id].stopped
    {
      var mt := new ManagedTunnel(info, now);
      tunnels := tunnels[info.id := mt];
      users := AddUser(users, info.user, info.id);
      assert Now().tunnels == old(Now()).tunnels[info.id := Rec(info, now, false)];
    }

    method CreateTunnel(id: Id, q: Request, now: int) returns (o: Outcome)
      requires id !in tunnels
      modifies this
      ensures o == Decide(old(Now()), cfg, id, q, now)
      ensures Now() == AfterCreate(old(Now()), cfg, id, q, now)
      // what is refused
      ensures
        var full := cfg.maxTunnels > 0 && |old(tunnels)| >= cfg.maxTunnels;
        var used := cfg.maxPerUser > 0 && q.user != "" && q.user in old(users) && |old(users)[q.user]| >= cfg.maxPerUser;
        var taken := exists i ::
          i in old(tunnels) && old(tunnels)[i].info.protocol == q.protocol && old(tunnels)[i].info.localPort == q.localPort;
        && (o.TooManyTunnels? <==> full)
        && (o.TooManyForUser? <==> !full && used)
        && (o.PortTaken? <==> !full && !used && taken)
        && (o.UnsupportedProtocol? <==> !full && !used && !taken && q.protocol != "http" && q.protocol != "https" && q.protocol != "tcp")
      ensures !o.Created? ==> tunnels == old(tunnels) && users == old(users)
      // what is created
      ensures o.Created? ==>
        var i := o.info;
        && i.id == id && i.user == q.user && i.cert == q.cert && i.created == now
        && i.protocol == q.protocol && i.localPort == q.localPort && i.host == q.host && i.port == q.port
        && i.expiresAt == (if cfg.maxTime > 0 then Some(now + cfg.maxTime) else None)
        && (|| (q.protocol == "http" && i.url == "http://" + (id + "." + q.host))
            || (q.protocol == "https" && i.url == "https://" + (id + "-s." + q.host))
            || (q.protocol == "tcp" && i.url == "tcp://" + (q.host + ":" + PublicUrl.Decimal(q.port))))
      ensures o.Created? ==> id in tunnels && tunnels - {id} == old(tunnels) && fresh(tunnels[id])
      ensures o.Created? ==> tunnels[id].info == o.info && !tunnels[id].active && tunnels[id].lastActive == now && !tunnels[id].stopped
      ensures forall u, i ::
        HasEntry(users, u, i) <==> HasEntry(old(users), u, i) || (o.Created? && u == q.user != "" && i == id)
    {
      RefusedOutright(id, q, now);
      var refused := Refuse(q, id, now);
      if refused.Some? {
        return refused.value;
      }
      var info := InfoOf(cfg, id, q, now);
      UrlsByProtocol(id, q.host, q.port);
      AddUserAddsOne(users, q.user, id);
      Insert(info, now);
      o := Created(info);
    }

    lemma RefusedOutright(id: Id, q: Request, now: int)
      ensures
        var o := Decide(Now(), cfg, id, q, now);
        var full := cfg.maxTunnels > 0 && |tunnels| >= cfg.maxTunnels;
        var used := cfg.maxPerUser > 0 && q.user != "" && q.user in users && |users[q.user]| >= cfg.maxPerUser;
        var taken := exists i :: i in tunnels && tunnels[i].info.protocol == q.protocol && tunnels[i].info.localPort == q.localPort;
        && (o.TooManyTunnels? <==> full)
        && (o.TooManyForUser? <==> !full && used)
        && (o.PortTaken? <==> !full && !used && taken)
        && (o.UnsupportedProtocol? <==> !full && !used && !taken && q.protocol != "http" && q.protocol != "https" && q.protocol != "tcp")
    {
      RefusedExactlyWhen(Now(), cfg, id, q, now);
      assert Now().tunnels.Keys == tunnels.Keys;
      assert forall i | i in tunnels :: i in Now().tunnels && Now().tunnels[i].info == tunnels[i].info;
      assert forall i | i in Now().tunnels :: i in tunnels;
    }

    /** The critical section of `RemoveTunnel`. */
    method RemoveTunnel(id: Id) returns (found: bool)
      modifies this, tunnels.Values`stopped, tunnels.Values`closes
      ensures found <==> id in old(tunnels)
      ensures tunnels == old(tunnels) - {id} && Now() == AfterRemove(old(Now()), id)
      ensures found && old(tunnels[id].active) ==> old(tunnels[id]).stopped
      ensures forall u, i ::
        HasEntry(users, u, i) <==> HasEntry(old(users), u, i) && !(found && i == id && u == old(tunnels)[id].info.user != "")
      ensures forall other | other in old(tunnels) && old(tunnels[other].stopped) :: old(tunnels)[other].stopped
    {
      if id !in tunnels {
        return false;
      }
      var mt := tunnels[id];
      if mt.active {
        mt.Stop();
      }
      DropUserDropsOne(users, mt.info.user, id);
      users := DropUser(users, mt.info.user, id);
      tunnels := tunnels - {id};
      return true;
    }

    /** One round of the loop of `cleanupStaleTunnels`. */
    method RemoveIfExpired(id: Id, now: int, ghost before: View, ghost done: set<Id>) returns (expired: bool)
      requires id in before.tunnels && id !in done && Now() == Without(before, done)
      modifies this, tunnels.Values`stopped, tunnels.Values`closes
      ensures expired == IsExpired(before.tunnels[id], now)
      ensures expired && before.tunnels[id].active ==> id in old(tunnels) && old(tunnels)[id].stopped
      ensures forall other | other in old(tunnels) && old(tunnels[other].stopped) :: old(tunnels)[other].stopped
      ensures Now() == Without(before, if expired then done + {id} else done)
      ensures tunnels == if expired then old(tunnels) - {id} else old(tunnels)
    {
      assert id in Now().tunnels && Now().tunnels[id] == before.tunnels[id];
      expired := IsExpired(tunnels[id].At(), now);
      if expired {
        RemoveIsWithout(before, done, id);
        var _ := RemoveTunnel(id);
      }
    }

    /** Those of `all` that are gone and were active have been told to stop. */
    ghost predicate ToldToStop(all: map<Id, ManagedTunnel>, gone: set<Id>)
      reads all.Values
    {
      forall id | id in all && id in gone && all[id].active :: all[id].stopped
    }

    method CleanUpOne(id: Id, now: int, ghost before: View, ghost all: map<Id, ManagedTunnel>, ghost done: set<Id>)
      returns (ghost more: set<Id>)
      requires id in before.tunnels && id !in done && tunnels == all - done && Now() == Without(before, done)
      requires ToldToStop(all, done)
      modifies this, tunnels.Values`stopped, tunnels.Values`closes
      ensures more == done + if IsExpired(before.tunnels[id], now) then {id} else {}
      ensures tunnels == all - more && Now() == Without(before, more)
      ensures ToldToStop(all, more)
    {
      assert id in Now().tunnels && tunnels[id].At() == before.tunnels[id];
      var expired := RemoveIfExpired(id, now, before, done);
      more := done + if expired then {id} else {};
      assert done + {} == done;
    }

    /** The critical section of `cleanupStaleTunnels`. */
    method CleanupStaleTunnels(now: int)
      modifies this, tunnels.Values`stopped, tunnels.Values`closes
      ensures Now() == AfterCleanup(old(Now()), now)
      ensures forall id | id in old(tunnels) ::
        id in tunnels <==> old(tunnels)[id].info.expiresAt.None? || now <= old(tunnels)[id].info.expiresAt.value
      ensures tunnels == old(tunnels) - (old(tunnels).Keys - tunnels.Keys)
      ensures forall id | id in old(tunnels) && id !in tunnels && old(tunnels[id].active) :: old(tunnels)[id].stopped
      ensures forall u, i :: HasEntry(users, u, i) <==>
        HasEntry(old(users), u, i) && !(i in old(tunnels) && i !in tunnels && u == old(tunnels)[i].info.user != "")
    {
      ghost var before, all, done := Now(), tunnels, {};
      WithoutNone(before);
      var todo := tunnels.Keys;
      while todo != {}
        invariant todo <= before.tunnels.Keys && done == Expired(before, now) - todo
        invariant tunnels == all - done && Now() == Without(before, done)
        invariant ToldToStop(all, done)
        decreases todo
      {
        var id :| id in todo;
        NextExpired(before, now, todo, id);
        done := CleanUpOne(id, now, before, all, done);
        todo := todo - {id};
      }
      assert done == Expired(before, now);
      assert tunnels.Keys == all.Keys - done && before.tunnels.Keys == all.Keys;
      WithoutDropsThem(before, done);
      assert forall id | id in all :: before.tunnels[id].info == all[id].info;
    }

    /** When ports are unique, as they are over every run of a new manager, the order of the map plays no part. */
    method GetTunnelByPort(protocol: string, port: int) returns (t: Option<Rec>)
      ensures t.None? <==> forall id | id in tunnels :: tunnels[id].info.protocol != protocol || tunnels[id].info.localPort != port
      ensures t.Some? ==> t.value.info.protocol == protocol && t.value.info.localPort == port
      ensures t.Some? ==> exists id :: id in tunnels && t == Some(tunnels[id].At())
      ensures PortsUnique(Now()) ==>
        forall id | id in tunnels && tunnels[id].info.protocol == protocol && tunnels[id].info.localPort == port ::
          t == Some(tunnels[id].At())
    {
      var found := FindPort(protocol, port);
      if found.None? {
        return None;
      }
      var id := found.value;
      t := Some(tunnels[id].At());
      if PortsUnique(Now()) {
        forall other | other in tunnels && tunnels[other].info.protocol == protocol && tunnels[other].info.localPort == port
          ensures other == id
        {
          assert other in Now().tunnels && id in Now().tunnels;
        }
      }
    }

    /** Each tunnel that the index names for the user, once. */
    method GetTunnelsByUserID(u: User) returns (ids: seq<Id>, result: seq<Rec>)
      ensures |result| == |ids| && forall i | 0 <= i < |ids| :: ids[i] in tunnels && result[i] == tunnels[ids[i]].At()
      ensures forall i, j | 0 <= i < j < |ids| :: ids[i] != ids[j]
      ensures forall id :: id in ids <==> id in tunnels && u in users && id in users[u]
    {
      ids, result := [], [];
      if u in users {
        var todo := users[u];
        while todo != {}
          invariant todo <= users[u]
          invariant |result| == |ids| && forall i | 0 <= i < |ids| :: ids[i] in tunnels && result[i] == tunnels[ids[i]].At()
          invariant forall i, j | 0 <= i < j < |ids| :: ids[i] != ids[j]
          invariant forall id :: id in ids <==> id in tunnels && id in users[u] && id !in todo
        {
          var id :| id in todo;
          todo := todo - {id};
          if id in tunnels {
            ids, result := ids + [id], result + [tunnels[id].At()];
          }
        }
      }
    }

    /** Where the index agrees with a scan, those are the tunnels that the scan finds. */
    lemma IndexFindsWhatAScanFinds(u: User)
      requires Indexed(Now())
      ensures forall id :: id in tunnels && u in users && id in users[u] <==> u != "" && id in IdsOf(Now().tunnels, u)
    {
      IndexHas(Now().tunnels, u);
    }

    /** Stop every tunnel, then clear the map. */
    method Close()
      modifies this`tunnels, tunnels.Values`stopped, tunnels.Values`closes
      ensures Now() == AfterClose(old(Now())) && tunnels == map[] && users == old(users)
      ensures forall id | id in old(tunnels) :: old(tunnels)[id].stopped
    {
      var tunnelsCopy := tunnels;
      var todo := tunnelsCopy.Keys;
      while todo != {}
        invariant todo <= tunnelsCopy.Keys
        invariant forall id | id in tunnelsCopy && id !in todo :: tunnelsCopy[id].stopped
      {
        var id :| id in todo;
        todo := todo - {id};
        tunnelsCopy[id].Stop();
      }
      tunnels := map[];
      assert Now().tunnels == map[];
    }
  }
}
