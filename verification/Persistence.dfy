/** Saving the client's tunnels to disk and loading them again: `SaveTunnels` and `LoadTunnels`.

    A disk is a map from paths to contents; `failing` are the paths where a write fails, at once or after it has
    destroyed what was there.  Writing a list as JSON and reading it back is taken to lose nothing. */
module Persistence {
  import opened Common
  import opened Manager
  import PublicUrl

  type Path = string

  /** `ManagedTunnelData`; no certificate path is the empty path. */
  datatype Data = Data(
    id: Id, user: User, protocol: string, localPort: int, url: string, host: string, port: int,
    created: int, lastActive: int, expiresAt: Option<int>, certPath: Path)

  /** A list that was cut short is no list. */
  datatype Content = Pem(cert: Cert) | Json(tunnels: seq<Data>) | Broken

  /** What a write leaves that fails after `n` bytes. */
  function Torn(c: Content, n: nat): Content {
    if c.Pem? && n <= |c.cert| then Pem(c.cert[..n]) else Broken
  }

  type Files = map<Path, Content>

  function CertPath(dir: string, id: Id): Path {
    dir + "/" + ("cert_" + id + ".pem")
  }

  function ConfigPath(dir: string): Path {
    dir + "/" + "tunnels.json"
  }

  /** Every tunnel has its own certificate file, and none is the list. */
  lemma PathsAreDistinct(dir: string, a: Id, b: Id)
    ensures CertPath(dir, a) == CertPath(dir, b) <==> a == b
    ensures CertPath(dir, a) != ConfigPath(dir)
    ensures CertPath(dir, a) != ""
    ensures CertPath(dir, a) == dir + ("/cert_" + a + ".pem") && ConfigPath(dir) == dir + "/tunnels.json"
  {
    assert "/" + ("cert_" + a + ".pem") == "/cert_" + a + ".pem" && "/" + "tunnels.json" == "/tunnels.json";
    var p, q := CertPath(dir, a), CertPath(dir, b);
    var k := |dir| + 6;
    assert p[k..|p| - 4] == a && q[k..|q| - 4] == b;
    assert p[|p| - 1] == 'm' && ConfigPath(dir)[|ConfigPath(dir)| - 1] == 'n';
  }

  predicate WritesCert(t: Rec, dir: string, failing: set<Path>) {
    t.info.cert != [] && CertPath(dir, t.info.id) !in failing
  }

  /** The entry of a tunnel in the list. */
  function Entry(t: Rec, dir: string, failing: set<Path>): Data {
    Data(t.info.id, t.info.user, t.info.protocol, t.info.localPort, t.info.url, t.info.host, t.info.port,
         t.info.created, t.lastActive, t.info.expiresAt,
         if WritesCert(t, dir, failing) then CertPath(dir, t.info.id) else "")
  }

  /** What an entry becomes when it is loaded; a certificate that cannot be read is left empty. */
  function Restored(d: Data, files: Files): Rec {
    var cert := if d.certPath != "" && d.certPath in files && files[d.certPath].Pem? then files[d.certPath].cert else [];
    Rec(Info(d.id, d.user, d.protocol, d.localPort, d.url, d.host, d.port, d.created, d.expiresAt, cert), d.lastActive, false)
  }

  /** The loop of `LoadTunnels`: a later entry replaces an earlier one, and what is there already. */
  function Loaded(tunnels: map<Id, Rec>, entries: seq<Data>, files: Files): map<Id, Rec> {
    if entries == [] then tunnels
    else
      var last := entries[|entries| - 1];
      Loaded(tunnels, entries[..|entries| - 1], files)[last.id := Restored(last, files)]
  }

  // ------------------------------------------------------------------ what a save leaves on disk

  ghost predicate ListsAll(entries: seq<Data>, tunnels: map<Id, Rec>, dir: string, failing: set<Path>) {
    && (forall d | d in entries :: d.id in tunnels && d == Entry(tunnels[d.id], dir, failing))
    && (forall id | id in tunnels :: Entry(tunnels[id], dir, failing) in entries)
  }

  ghost predicate CertIsThere(files: Files, t: Rec, dir: string, failing: set<Path>) {
    WritesCert(t, dir, failing) ==>
      CertPath(dir, t.info.id) in files && files[CertPath(dir, t.info.id)] == Pem(t.info.cert)
  }

  ghost predicate SameAt(before: Files, after: Files, p: Path) {
    (p in before <==> p in after) && (p in before ==> before[p] == after[p])
  }

  ghost predicate IsCertOf(tunnels: map<Id, Rec>, dir: string, p: Path) {
    exists id :: id in tunnels && tunnels[id].info.cert != [] && p == CertPath(dir, id)
  }

  /** `after` holds the list, in some order and each tunnel once, with the certificates; nothing else
      changed. */
  ghost predicate Saved(before: Files, after: Files, tunnels: map<Id, Rec>, dir: string, failing: set<Path>) {
    && ConfigPath(dir) in after && after[ConfigPath(dir)].Json?
    && |after[ConfigPath(dir)].tunnels| == |tunnels|
    && ListsAll(after[ConfigPath(dir)].tunnels, tunnels, dir, failing)
    && (forall id | id in tunnels :: CertIsThere(after, tunnels[id], dir, failing))
    && (forall p | p != ConfigPath(dir) && !IsCertOf(tunnels, dir, p) :: SameAt(before, after, p))
  }

  // ------------------------------------------------------------------ the round trip

  /** What comes back of a tunnel: everything but `active`, and its certificate if that was written in full. */
  function ComesBack(t: Rec, dir: string, failing: set<Path>): Rec {
    t.(active := false, info := if WritesCert(t, dir, failing) then t.info else t.info.(cert := []))
  }

  ghost function AllComeBack(tunnels: map<Id, Rec>, dir: string, failing: set<Path>): map<Id, Rec> {
    map id | id in tunnels :: ComesBack(tunnels[id], dir, failing)
  }

  lemma EntryComesBack(files: Files, t: Rec, dir: string, failing: set<Path>)
    requires CertIsThere(files, t, dir, failing)
    ensures Restored(Entry(t, dir, failing), files) == ComesBack(t, dir, failing)
  {
    PathsAreDistinct(dir, t.info.id, t.info.id);
    var r, c := Restored(Entry(t, dir, failing), files), ComesBack(t, dir, failing);
    assert r.info.cert == c.info.cert;
    assert r.info == c.info;
  }

  ghost function Listed(entries: seq<Data>): set<Id> {
    set d | d in entries :: d.id
  }

  /** `base` with the entries of `over` under `ids` laid over it. */
  ghost function Lay<V>(base: map<Id, V>, over: map<Id, V>, ids: set<Id>): map<Id, V> {
    base + map id | id in over && id in ids :: over[id]
  }

  lemma LayOne<V>(base: map<Id, V>, over: map<Id, V>, ids: set<Id>, id: Id)
    requires id in over
    ensures Lay(base, over, ids)[id := over[id]] == Lay(base, over, ids + {id})
  {
  }

  lemma LayAll<V>(base: map<Id, V>, over: map<Id, V>)
    ensures Lay(base, over, over.Keys) == base + over
  {
  }

  lemma ListedSplits(entries: seq<Data>)
    requires entries != []
    ensures Listed(entries) == Listed(entries[..|entries| - 1]) + {entries[|entries| - 1].id}
  {
    var last, rest := entries[|entries| - 1], entries[..|entries| - 1];
    assert entries == rest + [last];
    assert last in entries;
  }

  /** Loading entries that each restore to what `tunnels` has under their identifier lays these over what
      was there, in whatever order they come. */
  lemma {:induction false} LoadedLaysOver(base: map<Id, Rec>, entries: seq<Data>, files: Files, tunnels: map<Id, Rec>)
    requires forall d | d in entries :: d.id in tunnels && Restored(d, files) == tunnels[d.id]
    ensures Loaded(base, entries, files) == Lay(base, tunnels, Listed(entries))
  {
    if entries != [] {
      var last, rest := entries[|entries| - 1], entries[..|entries| - 1];
      LoadedLaysOver(base, rest, files, tunnels);
      ListedSplits(entries);
      assert last in entries;
      LayOne(base, tunnels, Listed(rest), last.id);
    }
  }

  lemma AllAreListed(tunnels: map<Id, Rec>, entries: seq<Data>, dir: string, failing: set<Path>)
    requires ListsAll(entries, tunnels, dir, failing) && Keyed(View(tunnels, map[]))
    ensures Listed(entries) == tunnels.Keys
  {
    forall id | id in tunnels ensures id in Listed(entries) {
      assert View(tunnels, map[]).tunnels[id].info.id == id;
      assert Entry(tunnels[id], dir, failing) in entries;
    }
  }

  lemma EntriesComeBack(files: Files, entries: seq<Data>, tunnels: map<Id, Rec>, dir: string, failing: set<Path>)
    requires ListsAll(entries, tunnels, dir, failing)
    requires forall id | id in tunnels :: CertIsThere(files, tunnels[id], dir, failing)
    ensures forall d | d in entries :: d.id in tunnels && Restored(d, files) == AllComeBack(tunnels, dir, failing)[d.id]
  {
    forall d | d in entries ensures Restored(d, files) == AllComeBack(tunnels, dir, failing)[d.id] {
      EntryComesBack(files, tunnels[d.id], dir, failing);
    }
  }

  /** Loading what was saved puts every saved tunnel back under its identifier, whatever the order of the
      list and whatever other files the disk holds; tunnels the manager has beside them stay. */
  lemma LoadAfterSave(base: map<Id, Rec>, before: Files, after: Files, tunnels: map<Id, Rec>, dir: string, failing: set<Path>)
    requires Saved(before, after, tunnels, dir, failing) && Keyed(View(tunnels, map[]))
    ensures Loaded(base, after[ConfigPath(dir)].tunnels, after) == base + AllComeBack(tunnels, dir, failing)
  {
    var entries := after[ConfigPath(dir)].tunnels;
    EntriesComeBack(after, entries, tunnels, dir, failing);
    AllAreListed(tunnels, entries, dir, failing);
    LoadedAll(base, entries, after, AllComeBack(tunnels, dir, failing));
  }

  lemma LoadedAll(base: map<Id, Rec>, entries: seq<Data>, files: Files, back: map<Id, Rec>)
    requires Listed(entries) == back.Keys
    requires forall d | d in entries :: d.id in back && Restored(d, files) == back[d.id]
    ensures Loaded(base, entries, files) == base + back
  {
    LoadedLaysOver(base, entries, files, back);
    LayAll(base, back);
  }

  /** The round trip is exact, but for `active`, exactly for the tunnels whose certificate is empty or
      could be written. */
  lemma RoundTrip(before: Files, after: Files, tunnels: map<Id, Rec>, dir: string, failing: set<Path>, id: Id)
    requires Saved(before, after, tunnels, dir, failing) && Keyed(View(tunnels, map[])) && id in tunnels
    ensures
      var back := Loaded(map[], after[ConfigPath(dir)].tunnels, after);
      && back.Keys == tunnels.Keys
      && (back[id] == tunnels[id].(active := false) <==> tunnels[id].info.cert == [] || CertPath(dir, id) !in failing)
      && (CertPath(dir, id) in failing ==> back[id] == tunnels[id].(active := false, info := tunnels[id].info.(cert := [])))
  {
    LoadAfterSave(map[], before, after, tunnels, dir, failing);
    assert map[] + AllComeBack(tunnels, dir, failing) == AllComeBack(tunnels, dir, failing);
    assert View(tunnels, map[]).tunnels[id].info.id == id;
    var t := tunnels[id];
    if t.info.cert == [] {
      assert t.info.(cert := []) == t.info;
    } else {
      assert t.info.(cert := []).cert != t.info.cert;
    }
  }

  ghost predicate RestoredFrom(t: Rec, d: Data, files: Files) {
    && t.info.id == d.id && t.info.user == d.user && t.info.url == d.url && t.info.protocol == d.protocol
    && t.info.localPort == d.localPort && t.info.host == d.host && t.info.port == d.port
    && t.info.created == d.created && t.info.expiresAt == d.expiresAt && t.lastActive == d.lastActive && !t.active
    && t.info.cert == if d.certPath != "" && d.certPath in files && files[d.certPath].Pem? then files[d.certPath].cert else []
  }

  /** Whatever list is loaded, what no entry names is as it was. */
  lemma {:induction false} UnlistedStay(base: map<Id, Rec>, entries: seq<Data>, files: Files, id: Id)
    requires forall i | 0 <= i < |entries| :: entries[i].id != id
    ensures id in Loaded(base, entries, files) <==> id in base
    ensures id in base ==> Loaded(base, entries, files)[id] == base[id]
  {
    if entries != [] {
      UnlistedStay(base, entries[..|entries| - 1], files, id);
    }
  }

  /** And what the list names is what its last entry for that identifier says, whatever was there before. */
  lemma {:induction false} LoadedByTheLastEntry(base: map<Id, Rec>, entries: seq<Data>, files: Files, i: nat)
    requires i < |entries| && forall j | i < j < |entries| :: entries[j].id != entries[i].id
    ensures entries[i].id in Loaded(base, entries, files)
    ensures RestoredFrom(Loaded(base, entries, files)[entries[i].id], entries[i], files)
  {
    if i < |entries| - 1 {
      LoadedByTheLastEntry(base, entries[..|entries| - 1], files, i);
    }
  }

  /** Loading leaves the per-user index alone, so in a new manager the index agrees with a scan exactly
      when no loaded tunnel has a user. */
  lemma IndexAfterLoad(tunnels: map<Id, Rec>)
    ensures Indexed(View(tunnels, map[])) <==> forall id | id in tunnels :: tunnels[id].info.user == ""
  {
    EntriesMakeTheIndex(map[], tunnels);
    if Indexed(View(tunnels, map[])) {
      forall id | id in tunnels ensures tunnels[id].info.user == "" {
        assert EntryOk(map[], tunnels, tunnels[id].info.user);
        assert id in IdsOf(tunnels, tunnels[id].info.user);
      }
    } else {
      var u :| !EntryOk(map[], tunnels, u);
      var id :| id in IdsOf(tunnels, u);
      assert tunnels[id].info.user == u;
    }
  }

  /** A cleanup does not need the index: of a manager that has loaded its tunnels it removes exactly the expired
      ones, and leaves the index empty. */
  lemma CleanupAfterLoad(tunnels: map<Id, Rec>, now: int)
    ensures AfterCleanup(View(tunnels, map[]), now)
         == View(map id | id in tunnels && !IsExpired(tunnels[id], now) :: tunnels[id], map[])
  {
    var w := AfterCleanup(View(tunnels, map[]), now);
    assert w.users == map[];
    assert w.tunnels == map id | id in tunnels && !IsExpired(tunnels[id], now) :: tunnels[id];
  }

  /** A manager that has just loaded its tunnels counts none of them against its users: one who already
      has all the tunnels allowed still gets another. */
  lemma LoadedTunnelsEscapeTheUserLimit(tunnels: map<Id, Rec>, cfg: Config, id: Id, q: Request, now: int)
    requires id !in tunnels && q.user != "" && 0 < cfg.maxPerUser <= |IdsOf(tunnels, q.user)|
    requires cfg.maxTunnels > 0 ==> |tunnels| < cfg.maxTunnels
    requires PublicUrl.IsProtocol(q.protocol)
    requires forall i | i in tunnels :: tunnels[i].info.protocol != q.protocol || tunnels[i].info.localPort != q.localPort
    ensures Decide(View(tunnels, map[]), cfg, id, q, now).Created?
    ensures |IdsOf(AfterCreate(View(tunnels, map[]), cfg, id, q, now).tunnels, q.user)| > cfg.maxPerUser
  {
    CreatedExactlyWhen(View(tunnels, map[]), cfg, id, q, now);
    assert IdsOf(AfterCreate(View(tunnels, map[]), cfg, id, q, now).tunnels, q.user) == IdsOf(tunnels, q.user) + {id};
  }

  /** A create in a manager that has loaded its tunnels fares otherwise than one in a manager that knows whose
      they are exactly when there is room and its user has all the tunnels allowed: the user limit does not refuse it. */
  lemma LoadedTunnelsEscapeExactlyWhen(tunnels: map<Id, Rec>, cfg: Config, id: Id, q: Request, now: int)
    ensures
      var blind, knowing := Decide(View(tunnels, map[]), cfg, id, q, now), Decide(View(tunnels, IndexOf(tunnels)), cfg, id, q, now);
      && (blind != knowing <==>
            && (cfg.maxTunnels > 0 ==> |tunnels| < cfg.maxTunnels)
            && q.user != "" && 0 < cfg.maxPerUser <= |IdsOf(tunnels, q.user)|)
      && (blind != knowing ==> knowing.TooManyForUser?)
  {
    IndexHas(tunnels, q.user);
  }

  /** Loading lays the tunnels of the list over those present, as `AfterLoad` does. */
  lemma {:induction false} LoadIsAfterLoad(v: View, entries: seq<Data>, files: Files)
    ensures AfterLoad(v, Loaded(map[], entries, files)).tunnels == Loaded(v.tunnels, entries, files)
  {
    if entries == [] {
      assert v.tunnels + map[] == v.tunnels;
    } else {
      LoadIsAfterLoad(v, entries[..|entries| - 1], files);
    }
  }

  lemma SameUsersSameIndex(left: map<Id, Rec>, right: map<Id, Rec>)
    requires left.Keys == right.Keys && forall id | id in left :: left[id].info.user == right[id].info.user
    ensures IndexOf(left) == IndexOf(right) && forall u :: IdsOf(left, u) == IdsOf(right, u)
  {
    forall u ensures IdsOf(left, u) == IdsOf(right, u) {}
    forall u ensures u in IndexOf(left) <==> u in IndexOf(right) {
      IndexHas(left, u);
      IndexHas(right, u);
    }
  }

  /** The state of a manager that was saved, closed, and has loaded what was saved. */
  ghost function LoadedBack(v: View, after: Files, dir: string): View
    requires ConfigPath(dir) in after && after[ConfigPath(dir)].Json?
  {
    View(Loaded(map[], after[ConfigPath(dir)].tunnels, after), AfterClose(v).users)
  }

  lemma LoadedBackIs(before: Files, after: Files, v: View, dir: string, failing: set<Path>)
    requires Keyed(v) && Saved(before, after, v.tunnels, dir, failing)
    ensures LoadedBack(v, after, dir) == View(AllComeBack(v.tunnels, dir, failing), v.users)
  {
    assert Keyed(View(v.tunnels, map[]));
    LoadAfterSave(map[], before, after, v.tunnels, dir, failing);
    assert map[] + AllComeBack(v.tunnels, dir, failing) == AllComeBack(v.tunnels, dir, failing);
  }

  lemma UsersComeBack(tunnels: map<Id, Rec>, dir: string, failing: set<Path>)
    ensures AllComeBack(tunnels, dir, failing).Keys == tunnels.Keys
    ensures forall id | id in tunnels :: AllComeBack(tunnels, dir, failing)[id].info.user == tunnels[id].info.user
  {
  }

  /** Saved, closed and loaded, a manager counts its tunnels again: the index that `Close` leaves over is the one
      that `LoadTunnels` does not fill. */
  lemma SaveCloseLoadAgrees(before: Files, after: Files, v: View, dir: string, failing: set<Path>)
    requires Indexed(v) && Keyed(v) && Saved(before, after, v.tunnels, dir, failing)
    ensures Indexed(LoadedBack(v, after, dir))
  {
    LoadedBackIs(before, after, v, dir, failing);
    UsersComeBack(v.tunnels, dir, failing);
    SameUsersSameIndex(AllComeBack(v.tunnels, dir, failing), v.tunnels);
  }

  /** So a user whom the stale index refuses is let in again by loading what was saved and removing any one of the
      tunnels. */
  lemma LoadingBackLetsIn(
    before: Files, after: Files, v: View, cfg: Config, dir: string, failing: set<Path>, id: Id, other: Id, q: Request, now: int)
    requires Good(v, cfg) && Saved(before, after, v.tunnels, dir, failing)
    requires id in v.tunnels && v.tunnels[id].info.user == q.user != "" && 0 < cfg.maxPerUser == |IdsOf(v.tunnels, q.user)|
    ensures Decide(AfterClose(v), cfg, other, q, now).TooManyForUser?
    ensures !Decide(AfterRemove(LoadedBack(v, after, dir), id), cfg, other, q, now).TooManyForUser?
  {
    StaleIndexRefusesExactlyWhen(v, cfg, other, q, now);
    LoadedBackIs(before, after, v, dir, failing);
    UsersComeBack(v.tunnels, dir, failing);
    LetInBy(v, AllComeBack(v.tunnels, dir, failing), cfg, id, other, q, now);
  }

  lemma LetInBy(v: View, back: map<Id, Rec>, cfg: Config, id: Id, other: Id, q: Request, now: int)
    requires Good(v, cfg) && back.Keys == v.tunnels.Keys && id in back && back[id].info.user == q.user != ""
    requires forall i | i in back :: back[i].info.user == v.tunnels[i].info.user
    requires 0 < cfg.maxPerUser == |IdsOf(v.tunnels, q.user)|
    ensures !Decide(AfterRemove(View(back, v.users), id), cfg, other, q, now).TooManyForUser?
  {
    LoadedBackIsFull(v, back, cfg, id, q.user);
    FullRefuses(AfterRemove(View(back, v.users), id), cfg, other, q, now);
  }

  lemma LoadedBackIsFull(v: View, back: map<Id, Rec>, cfg: Config, id: Id, u: User)
    requires Good(v, cfg) && back.Keys == v.tunnels.Keys && id in back && back[id].info.user == u != ""
    requires forall i | i in back :: back[i].info.user == v.tunnels[i].info.user
    requires 0 < cfg.maxPerUser == |IdsOf(v.tunnels, u)|
    ensures !Full(AfterRemove(View(back, v.users), id), cfg, u)
  {
    IndexHas(v.tunnels, u);
    assert id in v.users[u] && v.users[u] == IdsOf(v.tunnels, u);
    FullKeepsAll(View(back, v.users), cfg, Do(Remove(id)), AfterRemove(View(back, v.users), id), u, v.users[u]);
    assert RemovesFor(View(back, v.users), Do(Remove(id)), u, id);
  }

  // ------------------------------------------------------------------ the code

  class FileSystem {
    const readOnly: set<Path>          // where a write fails at once
    const torn: map<Path, nat>         // where one fails after so many bytes
    var files: Files

    constructor (files: Files, readOnly: set<Path>, torn: map<Path, nat>)
      ensures this.files == files && this.readOnly == readOnly && this.torn == torn
    {
      this.files, this.readOnly, this.torn := files, readOnly, torn;
    }

    function Failing(): set<Path> {
      readOnly + torn.Keys
    }

    /** `os.WriteFile` truncates the file and then writes. */
    method WriteFile(p: Path, c: Content) returns (ok: bool)
      modifies this`files
      ensures ok <==> p !in Failing()
      ensures files == if p in readOnly then old(files) else old(files)[p := if p in torn then Torn(c, torn[p]) else c]
    {
      if p in readOnly {
        return false;
      }
      ok := p !in torn;
      files := files[p := if ok then c else Torn(c, torn[p])];
    }
  }

  /** Every tunnel of the manager, once, in some order. */
  ghost predicate IsSnapshot(snapshots: seq<Rec>, tunnels: map<Id, Rec>) {
    && |snapshots| == |tunnels|
    && (forall t | t in snapshots :: t.info.id in tunnels && t == tunnels[t.info.id])
    && (forall id | id in tunnels :: tunnels[id] in snapshots)
  }

  ghost predicate AreEntries(entries: seq<Data>, snapshots: seq<Rec>, dir: string, failing: set<Path>) {
    |entries| == |snapshots| && forall i | 0 <= i < |entries| :: entries[i] == Entry(snapshots[i], dir, failing)
  }

  ghost predicate CertsAreThere(files: Files, snapshots: seq<Rec>, dir: string, failing: set<Path>) {
    forall t | t in snapshots :: CertIsThere(files, t, dir, failing)
  }

  ghost predicate OnlyCertsChange(before: Files, after: Files, tunnels: map<Id, Rec>, dir: string) {
    forall p | !IsCertOf(tunnels, dir, p) :: SameAt(before, after, p)
  }

  /** The part of `SaveTunnels` under the lock. */
  method Snapshot(tm: TunnelManager) returns (snapshots: seq<Rec>)
    requires Keyed(tm.Now())
    ensures IsSnapshot(snapshots, tm.Now().tunnels)
  {
    snapshots := [];
    ghost var tunnels := tm.Now().tunnels;
    var todo := tm.tunnels.Keys;
    assert tunnels.Keys == todo;
    while todo != {}
      invariant todo <= tm.tunnels.Keys
      invariant |snapshots| + |todo| == |tunnels|
      invariant forall t | t in snapshots :: t.info.id in tunnels && t == tunnels[t.info.id]
      invariant forall id | id in tunnels && id !in todo :: tunnels[id] in snapshots
    {
      var id :| id in todo;
      todo := todo - {id};
      assert tunnels[id].info.id == id;
      snapshots := snapshots + [tm.tunnels[id].At()];
    }
  }

  /** One round of the loop that writes the certificates. */
  method WriteCert(fs: FileSystem, dir: string, t: Rec) returns (d: Data)
    modifies fs`files
    ensures d == Entry(t, dir, fs.Failing())
    ensures CertIsThere(fs.files, t, dir, fs.Failing())
    ensures forall p | p != CertPath(dir, t.info.id) || t.info.cert == [] :: SameAt(old(fs.files), fs.files, p)
  {
    d := Entry(t, dir, fs.Failing()).(certPath := "");
    if t.info.cert != [] {
      var certPath := CertPath(dir, t.info.id);
      var ok := fs.WriteFile(certPath, Pem(t.info.cert));
      if ok {
        d := d.(certPath := certPath);
      }
    }
  }

  /** All certificates; the entries come in the order of the snapshots. */
  method WriteCerts(fs: FileSystem, dir: string, snapshots: seq<Rec>, ghost tunnels: map<Id, Rec>) returns (entries: seq<Data>)
    requires forall t | t in snapshots :: t.info.id in tunnels && t == tunnels[t.info.id]
    modifies fs`files
    ensures AreEntries(entries, snapshots, dir, fs.Failing())
    ensures CertsAreThere(fs.files, snapshots, dir, fs.Failing())
    ensures OnlyCertsChange(old(fs.files), fs.files, tunnels, dir)
  {
    entries := [];
    for i := 0 to |snapshots|
      invariant AreEntries(entries, snapshots[..i], dir, fs.Failing())
      invariant CertsAreThere(fs.files, snapshots[..i], dir, fs.Failing())
      invariant OnlyCertsChange(old(fs.files), fs.files, tunnels, dir)
    {
      var d := WriteNext(fs, dir, snapshots[..i], snapshots[i], tunnels);
      assert snapshots[..i + 1] == snapshots[..i] + [snapshots[i]];
      entries := entries + [d];
    }
    assert snapshots[..|snapshots|] == snapshots;
  }

  /** A certificate never overwrites the one of another tunnel. */
  method WriteNext(fs: FileSystem, dir: string, ghost done: seq<Rec>, t: Rec, ghost tunnels: map<Id, Rec>) returns (d: Data)
    requires t.info.id in tunnels && t == tunnels[t.info.id]
    requires forall s | s in done :: s.info.id in tunnels && s == tunnels[s.info.id]
    requires CertsAreThere(fs.files, done, dir, fs.Failing())
    modifies fs`files
    ensures d == Entry(t, dir, fs.Failing())
    ensures CertsAreThere(fs.files, done + [t], dir, fs.Failing())
    ensures OnlyCertsChange(old(fs.files), fs.files, tunnels, dir)
  {
    d := WriteCert(fs, dir, t);
    forall s | s in done ensures CertIsThere(fs.files, s, dir, fs.Failing()) {
      PathsAreDistinct(dir, s.info.id, t.info.id);
      assert s.info.id == t.info.id || SameAt(old(fs.files), fs.files, CertPath(dir, s.info.id));
    }
    forall p | !IsCertOf(tunnels, dir, p) ensures SameAt(old(fs.files), fs.files, p) {
      assert p != CertPath(dir, t.info.id) || t.info.cert == [];
    }
  }

  /** A save that fails leaves the list of the last one, unless the write of the list fails half way: then there is
      no list any more, and nothing can be loaded. */
  method SaveTunnels(tm: TunnelManager, fs: FileSystem, dir: string) returns (ok: bool)
    requires Keyed(tm.Now())
    modifies fs`files
    ensures ok <==> dir != "" && ConfigPath(dir) !in fs.Failing()
    ensures ok ==> Saved(old(fs.files), fs.files, old(tm.Now()).tunnels, dir, fs.Failing())
    ensures !ok ==>
      if dir != "" && ConfigPath(dir) !in fs.readOnly then ConfigPath(dir) in fs.files && fs.files[ConfigPath(dir)] == Broken
      else SameAt(old(fs.files), fs.files, ConfigPath(dir))
    ensures dir == "" ==> fs.files == old(fs.files)
  {
    if dir == "" {
      return false;
    }
    ghost var tunnels := tm.Now().tunnels;
    var snapshots := Snapshot(tm);
    ok := WriteAll(fs, dir, snapshots, tunnels);
  }

  /** The part of `SaveTunnels` after the lock is released. */
  method WriteAll(fs: FileSystem, dir: string, snapshots: seq<Rec>, ghost tunnels: map<Id, Rec>) returns (ok: bool)
    requires IsSnapshot(snapshots, tunnels)
    modifies fs`files
    ensures ok <==> ConfigPath(dir) !in fs.Failing()
    ensures ok ==> Saved(old(fs.files), fs.files, tunnels, dir, fs.Failing())
    ensures !ok ==>
      if ConfigPath(dir) !in fs.readOnly then ConfigPath(dir) in fs.files && fs.files[ConfigPath(dir)] == Broken
      else SameAt(old(fs.files), fs.files, ConfigPath(dir))
  {
    var entries := WriteCerts(fs, dir, snapshots, tunnels);
    SavedOnceListed(old(fs.files), fs.files, snapshots, entries, tunnels, dir, fs.Failing());
    ok := fs.WriteFile(ConfigPath(dir), Json(entries));
  }

  lemma SavedOnceListed(
    before: Files, written: Files, snapshots: seq<Rec>, entries: seq<Data>, tunnels: map<Id, Rec>, dir: string, failing: set<Path>)
    requires IsSnapshot(snapshots, tunnels)
    requires AreEntries(entries, snapshots, dir, failing)
    requires CertsAreThere(written, snapshots, dir, failing)
    requires OnlyCertsChange(before, written, tunnels, dir)
    ensures Saved(before, written[ConfigPath(dir) := Json(entries)], tunnels, dir, failing)
    ensures SameAt(before, written, ConfigPath(dir))
  {
    SnapshotListsAll(snapshots, entries, tunnels, dir, failing);
    ListIsNoCert(tunnels, dir);
    ListCompletesTheSave(before, written, entries, tunnels, dir, failing);
  }

  lemma SnapshotListsAll(snapshots: seq<Rec>, entries: seq<Data>, tunnels: map<Id, Rec>, dir: string, failing: set<Path>)
    requires IsSnapshot(snapshots, tunnels)
    requires AreEntries(entries, snapshots, dir, failing)
    ensures ListsAll(entries, tunnels, dir, failing)
  {
    forall id | id in tunnels ensures Entry(tunnels[id], dir, failing) in entries {
      var i :| 0 <= i < |snapshots| && snapshots[i] == tunnels[id];
      assert entries[i] in entries;
    }
  }

  lemma ListIsNoCert(tunnels: map<Id, Rec>, dir: string)
    ensures !IsCertOf(tunnels, dir, ConfigPath(dir))
  {
    forall id | id in tunnels ensures ConfigPath(dir) != CertPath(dir, id) {
      PathsAreDistinct(dir, id, id);
    }
  }

  lemma ListCompletesTheSave(
    before: Files, written: Files, entries: seq<Data>, tunnels: map<Id, Rec>, dir: string, failing: set<Path>)
    requires |entries| == |tunnels| && ListsAll(entries, tunnels, dir, failing)
    requires forall id | id in tunnels :: CertIsThere(written, tunnels[id], dir, failing)
    requires OnlyCertsChange(before, written, tunnels, dir)
    ensures Saved(before, written[ConfigPath(dir) := Json(entries)], tunnels, dir, failing)
  {
    var after := written[ConfigPath(dir) := Json(entries)];
    forall id | id in tunnels ensures CertIsThere(after, tunnels[id], dir, failing) {
      PathsAreDistinct(dir, tunnels[id].info.id, id);
    }
    forall p | p != ConfigPath(dir) && !IsCertOf(tunnels, dir, p) ensures SameAt(before, after, p) {
      assert SameAt(before, written, p);
    }
  }

  /** A missing list is no error and loads nothing; the index of users is never touched. */
  method LoadTunnels(tm: TunnelManager, fs: FileSystem, dir: string) returns (ok: bool)
    modifies tm`tunnels
    ensures ok <==> dir != "" && (ConfigPath(dir) in fs.files ==> fs.files[ConfigPath(dir)].Json?)
    ensures tm.Now() == View(
      if ok && ConfigPath(dir) in fs.files then Loaded(old(tm.Now()).tunnels, fs.files[ConfigPath(dir)].tunnels, fs.files)
      else old(tm.Now()).tunnels, old(tm.users))
  {
    if dir == "" {
      return false;
    }
    if ConfigPath(dir) !in fs.files {
      return true;
    }
    if !fs.files[ConfigPath(dir)].Json? {
      return false;
    }
    var entries := fs.files[ConfigPath(dir)].tunnels;
    for i := 0 to |entries|
      invariant unchanged(fs) && tm.users == old(tm.users)
      invariant tm.Now().tunnels == Loaded(old(tm.Now()).tunnels, entries[..i], fs.files)
    {
      LoadEntry(tm, fs, entries[i]);
      assert entries[..i + 1][..i] == entries[..i];
    }
    assert entries[..|entries|] == entries;
    return true;
  }

  method LoadEntry(tm: TunnelManager, fs: FileSystem, d: Data)
    modifies tm`tunnels
    ensures tm.Now().tunnels == old(tm.Now()).tunnels[d.id := Restored(d, fs.files)]
  {
    var t := Restored(d, fs.files);
    var mt := new ManagedTunnel(t.info, t.lastActive);
    tm.tunnels := tm.tunnels[d.id := mt];
    assert tm.Now().tunnels == old(tm.Now()).tunnels[d.id := t];
  }
}
