/** What the admin dashboard shows: the clients that `GetClients` builds while it goes over the registry in
    any order, and the numbers of `GetStats`, as statements about the registry. */
module Dashboard {
  import opened Common
  import opened Sweeps

  datatype TunnelInfo = TunnelInfo(id: Tid, tunnel: TunnelRec, connected: bool)

  datatype ClientInfo = ClientInfo(id: string, tunnelCount: int, tunnels: seq<TunnelInfo>, lastActive: int)

  datatype Stats = Stats(activeTunnels: int, connectedClients: int, totalConnections: int)

  function InfoOf(v: View, id: Tid): TunnelInfo
    requires id in v.tunnels
  {
    TunnelInfo(id, v.tunnels[id], id in v.ws)
  }

  // ------------------------------------------------------------------ the partition by client

  ghost function Members(v: View, seen: set<Tid>, client: string): set<Tid> {
    set id | id in seen && id in v.tunnels && v.tunnels[id].client == client
  }

  ghost function ClientsOf(v: View, seen: set<Tid>): set<string> {
    set id | id in seen && id in v.tunnels :: v.tunnels[id].client
  }

  ghost predicate Lists(v: View, infos: seq<TunnelInfo>, ids: set<Tid>) {
    && |infos| == |ids| && ids <= v.tunnels.Keys
    && (forall ti | ti in infos :: ti.id in ids && ti == InfoOf(v, ti.id))
    && (forall id | id in ids :: InfoOf(v, id) in infos)
  }

  ghost predicate IsLatest(v: View, ids: set<Tid>, lastActive: int) {
    && (forall id | id in ids && id in v.tunnels :: v.tunnels[id].lastActive <= lastActive)
    && (exists id :: id in ids && id in v.tunnels && v.tunnels[id].lastActive == lastActive)
  }

  /** The entry of a client: exactly its tunnels among those seen, and the latest of their activities. */
  ghost predicate IsClient(v: View, seen: set<Tid>, c: ClientInfo) {
    && c.tunnelCount == |c.tunnels|
    && Lists(v, c.tunnels, Members(v, seen, c.id))
    && IsLatest(v, Members(v, seen, c.id), c.lastActive)
  }

  ghost predicate Groups(v: View, seen: set<Tid>, clients: map<string, ClientInfo>) {
    && clients.Keys == ClientsOf(v, seen)
    && (forall u | u in clients :: IsGroup(v, seen, clients[u], u))
  }

  ghost predicate IsGroup(v: View, seen: set<Tid>, c: ClientInfo, client: string) {
    c.id == client && IsClient(v, seen, c)
  }

  /** One round of the loop of `GetClients`. */
  function Add(clients: map<string, ClientInfo>, ti: TunnelInfo): map<string, ClientInfo> {
    var u := ti.tunnel.client;
    if u in clients then
      var c := clients[u];
      clients[u := ClientInfo(c.id, c.tunnelCount + 1, c.tunnels + [ti],
                              if ti.tunnel.lastActive > c.lastActive then ti.tunnel.lastActive else c.lastActive)]
    else
      clients[u := ClientInfo(u, 1, [ti], ti.tunnel.lastActive)]
  }

  lemma ListsOneMore(v: View, infos: seq<TunnelInfo>, ids: set<Tid>, id: Tid)
    requires Lists(v, infos, ids) && id in v.tunnels && id !in ids
    ensures Lists(v, infos + [InfoOf(v, id)], ids + {id})
  {
  }

  lemma LatestOfOneMore(v: View, ids: set<Tid>, lastActive: int, id: Tid)
    requires IsLatest(v, ids, lastActive) && id in v.tunnels
    ensures
      var t := v.tunnels[id].lastActive;
      IsLatest(v, ids + {id}, if t > lastActive then t else lastActive)
  {
    var t := v.tunnels[id].lastActive;
    var other :| other in ids && other in v.tunnels && v.tunnels[other].lastActive == lastActive;
    assert (if t > lastActive then id else other) in ids + {id};
  }

  lemma AddedClient(v: View, seen: set<Tid>, clients: map<string, ClientInfo>, id: Tid)
    requires Groups(v, seen, clients) && id in v.tunnels && id !in seen
    ensures
      var u := v.tunnels[id].client;
      IsGroup(v, seen + {id}, Add(clients, InfoOf(v, id))[u], u)
  {
    var ti, u := InfoOf(v, id), v.tunnels[id].client;
    assert Members(v, seen + {id}, u) == Members(v, seen, u) + {id};
    if u in clients {
      assert IsGroup(v, seen, clients[u], u);
      ListsOneMore(v, clients[u].tunnels, Members(v, seen, u), id);
      LatestOfOneMore(v, Members(v, seen, u), clients[u].lastActive, id);
    } else {
      assert Members(v, seen, u) == {};
      ListsOneMore(v, [], {}, id);
      assert [] + [ti] == [ti];
      assert {} + {id} == {id} && id in {id};
    }
  }

  /** Whichever tunnel comes next, the groups stay right. */
  lemma AddKeepsGroups(v: View, seen: set<Tid>, clients: map<string, ClientInfo>, id: Tid)
    requires Groups(v, seen, clients) && id in v.tunnels && id !in seen
    ensures Groups(v, seen + {id}, Add(clients, InfoOf(v, id)))
  {
    var after, u := Add(clients, InfoOf(v, id)), v.tunnels[id].client;
    AddedClient(v, seen, clients, id);
    assert ClientsOf(v, seen + {id}) == ClientsOf(v, seen) + {u};
    forall w | w in after && w != u ensures IsGroup(v, seen + {id}, after[w], w) {
      assert IsGroup(v, seen, clients[w], w);
      assert Members(v, seen + {id}, w) == Members(v, seen, w);
    }
  }

  // ------------------------------------------------------------------ the answer of GetClients

  ghost predicate DistinctIds(list: seq<ClientInfo>) {
    forall i, j | 0 <= i < j < |list| :: list[i].id != list[j].id
  }

  ghost predicate AllClients(v: View, list: seq<ClientInfo>) {
    forall c | c in list :: IsClient(v, v.tunnels.Keys, c)
  }

  ghost function IdsOf(list: seq<ClientInfo>): set<string> {
    set c | c in list :: c.id
  }

  /** One entry for every client of a tunnel, none twice. */
  ghost predicate IsClientList(v: View, list: seq<ClientInfo>) {
    AllClients(v, list) && DistinctIds(list) && IdsOf(list) == ClientsOf(v, v.tunnels.Keys)
  }

  lemma IdsSplit(list: seq<ClientInfo>)
    requires list != [] && DistinctIds(list)
    ensures DistinctIds(list[1..]) && IdsOf(list) == {list[0].id} + IdsOf(list[1..]) && list[0].id !in IdsOf(list[1..])
  {
    assert list == [list[0]] + list[1..];
    forall c | c in list[1..] ensures c.id != list[0].id {
      var i :| 0 <= i < |list[1..]| && list[1..][i] == c;
      assert list[i + 1] == c;
    }
  }

  ghost predicate SameEntry(c: ClientInfo, d: ClientInfo) {
    && d.id == c.id && d.tunnelCount == c.tunnelCount && d.lastActive == c.lastActive
    && forall ti :: ti in d.tunnels <==> ti in c.tunnels
  }

  /** Two answers for the same registry differ in order at most. */
  lemma OrderDoesNotMatter(v: View, left: seq<ClientInfo>, right: seq<ClientInfo>, c: ClientInfo)
    requires IsClientList(v, left) && IsClientList(v, right) && c in left
    ensures exists d :: d in right && SameEntry(c, d)
  {
    assert IdsOf(left) == IdsOf(right) && c.id in IdsOf(left);
    var d :| d in right && d.id == c.id;
    EntriesAreUnique(v, c, d);
  }

  /** An entry shows the tunnels of its client, each as it is in the registry, and no others; their number and the
      latest of their activities. */
  lemma EntriesShowTheirTunnels(v: View, list: seq<ClientInfo>, c: ClientInfo)
    requires IsClientList(v, list) && c in list
    ensures c.tunnelCount == |c.tunnels| == |set id | id in v.tunnels && v.tunnels[id].client == c.id|
    ensures forall ti | ti in c.tunnels ::
      && ti.id in v.tunnels && ti.tunnel == v.tunnels[ti.id] && ti.tunnel.client == c.id
      && (ti.connected <==> ti.id in v.ws) && ti.tunnel.lastActive <= c.lastActive
    ensures exists ti :: ti in c.tunnels && ti.tunnel.lastActive == c.lastActive
  {
    var ids := Members(v, v.tunnels.Keys, c.id);
    assert ids == set id | id in v.tunnels && v.tunnels[id].client == c.id;
    assert IsClient(v, v.tunnels.Keys, c);
    var last :| last in ids && last in v.tunnels && v.tunnels[last].lastActive == c.lastActive;
    assert InfoOf(v, last) in c.tunnels;
  }

  /** And every tunnel is shown under its client. */
  lemma EveryTunnelIsShown(v: View, list: seq<ClientInfo>, id: Tid) returns (c: ClientInfo)
    requires IsClientList(v, list) && id in v.tunnels
    ensures c in list && c.id == v.tunnels[id].client
    ensures TunnelInfo(id, v.tunnels[id], id in v.ws) in c.tunnels
  {
    assert v.tunnels[id].client in IdsOf(list);
    c :| c in list && c.id == v.tunnels[id].client;
    assert IsClient(v, v.tunnels.Keys, c) && id in Members(v, v.tunnels.Keys, c.id);
  }

  lemma EntriesAreUnique(v: View, c: ClientInfo, d: ClientInfo)
    requires IsClient(v, v.tunnels.Keys, c) && IsClient(v, v.tunnels.Keys, d) && c.id == d.id
    ensures SameEntry(c, d)
  {
  }

  ghost function Shown(v: View, ids: set<string>): set<Tid> {
    set id | id in v.tunnels && v.tunnels[id].client in ids
  }

  // ------------------------------------------------------------------ and how it fits GetStats

  function SumCounts(list: seq<ClientInfo>): int {
    if list == [] then 0 else list[0].tunnelCount + SumCounts(list[1..])
  }

  function SumConnections(infos: seq<TunnelInfo>): int {
    if infos == [] then 0 else infos[0].tunnel.connections + SumConnections(infos[1..])
  }

  function SumAllConnections(list: seq<ClientInfo>): int {
    if list == [] then 0 else SumConnections(list[0].tunnels) + SumAllConnections(list[1..])
  }

  predicate HasConnected(c: ClientInfo) {
    exists i | 0 <= i < |c.tunnels| :: c.tunnels[i].connected
  }

  function CountConnected(list: seq<ClientInfo>): nat {
    if list == [] then 0 else (if HasConnected(list[0]) then 1 else 0) + CountConnected(list[1..])
  }

  ghost function ConnectedClients(v: View, seen: set<Tid>): set<string> {
    set id | id in seen && id in v.tunnels && id in v.ws :: v.tunnels[id].client
  }

  /** The connections of a set of tunnels, added up in some order. */
  ghost function Total(v: View, ids: set<Tid>): int
    requires ids <= v.tunnels.Keys
    decreases |ids|
  {
    if ids == {} then 0
    else
      var id :| id in ids;
      v.tunnels[id].connections + Total(v, ids - {id})
  }

  /** The order does not matter. */
  lemma {:induction false} TotalAdd(v: View, ids: set<Tid>, id: Tid)
    requires ids <= v.tunnels.Keys && id in ids
    ensures Total(v, ids) == v.tunnels[id].connections + Total(v, ids - {id})
    decreases |ids|
  {
    var first :| first in ids && Total(v, ids) == v.tunnels[first].connections + Total(v, ids - {first});
    if first != id {
      TotalAdd(v, ids - {first}, id);
      TotalAdd(v, ids - {id}, first);
      assert ids - {first} - {id} == ids - {id} - {first};
    }
  }

  lemma OneMoreSeen(v: View, seen: set<Tid>, id: Tid)
    requires seen <= v.tunnels.Keys && id in v.tunnels && id !in seen
    ensures ConnectedClients(v, seen + {id}) == ConnectedClients(v, seen) + if id in v.ws then {v.tunnels[id].client} else {}
    ensures Total(v, seen + {id}) == Total(v, seen) + v.tunnels[id].connections
  {
    TotalAdd(v, seen + {id}, id);
    assert seen + {id} - {id} == seen;
  }

  lemma {:induction false} TotalUnion(v: View, left: set<Tid>, right: set<Tid>)
    requires left <= v.tunnels.Keys && right <= v.tunnels.Keys && left !! right
    ensures Total(v, left + right) == Total(v, left) + Total(v, right)
    decreases |left|
  {
    if left == {} {
      assert left + right == right;
    } else {
      var id :| id in left;
      TotalUnion(v, left - {id}, right);
      TotalAdd(v, left, id);
      TotalAdd(v, left + right, id);
      assert left + right - {id} == (left - {id}) + right;
    }
  }

  lemma {:induction false} ListedTotal(v: View, infos: seq<TunnelInfo>, ids: set<Tid>)
    requires Lists(v, infos, ids)
    ensures SumConnections(infos) == Total(v, ids)
    decreases infos
  {
    if infos == [] {
      assert ids == {};
    } else {
      var ti := infos[0];
      ListsDropOne(v, infos, ids);
      ListedTotal(v, infos[1..], ids - {ti.id});
      TotalAdd(v, ids, ti.id);
    }
  }

  /** A list as long as the set it lists holds nothing twice. */
  lemma ListsDropOne(v: View, infos: seq<TunnelInfo>, ids: set<Tid>)
    requires Lists(v, infos, ids) && infos != []
    ensures infos[0].id in ids && Lists(v, infos[1..], ids - {infos[0].id})
  {
    var ti := infos[0];
    assert infos == [ti] + infos[1..];
    assert ti in infos;
    if ti in infos[1..] {
      NotMoreThan(v, infos[1..], ids);
    }
    forall other | other in infos[1..] ensures other.id in ids - {ti.id} && other == InfoOf(v, other.id) {
      assert other in infos;
    }
    forall id | id in ids - {ti.id} ensures InfoOf(v, id) in infos[1..] {
      assert InfoOf(v, id) in infos;
    }
  }

  lemma {:induction false} NotMoreThan(v: View, infos: seq<TunnelInfo>, ids: set<Tid>)
    requires ids <= v.tunnels.Keys && forall id | id in ids :: InfoOf(v, id) in infos
    ensures |ids| <= |infos|
    decreases infos
  {
    if infos == [] {
      assert ids == {};
    } else {
      var rest := ids - {infos[0].id};
      assert infos == [infos[0]] + infos[1..];
      forall id | id in rest ensures InfoOf(v, id) in infos[1..] {
        assert InfoOf(v, id) in infos && InfoOf(v, id) != infos[0];
      }
      NotMoreThan(v, infos[1..], rest);
      SubsetSize(ids, rest + {infos[0].id});
    }
  }

  /** A client is counted as connected exactly when its entry shows a connected tunnel. */
  lemma ConnectedMeansShown(v: View, c: ClientInfo)
    requires IsClient(v, v.tunnels.Keys, c)
    ensures HasConnected(c) <==> c.id in ConnectedClients(v, v.tunnels.Keys)
  {
    if HasConnected(c) {
      var i :| 0 <= i < |c.tunnels| && c.tunnels[i].connected;
      assert c.tunnels[i] in c.tunnels;
    }
    if c.id in ConnectedClients(v, v.tunnels.Keys) {
      var id :| id in v.tunnels && id in v.ws && v.tunnels[id].client == c.id;
      assert id in Members(v, v.tunnels.Keys, c.id);
      var i :| 0 <= i < |c.tunnels| && c.tunnels[i] == InfoOf(v, id);
    }
  }

  lemma {:induction false} SumsOverTheShown(v: View, list: seq<ClientInfo>)
    requires AllClients(v, list) && DistinctIds(list)
    ensures SumCounts(list) == |Shown(v, IdsOf(list))|
    ensures SumAllConnections(list) == Total(v, Shown(v, IdsOf(list)))
    decreases list
  {
    if list == [] {
      assert Shown(v, IdsOf(list)) == {};
    } else {
      IdsSplit(list);
      SumsOverTheShown(v, list[1..]);
      FirstSums(v, list[0], IdsOf(list[1..]));
    }
  }

  lemma FirstSums(v: View, c: ClientInfo, others: set<string>)
    requires IsClient(v, v.tunnels.Keys, c) && c.id !in others
    ensures |Shown(v, {c.id} + others)| == c.tunnelCount + |Shown(v, others)|
    ensures Total(v, Shown(v, {c.id} + others)) == SumConnections(c.tunnels) + Total(v, Shown(v, others))
  {
    var ids := Members(v, v.tunnels.Keys, c.id);
    assert Shown(v, {c.id} + others) == ids + Shown(v, others);
    ListedTotal(v, c.tunnels, ids);
    TotalUnion(v, ids, Shown(v, others));
  }

  lemma OneMoreIn(ids: set<string>, connected: set<string>, id: string)
    requires id !in ids
    ensures |({id} + ids) * connected| == (if id in connected then 1 else 0) + |ids * connected|
  {
    assert ({id} + ids) * connected == (if id in connected then {id} else {}) + ids * connected;
  }

  lemma {:induction false} ConnectedAreCounted(list: seq<ClientInfo>, connected: set<string>)
    requires DistinctIds(list) && forall c | c in list :: HasConnected(c) <==> c.id in connected
    ensures CountConnected(list) == |IdsOf(list) * connected|
    decreases list
  {
    if list == [] {
      assert IdsOf(list) * connected == {};
    } else {
      IdsSplit(list);
      ConnectedAreCounted(list[1..], connected);
      assert list[0] in list;
      OneMoreIn(IdsOf(list[1..]), connected, list[0].id);
    }
  }

  ghost predicate IsStats(v: View, s: Stats) {
    && s.activeTunnels == |v.tunnels|
    && s.connectedClients == |ConnectedClients(v, v.tunnels.Keys)|
    && s.totalConnections == Total(v, v.tunnels.Keys)
  }

  /** The two pages of the dashboard agree: the clients' tunnel counts add up to the active tunnels, their
      connections to the total, and the clients with a connected tunnel are the connected clients. */
  lemma ClientsAddUpToStats(v: View, list: seq<ClientInfo>, s: Stats)
    requires IsClientList(v, list) && IsStats(v, s)
    ensures SumCounts(list) == s.activeTunnels
    ensures SumAllConnections(list) == s.totalConnections
    ensures CountConnected(list) == s.connectedClients
  {
    SumsOverTheShown(v, list);
    assert Shown(v, IdsOf(list)) == v.tunnels.Keys;
    ConnectedAddUp(v, list);
  }

  lemma ConnectedAddUp(v: View, list: seq<ClientInfo>)
    requires IsClientList(v, list)
    ensures CountConnected(list) == |ConnectedClients(v, v.tunnels.Keys)|
  {
    var connected := ConnectedClients(v, v.tunnels.Keys);
    forall c | c in list ensures HasConnected(c) <==> c.id in connected {
      ConnectedMeansShown(v, c);
    }
    ConnectedAreCounted(list, connected);
    assert IdsOf(list) * connected == connected;
  }

  /** The second loop of `GetClients`: the values of the map, in some order. */
  method Flatten(clients: map<string, ClientInfo>) returns (list: seq<ClientInfo>)
    requires forall u | u in clients :: clients[u].id == u
    ensures DistinctIds(list) && AreValues(list, clients) && IdsOf(list) == clients.Keys
  {
    list := [];
    var todo := clients.Keys;
    while todo != {}
      invariant todo <= clients.Keys
      invariant DistinctIds(list) && AreValues(list, clients)
      invariant IdsOf(list) == clients.Keys - todo
    {
      var u :| u in todo;
      todo := todo - {u};
      OneMoreId(list, clients[u]);
      list := list + [clients[u]];
    }
  }

  ghost predicate AreValues(list: seq<ClientInfo>, clients: map<string, ClientInfo>) {
    forall c | c in list :: c.id in clients && c == clients[c.id]
  }

  lemma GroupsMakeTheList(v: View, list: seq<ClientInfo>, clients: map<string, ClientInfo>)
    requires Groups(v, v.tunnels.Keys, clients)
    requires DistinctIds(list) && AreValues(list, clients) && IdsOf(list) == clients.Keys
    ensures IsClientList(v, list)
  {
    forall c | c in list ensures IsClient(v, v.tunnels.Keys, c) {
      assert IsGroup(v, v.tunnels.Keys, clients[c.id], c.id);
    }
  }

  lemma GroupsAreKeyed(v: View, seen: set<Tid>, clients: map<string, ClientInfo>)
    requires Groups(v, seen, clients)
    ensures forall u | u in clients :: clients[u].id == u
  {
    forall u | u in clients ensures clients[u].id == u {
      assert IsGroup(v, seen, clients[u], u);
    }
  }

  method ListClients(ghost v: View, clients: map<string, ClientInfo>) returns (list: seq<ClientInfo>)
    requires Groups(v, v.tunnels.Keys, clients)
    ensures IsClientList(v, list)
  {
    GroupsAreKeyed(v, v.tunnels.Keys, clients);
    list := Flatten(clients);
    GroupsMakeTheList(v, list, clients);
  }

  lemma OneMoreId(list: seq<ClientInfo>, c: ClientInfo)
    requires DistinctIds(list) && c.id !in IdsOf(list)
    ensures DistinctIds(list + [c]) && IdsOf(list + [c]) == IdsOf(list) + {c.id}
  {
    assert forall i | 0 <= i < |list| :: list[i] in list && list[i].id in IdsOf(list);
  }
}
