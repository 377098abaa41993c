/** Which WebSocket connection a visitor's request is sent to: `handleTunnel`, the removers,
    `handleRegisterTunnel`, the end of `handleConnection`, the shutdown, and the lookups of
    `handleTunnelRequest`, interleaved at every critical section. */
module Ownership {
  import opened Common

  type Tid = string
  type Client = string

  datatype Tunnel = Tunnel(client: Client, subdomain: string)

  /** A `WebSocketTunnel` and the goroutine that reads from it.  `tunnel` is its field TunnelID; `admitted`
      is the tunnel it has passed the ownership check for and not yet stored itself under; `ended` says that
      its goroutine is over.  `closed` is its own flag, which says nothing about who closed its socket. */
  datatype Conn = Conn(client: Client, tunnel: Option<Tid>, admitted: Option<Tid>, closed: bool, ended: bool)

  /** A visitor's request: the tunnel it was resolved to, then the connection it was forwarded to. */
  datatype Request = Resolved(host: string, id: Tid) | Forwarded(host: string, id: Tid, conn: nat) | Failed

  datatype State = State(
    created: map<Tid, Tunnel>,      // every tunnel ever created
    registry: set<Tid>,             // those still in the registry
    due: set<Tid>,                  // deleted, WebSocket not yet unregistered by the remover
    conns: seq<Conn>,
    ws: map<Tid, nat>,              // WebSocketManager.tunnels
    closing: set<nat>,              // collected by the shutdown, not yet closed by it
    shut: set<nat>,                 // those whose socket was closed
    requests: seq<Request>)

  datatype Event =
    | Create(id: Tid, tunnel: Tunnel)
    | Delete(id: Tid)
    | UnregisterDeleted(id: Tid)
    | Open(client: Client)
    | Admit(c: nat, id: Tid)
    | Store(c: nat)
    | End(c: nat)                   // what follows the loop of handleConnection
    | CloseAll                      // its critical section
    | Shut(c: nat)                  // then WebSocketTunnel.Close, one connection after another
    | Resolve(host: string, id: Tid)
    | Forward(r: nat)

  predicate Enabled(s: State, e: Event) {
    match e
    case Create(id, _) => id !in s.created
    case Delete(id) => id in s.registry
    case UnregisterDeleted(id) => id in s.due
    case Open(_) => true
    case Admit(c, id) =>
      && c < |s.conns| && !s.conns[c].ended && s.conns[c].admitted.None?
      && id in s.registry && id in s.created && s.created[id].client == s.conns[c].client
    case Store(c) => c < |s.conns| && s.conns[c].admitted.Some?
    case End(c) => c < |s.conns| && !s.conns[c].ended && s.conns[c].admitted.None?
    case CloseAll => true
    case Shut(c) => c in s.closing && c < |s.conns|
    case Resolve(host, id) => id in s.registry && id in s.created && s.created[id].subdomain == host
    case Forward(r) => r < |s.requests| && s.requests[r].Resolved?
  }

  /** The connection that `UnregisterWebSocketTunnel` finds, and closes. */
  function EntryOf(s: State, id: Tid): set<nat> {
    if id in s.ws then {s.ws[id]} else {}
  }

  function Next(s: State, e: Event): State
    requires Enabled(s, e)
  {
    match e
    case Create(id, t) => s.(created := s.created[id := t], registry := s.registry + {id})
    case Delete(id) => s.(registry := s.registry - {id}, due := s.due + {id})
    case UnregisterDeleted(id) => s.(due := s.due - {id}, ws := s.ws - {id}, shut := s.shut + EntryOf(s, id))
    case Open(client) => s.(conns := s.conns + [Conn(client, None, None, false, false)])
    case Admit(c, id) => s.(conns := s.conns[c := s.conns[c].(tunnel := Some(id), admitted := Some(id))])
    case Store(c) =>
      s.(conns := s.conns[c := s.conns[c].(admitted := None)], ws := s.ws[s.conns[c].admitted.value := c])
    case End(c) =>
      // whatever connection is registered for that tunnel goes, and its socket is closed
      var k := s.conns[c];
      var t := s.(conns := s.conns[c := k.(closed := true, ended := true)], shut := s.shut + {c});
      if !k.closed && k.tunnel.Some? then t.(ws := s.ws - {k.tunnel.value}, shut := t.shut + EntryOf(s, k.tunnel.value)) else t
    case CloseAll => s.(ws := map[], closing := s.closing + s.ws.Values)
    case Shut(c) => s.(conns := s.conns[c := s.conns[c].(closed := true)], closing := s.closing - {c}, shut := s.shut + {c})
    case Resolve(host, id) => s.(requests := s.requests + [Resolved(host, id)])
    case Forward(r) =>
      var q := s.requests[r];
      s.(requests := s.requests[r := if q.id in s.ws then Forwarded(q.host, q.id, s.ws[q.id]) else Failed])
  }

  ghost predicate Init(s: State) {
    s == State(map[], {}, {}, [], map[], {}, {}, [])
  }

  ghost predicate Behaviour(states: seq<State>, events: seq<Event>) {
    && |states| == |events| + 1
    && Init(states[0])
    && forall i | 0 <= i < |events| :: Enabled(states[i], events[i]) && states[i + 1] == Next(states[i], events[i])
  }

  // ------------------------------------------------------------------ owners agree

  ghost predicate Owns(s: State, c: nat, id: Tid) {
    c < |s.conns| && id in s.created && s.created[id].client == s.conns[c].client
  }

  ghost predicate Inv(s: State) {
    && s.registry <= s.created.Keys
    && (forall id | id in s.ws :: Owns(s, s.ws[id], id))
    && (forall c: nat | c < |s.conns| && s.conns[c].admitted.Some? :: Owns(s, c, s.conns[c].admitted.value))
    && (forall r | 0 <= r < |s.requests| && !s.requests[r].Failed? ::
          s.requests[r].id in s.created && s.created[s.requests[r].id].subdomain == s.requests[r].host)
    && (forall r | 0 <= r < |s.requests| && s.requests[r].Forwarded? :: Owns(s, s.requests[r].conn, s.requests[r].id))
  }

  lemma StepKeepsInv(s: State, e: Event)
    requires Inv(s) && Enabled(s, e)
    ensures Inv(Next(s, e))
  {
    var s' := Next(s, e);
    assert forall c, id | Owns(s, c, id) :: Owns(s', c, id);
  }

  lemma {:induction false} RunKeepsInv(states: seq<State>, events: seq<Event>, n: nat)
    requires Behaviour(states, events) && n < |states|
    ensures Inv(states[n])
  {
    if n > 0 {
      RunKeepsInv(states, events, n - 1);
      StepKeepsInv(states[n - 1], events[n - 1]);
    }
  }

  /** At any time, whoever is being removed, every connection registered for a tunnel belongs to the client
      that the tunnel was created for. */
  lemma ConnectionsBelongToTheOwner(states: seq<State>, events: seq<Event>, n: nat, id: Tid)
    requires Behaviour(states, events) && n < |states| && id in states[n].ws
    ensures Owns(states[n], states[n].ws[id], id)
  {
    RunKeepsInv(states, events, n);
  }

  /** A request for a subdomain is only ever forwarded to a connection of the owner of a tunnel with that
      very subdomain. */
  lemma RequestsReachTheOwner(states: seq<State>, events: seq<Event>, n: nat, r: nat)
    requires Behaviour(states, events) && n < |states|
    requires r < |states[n].requests| && states[n].requests[r].Forwarded?
    ensures
      var s := states[n];
      var q := s.requests[r];
      && q.id in s.created && s.created[q.id].subdomain == q.host
      && q.conn < |s.conns| && s.conns[q.conn].client == s.created[q.id].client
  {
    RunKeepsInv(states, events, n);
  }

  /** A request that was answered for stays as it is. */
  lemma {:induction false} AnsweredStays(states: seq<State>, events: seq<Event>, n: nat, later: nat, r: nat)
    requires Behaviour(states, events) && n <= later < |states| && r < |states[n].requests| && !states[n].requests[r].Resolved?
    ensures r < |states[later].requests| && states[later].requests[r] == states[n].requests[r]
  {
    if n < later {
      AnsweredStays(states, events, n, later - 1, r);
      assert Enabled(states[later - 1], events[later - 1]) && states[later] == Next(states[later - 1], events[later - 1]);
    }
  }

  /** When its tunnel has an entry at the moment it is looked up, a request is forwarded to the connection that the
      entry holds, and otherwise it fails; and that is final. */
  lemma ForwardedExactlyWhen(states: seq<State>, events: seq<Event>, i: nat, r: nat, n: nat)
    requires Behaviour(states, events) && i < n < |states| && events[i] == Forward(r)
    ensures r < |states[i].requests| && r < |states[n].requests|
    ensures
      var q, ws := states[i].requests[r], states[i].ws;
      && q.Resolved?
      && (q.id in ws ==> states[n].requests[r] == Forwarded(q.host, q.id, ws[q.id]))
      && (q.id !in ws ==> states[n].requests[r] == Failed)
  {
    assert Enabled(states[i], events[i]) && states[i + 1] == Next(states[i], events[i]);
    AnsweredStays(states, events, i + 1, n, r);
  }

  /** And the owner of a live tunnel can always be reached: whatever happened before, a connection of its client that
      is not over and registers for it gets the next request for its subdomain. */
  lemma TheOwnerCanServe(states: seq<State>, events: seq<Event>, n: nat, c: nat, id: Tid) returns (t: State)
    requires Behaviour(states, events) && n < |states| && id in states[n].registry && id in states[n].created
    requires c < |states[n].conns| && states[n].conns[c].client == states[n].created[id].client
    requires !states[n].conns[c].ended && states[n].conns[c].admitted.None?
    ensures
      var r := |states[n].requests|;
      |t.requests| == r + 1 && t.requests[r] == Forwarded(states[n].created[id].subdomain, id, c)
  {
    t := Next(states[n], Admit(c, id));
    t := Next(t, Store(c));
    t := Next(t, Resolve(t.created[id].subdomain, id));
    t := Next(t, Forward(|t.requests| - 1));
  }

  // ------------------------------------------------------------------ entries that outlive their tunnel

  /** The entry of a tunnel that is removed and cleaned up: nobody is left who would unregister it. */
  ghost predicate Lingers(s: State, id: Tid) {
    id in s.ws && id !in s.registry && id !in s.due
  }

  /** Event `i` stores an entry for a tunnel that is neither live nor about to be unregistered. */
  ghost predicate StoredTooLate(states: seq<State>, events: seq<Event>, i: nat, id: Tid) {
    && i < |events| && i < |states| && events[i].Store? && events[i].c < |states[i].conns|
    && states[i].conns[events[i].c].admitted == Some(id)
    && id !in states[i].registry && id !in states[i].due
  }

  lemma {:induction false} LingeringWasStored(states: seq<State>, events: seq<Event>, n: nat, id: Tid) returns (i: nat)
    requires Behaviour(states, events) && n < |states| && Lingers(states[n], id)
    ensures i < n && StoredTooLate(states, events, i, id)
  {
    assert n > 0;
    assert Enabled(states[n - 1], events[n - 1]) && states[n] == Next(states[n - 1], events[n - 1]);
    if Lingers(states[n - 1], id) {
      i := LingeringWasStored(states, events, n - 1, id);
    } else {
      i := n - 1;
    }
  }

  /** An entry ever lingers exactly when its connection was admitted while the tunnel was live and stored
      itself after the remover had unregistered the tunnel. */
  lemma LingersIffStoredTooLate(states: seq<State>, events: seq<Event>, id: Tid)
    requires Behaviour(states, events)
    ensures (exists n: nat :: n < |states| && Lingers(states[n], id)) <==> exists i: nat :: StoredTooLate(states, events, i, id)
  {
    if n: nat :| n < |states| && Lingers(states[n], id) {
      var i := LingeringWasStored(states, events, n, id);
    }
    if i: nat :| StoredTooLate(states, events, i, id) {
      assert Enabled(states[i], events[i]) && states[i + 1] == Next(states[i], events[i]);
      assert Lingers(states[i + 1], id);
    }
  }

  const NOBODY := State(map[], {}, {}, [], map[], {}, {}, [])

  /** And it does happen. */
  lemma AnEntryCanLinger() returns (states: seq<State>, events: seq<Event>)
    ensures Behaviour(states, events) && |states| == 7 && Lingers(states[6], "a")
  {
    var s1 := Next(NOBODY, Create("a", Tunnel("me", "sub")));
    var s2 := Next(s1, Open("me"));
    var s3 := Next(s2, Admit(0, "a"));
    var s4 := Next(s3, Delete("a"));
    var s5 := Next(s4, UnregisterDeleted("a"));
    var s6 := Next(s5, Store(0));
    states := [NOBODY, s1, s2, s3, s4, s5, s6];
    events := [Create("a", Tunnel("me", "sub")), Open("me"), Admit(0, "a"), Delete("a"), UnregisterDeleted("a"), Store(0)];
  }

  // ------------------------------------------------------------------ entries that go too early

  /** Which steps take the entry of `id`, given that it is there. */
  ghost predicate Takes(s: State, e: Event, id: Tid) {
    match e
    case UnregisterDeleted(i) => i == id
    case End(c) => c < |s.conns| && !s.conns[c].closed && s.conns[c].tunnel == Some(id)
    case CloseAll => true
    case _ => false
  }

  /** An entry goes exactly with the remover of its tunnel, with the shutdown, or with the end of a connection
      that last registered for that tunnel, whichever connection the entry holds. */
  lemma EntryGoesExactlyWhen(s: State, e: Event, id: Tid)
    requires Enabled(s, e) && id in s.ws
    ensures id !in Next(s, e).ws <==> Takes(s, e, id)
  {
  }

  /** The end of connection `c` takes the entry of another connection. */
  ghost predicate TakesAnothers(s: State, c: nat, id: Tid) {
    Enabled(s, End(c)) && id in s.ws && s.ws[id] != c && id !in Next(s, End(c)).ws
  }

  /** A tunnel loses the entry of its connection to the end of another one exactly when that other one last
      registered for the same tunnel and was not closed before; and with the entry goes the socket. */
  lemma AnothersEntryGoesExactlyWhen(s: State, c: nat, id: Tid)
    requires Enabled(s, End(c)) && id in s.ws
    ensures TakesAnothers(s, c, id) ==> s.ws[id] in Next(s, End(c)).shut
    ensures TakesAnothers(s, c, id) <==> s.ws[id] != c && !s.conns[c].closed && s.conns[c].tunnel == Some(id)
  {
    EntryGoesExactlyWhen(s, End(c), id);
  }

  lemma Extend(states: seq<State>, events: seq<Event>, e: Event) returns (states': seq<State>, events': seq<Event>)
    requires Behaviour(states, events) && Enabled(states[|events|], e)
    ensures Behaviour(states', events') && events' == events + [e]
    ensures states' == states + [Next(states[|events|], e)]
  {
    states', events' := states + [Next(states[|events|], e)], events + [e];
  }

  const TUNNEL := Tunnel("me", "sub")

  /** The owner of a live tunnel is connected and registered for it. */
  const SERVED := State(map["a" := TUNNEL], {"a"}, {}, [Conn("me", Some("a"), None, false, false)], map["a" := 0], {}, {}, [])

  lemma Serving() returns (states: seq<State>, events: seq<Event>)
    ensures Behaviour(states, events) && |states| == 5 && states[4] == SERVED
    ensures forall i | 0 <= i < |events| :: !events[i].CloseAll?
  {
    var s1 := Next(NOBODY, Create("a", TUNNEL));
    var s2 := Next(s1, Open("me"));
    var s3 := Next(s2, Admit(0, "a"));
    states := [NOBODY, s1, s2, s3, Next(s3, Store(0))];
    events := [Create("a", TUNNEL), Open("me"), Admit(0, "a"), Store(0)];
  }

  /** And it does happen: connection 0 ends and takes the entry of connection 1, whose socket, open until then,
      is closed under its reader.  The tunnel is live and has no connection left. */
  lemma AnOldEndTakesANewEntry() returns (states: seq<State>, events: seq<Event>)
    ensures Behaviour(states, events) && |states| == 9 && events[7] == End(0) && TakesAnothers(states[7], 0, "a")
    ensures "a" in states[8].registry && "a" !in states[8].ws
    ensures states[7].ws["a"] == 1 && 1 !in states[7].shut && 1 in states[8].shut
    ensures |states[8].conns| == 2 && !states[8].conns[1].closed && !states[8].conns[1].ended
  {
    states, events := Serving();
    states, events := Extend(states, events, Open("me"));
    states, events := Extend(states, events, Admit(1, "a"));
    states, events := Extend(states, events, Store(1));
    states, events := Extend(states, events, End(0));
  }

  // ------------------------------------------------------------------ entries of closed connections

  /** The entry of `id` holds a connection whose socket is closed: whatever is sent for the tunnel fails. */
  ghost predicate Stale(s: State, id: Tid) {
    id in s.ws && s.ws[id] in s.shut
  }

  /** The ways in which an entry comes to hold a closed socket: another tunnel that shares its connection is
      removed; its connection, or another one that takes an entry sharing its connection, ends and leaves it; the
      shutdown closes its connection after it was stored again; or a closed connection stores it. */
  ghost predicate GoesStale(s: State, e: Event, id: Tid) {
    match e
    case UnregisterDeleted(i) => i != id && i in s.ws && id in s.ws && s.ws[i] == s.ws[id]
    case End(c) =>
      && c < |s.conns| && id in s.ws && !Takes(s, e, id)
      && (s.ws[id] == c || exists i :: i in s.ws && Takes(s, e, i) && s.ws[i] == s.ws[id])
    case Shut(c) => id in s.ws && s.ws[id] == c
    case Store(c) => c < |s.conns| && c in s.shut && s.conns[c].admitted == Some(id)
    case _ => false
  }

  lemma StaleAfterStep(s: State, e: Event, id: Tid)
    requires Enabled(s, e)
    ensures Stale(Next(s, e), id) && !Stale(s, id) ==> GoesStale(s, e, id)
    ensures GoesStale(s, e, id) ==> Stale(Next(s, e), id)
  {
  }

  ghost predicate WentStale(states: seq<State>, events: seq<Event>, i: nat, id: Tid) {
    i < |events| && i < |states| && GoesStale(states[i], events[i], id)
  }

  lemma {:induction false} StaleWentStale(states: seq<State>, events: seq<Event>, n: nat, id: Tid) returns (i: nat)
    requires Behaviour(states, events) && n < |states| && Stale(states[n], id)
    ensures i < n && WentStale(states, events, i, id)
  {
    assert n > 0;
    assert Enabled(states[n - 1], events[n - 1]) && states[n] == Next(states[n - 1], events[n - 1]);
    if Stale(states[n - 1], id) {
      i := StaleWentStale(states, events, n - 1, id);
    } else {
      StaleAfterStep(states[n - 1], events[n - 1], id);
      i := n - 1;
    }
  }

  /** A closed socket is ever registered for a tunnel exactly when one of those things happens. */
  lemma StaleIffWentStale(states: seq<State>, events: seq<Event>, id: Tid)
    requires Behaviour(states, events)
    ensures (exists n: nat :: n < |states| && Stale(states[n], id)) <==> exists i: nat :: WentStale(states, events, i, id)
  {
    if n: nat :| n < |states| && Stale(states[n], id) {
      var i := StaleWentStale(states, events, n, id);
    }
    if i: nat :| WentStale(states, events, i, id) {
      StaleAfterStep(states[i], events[i], id);
      assert Stale(states[i + 1], id);
    }
  }

  /** Without any shutdown: one connection serves two tunnels and ends; the first tunnel is live and registered to
      a closed connection until it is removed or registered for again. */
  lemma AnEntryCanBeStale() returns (states: seq<State>, events: seq<Event>)
    ensures Behaviour(states, events) && |states| == 9 && "a" in states[8].registry && Stale(states[8], "a")
    ensures forall i | 0 <= i < |events| :: !events[i].CloseAll?
  {
    states, events := Serving();
    states, events := Extend(states, events, Create("b", Tunnel("me", "other")));
    states, events := Extend(states, events, Admit(0, "b"));
    states, events := Extend(states, events, Store(0));
    states, events := Extend(states, events, End(0));
  }

  /** And: one connection serves two tunnels, and the first is killed; the second is live, and its connection was
      closed although its flag does not say so. */
  lemma AKillClosesAnothersConnection() returns (states: seq<State>, events: seq<Event>)
    ensures Behaviour(states, events) && |states| == 10 && events[8] == UnregisterDeleted("a")
    ensures "b" in states[8].ws && !Stale(states[8], "b")
    ensures "b" in states[9].registry && Stale(states[9], "b") && states[9].ws["b"] == 0
    ensures |states[9].conns| == 1 && !states[9].conns[0].closed
  {
    states, events := Serving();
    states, events := Extend(states, events, Create("b", Tunnel("me", "other")));
    states, events := Extend(states, events, Admit(0, "b"));
    states, events := Extend(states, events, Store(0));
    states, events := Extend(states, events, Delete("a"));
    states, events := Extend(states, events, UnregisterDeleted("a"));
  }
}
