/** The locks of the server and of the client, the order in which the code nests them, and why no set of
    threads can end up waiting for each other.

    A thread is what is left of its sequence of lock operations.  Channel sends never block, the wait
    for a response ends with a timeout, and I/O finishes, so everything else is `Work`. */
module Locks {
  import opened Common

  datatype Lock =
    | Registry                  // TunnelRegistry.mu
    | Manager                   // WebSocketManager.mu
    | WebSocket(conn: nat)      // WebSocketTunnel.mu
    | Lifecycle                 // Server.mu
    | Maintenance               // Server.maintenanceMu
    | ServerTable(t: nat)       // the server's TCPTunnel.mu
    | ServerConn(c: nat)        // the server's TCPConnection.mu
    | Metrics(h: nat)           // BaseHandler.metrics.mu
    | HandlerConns(h: nat)      // TCPHandler.connectionsMu
    | TunnelManager             // the client's TunnelManager.mu
    | ClientTunnel(t: nat)      // Tunnel.mu
    | TcpTable(t: nat)          // the client's TCPTunnel.mu
    | TcpConn(c: nat)           // the client's TCPConnection.mu

  datatype Mode = Read | Write

  /** A lock is taken while only locks of lower rank are held; so those of rank 0 with none held. */
  function Rank(l: Lock): nat {
    match l
    case Manager => 1
    case TcpTable(_) => 1
    case TcpConn(_) => 2
    case _ => 0
  }

  datatype Op = Acquire(lock: Lock, mode: Mode) | Release(lock: Lock) | Work
  type Program = seq<Op>
  type Held = map<Lock, Mode>

  /** The locks held after `p`, if `p` takes locks in rising rank only and releases what it holds. */
  function After(held: Held, p: Program): Option<Held>
    decreases p
  {
    if p == [] then Some(held)
    else match p[0]
      case Acquire(l, m) =>
        if forall h | h in held :: Rank(h) < Rank(l) then After(held[l := m], p[1..]) else None
      case Release(l) => if l in held then After(held - {l}, p[1..]) else None
      case Work => After(held, p[1..])
  }

  // ------------------------------------------------------------------ threads

  datatype Thread = Thread(held: Held, rest: Program)
  type System = seq<Thread>

  ghost predicate Orderly(t: Thread) {
    After(t.held, t.rest) == Some(map[])
  }

  /** Two threads share a lock only to read. */
  ghost predicate Exclusive(s: System) {
    forall i, j, l | 0 <= i < |s| && 0 <= j < |s| && i != j && l in s[i].held && l in s[j].held ::
      s[i].held[l] == Read && s[j].held[l] == Read
  }

  ghost predicate Sound(s: System) {
    Exclusive(s) && forall i | 0 <= i < |s| :: Orderly(s[i])
  }

  /** A Go RWMutex: a writer waits while anybody holds the lock, a reader while a writer holds it or is
      waiting for it. */
  ghost predicate Grantable(s: System, l: Lock, m: Mode) {
    match m
    case Write => forall j | 0 <= j < |s| :: l !in s[j].held
    case Read =>
      && (forall j | 0 <= j < |s| && l in s[j].held :: s[j].held[l] == Read)
      && (forall j | 0 <= j < |s| && s[j].rest != [] :: s[j].rest[0] != Acquire(l, Write))
  }

  ghost predicate CanStep(s: System, i: nat) {
    && i < |s| && s[i].rest != []
    && (s[i].rest[0].Acquire? ==> Grantable(s, s[i].rest[0].lock, s[i].rest[0].mode))
  }

  function Advance(t: Thread): Thread
    requires t.rest != []
  {
    match t.rest[0]
    case Acquire(l, m) => Thread(t.held[l := m], t.rest[1..])
    case Release(l) => Thread(t.held - {l}, t.rest[1..])
    case Work => Thread(t.held, t.rest[1..])
  }

  ghost function Step(s: System, i: nat): System
    requires CanStep(s, i)
  {
    s[i := Advance(s[i])]
  }

  lemma StepIsSound(s: System, i: nat)
    requires Sound(s) && CanStep(s, i)
    ensures Sound(Step(s, i))
  {
    assert Orderly(s[i]);
    assert Orderly(Advance(s[i]));
  }

  /** Whoever is blocked is blocked, in the end, by somebody who can go on: follow the holder of the wanted
      lock; it can only want a lock of higher rank. */
  lemma SomebodyCanStep(s: System, i: nat) returns (j: nat)
    requires Sound(s) && i < |s| && s[i].rest != []
    ensures CanStep(s, j)
    decreases if s[i].rest[0].Acquire? then 3 - Rank(s[i].rest[0].lock) else 4
  {
    j := i;
    if !CanStep(s, i) {
      var l := s[i].rest[0].lock;
      if k :| 0 <= k < |s| && l in s[k].held {
        assert Orderly(s[k]);
        j := k;
        if !CanStep(s, k) {
          j := SomebodyCanStep(s, k);
        }
      } else {
        assert s[i].rest[0].mode == Read;
        j :| 0 <= j < |s| && s[j].rest != [] && s[j].rest[0] == Acquire(l, Write);
      }
    }
  }

  // ------------------------------------------------------------------ runs

  /** A thread takes its next step, or a new one starts on some code path. */
  datatype Event = Go(thread: nat) | Spawn(path: Path)

  ghost predicate Enabled(s: System, e: Event) {
    match e
    case Go(i) => CanStep(s, i)
    case Spawn(_) => true
  }

  ghost function Next(s: System, e: Event): System
    requires Enabled(s, e)
  {
    match e
    case Go(i) => Step(s, i)
    case Spawn(path) => s + [Thread(map[], ProgramOf(path))]
  }

  ghost predicate Behaviour(states: seq<System>, events: seq<Event>) {
    && |states| == |events| + 1
    && states[0] == []
    && forall i | 0 <= i < |events| :: Enabled(states[i], events[i]) && states[i + 1] == Next(states[i], events[i])
  }

  lemma {:induction false} RunIsSound(states: seq<System>, events: seq<Event>, n: nat)
    requires Behaviour(states, events) && n < |states|
    ensures Sound(states[n])
  {
    if n > 0 {
      RunIsSound(states, events, n - 1);
      match events[n - 1]
      case Go(i) => StepIsSound(states[n - 1], i);
      case Spawn(path) =>
        PathIsOrderly(path);
        assert Orderly(Thread(map[], ProgramOf(path)));
    }
  }

  /** Deadlock freedom: in every run of any number of threads on any code paths, while any thread has
      something left to do some thread can step.  And a lock held for writing is held by one thread only. */
  lemma NoDeadlock(states: seq<System>, events: seq<Event>, n: nat, i: nat)
    requires Behaviour(states, events) && n < |states|
    requires i < |states[n]| && states[n][i].rest != []
    ensures exists j :: CanStep(states[n], j)
    ensures Exclusive(states[n])
  {
    RunIsSound(states, events, n);
    var _ := SomebodyCanStep(states[n], i);
  }

  ghost function Remaining(s: System): nat {
    if s == [] then 0 else |s[0].rest| + Remaining(s[1..])
  }

  lemma {:induction false} AdvanceShortens(s: System, i: nat)
    requires i < |s| && s[i].rest != []
    ensures Remaining(s[i := Advance(s[i])]) == Remaining(s) - 1
  {
    var s' := s[i := Advance(s[i])];
    if i > 0 {
      assert s'[1..] == s[1..][i - 1 := Advance(s[i])];
      AdvanceShortens(s[1..], i - 1);
    } else {
      assert s'[1..] == s[1..];
    }
  }

  lemma {:induction false} SomethingRemains(s: System)
    requires Remaining(s) > 0
    ensures exists i :: 0 <= i < |s| && s[i].rest != []
  {
    if s[0].rest == [] {
      SomethingRemains(s[1..]);
      var i :| 0 <= i < |s[1..]| && s[1..][i].rest != [];
      assert s[i + 1].rest != [];
    }
  }

  lemma {:induction false} NothingRemains(s: System, i: nat)
    requires Remaining(s) == 0 && i < |s|
    ensures s[i].rest == []
  {
    if i > 0 {
      NothingRemains(s[1..], i - 1);
    }
  }

  ghost predicate Finished(s: System) {
    forall i | 0 <= i < |s| :: s[i] == Thread(map[], [])
  }

  ghost predicate Moves(s: System, t: System) {
    exists i :: CanStep(s, i) && t == Step(s, i)
  }

  /** However the threads are scheduled, each step brings the end nearer; so left alone, all of them
      finish and every lock is free again. */
  lemma {:induction false} EverybodyFinishes(s: System) returns (schedule: seq<System>)
    requires Sound(s)
    ensures |schedule| == Remaining(s) + 1 && schedule[0] == s && Finished(schedule[|schedule| - 1])
    ensures forall n | 0 <= n < |schedule| - 1 :: Moves(schedule[n], schedule[n + 1])
    decreases Remaining(s)
  {
    if Remaining(s) > 0 {
      SomethingRemains(s);
      var i :| 0 <= i < |s| && s[i].rest != [];
      var j := SomebodyCanStep(s, i);
      StepIsSound(s, j);
      AdvanceShortens(s, j);
      var tail := EverybodyFinishes(Step(s, j));
      assert Moves(s, tail[0]);
      schedule := Prepend(s, tail);
    } else {
      schedule := [s];
      forall i | 0 <= i < |s| ensures s[i] == Thread(map[], []) {
        NothingRemains(s, i);
        assert Orderly(s[i]);
      }
    }
  }

  lemma Prepend(s: System, tail: seq<System>) returns (schedule: seq<System>)
    requires tail != [] && Moves(s, tail[0])
    requires forall n | 0 <= n < |tail| - 1 :: Moves(tail[n], tail[n + 1])
    ensures schedule == [s] + tail
    ensures forall n | 0 <= n < |schedule| - 1 :: Moves(schedule[n], schedule[n + 1])
  {
    schedule := [s] + tail;
    forall n | 0 <= n < |schedule| - 1 ensures Moves(schedule[n], schedule[n + 1]) {
      if n > 0 {
        assert schedule[n] == tail[n - 1] && schedule[n + 1] == tail[n];
      }
    }
  }

  // ------------------------------------------------------------------ the code paths

  /** Hold `l` around `inner`. */
  function Under(l: Lock, m: Mode, inner: Program): Program {
    [Acquire(l, m)] + inner + [Release(l)]
  }

  function Times(n: nat, p: Program): Program {
    if n == 0 then [] else p + Times(n - 1, p)
  }

  function Each(locks: seq<Lock>, inner: Program): Program
    decreases locks
  {
    if locks == [] then [] else Under(locks[0], Write, inner) + Each(locks[1..], inner)
  }

  /** The pieces that code paths consist of: the ways in which the source nests its locks.  `KillTunnel` is
      `Alone(Registry, Write)` and, if the tunnel is found, `Unlocked` and `Alone(Manager, Write)`;
      `forwardLocalToRemote` is any number of rounds of `Unlocked`, `Alone(TcpConn(c), Write)`,
      `Alone(ClientTunnel(t), Write)` and `Alone(TcpConn(c), Write)`, left at any point for `closeConnection`. */
  datatype Section =
    | Unlocked                                         // no lock held
    | Alone(lock: Lock, mode: Mode)                    // a lock held around no other
    | Lookups(tunnels: nat)                            // GetTunnels, GetClients, GetStats, cleanupInactiveTunnels
    | EndOfConnection(ws: nat)                         // handleConnection, when it is registered
    | StopTunnel(t: nat, tcp: bool, conns: seq<nat>)   // Tunnel.Stop, around TCPTunnel.Stop for a tcp tunnel
    | StopTable(t: nat, conns: seq<nat>)               // TCPTunnel.Stop
    | ListTable(t: nat, conns: seq<nat>)               // GetConnections

  /** Whatever a goroutine does, early returns and loops included, is such pieces one after another. */
  type Path = seq<Section>

  function TcpConns(ids: seq<nat>): seq<Lock> { seq(|ids|, i requires 0 <= i < |ids| => TcpConn(ids[i])) }

  function Code(section: Section): Program {
    match section
    case Unlocked => [Work]
    case Alone(l, m) => Under(l, m, [Work])
    case Lookups(tunnels) => Under(Registry, Read, Times(tunnels, Under(Manager, Read, [Work])))
    case EndOfConnection(ws) => Under(WebSocket(ws), Write, Under(Manager, Write, [Work]))
    case StopTunnel(t, tcp, conns) =>
      Under(ClientTunnel(t), Write, if tcp then Under(TcpTable(t), Write, Each(TcpConns(conns), [Work])) else [Work])
    case StopTable(t, conns) => Under(TcpTable(t), Write, Each(TcpConns(conns), [Work]))
    case ListTable(t, conns) => Under(TcpTable(t), Read, Each(TcpConns(conns), [Work]))
  }

  function ProgramOf(path: Path): Program {
    if path == [] then [] else Code(path[0]) + ProgramOf(path[1..])
  }

  /** `p` may run while `held` is held, and gives everything back that it takes. */
  ghost predicate Neutral(held: Held, p: Program) {
    After(held, p) == Some(held)
  }

  lemma {:induction false} AfterAppend(held: Held, p: Program, q: Program)
    ensures After(held, p + q) == (if After(held, p).None? then None else After(After(held, p).value, q))
    decreases p
  {
    if p == [] {
      assert p + q == q;
    } else {
      assert (p + q)[1..] == p[1..] + q;
      match p[0]
      case Acquire(l, m) => AfterAppend(held[l := m], p[1..], q);
      case Release(l) => AfterAppend(held - {l}, p[1..], q);
      case Work => AfterAppend(held, p[1..], q);
    }
  }

  lemma NeutralAppend(held: Held, p: Program, q: Program)
    requires Neutral(held, p) && Neutral(held, q)
    ensures Neutral(held, p + q)
  {
    AfterAppend(held, p, q);
  }

  lemma NeutralUnder(held: Held, l: Lock, m: Mode, inner: Program)
    requires forall h | h in held :: Rank(h) < Rank(l)
    requires Neutral(held[l := m], inner)
    ensures Neutral(held, Under(l, m, inner))
  {
    var inside := held[l := m];
    assert After(held, [Acquire(l, m)]) == Some(inside) by {
      assert [Acquire(l, m)][1..] == [];
    }
    assert After(inside, [Release(l)]) == Some(held) by {
      assert [Release(l)][1..] == [];
      assert inside - {l} == held;
    }
    AfterAppend(held, [Acquire(l, m)] + inner, [Release(l)]);
    AfterAppend(held, [Acquire(l, m)], inner);
  }

  lemma {:induction false} NeutralTimes(held: Held, n: nat, p: Program)
    requires Neutral(held, p)
    ensures Neutral(held, Times(n, p))
  {
    if n > 0 {
      NeutralTimes(held, n - 1, p);
      NeutralAppend(held, p, Times(n - 1, p));
    }
  }

  lemma {:induction false} NeutralEach(held: Held, locks: seq<Lock>, inner: Program)
    requires forall h, l | h in held && l in locks :: Rank(h) < Rank(l)
    requires inner == [] || inner == [Work]
    ensures Neutral(held, Each(locks, inner))
    decreases locks
  {
    if locks != [] {
      assert forall l | l in locks[1..] :: l in locks;
      NeutralEach(held, locks[1..], inner);
      WorkIsNeutral(held[locks[0] := Write]);
      NeutralUnder(held, locks[0], Write, inner);
      NeutralAppend(held, Under(locks[0], Write, inner), Each(locks[1..], inner));
    }
  }

  lemma WorkIsNeutral(held: Held)
    ensures Neutral(held, []) && Neutral(held, [Work])
  {
    assert [Work][1..] == [];
  }

  lemma NeutralLeaf(held: Held, l: Lock, m: Mode)
    requires forall h | h in held :: Rank(h) < Rank(l)
    ensures Neutral(held, Under(l, m, [])) && Neutral(held, Under(l, m, [Work]))
  {
    WorkIsNeutral(held[l := m]);
    NeutralUnder(held, l, m, []);
    NeutralUnder(held, l, m, [Work]);
  }

  lemma LookupsAreOrderly(tunnels: nat)
    ensures Neutral(map[], Code(Lookups(tunnels)))
  {
    var held: Held := map[Registry := Read];
    NeutralLeaf(held, Manager, Read);
    NeutralTimes(held, tunnels, Under(Manager, Read, [Work]));
    NeutralUnder(map[], Registry, Read, Times(tunnels, Under(Manager, Read, [Work])));
  }

  lemma EndIsOrderly(ws: nat)
    ensures Neutral(map[], Code(EndOfConnection(ws)))
  {
    NeutralLeaf(map[WebSocket(ws) := Write], Manager, Write);
    NeutralUnder(map[], WebSocket(ws), Write, Under(Manager, Write, [Work]));
  }

  lemma TableIsOrderly(held: Held, t: nat, m: Mode, conns: seq<nat>)
    requires forall h | h in held :: Rank(h) == 0
    ensures Neutral(held, Under(TcpTable(t), m, Each(TcpConns(conns), [Work])))
  {
    NeutralEach(held[TcpTable(t) := m], TcpConns(conns), [Work]);
    NeutralUnder(held, TcpTable(t), m, Each(TcpConns(conns), [Work]));
  }

  lemma StopIsOrderly(t: nat, tcp: bool, conns: seq<nat>)
    ensures Neutral(map[], Code(StopTunnel(t, tcp, conns)))
  {
    var held: Held := map[ClientTunnel(t) := Write];
    WorkIsNeutral(held);
    TableIsOrderly(held, t, Write, conns);
    NeutralUnder(map[], ClientTunnel(t), Write, if tcp then Under(TcpTable(t), Write, Each(TcpConns(conns), [Work])) else [Work]);
  }

  lemma SectionIsOrderly(section: Section)
    ensures Neutral(map[], Code(section))
  {
    match section
    case Unlocked => WorkIsNeutral(map[]);
    case Alone(l, m) => NeutralLeaf(map[], l, m);
    case Lookups(tunnels) => LookupsAreOrderly(tunnels);
    case EndOfConnection(ws) => EndIsOrderly(ws);
    case StopTunnel(t, tcp, conns) => StopIsOrderly(t, tcp, conns);
    case StopTable(t, conns) => TableIsOrderly(map[], t, Write, conns);
    case ListTable(t, conns) => TableIsOrderly(map[], t, Read, conns);
  }

  /** Every code path takes its locks in rising rank and gives them all back, wherever it returns. */
  lemma {:induction false} PathIsOrderly(path: Path)
    ensures Neutral(map[], ProgramOf(path))
  {
    if path == [] {
      WorkIsNeutral(map[]);
    } else {
      SectionIsOrderly(path[0]);
      PathIsOrderly(path[1..]);
      NeutralAppend(map[], Code(path[0]), ProgramOf(path[1..]));
    }
  }

  /** Why `CloseAll` closes the tunnels after releasing its lock: were they closed under it, a connection
      that ends at the same moment could block it, and be blocked by it, for ever. */
  lemma ClosingUnderTheLockDeadlocks() returns (start: System, stuck: System)
    ensures start == [Thread(map[], Under(Manager, Write, Under(WebSocket(0), Write, [Work]))),
                      Thread(map[], ProgramOf([EndOfConnection(0)]))]
    ensures CanStep(start, 0) && CanStep(Step(start, 0), 1) && stuck == Step(Step(start, 0), 1)
    ensures !Finished(stuck) && forall i: nat :: !CanStep(stuck, i)
  {
    var closing, ending := Under(Manager, Write, Under(WebSocket(0), Write, [Work])), Code(EndOfConnection(0));
    assert ProgramOf([EndOfConnection(0)]) == ending + [];
    start := [Thread(map[], closing), Thread(map[], ending + [])];
    assert closing[0] == Acquire(Manager, Write) && closing[1] == Acquire(WebSocket(0), Write);
    var next := Step(start, 0);
    assert next[1].rest[0] == Acquire(WebSocket(0), Write) && next[1].rest[1] == Acquire(Manager, Write);
    stuck := Step(next, 1);
    assert stuck[0].rest[0] == Acquire(WebSocket(0), Write) && stuck[1].rest[0] == Acquire(Manager, Write);
    assert WebSocket(0) in stuck[1].held && Manager in stuck[0].held;
  }
}
