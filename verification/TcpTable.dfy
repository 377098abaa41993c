/** The connection table of the client's `TCPTunnel`: `handleConnection`, the forwarders, the callers of
    `HandleRemoteData`, `closeConnection` and `Stop`, interleaved at every critical section of the
    tunnel's lock and of a connection's lock, and at every socket close. */
module TcpTable {
  import opened Common

  /** The flag of a connection, and how often its socket was closed. */
  datatype Sock = Sock(closed: bool, closes: nat)

  /** What `Stop` does to a connection under its lock. */
  function Shut(k: Sock): Sock {
    if k.closed then k else Sock(true, k.closes + 1)
  }

  /** The stages of `closeConnection`: before the flag, between the flag and the socket, before the table. */
  datatype Stage = Marking | Marked | Deleting

  /** The handler of an accepted socket, and the forwarder it starts. */
  datatype Pc = Accepted | Rejecting | Rejected | Spawning | Running | Closing(stage: Stage) | Ended {
    predicate Registered() { Spawning? || Running? || Closing? || Ended? }
  }

  datatype Closer = Forwarder | Remote(k: nat) | Stopper

  /** `closedBy` remembers who set the flag. */
  datatype Conn = Conn(sock: Sock, pc: Pc, closedBy: Option<Closer>)

  /** A call of `HandleRemoteData`. */
  datatype RemotePc = Found(c: nat) | Writing(c: nat) | RemoteClosing(c: nat, stage: Stage) | Returned

  /** `stopping` holds while `Stop` has the tunnel's lock. */
  datatype State = State(
    max: int, table: set<nat>, conns: seq<Conn>, remotes: seq<RemotePc>, stopped: bool, stopping: bool)

  /** A handler or forwarder and a caller of `HandleRemoteData` take the step their place in the code
      dictates; only the outcome of a write is open. */
  datatype Event =
    | Accept
    | Handle(c: nat)
    | Lookup(c: nat)
    | Call(k: nat, ok: bool)
    | StopBegin
    | StopOne(c: nat)
    | StopEnd

  predicate Enabled(s: State, e: Event) {
    match e
    case Accept => true
    case Handle(c) =>
      && c < |s.conns| && !s.conns[c].pc.Rejected? && !s.conns[c].pc.Ended?
      && (s.conns[c].pc.Accepted? || s.conns[c].pc == Closing(Deleting) ==> !s.stopping)
    case Lookup(_) => !s.stopping
    case Call(k, _) =>
      && k < |s.remotes| && !s.remotes[k].Returned? && s.remotes[k].c < |s.conns|
      && (s.remotes[k].RemoteClosing? && s.remotes[k].stage.Deleting? ==> !s.stopping)
    case StopBegin => !s.stopping && !s.stopped
    case StopOne(c) => s.stopping && c in s.table && c < |s.conns|
    case StopEnd => s.stopping && s.table == {}
  }

  function SetPc(s: State, c: nat, pc: Pc): State
    requires c < |s.conns|
  {
    s.(conns := s.conns[c := s.conns[c].(pc := pc)])
  }

  function SetRemote(s: State, k: nat, pc: RemotePc): State
    requires k < |s.remotes|
  {
    s.(remotes := s.remotes[k := pc])
  }

  /** Setting the flag, closing the socket. */
  function Mark(s: State, c: nat, who: Closer): State
    requires c < |s.conns|
  {
    s.(conns := s.conns[c := s.conns[c].(sock := s.conns[c].sock.(closed := true), closedBy := Some(who))])
  }

  function CloseSocket(s: State, c: nat): State
    requires c < |s.conns|
  {
    s.(conns := s.conns[c := s.conns[c].(sock := s.conns[c].sock.(closes := s.conns[c].sock.closes + 1))])
  }

  /** `handleConnection`, then `forwardLocalToRemote`: `Leave` stands for a stop seen, a failed read or a
      failed send. */
  function HandlerStep(s: State, c: nat): State
    requires c < |s.conns|
  {
    match s.conns[c].pc
    case Accepted =>
      if |s.table| >= s.max then SetPc(s, c, Rejecting)
      else SetPc(s, c, Spawning).(table := s.table + {c})
    case Rejecting => SetPc(CloseSocket(s, c), c, Rejected)
    case Spawning => SetPc(s, c, Running)
    case Running => SetPc(s, c, Closing(Marking))
    case Closing(Marking) =>
      if s.conns[c].sock.closed then SetPc(s, c, Ended) else SetPc(Mark(s, c, Forwarder), c, Closing(Marked))
    case Closing(Marked) => SetPc(CloseSocket(s, c), c, Closing(Deleting))
    case Closing(Deleting) => SetPc(s, c, Ended).(table := s.table - {c})
    case _ => s
  }

  /** `HandleRemoteData` after the lookup. */
  function CallerStep(s: State, k: nat, ok: bool): State
    requires k < |s.remotes| && !s.remotes[k].Returned? && s.remotes[k].c < |s.conns|
  {
    match s.remotes[k]
    case Found(c) => SetRemote(s, k, if s.conns[c].sock.closed then Returned else Writing(c))
    case Writing(c) => SetRemote(s, k, if ok then Returned else RemoteClosing(c, Marking))
    case RemoteClosing(c, Marking) =>
      if s.conns[c].sock.closed then SetRemote(s, k, Returned)
      else SetRemote(Mark(s, c, Remote(k)), k, RemoteClosing(c, Marked))
    case RemoteClosing(c, Marked) => SetRemote(CloseSocket(s, c), k, RemoteClosing(c, Deleting))
    case RemoteClosing(c, Deleting) => SetRemote(s, k, Returned).(table := s.table - {c})
  }

  /** The body of the loop in `Stop`. */
  function StopStep(s: State, c: nat): State
    requires c < |s.conns|
  {
    var k := s.conns[c];
    s.(conns := s.conns[c := k.(sock := Shut(k.sock), closedBy := if k.sock.closed then k.closedBy else Some(Stopper))],
       table := s.table - {c})
  }

  function Next(s: State, e: Event): State
    requires Enabled(s, e)
  {
    match e
    case Accept => s.(conns := s.conns + [Conn(Sock(false, 0), Accepted, None)])
    case Handle(c) => HandlerStep(s, c)
    case Lookup(c) => s.(remotes := s.remotes + [if c in s.table then Found(c) else Returned])
    case Call(k, ok) => CallerStep(s, k, ok)
    case StopBegin => s.(stopped := true, stopping := true)
    case StopOne(c) => StopStep(s, c)
    case StopEnd => s.(stopping := false)
  }

  ghost predicate Init(s: State) {
    s == State(s.max, {}, [], [], false, false)
  }

  ghost predicate Behaviour(states: seq<State>, events: seq<Event>) {
    && |states| == |events| + 1
    && Init(states[0])
    && forall i | 0 <= i < |events| :: Enabled(states[i], events[i]) && states[i + 1] == Next(states[i], events[i])
  }

  // ------------------------------------------------------------------ the invariant

  /** `who` is at `stage` of closing connection `c`. */
  ghost predicate AtStage(s: State, who: Closer, c: nat, stage: Stage)
    requires c < |s.conns|
  {
    match who
    case Forwarder => s.conns[c].pc == Closing(stage)
    case Remote(k) => k < |s.remotes| && s.remotes[k] == RemoteClosing(c, stage)
    case Stopper => false
  }

  /** Some closer is between setting the flag and deleting the entry. */
  ghost predicate BeingClosed(s: State, c: nat)
    requires c < |s.conns|
  {
    s.conns[c].closedBy.Some? &&
    (AtStage(s, s.conns[c].closedBy.value, c, Marked) || AtStage(s, s.conns[c].closedBy.value, c, Deleting))
  }

  ghost predicate ForwarderLives(k: Conn) {
    k.pc.Spawning? || k.pc.Running? || k.pc == Closing(Marking)
  }

  ghost predicate ConnOk(s: State, c: nat)
    requires c < |s.conns|
  {
    var k := s.conns[c];
    && (k.sock.closed <==> k.closedBy.Some?)
    && (!k.pc.Registered() ==> !k.sock.closed && c !in s.table)
    && (k.pc.Registered() && !k.sock.closed ==> ForwarderLives(k))
    && (k.pc.Closing? && !k.pc.stage.Marking? ==> k.closedBy == Some(Forwarder))
    && k.sock.closes == (
         if k.pc.Rejected? then 1
         else if k.sock.closed && !AtStage(s, k.closedBy.value, c, Marked) then 1
         else 0)
    && (c in s.table && k.sock.closed ==> BeingClosed(s, c))
  }

  ghost predicate ClosersExist(s: State, c: nat)
    requires c < |s.conns|
  {
    s.conns[c].closedBy.Some? && s.conns[c].closedBy.value.Remote? ==> s.conns[c].closedBy.value.k < |s.remotes|
  }

  ghost predicate RemoteOk(s: State, k: nat)
    requires k < |s.remotes|
  {
    var r := s.remotes[k];
    !r.Returned? ==>
      && r.c < |s.conns| && s.conns[r.c].pc.Registered()
      && (r.RemoteClosing? && !r.stage.Marking? ==> s.conns[r.c].closedBy == Some(Remote(k)))
  }

  ghost predicate Inv(s: State) {
    && TableOk(s)
    && (forall c | 0 <= c < |s.conns| :: SoundConn(s, c))
    && (forall k | 0 <= k < |s.remotes| :: RemoteOk(s, k))
  }

  ghost predicate TableOk(s: State) {
    |s.table| <= (if s.max < 0 then 0 else s.max) && forall c | c in s.table :: c < |s.conns|
  }

  /** A connection, once registered, stays so, and whoever set its flag stays known. */
  ghost predicate Advances(s: State, t: State, c: nat)
    requires c < |s.conns| <= |t.conns|
  {
    && (s.conns[c].pc.Registered() ==> t.conns[c].pc.Registered())
    && (s.conns[c].closedBy.Some? ==> t.conns[c].closedBy == s.conns[c].closedBy)
  }

  ghost predicate SoundConn(s: State, c: nat)
    requires c < |s.conns|
  {
    ConnOk(s, c) && ClosersExist(s, c)
  }

  /** Nothing but the places of others changed. */
  ghost predicate SameFor(s: State, t: State, c: nat)
    requires c < |s.conns|
  {
    && |t.conns| == |s.conns| && t.conns[c] == s.conns[c] && (c in t.table <==> c in s.table)
    && |t.remotes| == |s.remotes|
    && forall k, stage | 0 <= k < |s.remotes| :: t.remotes[k] == RemoteClosing(c, stage) <==> s.remotes[k] == RemoteClosing(c, stage)
  }

  lemma SameForKeeps(s: State, t: State, c: nat)
    requires c < |s.conns| && SoundConn(s, c) && SameFor(s, t, c)
    ensures SoundConn(t, c) && Advances(s, t, c)
  {
  }

  lemma HandlerStepIsLocal(s: State, d: nat, c: nat)
    requires Enabled(s, Handle(d)) && c < |s.conns| && c != d
    ensures SameFor(s, HandlerStep(s, d), c)
  {
  }

  lemma HandlerStepKeepsOwn(s: State, c: nat)
    requires Enabled(s, Handle(c)) && SoundConn(s, c)
    ensures |HandlerStep(s, c).conns| == |s.conns| && SoundConn(HandlerStep(s, c), c) && Advances(s, HandlerStep(s, c), c)
  {
  }

  lemma CallerStepIsLocal(s: State, k: nat, ok: bool, c: nat)
    requires Enabled(s, Call(k, ok)) && c < |s.conns| && c != s.remotes[k].c
    ensures SameFor(s, CallerStep(s, k, ok), c)
  {
  }

  lemma CallerStepKeepsOwn(s: State, k: nat, ok: bool)
    requires Enabled(s, Call(k, ok)) && SoundConn(s, s.remotes[k].c) && RemoteOk(s, k)
    ensures
      var t, c := CallerStep(s, k, ok), s.remotes[k].c;
      |t.conns| == |s.conns| && SoundConn(t, c) && Advances(s, t, c)
  {
  }

  lemma StopStepKeepsConn(s: State, d: nat, c: nat)
    requires Enabled(s, StopOne(d)) && c < |s.conns| && SoundConn(s, c)
    ensures SoundConn(StopStep(s, d), c) && Advances(s, StopStep(s, d), c)
  {
  }

  lemma StepKeepsConn(s: State, e: Event, c: nat)
    requires Inv(s) && Enabled(s, e) && c < |s.conns|
    ensures c < |Next(s, e).conns| && SoundConn(Next(s, e), c) && Advances(s, Next(s, e), c)
  {
    assert SoundConn(s, c);
    match e
    case Handle(d) =>
      if c == d {
        HandlerStepKeepsOwn(s, c);
      } else {
        HandlerStepIsLocal(s, d, c);
        SameForKeeps(s, HandlerStep(s, d), c);
      }
    case Call(k, ok) =>
      if c == s.remotes[k].c {
        CallerStepKeepsOwn(s, k, ok);
      } else {
        CallerStepIsLocal(s, k, ok, c);
        SameForKeeps(s, CallerStep(s, k, ok), c);
      }
    case StopOne(d) => StopStepKeepsConn(s, d, c);
    case _ =>
  }

  lemma StepKeepsRemote(s: State, e: Event, k: nat)
    requires Inv(s) && Enabled(s, e) && k < |Next(s, e).remotes|
    ensures RemoteOk(Next(s, e), k)
  {
    if k < |s.remotes| {
      assert RemoteOk(s, k);
      if !s.remotes[k].Returned? {
        assert SoundConn(s, s.remotes[k].c);
        StepKeepsConn(s, e, s.remotes[k].c);
      }
    } else {
      assert e.c in s.table ==> SoundConn(s, e.c);
    }
  }

  lemma HandlerChangesTableByOne(s: State, c: nat)
    requires Enabled(s, Handle(c))
    ensures |HandlerStep(s, c).conns| == |s.conns| && HandlerStep(s, c).max == s.max
    ensures
      || HandlerStep(s, c).table <= s.table
      || (|s.table| < s.max && HandlerStep(s, c).table == s.table + {c})
  {
  }

  lemma CallerShrinksTable(s: State, k: nat, ok: bool)
    requires Enabled(s, Call(k, ok))
    ensures |CallerStep(s, k, ok).conns| == |s.conns| && CallerStep(s, k, ok).max == s.max
    ensures CallerStep(s, k, ok).table <= s.table
  {
  }

  lemma TableChangesByOne(s: State, e: Event)
    requires Enabled(s, e)
    ensures |s.conns| <= |Next(s, e).conns| && Next(s, e).max == s.max
    ensures
      || Next(s, e).table <= s.table
      || (e.Handle? && |s.table| < s.max && Next(s, e).table == s.table + {e.c} && e.c < |s.conns|)
  {
    match e
    case Handle(c) => HandlerChangesTableByOne(s, c);
    case Call(k, ok) => CallerShrinksTable(s, k, ok);
    case _ =>
  }

  lemma StepKeepsTable(s: State, e: Event)
    requires TableOk(s) && Enabled(s, e)
    ensures TableOk(Next(s, e))
  {
    TableChangesByOne(s, e);
    if Next(s, e).table <= s.table {
      SubsetSize(Next(s, e).table, s.table);
    }
  }

  lemma StepKeepsConns(s: State, e: Event)
    requires Inv(s) && Enabled(s, e)
    ensures forall c | 0 <= c < |Next(s, e).conns| :: SoundConn(Next(s, e), c)
  {
    forall c | 0 <= c < |Next(s, e).conns| ensures SoundConn(Next(s, e), c) {
      if c < |s.conns| {
        StepKeepsConn(s, e, c);
      }
    }
  }

  lemma StepKeepsRemotes(s: State, e: Event)
    requires Inv(s) && Enabled(s, e)
    ensures forall k | 0 <= k < |Next(s, e).remotes| :: RemoteOk(Next(s, e), k)
  {
    forall k | 0 <= k < |Next(s, e).remotes| ensures RemoteOk(Next(s, e), k) {
      StepKeepsRemote(s, e, k);
    }
  }

  lemma StepKeepsInv(s: State, e: Event)
    requires Inv(s) && Enabled(s, e)
    ensures Inv(Next(s, e))
  {
    StepKeepsTable(s, e);
    StepKeepsConns(s, e);
    StepKeepsRemotes(s, e);
  }

  lemma {:induction false} RunKeepsInv(states: seq<State>, events: seq<Event>, n: nat)
    requires Behaviour(states, events) && n < |states|
    ensures Inv(states[n])
  {
    if n > 0 {
      RunKeepsInv(states, events, n - 1);
      StepKeepsInv(states[n - 1], events[n - 1]);
    }
  }

  // ------------------------------------------------------------------ the steps of one call, taken together

  /** Nothing but connection `c` and the table has changed. */
  ghost predicate OnlyConn(s: State, t: State, c: nat)
    requires c < |s.conns|
  {
    && t.max == s.max && t.stopped == s.stopped && t.stopping == s.stopping && |t.conns| == |s.conns|
    && forall d | 0 <= d < |s.conns| && d != c :: t.conns[d] == s.conns[d]
  }

  /** `handleConnection` registers its socket exactly when there is room, as the method does. */
  lemma RegisterIsItsStep(s: State, c: nat)
    requires Enabled(s, Handle(c)) && s.conns[c].pc.Accepted?
    ensures
      var t := Next(s, Handle(c));
      && OnlyConn(s, t, c) && t.remotes == s.remotes && t.conns[c].sock == s.conns[c].sock
      && (|s.table| < s.max ==> t.conns[c].pc.Spawning? && t.table == s.table + {c})
      && (|s.table| >= s.max ==> t.conns[c].pc.Rejecting? && t.table == s.table)
  {
  }

  /** One undisturbed `closeConnection` of the forwarder does what the method does. */
  lemma CloseConnectionIsItsSteps(s: State, c: nat) returns (t: State)
    requires c < |s.conns| && s.conns[c].pc == Closing(Marking) && !s.stopping
    ensures OnlyConn(s, t, c) && t.remotes == s.remotes && t.conns[c].pc.Ended? && t.conns[c].sock.closed
    ensures t.conns[c].sock.closes == s.conns[c].sock.closes + if s.conns[c].sock.closed then 0 else 1
    ensures t.table == if s.conns[c].sock.closed then s.table else s.table - {c}
  {
    t := Next(s, Handle(c));
    if !t.conns[c].pc.Ended? {
      t := Next(t, Handle(c));
      t := Next(t, Handle(c));
    }
  }

  /** The same of a caller of `HandleRemoteData`. */
  lemma RemoteCloseIsItsSteps(s: State, k: nat, c: nat) returns (t: State)
    requires k < |s.remotes| && s.remotes[k] == RemoteClosing(c, Marking) && c < |s.conns| && !s.stopping
    ensures OnlyConn(s, t, c) && t.remotes == s.remotes[k := Returned] && t.conns[c].sock.closed
    ensures t.conns[c].sock.closes == s.conns[c].sock.closes + if s.conns[c].sock.closed then 0 else 1
    ensures t.table == if s.conns[c].sock.closed then s.table else s.table - {c}
  {
    t := Next(s, Call(k, true));
    if !t.remotes[k].Returned? {
      t := Next(t, Call(k, true));
      t := Next(t, Call(k, true));
    }
  }

  /** One undisturbed `HandleRemoteData`: it finds the connection in the table or does nothing; a closed one is left
      alone; and when the write fails, and only then, the connection is closed and forgotten. */
  lemma HandleRemoteDataIsItsSteps(s: State, c: nat, ok: bool) returns (t: State)
    requires c in s.table ==> c < |s.conns|
    requires !s.stopping
    ensures |t.remotes| == |s.remotes| + 1 && t.remotes[|s.remotes|].Returned?
    ensures c !in s.table || s.conns[c].sock.closed || ok ==> t.conns == s.conns && t.table == s.table
    ensures c in s.table && !s.conns[c].sock.closed && !ok ==>
      OnlyConn(s, t, c) && t.table == s.table - {c} && t.conns[c].sock == Sock(true, s.conns[c].sock.closes + 1)
  {
    var k := |s.remotes|;
    t := Next(s, Lookup(c));
    if t.remotes[k].Found? {
      t := Next(t, Call(k, ok));
      if t.remotes[k].Writing? {
        t := Next(t, Call(k, ok));
        if t.remotes[k].RemoteClosing? {
          t := RemoteCloseIsItsSteps(t, k, c);
        }
      }
    }
  }

  /** What `Stop` does to the connections of a table. */
  ghost predicate StoppedAll(s: State, t: State) {
    && t.max == s.max && t.remotes == s.remotes && |t.conns| == |s.conns|
    && forall c | 0 <= c < |s.conns| ::
         && t.conns[c].pc == s.conns[c].pc
         && t.conns[c].sock == if c in s.table && !s.conns[c].sock.closed then Sock(true, s.conns[c].sock.closes + 1) else s.conns[c].sock
  }

  lemma {:induction false} StopTheRest(s: State) returns (t: State)
    requires s.stopping && forall c | c in s.table :: c < |s.conns|
    ensures StoppedAll(s, t) && t.table == {} && t.stopped == s.stopped && !t.stopping
    decreases s.table
  {
    if s.table == {} {
      t := Next(s, StopEnd);
    } else {
      var c :| c in s.table;
      t := StopTheRest(Next(s, StopOne(c)));
    }
  }

  /** One undisturbed `Stop` closes every connection of the table that is open, and empties it. */
  lemma StopIsItsSteps(s: State) returns (t: State)
    requires TableOk(s) && Enabled(s, StopBegin)
    ensures StoppedAll(s, t) && t.table == {} && t.stopped && !t.stopping
  {
    t := StopTheRest(Next(s, StopBegin));
  }

  // ------------------------------------------------------------------ the results

  lemma CallerMovesNobody(s: State, k: nat, ok: bool, c: nat)
    requires Enabled(s, Call(k, ok)) && c < |s.conns|
    ensures c < |CallerStep(s, k, ok).conns| && CallerStep(s, k, ok).conns[c].pc == s.conns[c].pc
  {
  }

  /** A handler that has had its turn is on the same side for good. */
  ghost predicate KeepsSide(s: State, t: State, c: nat) {
    c < |s.conns| && !s.conns[c].pc.Accepted? ==>
      c < |t.conns| && !t.conns[c].pc.Accepted? && (t.conns[c].pc.Registered() <==> s.conns[c].pc.Registered())
  }

  lemma StepKeepsSide(s: State, e: Event, t: State, c: nat)
    requires Enabled(s, e) && t == Next(s, e)
    ensures KeepsSide(s, t, c)
  {
    if c < |s.conns| {
      match e
      case Handle(d) => assert |HandlerStep(s, d).conns| == |s.conns|;
      case Call(k, ok) => CallerMovesNobody(s, k, ok, c);
      case _ =>
    }
  }

  lemma RunKeepsSide(states: seq<State>, events: seq<Event>, n: nat, c: nat)
    requires Behaviour(states, events) && n < |events|
    ensures KeepsSide(states[n], states[n + 1], c)
  {
    StepKeepsSide(states[n], events[n], states[n + 1], c);
  }

  lemma {:induction false} SideIsKept(states: seq<State>, i: nat, n: nat, c: nat)
    requires i <= n < |states| && forall k: nat | i <= k < n :: KeepsSide(states[k], states[k + 1], c)
    ensures KeepsSide(states[i], states[n], c)
  {
    if i < n {
      SideIsKept(states, i, n - 1, c);
      assert KeepsSide(states[n - 1], states[n - 1 + 1], c);
    }
  }

  /** A socket is ever served exactly when the table had room at the moment its handler took the lock; the others are
      turned away. */
  lemma ServedExactlyWhenThereWasRoom(states: seq<State>, events: seq<Event>, i: nat, n: nat, c: nat)
    requires Behaviour(states, events) && i < n < |states| && events[i] == Handle(c)
    requires c < |states[i].conns| && states[i].conns[c].pc.Accepted?
    ensures c < |states[n].conns|
    ensures states[n].conns[c].pc.Registered() <==> |states[i].table| < states[i].max
    ensures !states[n].conns[c].pc.Registered() ==> states[n].conns[c].pc.Rejecting? || states[n].conns[c].pc.Rejected?
  {
    assert Enabled(states[i], events[i]) && states[i + 1] == Next(states[i], events[i]);
    RegisterIsItsStep(states[i], c);
    forall k: nat | i + 1 <= k < n ensures KeepsSide(states[k], states[k + 1], c) {
      RunKeepsSide(states, events, k, c);
    }
    SideIsKept(states, i + 1, n, c);
  }

  /** The table never holds more than `MaxConnections`, and no accepted socket is closed twice. */
  lemma TableIsBoundedAndSocketsCloseOnce(states: seq<State>, events: seq<Event>, n: nat)
    requires Behaviour(states, events) && n < |states|
    ensures |states[n].table| <= if states[n].max < 0 then 0 else states[n].max
    ensures forall c | 0 <= c < |states[n].conns| :: states[n].conns[c].sock.closes <= 1
  {
    RunKeepsInv(states, events, n);
    forall c | 0 <= c < |states[n].conns| ensures states[n].conns[c].sock.closes <= 1 {
      assert SoundConn(states[n], c);
    }
  }

  /** Every entry is open, with a forwarder that has yet to close it, or closed, with the closer that set the
      flag still on its way to the table. */
  lemma EveryEntryHasACloser(states: seq<State>, events: seq<Event>, n: nat, c: nat)
    requires Behaviour(states, events) && n < |states| && c in states[n].table
    ensures c < |states[n].conns|
    ensures if states[n].conns[c].sock.closed then BeingClosed(states[n], c) else ForwarderLives(states[n].conns[c])
  {
    RunKeepsInv(states, events, n);
    assert SoundConn(states[n], c);
  }

  ghost predicate AllDone(s: State) {
    && !s.stopping
    && (forall c | 0 <= c < |s.conns| :: s.conns[c].pc.Rejected? || s.conns[c].pc.Ended?)
    && (forall k | 0 <= k < |s.remotes| :: s.remotes[k].Returned?)
  }

  lemma DoneLeavesNothing(s: State)
    requires Inv(s) && AllDone(s)
    ensures s.table == {} && forall c | 0 <= c < |s.conns| :: s.conns[c].sock.closes == 1
  {
    forall c | 0 <= c < |s.conns| ensures s.conns[c].sock.closes == 1 && c !in s.table {
      assert SoundConn(s, c);
    }
  }

  /** When all threads are done the table is empty and every accepted socket was closed exactly once, also
      for a connection registered after `Stop`. */
  lemma NothingIsLeftOpen(states: seq<State>, events: seq<Event>, n: nat)
    requires Behaviour(states, events) && n < |states| && AllDone(states[n])
    ensures states[n].table == {}
    ensures forall c | 0 <= c < |states[n].conns| :: states[n].conns[c].sock.closes == 1
  {
    RunKeepsInv(states, events, n);
    DoneLeavesNothing(states[n]);
  }

  // ------------------------------------------------------------------ and they do get done

  /** A step of a thread already there. */
  predicate IsOwnStep(e: Event) {
    e.Handle? || e.Call? || e.StopOne? || e.StopEnd?
  }

  /** How many steps a handler and its forwarder have left at most; likewise a caller of `HandleRemoteData`. */
  function StepsOf(pc: Pc): nat {
    match pc
    case Accepted => 6
    case Rejecting => 1
    case Rejected => 0
    case Spawning => 5
    case Running => 4
    case Closing(stage) => StagesLeft(stage)
    case Ended => 0
  }

  function StagesLeft(stage: Stage): nat {
    match stage
    case Marking => 3
    case Marked => 2
    case Deleting => 1
  }

  function StepsOfCall(r: RemotePc): nat {
    match r
    case Found(_) => 5
    case Writing(_) => 4
    case RemoteClosing(_, stage) => StagesLeft(stage)
    case Returned => 0
  }

  ghost function HandlersLeft(conns: seq<Conn>): nat {
    if conns == [] then 0 else StepsOf(conns[0].pc) + HandlersLeft(conns[1..])
  }

  ghost function CallsLeft(remotes: seq<RemotePc>): nat {
    if remotes == [] then 0 else StepsOfCall(remotes[0]) + CallsLeft(remotes[1..])
  }

  ghost function StopLeft(s: State): nat {
    if s.stopping then |s.table| + 1 else 0
  }

  ghost function Remaining(s: State): nat {
    HandlersLeft(s.conns) + CallsLeft(s.remotes) + StopLeft(s)
  }

  lemma {:induction false} HandlersLeftAfter(conns: seq<Conn>, c: nat, k: Conn)
    requires c < |conns|
    ensures HandlersLeft(conns[c := k]) == HandlersLeft(conns) - StepsOf(conns[c].pc) + StepsOf(k.pc)
  {
    if c == 0 {
      assert conns[c := k][1..] == conns[1..];
    } else {
      assert conns[c := k][1..] == conns[1..][c - 1 := k];
      HandlersLeftAfter(conns[1..], c - 1, k);
    }
  }

  lemma {:induction false} CallsLeftAfter(remotes: seq<RemotePc>, k: nat, r: RemotePc)
    requires k < |remotes|
    ensures CallsLeft(remotes[k := r]) == CallsLeft(remotes) - StepsOfCall(remotes[k]) + StepsOfCall(r)
  {
    if k == 0 {
      assert remotes[k := r][1..] == remotes[1..];
    } else {
      assert remotes[k := r][1..] == remotes[1..][k - 1 := r];
      CallsLeftAfter(remotes[1..], k - 1, r);
    }
  }

  lemma HandlerMoves(s: State, c: nat)
    requires Enabled(s, Handle(c))
    ensures |HandlerStep(s, c).conns| == |s.conns| && HandlerStep(s, c).remotes == s.remotes
    ensures HandlerStep(s, c).conns == s.conns[c := HandlerStep(s, c).conns[c]]
    ensures StopLeft(HandlerStep(s, c)) == StopLeft(s)
  {
  }

  lemma HandlerWearsDown(s: State, c: nat)
    requires Enabled(s, Handle(c))
    ensures c < |HandlerStep(s, c).conns| && StepsOf(HandlerStep(s, c).conns[c].pc) < StepsOf(s.conns[c].pc)
  {
  }

  lemma CallerMoves(s: State, k: nat, ok: bool)
    requires Enabled(s, Call(k, ok))
    ensures
      var t, c := CallerStep(s, k, ok), s.remotes[k].c;
      && |t.conns| == |s.conns| && t.conns == s.conns[c := t.conns[c]] && t.conns[c].pc == s.conns[c].pc
      && |t.remotes| == |s.remotes| && t.remotes == s.remotes[k := t.remotes[k]]
      && StepsOfCall(t.remotes[k]) < StepsOfCall(s.remotes[k])
      && StopLeft(t) == StopLeft(s)
  {
  }

  /** However they are scheduled, every step of a thread already there brings the end nearer. */
  lemma StepsWearDown(s: State, e: Event)
    requires Enabled(s, e) && IsOwnStep(e)
    ensures Remaining(Next(s, e)) < Remaining(s)
  {
    var t := Next(s, e);
    match e
    case Handle(c) =>
      HandlerMoves(s, c);
      HandlerWearsDown(s, c);
      HandlersLeftAfter(s.conns, c, t.conns[c]);
    case Call(k, ok) =>
      CallerMoves(s, k, ok);
      HandlersLeftAfter(s.conns, s.remotes[k].c, t.conns[s.remotes[k].c]);
      CallsLeftAfter(s.remotes, k, t.remotes[k]);
    case StopOne(c) =>
      HandlersLeftAfter(s.conns, c, t.conns[c]);
    case StopEnd =>
  }

  /** While a thread is not done, some step of a thread already there is enabled. */
  lemma SomebodyCanGoOn(s: State) returns (e: Event)
    requires Inv(s) && !AllDone(s)
    ensures Enabled(s, e) && IsOwnStep(e)
  {
    if s.stopping {
      if s.table == {} {
        e := StopEnd;
      } else {
        var c :| c in s.table;
        e := StopOne(c);
      }
    } else if c: nat :| c < |s.conns| && !s.conns[c].pc.Rejected? && !s.conns[c].pc.Ended? {
      e := Handle(c);
    } else {
      var k: nat :| k < |s.remotes| && !s.remotes[k].Returned?;
      assert RemoteOk(s, k);
      e := Call(k, true);
    }
  }

  ghost predicate Moves(s: State, t: State) {
    exists e :: Enabled(s, e) && IsOwnStep(e) && t == Next(s, e)
  }

  lemma Prepend(s: State, tail: seq<State>)
    requires tail != [] && Moves(s, tail[0])
    requires forall i | 0 <= i < |tail| - 1 :: Moves(tail[i], tail[i + 1])
    ensures forall i | 0 <= i < |[s] + tail| - 1 :: Moves(([s] + tail)[i], ([s] + tail)[i + 1])
  {
    var schedule := [s] + tail;
    forall i | 0 <= i < |schedule| - 1 ensures Moves(schedule[i], schedule[i + 1]) {
      if i > 0 {
        assert schedule[i] == tail[i - 1] && schedule[i + 1] == tail[i];
      }
    }
  }

  /** So whatever has happened, once nothing new arrives all threads get done, within as many steps as remain;
      and then nothing is left open. */
  lemma {:induction false} EverybodyFinishes(s: State) returns (schedule: seq<State>)
    requires Inv(s)
    ensures 0 < |schedule| <= Remaining(s) + 1 && schedule[0] == s
    ensures forall i | 0 <= i < |schedule| - 1 :: Moves(schedule[i], schedule[i + 1])
    ensures
      var last := schedule[|schedule| - 1];
      AllDone(last) && last.table == {} && forall c | 0 <= c < |last.conns| :: last.conns[c].sock.closes == 1
    decreases Remaining(s)
  {
    if AllDone(s) {
      DoneLeavesNothing(s);
      schedule := [s];
    } else {
      var e := SomebodyCanGoOn(s);
      StepsWearDown(s, e);
      StepKeepsInv(s, e);
      var tail := EverybodyFinishes(Next(s, e));
      assert Moves(s, tail[0]);
      Prepend(s, tail);
      schedule := [s] + tail;
    }
  }

  // ------------------------------------------------------------------ the table itself

  class TCPConnection {
    const id: string
    var closed: bool
    var closes: nat        // calls of LocalConn.Close

    constructor (id: string)
      ensures this.id == id && View() == Sock(false, 0)
    {
      this.id := id;
      closed, closes := false, 0;
    }

    function View(): Sock reads this { Sock(closed, closes) }

    method Shutdown()
      modifies this
      ensures View() == Shut(old(View()))
      ensures closed && closes == old(closes) + if old(closed) then 0 else 1
    {
      if !closed {
        closed := true;
        closes := closes + 1;
      }
    }
  }

  class TCPTunnel {
    const maxConnections: int
    var connections: map<string, TCPConnection>
    var stopped: bool

    ghost predicate Valid()
      reads this, connections.Values
    {
      && (|connections| <= if maxConnections < 0 then 0 else maxConnections)
      && (forall id | id in connections :: connections[id].id == id)
    }

    constructor (maxConnections: int)
      ensures Valid() && connections == map[] && !stopped && this.maxConnections == maxConnections
    {
      this.maxConnections := maxConnections;
      connections, stopped := map[], false;
    }

    /** The critical section of `handleConnection`: false means that the socket is turned away. */
    method Register(conn: TCPConnection) returns (ok: bool)
      requires Valid() && conn.id !in connections
      modifies this
      ensures Valid() && stopped == old(stopped)
      ensures ok <==> |old(connections)| < maxConnections
      ensures connections == if ok then old(connections)[conn.id := conn] else old(connections)
    {
      if |connections| >= maxConnections {
        return false;
      }
      connections := connections[conn.id := conn];
      return true;
    }

    /** `closeConnection`, undisturbed. */
    method CloseConnection(conn: TCPConnection)
      requires Valid() && (conn.id in connections ==> connections[conn.id] == conn)
      modifies this, conn
      ensures Valid() && stopped == old(stopped)
      ensures conn.View() == Shut(old(conn.View()))
      ensures conn.closed && conn.closes == old(conn.closes) + if old(conn.closed) then 0 else 1
      ensures connections == if old(conn.closed) then old(connections) else old(connections) - {conn.id}
    {
      if conn.closed {
        return;
      }
      conn.Shutdown();
      MapShrinks(connections, conn.id);
      connections := connections - {conn.id};
    }

    /** One round of the loop of `Stop`. */
    method CloseOne(id: string)
      requires id in connections
      modifies this`connections, connections[id]
      ensures connections == old(connections) - {id}
      ensures old(connections[id]).View() == Shut(old(connections[id].View()))
    {
      connections[id].Shutdown();
      connections := connections - {id};
    }

    /** Every connection of `all` is still in the table, as it was, or was shut. */
    twostate predicate PartlyStopped(all: map<string, TCPConnection>)
      reads this, all.Values
    {
      && (forall id | id in connections :: id in all && connections[id] == all[id])
      && (forall id | id in all ::
            all[id].View() == if id in connections then old(all[id].View()) else Shut(old(all[id].View())))
    }

    method CloseAll()
      requires Valid()
      modifies this`connections, connections.Values
      ensures connections == map[]
      ensures forall id | id in old(connections) :: old(connections)[id].View() == Shut(old(connections[id].View()))
    {
      ghost var all := connections;
      while connections != map[]
        invariant PartlyStopped(all)
        decreases connections.Keys
      {
        var id :| id in connections;
        CloseOne(id);
        assert id !in connections.Keys;
      }
    }

    /** `Stop`, undisturbed: a second call does nothing. */
    method Stop()
      requires Valid()
      modifies this, connections.Values
      ensures Valid() && stopped
      ensures old(stopped) ==> connections == old(connections) && forall id | id in connections :: connections[id].View() == old(connections[id].View())
      ensures !old(stopped) ==> connections == map[] && forall id | id in old(connections) :: old(connections)[id].View() == Shut(old(connections[id].View()))
    {
      if stopped {
        return;
      }
      stopped := true;
      CloseAll();
    }
  }
}
