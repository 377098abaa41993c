/** The counters of the server-side `TCPHandler`, updated by the handler of each connection and by its two
    copying goroutines, interleaved at every call of `updateMetrics`. */
module TcpAccounting {

  datatype Metrics = Metrics(requests: int, bytes: int, errors: int, active: int)

  function Plus(a: Metrics, b: Metrics): Metrics {
    Metrics(a.requests + b.requests, a.bytes + b.bytes, a.errors + b.errors, a.active + b.active)
  }

  const ZERO := Metrics(0, 0, 0, 0)

  /** One direction of a connection: what it copied, and whether it reported an error first. */
  datatype Copy = Running | Failed(n: nat) | Reported(n: nat, failed: bool)

  /** Where `handleConnection` is. */
  datatype Pc =
    | Accepted
    | Counted                                  // +1 made, dialling
    | Refused                                  // the dial failed, -1 made
    | Copying(up: Copy, down: Copy)
    | Closed(up: Copy, down: Copy)             // -1 made

  datatype Direction = Up | Down

  /** `shares[c]` remembers what the goroutines of connection `c` have added to the counters so far. */
  datatype State = State(metrics: Metrics, conns: seq<Pc>, shares: seq<Metrics>, acceptErrors: nat)

  datatype Event =
    | Accept
    | AcceptFails
    | Begin(c: nat)
    | Dial(c: nat, ok: bool)
    | CopyFails(c: nat, d: Direction, n: nat)
    | CopyEnds(c: nat, d: Direction, n: nat)
    | Finish(c: nat)

  function Side(pc: Pc, d: Direction): Copy
    requires pc.Copying? || pc.Closed?
  {
    if d.Up? then pc.up else pc.down
  }

  function SetSide(pc: Pc, d: Direction, copy: Copy): Pc
    requires pc.Copying?
  {
    if d.Up? then Copying(copy, pc.down) else Copying(pc.up, copy)
  }

  /** May the goroutines of a connection that is at `pc` do `e` next? */
  predicate MayMove(pc: Pc, e: Event) {
    match e
    case Accept => false
    case AcceptFails => false
    case Begin(_) => pc.Accepted?
    case Dial(_, _) => pc.Counted?
    case CopyFails(_, d, _) => pc.Copying? && Side(pc, d).Running?
    case CopyEnds(_, d, n) => pc.Copying? && (Side(pc, d).Running? || Side(pc, d) == Failed(n))
    case Finish(_) => pc.Copying? && pc.up.Reported? && pc.down.Reported?
  }

  function Moved(pc: Pc, e: Event): Pc
    requires MayMove(pc, e)
  {
    match e
    case Begin(_) => Counted
    case Dial(_, ok) => if ok then Copying(Running, Running) else Refused
    case CopyFails(_, d, n) => SetSide(pc, d, Failed(n))
    case CopyEnds(_, d, n) => SetSide(pc, d, Reported(n, Side(pc, d).Failed?))
    case Finish(_) => Closed(pc.up, pc.down)
  }

  /** The arguments of the call of `updateMetrics` that goes with it. */
  function Delta(e: Event): Metrics {
    match e
    case Accept => ZERO
    case AcceptFails => Metrics(0, 0, 1, 0)
    case Begin(_) => Metrics(0, 0, 0, 1)
    case Dial(_, ok) => if ok then ZERO else Metrics(0, 0, 1, -1)
    case CopyFails(_, _, _) => Metrics(0, 0, 1, 0)
    case CopyEnds(_, _, n) => Metrics(1, n, 0, 0)
    case Finish(_) => Metrics(0, 0, 0, -1)
  }

  predicate Enabled(s: State, e: Event) {
    e.Accept? || e.AcceptFails? || (e.c < |s.conns| && MayMove(s.conns[e.c], e))
  }

  function Next(s: State, e: Event): State
    requires Enabled(s, e)
  {
    var metrics := Plus(s.metrics, Delta(e));
    if e.Accept? then s.(conns := s.conns + [Accepted], shares := s.shares + [ZERO])
    else if e.AcceptFails? then s.(metrics := metrics, acceptErrors := s.acceptErrors + 1)
    else
      State(metrics, s.conns[e.c := Moved(s.conns[e.c], e)],
            if e.c < |s.shares| then s.shares[e.c := Plus(s.shares[e.c], Delta(e))] else s.shares,
            s.acceptErrors)
  }

  ghost predicate Behaviour(states: seq<State>, events: seq<Event>) {
    && |states| == |events| + 1
    && states[0] == State(ZERO, [], [], 0)
    && forall i | 0 <= i < |events| :: Enabled(states[i], events[i]) && states[i + 1] == Next(states[i], events[i])
  }

  // ------------------------------------------------------------------ what each connection contributes

  function Ended(copy: Copy): int { if copy.Reported? then 1 else 0 }
  function BytesOf(copy: Copy): int { if copy.Reported? then copy.n else 0 }
  function ErrorsOf(copy: Copy): int { if copy.Failed? || (copy.Reported? && copy.failed) then 1 else 0 }

  /** The share of a connection in the counters, from where it is alone: active between its two updates, one
      request and its bytes for each direction that ended, one error for each failure. */
  function Share(pc: Pc): Metrics {
    match pc
    case Accepted => Metrics(0, 0, 0, 0)
    case Counted => Metrics(0, 0, 0, 1)
    case Refused => Metrics(0, 0, 1, 0)
    case Copying(up, down) => Metrics(Ended(up) + Ended(down), BytesOf(up) + BytesOf(down), ErrorsOf(up) + ErrorsOf(down), 1)
    case Closed(up, down) => Metrics(Ended(up) + Ended(down), BytesOf(up) + BytesOf(down), ErrorsOf(up) + ErrorsOf(down), 0)
  }

  ghost function Total(shares: seq<Metrics>): Metrics {
    if shares == [] then ZERO else Plus(shares[0], Total(shares[1..]))
  }

  lemma {:induction false} TotalUpdate(shares: seq<Metrics>, c: nat, delta: Metrics)
    requires c < |shares|
    ensures Total(shares[c := Plus(shares[c], delta)]) == Plus(Total(shares), delta)
  {
    var updated := shares[c := Plus(shares[c], delta)];
    if c == 0 {
      assert updated[1..] == shares[1..];
    } else {
      assert updated[1..] == shares[1..][c - 1 := Plus(shares[c], delta)];
      TotalUpdate(shares[1..], c - 1, delta);
    }
  }

  lemma {:induction false} TotalAppend(shares: seq<Metrics>, share: Metrics)
    ensures Total(shares + [share]) == Plus(Total(shares), share)
  {
    if shares == [] {
      assert (shares + [share])[1..] == [];
    } else {
      assert (shares + [share])[1..] == shares[1..] + [share];
      TotalAppend(shares[1..], share);
    }
  }

  ghost predicate Summed(s: State) {
    s.metrics == Plus(Total(s.shares), Metrics(0, 0, s.acceptErrors, 0))
  }

  ghost predicate SharedAt(s: State, c: nat) {
    c < |s.conns| == |s.shares| && s.shares[c] == Share(s.conns[c])
  }

  ghost predicate Shared(s: State) {
    |s.shares| == |s.conns| && forall c | 0 <= c < |s.conns| :: SharedAt(s, c)
  }

  ghost predicate ClosedAreReported(s: State) {
    forall c | 0 <= c < |s.conns| && s.conns[c].Closed? :: s.conns[c].up.Reported? && s.conns[c].down.Reported?
  }

  lemma StepKeepsSum(s: State, e: Event)
    requires Summed(s) && |s.conns| == |s.shares| && Enabled(s, e)
    ensures Summed(Next(s, e))
  {
    if e.Accept? {
      TotalAppend(s.shares, ZERO);
    } else if !e.AcceptFails? {
      TotalUpdate(s.shares, e.c, Delta(e));
    }
  }

  lemma MoveAddsEachDelta(pc: Pc, e: Event)
    requires MayMove(pc, e)
    ensures Share(Moved(pc, e)).requests == Share(pc).requests + Delta(e).requests
    ensures Share(Moved(pc, e)).bytes == Share(pc).bytes + Delta(e).bytes
    ensures Share(Moved(pc, e)).errors == Share(pc).errors + Delta(e).errors
    ensures Share(Moved(pc, e)).active == Share(pc).active + Delta(e).active
  {
  }

  /** A goroutine adds to the counters exactly what its connection's share grows by. */
  lemma MoveAddsItsDelta(pc: Pc, e: Event)
    requires MayMove(pc, e)
    ensures Share(Moved(pc, e)) == Plus(Share(pc), Delta(e))
  {
    MoveAddsEachDelta(pc, e);
  }

  lemma StepIsLocal(s: State, e: Event, c: nat)
    requires |s.shares| == |s.conns| && Enabled(s, e) && c < |Next(s, e).conns|
    ensures |Next(s, e).shares| == |Next(s, e).conns|
    ensures
      if c == |s.conns| then Next(s, e).conns[c] == Accepted && Next(s, e).shares[c] == ZERO
      else if !e.Accept? && !e.AcceptFails? && c == e.c then
        Next(s, e).conns[c] == Moved(s.conns[c], e) && Next(s, e).shares[c] == Plus(s.shares[c], Delta(e))
      else Next(s, e).conns[c] == s.conns[c] && Next(s, e).shares[c] == s.shares[c]
  {
  }

  lemma StepKeepsShare(s: State, e: Event, t: State, c: nat)
    requires |s.shares| == |s.conns| && Enabled(s, e) && t == Next(s, e) && c < |t.conns|
    requires c < |s.conns| ==> SharedAt(s, c)
    ensures SharedAt(t, c)
  {
    StepIsLocal(s, e, c);
    if c < |s.conns| && !e.Accept? && !e.AcceptFails? && c == e.c {
      MoveAddsItsDelta(s.conns[c], e);
    }
  }

  lemma StepKeepsShared(s: State, e: Event)
    requires Shared(s) && Enabled(s, e)
    ensures Shared(Next(s, e))
  {
    var t := Next(s, e);
    assert |t.shares| == |t.conns|;
    forall c | 0 <= c < |t.conns| ensures SharedAt(t, c) {
      StepKeepsShare(s, e, t, c);
    }
  }

  lemma StepKeepsReported(s: State, e: Event)
    requires ClosedAreReported(s) && Enabled(s, e)
    ensures ClosedAreReported(Next(s, e))
  {
  }

  /** In every interleaving the counters are the sum of the shares of the connections, plus the failed
      accepts; and each share is told by where the connection is. */
  lemma {:induction false} CountersAreTheShares(states: seq<State>, events: seq<Event>, n: nat)
    requires Behaviour(states, events) && n < |states|
    ensures Summed(states[n]) && Shared(states[n]) && ClosedAreReported(states[n])
  {
    if n > 0 {
      CountersAreTheShares(states, events, n - 1);
      StepKeepsSum(states[n - 1], events[n - 1]);
      StepKeepsShared(states[n - 1], events[n - 1]);
      StepKeepsReported(states[n - 1], events[n - 1]);
    }
  }

  ghost predicate Active(pc: Pc) { pc.Counted? || pc.Copying? }

  ghost function Positions(conns: seq<Pc>, n: nat): set<nat> {
    set c: nat | c < n && c < |conns| && Active(conns[c])
  }

  lemma ShareIsActive(pc: Pc)
    ensures Share(pc).active == if Active(pc) then 1 else 0
  {
  }

  lemma PositionsGrow(conns: seq<Pc>, last: nat)
    requires last < |conns|
    ensures |Positions(conns, last + 1)| == |Positions(conns, last)| + if Active(conns[last]) then 1 else 0
  {
    if Active(conns[last]) {
      assert Positions(conns, last + 1) == Positions(conns, last) + {last};
    } else {
      assert Positions(conns, last + 1) == Positions(conns, last);
    }
  }

  lemma {:induction false} ActiveCounts(conns: seq<Pc>, shares: seq<Metrics>, n: nat)
    requires n <= |shares| == |conns|
    requires forall c | 0 <= c < |conns| :: shares[c].active == if Active(conns[c]) then 1 else 0
    ensures Total(shares[..n]).active == |Positions(conns, n)|
  {
    if n == 0 {
      assert Positions(conns, 0) == {};
    } else {
      ActiveCounts(conns, shares, n - 1);
      PositionsGrow(conns, n - 1);
      TotalAppend(shares[..n - 1], shares[n - 1]);
      assert shares[..n] == shares[..n - 1] + [shares[n - 1]];
    }
  }

  lemma ActiveShares(s: State)
    requires Shared(s)
    ensures Total(s.shares).active == |Positions(s.conns, |s.conns|)|
  {
    forall c | 0 <= c < |s.conns| ensures s.shares[c].active == if Active(s.conns[c]) then 1 else 0 {
      assert SharedAt(s, c);
      ShareIsActive(s.conns[c]);
    }
    ActiveCounts(s.conns, s.shares, |s.conns|);
    assert s.shares[..|s.conns|] == s.shares;
  }

  /** `activeConnections` is the number of handlers between their two updates: never negative. */
  lemma ActiveIsTheNumberOfHandlers(states: seq<State>, events: seq<Event>, n: nat)
    requires Behaviour(states, events) && n < |states|
    ensures states[n].metrics.active == |Positions(states[n].conns, |states[n].conns|)|
  {
    CountersAreTheShares(states, events, n);
    ActiveShares(states[n]);
  }

  ghost predicate AllDone(s: State) {
    forall c | 0 <= c < |s.conns| :: s.conns[c].Refused? || s.conns[c].Closed?
  }

  ghost function Dialled(conns: seq<Pc>): nat {
    if conns == [] then 0
    else Dialled(conns[..|conns| - 1]) + (var pc := conns[|conns| - 1]; if pc.Copying? || pc.Closed? then 1 else 0)
  }

  ghost function CopiedBy(pc: Pc, d: Direction): nat {
    if pc.Closed? && Side(pc, d).Reported? then Side(pc, d).n else 0
  }

  /** The bytes that one direction of all connections copied. */
  ghost function Copied(conns: seq<Pc>, d: Direction): nat {
    if conns == [] then 0 else Copied(conns[..|conns| - 1], d) + CopiedBy(conns[|conns| - 1], d)
  }

  ghost function FailuresOf(pc: Pc): nat {
    match pc
    case Refused => 1
    case Closed(Reported(_, up), Reported(_, down)) => (if up then 1 else 0) + (if down then 1 else 0)
    case _ => 0
  }

  ghost function Failures(conns: seq<Pc>): nat {
    if conns == [] then 0 else Failures(conns[..|conns| - 1]) + FailuresOf(conns[|conns| - 1])
  }

  ghost predicate IsDone(pc: Pc) {
    pc.Refused? || (pc.Closed? && pc.up.Reported? && pc.down.Reported?)
  }

  lemma ShareWhenDone(pc: Pc)
    requires IsDone(pc)
    ensures Share(pc) == Metrics(if pc.Closed? then 2 else 0, CopiedBy(pc, Up) + CopiedBy(pc, Down), FailuresOf(pc), 0)
  {
  }

  lemma {:induction false} TotalWhenDone(conns: seq<Pc>, shares: seq<Metrics>)
    requires |shares| == |conns| && forall c | 0 <= c < |conns| :: shares[c] == Share(conns[c])
    requires forall c | 0 <= c < |conns| :: IsDone(conns[c])
    ensures Total(shares) == Metrics(2 * Dialled(conns), Copied(conns, Up) + Copied(conns, Down), Failures(conns), 0)
  {
    if conns != [] {
      var last := |conns| - 1;
      TotalWhenDone(conns[..last], shares[..last]);
      ShareWhenDone(conns[last]);
      TotalAppend(shares[..last], shares[last]);
      assert shares == shares[..last] + [shares[last]];
    }
  }

  /** When every handler is done nothing is active, each dialled connection counted two requests, and the
      bytes and errors are those of both directions. */
  lemma FinalAccount(states: seq<State>, events: seq<Event>, n: nat)
    requires Behaviour(states, events) && n < |states| && AllDone(states[n])
    ensures
      var s := states[n];
      && s.metrics.active == 0
      && s.metrics.requests == 2 * Dialled(s.conns)
      && s.metrics.bytes == Copied(s.conns, Up) + Copied(s.conns, Down)
      && s.metrics.errors == s.acceptErrors + Failures(s.conns)
  {
    CountersAreTheShares(states, events, n);
    assert forall c | 0 <= c < |states[n].conns| :: SharedAt(states[n], c) && IsDone(states[n].conns[c]);
    TotalWhenDone(states[n].conns, states[n].shares);
  }

  // ------------------------------------------------------------------ the handler itself

  class BaseHandler {
    var requestsForwarded: int
    var bytesForwarded: int
    var errorCount: int
    var activeConnections: int

    function View(): Metrics reads this { Metrics(requestsForwarded, bytesForwarded, errorCount, activeConnections) }

    constructor ()
      ensures View() == ZERO
    {
      requestsForwarded, bytesForwarded, errorCount, activeConnections := 0, 0, 0, 0;
    }

    method UpdateMetrics(requests: int, bytes: int, errors: int, connections: int)
      modifies this
      ensures View() == Plus(old(View()), Metrics(requests, bytes, errors, connections))
      ensures requestsForwarded == old(requestsForwarded) + requests && bytesForwarded == old(bytesForwarded) + bytes
      ensures errorCount == old(errorCount) + errors && activeConnections == old(activeConnections) + connections
    {
      requestsForwarded := requestsForwarded + requests;
      bytesForwarded := bytesForwarded + bytes;
      errorCount := errorCount + errors;
      activeConnections := activeConnections + connections;
    }

    /** One direction, from `io.Copy` on. */
    method ReportCopy(n: nat, failed: bool)
      modifies this
      ensures View() == Plus(old(View()), Metrics(1, n, if failed then 1 else 0, 0))
      ensures requestsForwarded == old(requestsForwarded) + 1 && bytesForwarded == old(bytesForwarded) + n
      ensures errorCount == old(errorCount) + (if failed then 1 else 0) && activeConnections == old(activeConnections)
    {
      if failed {
        UpdateMetrics(0, 0, 1, 0);
      }
      UpdateMetrics(1, n, 0, 0);
    }

    /** `handleConnection` for one connection, undisturbed. */
    method HandleConnection(dialled: bool, up: nat, upFailed: bool, down: nat, downFailed: bool)
      modifies this
      ensures View() == Plus(old(View()), Share(
        if dialled then Closed(Reported(up, upFailed), Reported(down, downFailed)) else Refused))
      ensures requestsForwarded == old(requestsForwarded) + (if dialled then 2 else 0)
      ensures bytesForwarded == old(bytesForwarded) + (if dialled then up + down else 0)
      ensures errorCount == old(errorCount)
        + (if dialled then (if upFailed then 1 else 0) + (if downFailed then 1 else 0) else 1)
      ensures activeConnections == old(activeConnections)
    {
      UpdateMetrics(0, 0, 0, 1);
      if !dialled {
        UpdateMetrics(0, 0, 1, -1);
        return;
      }
      ReportCopy(up, upFailed);
      ReportCopy(down, downFailed);
      UpdateMetrics(0, 0, 0, -1);
    }
  }
}
