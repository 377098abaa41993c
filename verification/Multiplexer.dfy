/** The request/response multiplexer: `WebSocketManager.requests`, the visitors that wait in
    `sendHTTPRequest`, the calls of `HandleResponse`, and the shutdown in `CloseAll`.

    A step of the machine is one critical section of `m.mu` or one channel operation.  Request
    identifiers are uuids, so a visitor registers under an identifier never used before.  A channel
    carries pointers to responses; each call of `HandleResponse` is given its own, so the number of
    the call names the pointer, and `Nil` is the nil that `CloseAll` sends. */
module Multiplexer {
  import opened Common

  type ReqId = string
  type ChanId = nat

  datatype Message = Answer(call: nat) | Nil

  /** A channel of capacity one.  `puts` remembers every value ever put into it. */
  datatype Chan = Chan(buf: Option<Message>, puts: seq<Message>)

  /** The part of the manager that the visitors, the responders and the shutdown share. */
  datatype Manager = Manager(requests: map<ReqId, ChanId>, chans: seq<Chan>) {
    ghost predicate Valid() {
      forall r | r in requests :: requests[r] < |chans|
    }
  }

  function AddRequest(m: Manager, r: ReqId): Manager {
    Manager(m.requests[r := |m.chans|], m.chans + [Chan(None, [])])
  }

  function DropRequest(m: Manager, r: ReqId): Manager {
    m.(requests := m.requests - {r})
  }

  /** A non-blocking send: `select { case ch <- v: default: }`. */
  function Offered(c: Chan, v: Message): Chan {
    if c.buf.None? then Chan(Some(v), c.puts + [v]) else c
  }

  function Offer(m: Manager, c: ChanId, v: Message): Manager
    requires c < |m.chans|
  {
    m.(chans := m.chans[c := Offered(m.chans[c], v)])
  }

  datatype Outcome = Reply(call: nat) | Cancelled | TimedOut | SendFailed {
    /** Did the visitor take a value out of its channel? */
    predicate Consumed() { Reply? || Cancelled? }
  }

  function Received(v: Message): Outcome {
    match v
    case Answer(k) => Reply(k)
    case Nil => Cancelled
  }

  /** Where a visitor is in `sendHTTPRequest`. */
  datatype Visit = Registered | Waiting | Leaving(outcome: Outcome) | Returned(outcome: Outcome)
  datatype Visitor = Visitor(ch: ChanId, pc: Visit) {
    predicate Pending() { pc.Registered? || pc.Waiting? }
  }

  /** Where a call is in `HandleResponse`. */
  datatype CallPc = Looking | Sending(ch: ChanId) | Unregistering | Finished(handled: bool)
  datatype Call = Call(id: ReqId, pc: CallPc)

  /** Where `CloseAll` is; it holds `m.mu` except when `Idle`. */
  datatype Closer = Idle | Scanning | Deleting(id: ReqId)

  datatype State = State(m: Manager, visitors: map<ReqId, Visitor>, calls: seq<Call>, closer: Closer)

  datatype Event =
    | Register(r: ReqId)
    | Transmit(r: ReqId, ok: bool)
    | Receive(r: ReqId)
    | Timeout(r: ReqId)
    | Unregister(r: ReqId)
    | Respond(r: ReqId)
    | Lookup(k: nat)
    | TrySend(k: nat)
    | CallUnregister(k: nat)
    | CloseBegin
    | CloseSend(r: ReqId)
    | CloseDelete
    | CloseEnd

  ghost predicate Init(s: State) {
    s == State(Manager(map[], []), map[], [], Idle)
  }

  predicate Enabled(s: State, e: Event) {
    match e
    case Register(r) => s.closer.Idle? && r !in s.visitors
    case Transmit(r, _) => r in s.visitors && s.visitors[r].pc.Registered?
    case Receive(r) =>
      && r in s.visitors && s.visitors[r].pc.Waiting?
      && s.visitors[r].ch < |s.m.chans| && s.m.chans[s.visitors[r].ch].buf.Some?
    case Timeout(r) => r in s.visitors && s.visitors[r].pc.Waiting?
    case Unregister(r) => s.closer.Idle? && r in s.visitors && s.visitors[r].pc.Leaving?
    case Respond(_) => true
    case Lookup(k) => s.closer.Idle? && k < |s.calls| && s.calls[k].pc.Looking?
    case TrySend(k) => k < |s.calls| && s.calls[k].pc.Sending? && s.calls[k].pc.ch < |s.m.chans|
    case CallUnregister(k) => s.closer.Idle? && k < |s.calls| && s.calls[k].pc.Unregistering?
    case CloseBegin => s.closer.Idle?
    case CloseSend(r) => s.closer.Scanning? && r in s.m.requests && s.m.requests[r] < |s.m.chans|
    case CloseDelete => s.closer.Deleting?
    case CloseEnd => s.closer.Scanning? && s.m.requests == map[]
  }

  function SetVisit(s: State, r: ReqId, pc: Visit): State
    requires r in s.visitors
  {
    s.(visitors := s.visitors[r := s.visitors[r].(pc := pc)])
  }

  function SetCall(s: State, k: nat, pc: CallPc): State
    requires k < |s.calls|
  {
    s.(calls := s.calls[k := s.calls[k].(pc := pc)])
  }

  function Next(s: State, e: Event): State
    requires Enabled(s, e)
  {
    match e
    case Register(r) =>
      s.(m := AddRequest(s.m, r), visitors := s.visitors[r := Visitor(|s.m.chans|, Registered)])
    case Transmit(r, ok) => SetVisit(s, r, if ok then Waiting else Leaving(SendFailed))
    case Receive(r) =>
      var c := s.visitors[r].ch;
      var v := s.m.chans[c].buf.value;
      SetVisit(s, r, Leaving(Received(v)))
      .(m := s.m.(chans := s.m.chans[c := s.m.chans[c].(buf := None)]))
    case Timeout(r) => SetVisit(s, r, Leaving(TimedOut))
    case Unregister(r) => SetVisit(s, r, Returned(s.visitors[r].pc.outcome)).(m := DropRequest(s.m, r))
    case Respond(r) => s.(calls := s.calls + [Call(r, Looking)])
    case Lookup(k) =>
      var r := s.calls[k].id;
      SetCall(s, k, if r in s.m.requests then Sending(s.m.requests[r]) else Finished(false))
    case TrySend(k) =>
      var c := s.calls[k].pc.ch;
      if s.m.chans[c].buf.None? then
        SetCall(s, k, Unregistering).(m := Offer(s.m, c, Answer(k)))
      else
        SetCall(s, k, Finished(false))
    case CallUnregister(k) => SetCall(s, k, Finished(true)).(m := DropRequest(s.m, s.calls[k].id))
    case CloseBegin => s.(closer := Scanning)
    case CloseSend(r) => s.(m := Offer(s.m, s.m.requests[r], Nil), closer := Deleting(r))
    case CloseDelete => s.(m := DropRequest(s.m, s.closer.id), closer := Scanning)
    case CloseEnd => s.(closer := Idle)
  }

  /** A run: any interleaving of any number of visitors, responders and shutdowns. */
  ghost predicate Behaviour(states: seq<State>, events: seq<Event>) {
    && |states| == |events| + 1
    && Init(states[0])
    && forall i | 0 <= i < |events| :: Enabled(states[i], events[i]) && states[i + 1] == Next(states[i], events[i])
  }

  // ------------------------------------------------------------------ the invariant

  ghost predicate ChannelsArePrivate(s: State) {
    && (forall r | r in s.visitors :: s.visitors[r].ch < |s.m.chans|)
    && (forall r, q | r in s.visitors && q in s.visitors && r != q :: s.visitors[r].ch != s.visitors[q].ch)
  }

  ghost predicate RequestsBelongToVisitors(s: State) {
    forall r | r in s.m.requests ::
      r in s.visitors && s.m.requests[r] == s.visitors[r].ch && !s.visitors[r].pc.Returned?
  }

  /** A visitor that no longer needs its entry: it has left the wait, or a value is there for it. */
  ghost predicate Woken(s: State, r: ReqId) {
    && r in s.visitors && s.visitors[r].ch < |s.m.chans|
    && (s.visitors[r].Pending() ==> s.m.chans[s.visitors[r].ch].buf.Some?)
  }

  ghost predicate NobodyIsLost(s: State) {
    && (forall r | r in s.visitors :: r in s.m.requests || Woken(s, r))
    && (forall k | 0 <= k < |s.calls| && s.calls[k].pc.Unregistering? :: Woken(s, s.calls[k].id))
    && (s.closer.Deleting? ==> Woken(s, s.closer.id))
  }

  ghost predicate SendersKnowTheirChannel(s: State) {
    forall k | 0 <= k < |s.calls| && s.calls[k].pc.Sending? ::
      s.calls[k].id in s.visitors && s.visitors[s.calls[k].id].ch == s.calls[k].pc.ch
  }

  function Buffered(c: Chan): seq<Message> {
    if c.buf.Some? then [c.buf.value] else []
  }

  /** What a visitor got is the first value ever put on its channel, and nothing else was taken. */
  ghost predicate FirstTaken(c: Chan, pc: Visit) {
    if (pc.Leaving? || pc.Returned?) && pc.outcome.Consumed() then
      |c.puts| > 0 && pc.outcome == Received(c.puts[0]) && c.puts[1..] == Buffered(c)
    else
      c.puts == Buffered(c)
  }

  ghost predicate TookTheFirst(s: State, r: ReqId)
    requires r in s.visitors && s.visitors[r].ch < |s.m.chans|
  {
    FirstTaken(s.m.chans[s.visitors[r].ch], s.visitors[r].pc)
  }

  /** Call `k` put its response on the channel of the request it named, and it is past its send. */
  ghost predicate PutByOwnCall(s: State, c: ChanId, k: nat) {
    && k < |s.calls| && (s.calls[k].pc.Unregistering? || s.calls[k].pc == Finished(true))
    && s.calls[k].id in s.visitors && s.visitors[s.calls[k].id].ch == c
  }

  ghost predicate Provenance(s: State) {
    forall c, i | 0 <= c < |s.m.chans| && 0 <= i < |s.m.chans[c].puts| && s.m.chans[c].puts[i].Answer? ::
      PutByOwnCall(s, c, s.m.chans[c].puts[i].call)
  }

  ghost predicate Inv(s: State) {
    && ChannelsArePrivate(s)
    && RequestsBelongToVisitors(s)
    && NobodyIsLost(s)
    && SendersKnowTheirChannel(s)
    && (forall r | r in s.visitors :: TookTheFirst(s, r))
    && Provenance(s)
  }

  lemma StepKeepsPrivacy(s: State, e: Event)
    requires ChannelsArePrivate(s) && Enabled(s, e)
    ensures ChannelsArePrivate(Next(s, e))
    ensures |s.m.chans| <= |Next(s, e).m.chans|
    ensures forall r | r in s.visitors :: r in Next(s, e).visitors && Next(s, e).visitors[r].ch == s.visitors[r].ch
  {
  }

  lemma StepKeepsRequests(s: State, e: Event)
    requires RequestsBelongToVisitors(s) && Enabled(s, e)
    ensures RequestsBelongToVisitors(Next(s, e))
  {
  }

  lemma StepKeepsSenders(s: State, e: Event)
    requires RequestsBelongToVisitors(s) && SendersKnowTheirChannel(s) && Enabled(s, e)
    ensures SendersKnowTheirChannel(Next(s, e))
  {
  }

  lemma StepKeepsWoken(s: State, e: Event, r: ReqId)
    requires ChannelsArePrivate(s) && Woken(s, r) && Enabled(s, e)
    ensures Woken(Next(s, e), r)
  {
  }

  /** Whoever is about to delete an entry has already woken its visitor. */
  lemma StepWakesBeforeDeleting(s: State, e: Event)
    requires ChannelsArePrivate(s) && RequestsBelongToVisitors(s) && SendersKnowTheirChannel(s) && NobodyIsLost(s)
    requires Enabled(s, e)
    ensures
      var s' := Next(s, e);
      && (forall k | 0 <= k < |s'.calls| && s'.calls[k].pc.Unregistering? :: Woken(s', s'.calls[k].id))
      && (s'.closer.Deleting? ==> Woken(s', s'.closer.id))
  {
    var s' := Next(s, e);
    forall k | 0 <= k < |s'.calls| && s'.calls[k].pc.Unregistering? ensures Woken(s', s'.calls[k].id) {
      if k < |s.calls| && s.calls[k].pc.Unregistering? {
        StepKeepsWoken(s, e, s.calls[k].id);
      } else {
        assert e == TrySend(k);
      }
    }
    if s'.closer.Deleting? && s.closer.Deleting? {
      StepKeepsWoken(s, e, s.closer.id);
    }
  }

  lemma StepLosesNobody(s: State, e: Event, r: ReqId)
    requires ChannelsArePrivate(s) && NobodyIsLost(s) && Enabled(s, e) && r in Next(s, e).visitors
    ensures r in Next(s, e).m.requests || Woken(Next(s, e), r)
  {
    if r in s.visitors && r !in Next(s, e).m.requests {
      assert Woken(s, r);
      StepKeepsWoken(s, e, r);
    }
  }

  lemma OfferKeepsOrder(c: Chan, v: Message, pc: Visit)
    requires FirstTaken(c, pc)
    ensures FirstTaken(Offered(c, v), pc)
  {
  }

  lemma StepKeepsOrder(s: State, e: Event, r: ReqId)
    requires ChannelsArePrivate(s) && Enabled(s, e)
    requires r in s.visitors ==> TookTheFirst(s, r)
    requires r in Next(s, e).visitors && Next(s, e).visitors[r].ch < |Next(s, e).m.chans|
    ensures TookTheFirst(Next(s, e), r)
  {
    if r in s.visitors {
      var ch, pc := s.visitors[r].ch, s.visitors[r].pc;
      match e
      case TrySend(k) =>
        OfferKeepsOrder(s.m.chans[ch], Answer(k), pc);
        assert Next(s, e).visitors[r].pc == pc;
      case CloseSend(_) =>
        OfferKeepsOrder(s.m.chans[ch], Nil, pc);
        assert Next(s, e).visitors[r].pc == pc;
      case Receive(q) =>
        assert q != r ==> Next(s, e).m.chans[ch] == s.m.chans[ch];
      case _ =>
        assert Next(s, e).m.chans[ch] == s.m.chans[ch];
    }
  }

  lemma StepKeepsProvenance(s: State, e: Event, c: ChanId, i: nat)
    requires ChannelsArePrivate(s) && SendersKnowTheirChannel(s) && Provenance(s) && Enabled(s, e)
    requires c < |Next(s, e).m.chans| && i < |Next(s, e).m.chans[c].puts| && Next(s, e).m.chans[c].puts[i].Answer?
    ensures PutByOwnCall(Next(s, e), c, Next(s, e).m.chans[c].puts[i].call)
  {
    if c < |s.m.chans| && i < |s.m.chans[c].puts| {
      assert PutByOwnCall(s, c, s.m.chans[c].puts[i].call);
    }
  }

  lemma StepKeepsInv(s: State, e: Event)
    requires Inv(s) && Enabled(s, e)
    ensures Inv(Next(s, e))
  {
    var s' := Next(s, e);
    StepKeepsPrivacy(s, e);
    StepKeepsRequests(s, e);
    StepKeepsSenders(s, e);
    StepWakesBeforeDeleting(s, e);
    forall r | r in s'.visitors ensures (r in s'.m.requests || Woken(s', r)) && TookTheFirst(s', r) {
      StepLosesNobody(s, e, r);
      StepKeepsOrder(s, e, r);
    }
    forall c, i | 0 <= c < |s'.m.chans| && 0 <= i < |s'.m.chans[c].puts| && s'.m.chans[c].puts[i].Answer?
      ensures PutByOwnCall(s', c, s'.m.chans[c].puts[i].call)
    {
      StepKeepsProvenance(s, e, c, i);
    }
  }

  lemma {:induction false} RunKeepsInv(states: seq<State>, events: seq<Event>, n: nat)
    requires Behaviour(states, events) && n < |states|
    ensures Inv(states[n])
  {
    if n > 0 {
      RunKeepsInv(states, events, n - 1);
      StepKeepsInv(states[n - 1], events[n - 1]);
    }
  }

  // ------------------------------------------------------------------ the results

  /** No lost wakeup: in every interleaving a visitor that has not left its wait is still in
      `requests`, under its own channel, or a value already lies in that channel. */
  lemma NoLostWakeup(states: seq<State>, events: seq<Event>, n: nat, r: ReqId)
    requires Behaviour(states, events) && n < |states|
    requires r in states[n].visitors && states[n].visitors[r].Pending()
    ensures
      var s := states[n];
      var c := s.visitors[r].ch;
      c < |s.m.chans| && ((r in s.m.requests && s.m.requests[r] == c) || s.m.chans[c].buf.Some?)
  {
    RunKeepsInv(states, events, n);
    assert r in states[n].m.requests || Woken(states[n], r);
  }

  /** An entry of `requests` once gone never comes back, because its identifier is not reused. */
  lemma {:induction false} EntriesStayGone(states: seq<State>, events: seq<Event>, n: nat, later: nat, r: ReqId)
    requires Behaviour(states, events) && n <= later < |states|
    requires r in states[n].visitors && r !in states[n].m.requests
    ensures r in states[later].visitors && r !in states[later].m.requests
  {
    if n < later {
      EntriesStayGone(states, events, n, later - 1, r);
      assert Enabled(states[later - 1], events[later - 1]);
      assert states[later] == Next(states[later - 1], events[later - 1]);
    }
  }

  /** When `CloseAll` releases the lock, and at every later moment, every visitor that had registered
      before either has left its wait or finds a value in its channel: it can always be received. */
  lemma ShutdownWakesEveryVisitor(states: seq<State>, events: seq<Event>, n: nat, later: nat, r: ReqId)
    requires Behaviour(states, events) && n < |events| && events[n].CloseEnd?
    requires n < later < |states|
    requires r in states[n].visitors
    ensures r in states[later].visitors && Woken(states[later], r)
    ensures states[later].visitors[r].pc.Waiting? ==> Enabled(states[later], Receive(r))
  {
    assert Enabled(states[n], events[n]);
    EntriesStayGone(states, events, n, later, r);
    RunKeepsInv(states, events, later);
  }

  /** Routing: a visitor that got a reply got the response of a call that named its own request, and
      a visitor that was cancelled got the shutdown's nil.  Either way it is the first value ever put
      on its own channel. */
  lemma RepliesReachTheirRequest(states: seq<State>, events: seq<Event>, n: nat, r: ReqId)
    requires Behaviour(states, events) && n < |states|
    requires
      && r in states[n].visitors
      && (states[n].visitors[r].pc.Leaving? || states[n].visitors[r].pc.Returned?)
      && states[n].visitors[r].pc.outcome.Consumed()
    ensures
      var s := states[n];
      var v := s.visitors[r];
      && v.ch < |s.m.chans| && |s.m.chans[v.ch].puts| > 0
      && v.pc.outcome == Received(s.m.chans[v.ch].puts[0])
      && (v.pc.outcome.Reply? ==> v.pc.outcome.call < |s.calls| && s.calls[v.pc.outcome.call].id == r)
  {
    RunKeepsInv(states, events, n);
    var s := states[n];
    var c := s.visitors[r].ch;
    assert TookTheFirst(s, r);
    if s.m.chans[c].puts[0].Answer? {
      var k := s.m.chans[c].puts[0].call;
      assert PutByOwnCall(s, c, k);
    }
  }

  /** A channel buffers one value and is given at most two in its life: the one its visitor takes and
      one late response that nobody reads. */
  lemma AtMostTwoValuesArePut(states: seq<State>, events: seq<Event>, n: nat, r: ReqId)
    requires Behaviour(states, events) && n < |states| && r in states[n].visitors
    ensures
      var s := states[n];
      var v := s.visitors[r];
      && v.ch < |s.m.chans| && |s.m.chans[v.ch].puts| <= 2
      && (v.Pending() ==> |s.m.chans[v.ch].puts| <= 1)
  {
    RunKeepsInv(states, events, n);
    var s := states[n];
    assert TookTheFirst(s, r);
    var puts := s.m.chans[s.visitors[r].ch].puts;
    assert |puts| > 0 ==> |puts| == 1 + |puts[1..]|;
  }

  /** Call `k` has put its response, and the channel of the request it named remembers it. */
  ghost predicate AcceptedWasPut(s: State, k: nat)
    requires k < |s.calls|
  {
    s.calls[k].pc.Unregistering? || s.calls[k].pc == Finished(true) ==>
      && s.calls[k].id in s.visitors && s.visitors[s.calls[k].id].ch < |s.m.chans|
      && Answer(k) in s.m.chans[s.visitors[s.calls[k].id].ch].puts
  }

  lemma StepKeepsAccepted(s: State, e: Event, k: nat)
    requires Inv(s) && Enabled(s, e) && k < |Next(s, e).calls|
    requires k < |s.calls| ==> AcceptedWasPut(s, k)
    ensures AcceptedWasPut(Next(s, e), k)
  {
    if e == TrySend(k) {
      var c := s.calls[k].pc.ch;
      var puts := s.m.chans[c].puts;
      assert (puts + [Answer(k)])[|puts|] == Answer(k);
    }
  }

  lemma {:induction false} RunKeepsAccepted(states: seq<State>, events: seq<Event>, n: nat, k: nat)
    requires Behaviour(states, events) && n < |states| && k < |states[n].calls|
    ensures AcceptedWasPut(states[n], k)
  {
    if n > 0 {
      RunKeepsInv(states, events, n - 1);
      if k < |states[n - 1].calls| {
        RunKeepsAccepted(states, events, n - 1, k);
      }
      StepKeepsAccepted(states[n - 1], events[n - 1], k);
    }
  }

  /** A finished call reports true exactly when its response lies among the values put on the channel of
      the request it named, and no other channel ever holds it: a late or duplicate response never
      reaches another request. */
  lemma ResponsesStayOnTheirChannel(states: seq<State>, events: seq<Event>, n: nat, k: nat, c: ChanId)
    requires Behaviour(states, events) && n < |states|
    requires k < |states[n].calls| && states[n].calls[k].pc.Finished?
    requires c < |states[n].m.chans|
    ensures
      var s := states[n];
      Answer(k) in s.m.chans[c].puts <==>
        s.calls[k].pc.handled && s.calls[k].id in s.visitors && s.visitors[s.calls[k].id].ch == c
    ensures states[n].calls[k].pc.handled ==> states[n].calls[k].id in states[n].visitors
  {
    RunKeepsInv(states, events, n);
    RunKeepsAccepted(states, events, n, k);
    var s := states[n];
    if Answer(k) in s.m.chans[c].puts {
      var i :| 0 <= i < |s.m.chans[c].puts| && s.m.chans[c].puts[i] == Answer(k);
      assert PutByOwnCall(s, c, s.m.chans[c].puts[i].call);
    }
  }

  /** When every visitor has returned, no entry is left behind. */
  lemma NoEntryIsLeaked(states: seq<State>, events: seq<Event>, n: nat)
    requires Behaviour(states, events) && n < |states|
    requires forall r | r in states[n].visitors :: states[n].visitors[r].pc.Returned?
    ensures states[n].m.requests == map[]
  {
    RunKeepsInv(states, events, n);
    assert forall r | r in states[n].m.requests :: false;
  }

  // ------------------------------------------------------------------ a delivered response

  /** The entry that call `k` was for is gone, and its visitor is known, so that it does not come back. */
  ghost predicate HandledIsGone(s: State, k: nat) {
    && k < |s.calls| && s.calls[k].pc == Finished(true)
    && s.calls[k].id in s.visitors && s.calls[k].id !in s.m.requests
  }

  lemma StepKeepsHandledGone(s: State, e: Event, k: nat)
    requires Enabled(s, e) && HandledIsGone(s, k)
    ensures HandledIsGone(Next(s, e), k) && Next(s, e).calls[k] == s.calls[k]
  {
  }

  lemma {:induction false} HandledWasGone(states: seq<State>, events: seq<Event>, n: nat, k: nat)
    requires Behaviour(states, events) && n < |states| && k < |states[n].calls| && states[n].calls[k].pc == Finished(true)
    ensures HandledIsGone(states[n], k)
  {
    if n > 0 {
      RunKeepsInv(states, events, n - 1);
      assert Enabled(states[n - 1], events[n - 1]) && states[n] == Next(states[n - 1], events[n - 1]);
      if k < |states[n - 1].calls| && states[n - 1].calls[k].pc == Finished(true) {
        HandledWasGone(states, events, n - 1, k);
        StepKeepsHandledGone(states[n - 1], events[n - 1], k);
      } else {
        assert events[n - 1] == CallUnregister(k);
        assert Woken(states[n - 1], states[n - 1].calls[k].id);
      }
    }
  }

  /** Once a call has handled its response the request is not in `requests`, then or later. */
  lemma {:induction false} HandledRequestsAreGone(states: seq<State>, events: seq<Event>, n: nat, later: nat, k: nat)
    requires Behaviour(states, events) && n <= later < |states|
    requires k < |states[n].calls| && states[n].calls[k].pc == Finished(true)
    ensures k < |states[later].calls| && states[later].calls[k] == states[n].calls[k]
    ensures HandledIsGone(states[later], k)
  {
    if n == later {
      HandledWasGone(states, events, n, k);
    } else {
      HandledRequestsAreGone(states, events, n, later - 1, k);
      assert Enabled(states[later - 1], events[later - 1]) && states[later] == Next(states[later - 1], events[later - 1]);
      StepKeepsHandledGone(states[later - 1], events[later - 1], k);
    }
  }

  /** Call `j` had not looked for its channel yet. */
  ghost predicate NotLooked(s: State, j: nat) {
    j < |s.calls| ==> s.calls[j].pc.Looking?
  }

  /** Call `j`, if there is one and it is for `r`, has not found a channel. */
  ghost predicate FoundNothing(s: State, j: nat, r: ReqId) {
    j < |s.calls| && s.calls[j].id == r ==> s.calls[j].pc.Looking? || s.calls[j].pc == Finished(false)
  }

  lemma StepFindsNothing(s: State, e: Event, t: State, j: nat, r: ReqId)
    requires Enabled(s, e) && t == Next(s, e) && r !in s.m.requests
    ensures FoundNothing(s, j, r) ==> FoundNothing(t, j, r)
  {
  }

  /** While `r` is gone, nobody finds its channel. */
  lemma RunFindsNothing(states: seq<State>, events: seq<Event>, n: nat, i: nat, k: nat, j: nat)
    requires Behaviour(states, events) && n <= i < |events|
    requires k < |states[n].calls| && states[n].calls[k].pc == Finished(true)
    ensures FoundNothing(states[i], j, states[n].calls[k].id) ==> FoundNothing(states[i + 1], j, states[n].calls[k].id)
  {
    HandledRequestsAreGone(states, events, n, i, k);
    StepFindsNothing(states[i], events[i], states[i + 1], j, states[n].calls[k].id);
  }

  lemma {:induction false} LooksInVain(states: seq<State>, n: nat, later: nat, j: nat, r: ReqId)
    requires n <= later < |states| && FoundNothing(states[n], j, r)
    requires forall i: nat | n <= i < later :: FoundNothing(states[i], j, r) ==> FoundNothing(states[i + 1], j, r)
    ensures FoundNothing(states[later], j, r)
  {
    if n < later {
      LooksInVain(states, n, later - 1, j, r);
      assert FoundNothing(states[later - 1], j, r) ==> FoundNothing(states[later - 1 + 1], j, r);
    }
  }

  /** A second response for the same request is turned away if its call begins after the first was handled, or has
      not looked for the channel by then, whether or not the visitor has returned. */
  lemma LateResponsesAreRefused(states: seq<State>, events: seq<Event>, n: nat, later: nat, k: nat, j: nat)
    requires Behaviour(states, events) && n <= later < |states|
    requires k < |states[n].calls| && states[n].calls[k].pc == Finished(true)
    requires NotLooked(states[n], j) && j < |states[later].calls| && states[later].calls[j].id == states[n].calls[k].id
    ensures states[later].calls[j].pc.Finished? ==> !states[later].calls[j].pc.handled
  {
    var r := states[n].calls[k].id;
    forall i: nat | n <= i < later ensures FoundNothing(states[i], j, r) ==> FoundNothing(states[i + 1], j, r) {
      RunFindsNothing(states, events, n, i, k, j);
    }
    LooksInVain(states, n, later, j, r);
  }

  // ------------------------------------------------------------------ the manager itself

  /** `HandleResponse` run without interruption. */
  function AfterResponse(m: Manager, r: ReqId, v: Message): Manager
    requires m.Valid()
  {
    if r in m.requests && m.chans[m.requests[r]].buf.None? then
      DropRequest(Offer(m, m.requests[r], v), r)
    else
      m
  }

  /** `CloseAll` run without interruption: every registered channel is offered nil, no entry is left. */
  ghost function AfterCloseAll(m: Manager): Manager {
    Manager(map[], seq(|m.chans|, c requires 0 <= c < |m.chans| =>
      if c in m.requests.Values then Offered(m.chans[c], Nil) else m.chans[c]))
  }

  /** The four steps of one call, taken together, are `AfterResponse`. */
  lemma HandleResponseIsItsSteps(s: State, r: ReqId) returns (t: State)
    requires Inv(s) && s.closer.Idle?
    ensures t.m == AfterResponse(s.m, r, Answer(|s.calls|))
    ensures |t.calls| == |s.calls| + 1 && t.calls[|s.calls|].pc.Finished?
    ensures t.calls[|s.calls|].pc.handled <==> r in s.m.requests && s.m.chans[s.m.requests[r]].buf.None?
    ensures s.m.Valid()
    ensures t.visitors == s.visitors && |t.m.chans| == |s.m.chans|
    ensures t.m.requests == if t.calls[|s.calls|].pc.handled then s.m.requests - {r} else s.m.requests
    ensures forall c | 0 <= c < |s.m.chans| ::
      t.m.chans[c].buf == if t.calls[|s.calls|].pc.handled && c == s.m.requests[r] then Some(Answer(|s.calls|)) else s.m.chans[c].buf
  {
    var k := |s.calls|;
    t := Next(Next(s, Respond(r)), Lookup(k));
    if t.calls[k].pc.Sending? {
      t := Next(t, TrySend(k));
      if t.calls[k].pc.Unregistering? {
        t := Next(t, CallUnregister(k));
      }
    }
  }

  /** So whenever a response comes for a visitor that waits for its first, the visitor can take it. */
  lemma AResponseReachesItsVisitor(states: seq<State>, events: seq<Event>, n: nat, r: ReqId) returns (t: State)
    requires Behaviour(states, events) && n < |states| && states[n].closer.Idle?
    requires r in states[n].visitors && states[n].visitors[r].pc.Waiting? && r in states[n].m.requests
    requires states[n].m.requests[r] < |states[n].m.chans| && states[n].m.chans[states[n].m.requests[r]].buf.None?
    ensures Enabled(t, Receive(r)) && r !in t.m.requests
    ensures Next(t, Receive(r)).visitors[r].pc == Leaving(Reply(|states[n].calls|))
  {
    RunKeepsInv(states, events, n);
    t := HandleResponseIsItsSteps(states[n], r);
    assert t.m.chans[states[n].visitors[r].ch].buf == Some(Answer(|states[n].calls|));
  }

  ghost predicate ClosedAt(before: Manager, now: Manager, c: ChanId) {
    exists r :: r in before.requests && r !in now.requests && before.requests[r] == c
  }

  /** `CloseAll` part way through: the entries already deleted are those whose channels were offered nil. */
  ghost predicate PartlyClosed(before: Manager, now: Manager) {
    && |now.chans| == |before.chans|
    && (forall r | r in now.requests :: r in before.requests && now.requests[r] == before.requests[r])
    && (forall c | 0 <= c < |now.chans| ::
          now.chans[c] == if ClosedAt(before, now, c) then Offered(before.chans[c], Nil) else before.chans[c])
  }

  lemma CancelClosesMore(before: Manager, now: Manager, r: ReqId)
    requires before.Valid() && PartlyClosed(before, now) && r in now.requests
    ensures PartlyClosed(before, DropRequest(Offer(now, now.requests[r], Nil), r))
  {
    var next := DropRequest(Offer(now, now.requests[r], Nil), r);
    forall c | 0 <= c < |next.chans|
      ensures next.chans[c] == if ClosedAt(before, next, c) then Offered(before.chans[c], Nil) else before.chans[c]
    {
      if c == now.requests[r] {
        assert before.requests[r] == c && r !in next.requests;
      } else if ClosedAt(before, next, c) {
        var q :| q in before.requests && q !in next.requests && before.requests[q] == c;
        assert q !in now.requests;
      } else {
        assert forall q | q in before.requests && q !in now.requests :: q !in next.requests;
      }
    }
  }

  lemma EmptyIsClosed(before: Manager, now: Manager)
    requires before.Valid() && PartlyClosed(before, now) && now.requests == map[]
    ensures now == AfterCloseAll(before)
  {
    forall c | 0 <= c < |now.chans| ensures now.chans[c] == AfterCloseAll(before).chans[c] {
      if c in before.requests.Values {
        var r :| r in before.requests && before.requests[r] == c;
        assert ClosedAt(before, now, c);
      }
    }
  }

  class Channel {
    ghost const addr: ChanId
    var buf: Option<Message>
    ghost var puts: seq<Message>

    ghost function Value(): Chan reads this { Chan(buf, puts) }

    constructor (ghost addr: ChanId)
      ensures this.addr == addr && Value() == Chan(None, [])
    {
      this.addr := addr;
      buf, puts := None, [];
    }

    method TrySend(v: Message) returns (sent: bool)
      modifies this
      ensures Value() == Offered(old(Value()), v)
      ensures sent <==> old(buf).None?
      ensures buf == if sent then Some(v) else old(buf)
    {
      sent := buf.None?;
      if sent {
        buf, puts := Some(v), puts + [v];
      }
    }
  }

  class WebSocketManager {
    var requests: map<ReqId, Channel>
    ghost var heap: seq<Channel>    // every channel made so far, by address

    ghost predicate Valid()
      reads this
    {
      && (forall i | 0 <= i < |heap| :: heap[i].addr == i)
      && (forall r | r in requests :: requests[r] in heap)
    }

    ghost function View(): Manager
      reads this, heap
    {
      Manager(map r | r in requests :: requests[r].addr, seq(|heap|, i requires 0 <= i < |heap| reads this, heap => heap[i].Value()))
    }

    constructor ()
      ensures Valid() && View() == Manager(map[], [])
    {
      requests, heap := map[], [];
    }

    method RegisterRequest(r: ReqId) returns (ch: Channel)
      requires Valid()
      modifies this
      ensures Valid() && fresh(ch) && heap == old(heap) + [ch]
      ensures View() == AddRequest(old(View()), r)
      ensures requests == old(requests)[r := ch] && ch.buf.None?
    {
      ch := new Channel(|heap|);
      requests := requests[r := ch];
      heap := heap + [ch];
    }

    method UnregisterRequest(r: ReqId)
      requires Valid()
      modifies this
      ensures Valid() && heap == old(heap)
      ensures View() == DropRequest(old(View()), r)
      ensures requests == old(requests) - {r}
    {
      requests := requests - {r};
    }

    method HandleResponse(r: ReqId, v: Message) returns (handled: bool)
      requires Valid()
      modifies this, heap
      ensures Valid() && heap == old(heap) && old(View()).Valid()
      ensures View() == AfterResponse(old(View()), r, v)
      ensures handled <==> r in old(requests) && old(requests[r].buf).None?
      ensures requests == if handled then old(requests) - {r} else old(requests)
      ensures forall ch | ch in heap :: ch.buf == if handled && ch == old(requests)[r] then Some(v) else old(ch.buf)
    {
      if r in requests {
        var ch := requests[r];
        var sent := ch.TrySend(v);
        if sent {
          UnregisterRequest(r);
          return true;
        }
      }
      return false;
    }

    /** One round of the loop in `CloseAll`: offer nil, then delete the entry. */
    method Cancel(r: ReqId)
      requires Valid() && r in requests
      modifies this, heap
      ensures Valid() && heap == old(heap) && old(View()).Valid()
      ensures requests == old(requests) - {r}
      ensures forall ch | ch in heap :: ch.buf == if ch == old(requests)[r] && old(ch.buf).None? then Some(Nil) else old(ch.buf)
      ensures View() == DropRequest(Offer(old(View()), old(requests[r].addr), Nil), r)
    {
      var _ := requests[r].TrySend(Nil);
      requests := requests - {r};
    }

    method CloseAll()
      requires Valid()
      modifies this, heap
      ensures Valid() && heap == old(heap)
      ensures View() == AfterCloseAll(old(View())) && requests == map[]
      ensures forall r | r in old(requests) ::
        old(requests)[r].buf == if old(requests[r].buf).None? then Some(Nil) else old(requests[r].buf)
      ensures forall ch | ch in heap && ch !in old(requests).Values :: ch.buf == old(ch.buf)
    {
      ghost var before := View();
      while requests != map[]
        invariant Valid() && heap == old(heap) && before.Valid()
        invariant PartlyClosed(before, View())
        decreases requests.Keys
      {
        var r :| r in requests;
        CancelClosesMore(before, View(), r);
        Cancel(r);
      }
      EmptyIsClosed(before, View());
      ClosedOutright();
    }

    twostate lemma ClosedOutright()
      requires old(Valid()) && heap == old(heap) && View() == AfterCloseAll(old(View()))
      ensures requests == map[]
      ensures forall r | r in old(requests) ::
        old(requests)[r].buf == if old(requests[r].buf).None? then Some(Nil) else old(requests[r].buf)
      ensures forall ch | ch in heap && ch !in old(requests).Values :: ch.buf == old(ch.buf)
    {
      assert requests.Keys == View().requests.Keys == {};
      forall i: nat | i < |heap| ensures heap[i].Value() ==
        if i in old(View()).requests.Values then Offered(old(heap[i].Value()), Nil) else old(heap[i].Value())
      {
        assert View().chans[i] == heap[i].Value();
      }
      forall ch | ch in heap && ch !in old(requests).Values ensures ch.buf == old(ch.buf) {
        var i :| 0 <= i < |heap| && heap[i] == ch;
        assert i !in old(View()).requests.Values;
      }
      forall r | r in old(requests)
        ensures old(requests)[r].buf == if old(requests[r].buf).None? then Some(Nil) else old(requests[r].buf)
      {
        var i :| 0 <= i < |heap| && heap[i] == old(requests)[r];
        assert old(View()).requests[r] == i;
      }
    }
  }
}
