/** What the client's TCP forwarder sends, and how it counts: `forwardLocalToRemote`, which reads into one
    reused buffer, and `HandleRemoteData`, which adds to the same counter from other goroutines. */
module TcpStream {

  newtype byte = x: int | 0 <= x < 256

  const CAPACITY := 4096

  ghost function Flatten(chunks: seq<seq<byte>>): seq<byte> {
    if chunks == [] then [] else Flatten(chunks[..|chunks| - 1]) + chunks[|chunks| - 1]
  }

  lemma FlattenAppend(chunks: seq<seq<byte>>, chunk: seq<byte>)
    ensures Flatten(chunks + [chunk]) == Flatten(chunks) + chunk
  {
    assert (chunks + [chunk])[..|chunks|] == chunks;
  }

  // ------------------------------------------------------------------ every interleaving

  type Addr = nat

  /** Where the forwarder is: `n` bytes of the buffer were read, counted, copied into the array at `data`, sent;
      `lost` is what it had read but not sent when it gave up. */
  datatype Pc = Reading | Got(n: nat) | Counted(n: nat) | Copied(n: nat, data: Addr) | Sent(n: nat) | Ended(lost: seq<byte>)

  datatype State = State(
    heap: seq<seq<byte>>,          // the byte arrays, by address
    buffer: Addr,                  // the array that every read goes into
    pc: Pc,
    received: int,                 // BytesReceived
    sent: int,                     // BytesSent
    local: seq<byte>,              // all bytes read from the local connection
    messages: seq<Addr>,           // the Data of the messages sent, in order
    written: nat,                  // bytes that HandleRemoteData wrote to the local connection
    uncounted: nat)                // those of them it has yet to add to BytesReceived

  datatype Event =
    | Read(chunk: seq<byte>)
    | CountRead
    | Copy
    | Send(ok: bool)
    | CountSent
    | Quit                         // stop seen or read failed
    | RemoteWrite(n: nat)
    | RemoteCount(n: nat)

  predicate Enabled(s: State, e: Event) {
    match e
    case Read(chunk) => s.pc.Reading? && |chunk| <= CAPACITY && s.buffer < |s.heap| && |s.heap[s.buffer]| == CAPACITY
    case CountRead => s.pc.Got?
    case Copy => s.pc.Counted? && s.buffer < |s.heap| && s.pc.n <= |s.heap[s.buffer]|
    case Send(_) => s.pc.Copied? && s.pc.data < |s.heap|
    case CountSent => s.pc.Sent?
    case Quit => s.pc.Reading?
    case RemoteWrite(_) => true
    case RemoteCount(n) => n <= s.uncounted
  }

  function Next(s: State, e: Event): State
    requires Enabled(s, e)
  {
    match e
    case Read(chunk) =>
      s.(heap := s.heap[s.buffer := chunk + s.heap[s.buffer][|chunk|..]], pc := Got(|chunk|), local := s.local + chunk)
    case CountRead => s.(pc := Counted(s.pc.n), received := s.received + s.pc.n)
    case Copy => s.(heap := s.heap + [s.heap[s.buffer][..s.pc.n]], pc := Copied(s.pc.n, |s.heap|))
    case Send(ok) =>
      if ok then s.(pc := Sent(s.pc.n), messages := s.messages + [s.pc.data]) else s.(pc := Ended(s.heap[s.pc.data]))
    case CountSent => s.(pc := Reading, sent := s.sent + s.pc.n)
    case Quit => s.(pc := Ended([]))
    case RemoteWrite(n) => s.(written := s.written + n, uncounted := s.uncounted + n)
    case RemoteCount(n) => s.(received := s.received + n, uncounted := s.uncounted - n)
  }

  ghost predicate Init(s: State) {
    |s.heap| == 1 && |s.heap[0]| == CAPACITY && s == State(s.heap, 0, Reading, 0, 0, [], [], 0, 0)
  }

  ghost predicate Behaviour(states: seq<State>, events: seq<Event>) {
    && |states| == |events| + 1
    && Init(states[0])
    && forall i: nat | i < |events| :: StepAt(states, events, i)
  }

  ghost predicate StepAt(states: seq<State>, events: seq<Event>, i: nat) {
    i + 1 < |states| && i < |events| && Enabled(states[i], events[i]) && states[i + 1] == Next(states[i], events[i])
  }

  /** What lies at an address. */
  ghost function At(s: State, a: Addr): seq<byte> {
    if a < |s.heap| then s.heap[a] else []
  }

  /** What whoever looks at the messages now finds in them, one after the other. */
  ghost function Delivered(s: State): seq<byte> {
    Flatten(seq(|s.messages|, k requires 0 <= k < |s.messages| => At(s, s.messages[k])))
  }

  /** Read and not sent. */
  ghost function Unsent(s: State): seq<byte> {
    match s.pc
    case Got(n) => if n <= |At(s, s.buffer)| then At(s, s.buffer)[..n] else []
    case Counted(n) => if n <= |At(s, s.buffer)| then At(s, s.buffer)[..n] else []
    case Copied(_, data) => At(s, data)
    case Ended(lost) => lost
    case _ => []
  }

  /** Nobody writes to an array that was sent, or is about to be. */
  ghost predicate Apart(s: State) {
    && s.buffer < |s.heap| && |s.heap[s.buffer]| == CAPACITY
    && (forall k | 0 <= k < |s.messages| :: s.messages[k] < |s.heap| && s.messages[k] != s.buffer)
    && (s.pc.Copied? ==> s.pc.data < |s.heap| && s.pc.data != s.buffer && |s.heap[s.pc.data]| == s.pc.n)
  }

  ghost predicate Agrees(s: State) {
    && ((s.pc.Got? || s.pc.Counted? || s.pc.Copied? || s.pc.Sent?) ==> s.pc.n <= CAPACITY)
    && |Unsent(s)| <= CAPACITY && s.uncounted <= s.written
    && s.local == Delivered(s) + Unsent(s)
    && s.received == |s.local| - (if s.pc.Got? then s.pc.n else 0) + s.written - s.uncounted
    && s.sent == |Delivered(s)| - (if s.pc.Sent? then s.pc.n else 0)
  }

  ghost predicate Inv(s: State) {
    Apart(s) && Agrees(s)
  }

  /** No step changes what lies in an array that was sent. */
  lemma StepKeepsMessages(s: State, e: Event)
    requires Apart(s) && Enabled(s, e)
    ensures Apart(Next(s, e)) && s.messages <= Next(s, e).messages
    ensures forall k | 0 <= k < |s.messages| :: At(Next(s, e), s.messages[k]) == At(s, s.messages[k])
  {
  }

  lemma StepKeepsDelivered(s: State, e: Event)
    requires Apart(s) && Enabled(s, e)
    ensures Delivered(Next(s, e)) == Delivered(s) + if e == Send(true) then At(s, s.pc.data) else []
  {
    var t := Next(s, e);
    StepKeepsMessages(s, e);
    var before := seq(|s.messages|, k requires 0 <= k < |s.messages| => At(s, s.messages[k]));
    var after := seq(|t.messages|, k requires 0 <= k < |t.messages| => At(t, t.messages[k]));
    if e == Send(true) {
      FlattenAppend(before, At(s, s.pc.data));
      assert after == before + [At(s, s.pc.data)];
    } else {
      assert after == before;
    }
  }

  lemma StepKeepsInv(s: State, e: Event)
    requires Inv(s) && Enabled(s, e)
    ensures Inv(Next(s, e))
  {
    StepKeepsMessages(s, e);
    StepKeepsDelivered(s, e);
    if e.Read? {
      assert Next(s, e).heap[s.buffer][..|e.chunk|] == e.chunk;
    }
  }

  lemma {:induction false} RunKeepsInv(states: seq<State>, events: seq<Event>, n: nat)
    requires Behaviour(states, events) && n < |states|
    ensures Inv(states[n])
  {
    if n > 0 {
      RunKeepsInv(states, events, n - 1);
      assert StepAt(states, events, n - 1);
      StepKeepsInv(states[n - 1], events[n - 1]);
    }
  }

  /** Whatever is interleaved, the data sent so far, as it now lies in the messages, is a prefix of the bytes
      read, in order, and only the last chunk read can be missing. */
  lemma SentIsAPrefixOfRead(states: seq<State>, events: seq<Event>, n: nat)
    requires Behaviour(states, events) && n < |states|
    ensures Delivered(states[n]) <= states[n].local
    ensures |states[n].local| - |Delivered(states[n])| <= CAPACITY
  {
    RunKeepsInv(states, events, n);
  }

  /** What was sent stays sent, and no later read into the buffer changes what lies in its array. */
  lemma {:induction false} DeliveredIsFinal(states: seq<State>, events: seq<Event>, n: nat, later: nat)
    requires Behaviour(states, events) && n <= later < |states|
    ensures states[n].messages <= states[later].messages
    ensures forall k | 0 <= k < |states[n].messages| ::
      At(states[later], states[n].messages[k]) == At(states[n], states[n].messages[k])
  {
    if n < later {
      DeliveredIsFinal(states, events, n, later - 1);
      RunKeepsInv(states, events, later - 1);
      assert StepAt(states, events, later - 1);
      StepKeepsMessages(states[later - 1], events[later - 1]);
    }
  }

  /** Without the copy this fails: had a message been given the buffer itself, the next read would change it. */
  lemma SendingTheBufferWouldNotDo(s: State, chunk: seq<byte>)
    requires Enabled(s, Read(chunk)) && s.messages == [s.buffer]
    ensures At(Next(s, Read(chunk)), s.messages[0]) == At(s, s.messages[0]) <==> chunk <= At(s, s.buffer)
  {
    var was := s.heap[s.buffer];
    if chunk <= was {
      assert chunk + was[|chunk|..] == was;
    } else {
      assert (chunk + was[|chunk|..])[..|chunk|] == chunk;
    }
  }

  /** The counters: `BytesReceived`, less the remote bytes counted in it, less `BytesSent`, is always
      between nothing and one buffer; and while the forwarder waits for a read it is nothing. */
  lemma CountersStayWithinOneBuffer(states: seq<State>, events: seq<Event>, n: nat)
    requires Behaviour(states, events) && n < |states|
    ensures
      var s := states[n];
      var difference := s.received - (s.written - s.uncounted) - s.sent;
      0 <= difference <= CAPACITY && (s.pc.Reading? || s.pc.Got? ==> difference == 0)
  {
    RunKeepsInv(states, events, n);
  }

  // ------------------------------------------------------------------ the loop itself

  /** What the outside world does in one round of the loop. */
  datatype Round = StopSeen | ReadFailed | Chunk(bytes: seq<byte>, accepted: bool)

  /** The chunks read and the chunks sent in a number of rounds, and whether the loop is over. */
  datatype Outcome = Outcome(taken: seq<seq<byte>>, sends: seq<seq<byte>>, ended: bool)

  function Then(o: Outcome, round: Round): Outcome {
    if o.ended then o
    else match round
      case StopSeen => o.(ended := true)
      case ReadFailed => o.(ended := true)
      case Chunk(bytes, false) => Outcome(o.taken + [bytes], o.sends, true)
      case Chunk(bytes, true) => Outcome(o.taken + [bytes], o.sends + [bytes], false)
  }

  function After(rounds: seq<Round>): Outcome {
    if rounds == [] then Outcome([], [], false)
    else Then(After(rounds[..|rounds| - 1]), rounds[|rounds| - 1])
  }

  lemma {:induction false} OverIsOver(rounds: seq<Round>, i: nat)
    requires i <= |rounds| && After(rounds[..i]).ended
    ensures After(rounds) == After(rounds[..i])
  {
    if i < |rounds| {
      var shorter := rounds[..|rounds| - 1];
      assert shorter[..i] == rounds[..i];
      OverIsOver(shorter, i);
    } else {
      assert rounds[..i] == rounds;
    }
  }

  lemma AfterNext(rounds: seq<Round>, i: nat)
    requires i < |rounds|
    ensures After(rounds[..i + 1]) == Then(After(rounds[..i]), rounds[i])
  {
    assert rounds[..i + 1][..i] == rounds[..i];
  }

  lemma ChunkCounts(o: Outcome, bytes: seq<byte>, accepted: bool)
    requires !o.ended
    ensures |Flatten(Then(o, Chunk(bytes, accepted)).taken)| == |Flatten(o.taken)| + |bytes|
    ensures |Flatten(Then(o, Chunk(bytes, accepted)).sends)| == |Flatten(o.sends)| + if accepted then |bytes| else 0
  {
    FlattenAppend(o.taken, bytes);
    FlattenAppend(o.sends, bytes);
  }

  /** All chunks that were read are sent, in order, but for one whose send failed; and then the loop is over. */
  lemma {:induction false} OnlyTheLastChunkIsLost(rounds: seq<Round>)
    ensures
      var o := After(rounds);
      && (o.taken == o.sends || (o.ended && |o.taken| == |o.sends| + 1 && o.taken[..|o.sends|] == o.sends))
      && Flatten(o.sends) <= Flatten(o.taken)
  {
    if rounds != [] {
      var before := After(rounds[..|rounds| - 1]);
      OnlyTheLastChunkIsLost(rounds[..|rounds| - 1]);
      if !before.ended && rounds[|rounds| - 1].Chunk? {
        FlattenAppend(before.taken, rounds[|rounds| - 1].bytes);
      }
    }
  }

  /** The length of what these rounds read; the other rounds read nothing. */
  ghost function Size(rounds: seq<Round>): nat {
    if rounds == [] then 0
    else Size(rounds[..|rounds| - 1]) + if rounds[|rounds| - 1].Chunk? then |rounds[|rounds| - 1].bytes| else 0
  }

  /** The first `m` rounds are chunks that were accepted. */
  ghost predicate AllAccepted(rounds: seq<Round>, m: nat) {
    m <= |rounds| && forall k | 0 <= k < m :: rounds[k].Chunk? && rounds[k].accepted
  }

  /** `m` is the first round that is not an accepted chunk, if there is one. */
  ghost predicate IsFirstOther(rounds: seq<Round>, m: nat) {
    AllAccepted(rounds, m) && (m < |rounds| ==> !(rounds[m].Chunk? && rounds[m].accepted))
  }

  ghost function BytesOf(rounds: seq<Round>, m: nat): seq<seq<byte>>
    requires AllAccepted(rounds, m)
  {
    seq(m, k requires 0 <= k < m => rounds[k].bytes)
  }

  lemma {:induction false} AcceptedSoFar(rounds: seq<Round>, m: nat)
    requires AllAccepted(rounds, m)
    ensures After(rounds[..m]) == Outcome(BytesOf(rounds, m), BytesOf(rounds, m), false)
    ensures |Flatten(BytesOf(rounds, m))| == Size(rounds[..m])
  {
    if m > 0 {
      AcceptedSoFar(rounds, m - 1);
      AfterNext(rounds, m - 1);
      assert rounds[..m][..m - 1] == rounds[..m - 1];
      assert BytesOf(rounds, m) == BytesOf(rounds, m - 1) + [rounds[m - 1].bytes];
      FlattenAppend(BytesOf(rounds, m - 1), rounds[m - 1].bytes);
    }
  }

  /** The bytes of a chunk that was refused. */
  ghost function RefusedAt(rounds: seq<Round>, m: nat): seq<seq<byte>> {
    if m < |rounds| && rounds[m].Chunk? then [rounds[m].bytes] else []
  }

  ghost function RefusedSize(rounds: seq<Round>, m: nat): nat {
    if m < |rounds| && rounds[m].Chunk? then |rounds[m].bytes| else 0
  }

  /** The loop goes up to the first round that is not an accepted chunk, and no further: before that round it sends
      everything, in that round it reads at most a chunk that is not sent. */
  lemma TheFirstOtherRoundEndsIt(rounds: seq<Round>, m: nat)
    requires IsFirstOther(rounds, m)
    ensures After(rounds) == Outcome(BytesOf(rounds, m) + RefusedAt(rounds, m), BytesOf(rounds, m), m < |rounds|)
    ensures |Flatten(BytesOf(rounds, m))| == Size(rounds[..m])
    ensures |Flatten(BytesOf(rounds, m) + RefusedAt(rounds, m))| == Size(rounds[..m]) + RefusedSize(rounds, m)
  {
    AcceptedSoFar(rounds, m);
    if m < |rounds| {
      AfterNext(rounds, m);
      OverIsOver(rounds, m + 1);
      if rounds[m].Chunk? {
        FlattenAppend(BytesOf(rounds, m), rounds[m].bytes);
      } else {
        assert BytesOf(rounds, m) + [] == BytesOf(rounds, m);
      }
    } else {
      assert BytesOf(rounds, m) + [] == BytesOf(rounds, m);
      assert rounds[..m] == rounds;
    }
  }

  lemma {:induction false} FirstOther(rounds: seq<Round>, i: nat) returns (m: nat)
    requires AllAccepted(rounds, i)
    ensures IsFirstOther(rounds, m)
    decreases |rounds| - i
  {
    if i < |rounds| && rounds[i].Chunk? && rounds[i].accepted {
      m := FirstOther(rounds, i + 1);
    } else {
      m := i;
    }
  }

  /** `LocalConn.Read`: overwrites the front of the buffer. */
  method ReadInto(buffer: array<byte>, bytes: seq<byte>) returns (n: nat)
    requires |bytes| <= buffer.Length
    modifies buffer
    ensures n == |bytes| && buffer[..n] == bytes && buffer[n..] == old(buffer[n..])
  {
    n := |bytes|;
    forall k | 0 <= k < n {
      buffer[k] := bytes[k];
    }
  }

  /** `data := make([]byte, n); copy(data, buffer[:n])`. */
  method CopyOut(buffer: array<byte>, n: nat) returns (data: array<byte>)
    requires n <= buffer.Length
    ensures fresh(data) && data[..] == buffer[..n]
  {
    data := new byte[n](_ => 0);
    forall k | 0 <= k < n {
      data[k] := buffer[k];
    }
  }

  /** The messages hold these chunks, in arrays of their own. */
  ghost predicate Carry(messages: seq<array<byte>>, chunks: seq<seq<byte>>)
    reads messages
  {
    |messages| == |chunks| && forall k | 0 <= k < |messages| :: messages[k][..] == chunks[k]
  }

  lemma CarryMore(messages: seq<array<byte>>, chunks: seq<seq<byte>>, data: array<byte>, chunk: seq<byte>)
    requires Carry(messages, chunks) && data[..] == chunk
    ensures Carry(messages + [data], chunks + [chunk])
  {
  }

  /** What the loop has sent and how much it has read, told without running it. */
  lemma UpToTheFirstOther(rounds: seq<Round>) returns (m: nat)
    ensures IsFirstOther(rounds, m) && |After(rounds).sends| == m
    ensures forall k | 0 <= k < m :: After(rounds).sends[k] == rounds[k].bytes
    ensures |Flatten(After(rounds).sends)| == Size(rounds[..m])
    ensures |Flatten(After(rounds).taken)| == Size(rounds[..m]) + if m < |rounds| && rounds[m].Chunk? then |rounds[m].bytes| else 0
  {
    m := FirstOther(rounds, 0);
    TheFirstOtherRoundEndsIt(rounds, m);
  }

  class TCPConnection {
    var bytesReceived: int
    var bytesSent: int

    ghost predicate Counts(o: Outcome, received: int, sent: int)
      reads this
    {
      bytesReceived == received + |Flatten(o.taken)| && bytesSent == sent + |Flatten(o.sends)|
    }

    /** One round of the loop after a successful read. */
    method Forward(buffer: array<byte>, bytes: seq<byte>, accepted: bool, ghost o: Outcome, ghost received: int, ghost sent: int)
      returns (data: array<byte>)
      requires |bytes| <= buffer.Length && !o.ended && Counts(o, received, sent)
      modifies this, buffer
      ensures fresh(data) && data[..] == bytes
      ensures Counts(Then(o, Chunk(bytes, accepted)), received, sent)
      ensures bytesReceived == old(bytesReceived) + |bytes| && bytesSent == old(bytesSent) + if accepted then |bytes| else 0
    {
      var n := ReadInto(buffer, bytes);
      bytesReceived := bytesReceived + n;
      data := CopyOut(buffer, n);
      if accepted {
        bytesSent := bytesSent + n;
      }
      ChunkCounts(o, bytes, accepted);
    }

    /** `forwardLocalToRemote`: one array is read into again and again, and every message carries a copy. */
    method ForwardLocalToRemote(rounds: seq<Round>) returns (messages: seq<array<byte>>)
      requires forall i | 0 <= i < |rounds| && rounds[i].Chunk? :: |rounds[i].bytes| <= CAPACITY
      modifies this
      ensures Carry(messages, After(rounds).sends)
      ensures Counts(After(rounds), old(bytesReceived), old(bytesSent))
      ensures |messages| <= |rounds|
      ensures forall k | 0 <= k < |messages| :: rounds[k].Chunk? && rounds[k].accepted && messages[k][..] == rounds[k].bytes
      ensures |messages| < |rounds| ==> !(rounds[|messages|].Chunk? && rounds[|messages|].accepted)
      ensures bytesSent == old(bytesSent) + Size(rounds[..|messages|])
      ensures bytesReceived == old(bytesReceived) + Size(rounds[..|messages|])
        + if |messages| < |rounds| && rounds[|messages|].Chunk? then |rounds[|messages|].bytes| else 0
    {
      var buffer := new byte[CAPACITY](_ => 0);
      messages := [];
      var i, over := 0, false;
      ghost var o := After([]);
      while i < |rounds| && !over
        invariant i <= |rounds| && o == After(rounds[..i]) && over == o.ended
        invariant Carry(messages, o.sends) && Counts(o, old(bytesReceived), old(bytesSent))
        invariant fresh(buffer) && buffer.Length == CAPACITY && buffer !in messages
      {
        AfterNext(rounds, i);
        over := true;
        if rounds[i].Chunk? {
          var bytes := rounds[i].bytes;
          var data := Forward(buffer, bytes, rounds[i].accepted, o, old(bytesReceived), old(bytesSent));
          if rounds[i].accepted {
            CarryMore(messages, o.sends, data, bytes);
            messages := messages + [data];
            over := false;
          }
        }
        o := Then(o, rounds[i]);
        i := i + 1;
      }
      AtTheEnd(rounds, i);
      ghost var m := UpToTheFirstOther(rounds);
    }
  }

  lemma AtTheEnd(rounds: seq<Round>, i: nat)
    requires i <= |rounds| && (i == |rounds| || After(rounds[..i]).ended)
    ensures After(rounds[..i]) == After(rounds)
  {
    if i < |rounds| {
      OverIsOver(rounds, i);
    } else {
      assert rounds[..i] == rounds;
    }
  }
}
