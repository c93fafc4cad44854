/**
 * The per-descriptor queue records of `msg::InQueue` and `msg::OutQueue`,
 * with the operations whose bodies are part of this model, and the
 * broken-pipe condition a flush may report.
 */
module Queues {
  import opened Endian
  import opened Msg
  import opened Framing

  /** The descriptor value of a queue that is bound to nothing. */
  const NO_FD: int := -1

  /** Receive side: completed messages (oldest first), the bytes of a
      message not yet complete, the descriptor, and the two flags. */
  datatype InQueue = InQueue(
    queue: seq<Message>,
    name: string,
    buffer: seq<byte>,
    bytesGot: int,
    fd: int,
    eof: bool,
    suspended: bool)

  /** Send side: pending messages (oldest first), the bytes of the message
      being sent, how many of them went out, and the descriptor. */
  datatype OutQueue = OutQueue(
    queue: seq<Message>,
    buffer: seq<byte>,
    bytesSent: nat,
    fd: int)

  /** `ExceptionBrokenPipe(fd)` as a value: the outcome of flushing an out-queue. */
  datatype FlushResult = FlushOk | BrokenPipe(fd: int)

  /** `InQueue(fd = -1)`: empty and not suspended, bound to `fd`. */
  function NewInQueue(fd: int := NO_FD): (q: InQueue)
    ensures q.queue == [] && q.buffer == [] && q.bytesGot == 0 && q.fd == fd
    ensures !q.eof && !q.suspended
  {
    InQueue([], "", [], 0, fd, false, false)
  }

  /** `OutQueue(fd = -1)`: nothing pending or in flight, bound to `fd`. */
  function NewOutQueue(fd: int := NO_FD): (q: OutQueue)
    ensures q.queue == [] && q.buffer == [] && q.bytesSent == 0 && q.fd == fd
  {
    OutQueue([], [], 0, fd)
  }

  /** Whether the multiplexer takes the queue into account. */
  predicate MuxWatches(q: InQueue)
  {
    !q.suspended
  }

  /** `mux_suspend`: only the suspended flag changes. */
  function MuxSuspend(q: InQueue): (r: InQueue)
    ensures !MuxWatches(r)
    ensures r.queue == q.queue && r.name == q.name && r.buffer == q.buffer
    ensures r.bytesGot == q.bytesGot && r.fd == q.fd && r.eof == q.eof
  {
    q.(suspended := true)
  }

  /** `mux_release`: only the suspended flag changes. */
  function MuxRelease(q: InQueue): (r: InQueue)
    ensures MuxWatches(r)
    ensures r.queue == q.queue && r.name == q.name && r.buffer == q.buffer
    ensures r.bytesGot == q.bytesGot && r.fd == q.fd && r.eof == q.eof
  {
    q.(suspended := false)
  }

  /** Releasing a suspended queue restores it exactly, and suspending twice
      is suspending once. */
  lemma SuspendReleaseRoundTrip(q: InQueue)
    ensures !q.suspended ==> MuxRelease(MuxSuspend(q)) == q
    ensures q.suspended ==> MuxSuspend(MuxRelease(q)) == q
    ensures MuxSuspend(MuxSuspend(q)) == MuxSuspend(q)
    ensures MuxRelease(MuxRelease(q)) == MuxRelease(q)
  {
  }

  /** What `flush` does with bytes `chunk` read from the descriptor:
      every message completed by them moves to the queue, in stream order,
      and the incomplete remainder stays in the buffer; no byte is lost. */
  function Receive(q: InQueue, chunk: seq<byte>): (r: InQueue)
    ensures |r.queue| >= |q.queue| && r.queue[..|q.queue|] == q.queue
    ensures forall i :: |q.queue| <= i < |r.queue| ==> WellFramed(r.queue[i])
    ensures Incomplete(r.buffer)
    ensures Serialise(r.queue[|q.queue|..]) + r.buffer == q.buffer + chunk
    ensures r == q.(queue := r.queue, buffer := r.buffer)
  {
    var p := Parse(q.buffer + chunk);
    var r := q.(queue := q.queue + p.msgs, buffer := p.rest);
    assert r.queue[..|q.queue|] == q.queue;
    assert r.queue[|q.queue|..] == p.msgs;
    ParseReassembles(q.buffer + chunk);
    r
  }

  /** Receiving bytes in two pieces leaves the queue exactly as receiving
      them at once: messages split across reads are reassembled. */
  lemma ReceiveInPieces(q: InQueue, a: seq<byte>, b: seq<byte>)
    ensures Receive(Receive(q, a), b) == Receive(q, a + b)
  {
    var pa := Parse(q.buffer + a);
    ParseAppend(q.buffer + a, b);
    assert q.buffer + (a + b) == (q.buffer + a) + b;
    ConcatAssoc(q.queue, pa.msgs, Parse(pa.rest + b).msgs);
  }

  /** Receiving the concatenation of well-framed messages into an empty
      buffer queues exactly those messages and leaves no bytes behind. */
  lemma ReceiveWholeMessages(q: InQueue, msgs: seq<Message>)
    requires q.buffer == []
    requires forall i :: 0 <= i < |msgs| ==> WellFramed(msgs[i])
    ensures Receive(q, Serialise(msgs)).queue == q.queue + msgs
    ensures Receive(q, Serialise(msgs)).buffer == []
  {
    var s := Serialise(msgs);
    assert Incomplete([]);
    ParseSerialise(msgs, []);
    assert s + [] == s;
    assert q.buffer + s == s;
    var p := Parse(q.buffer + s);
    assert p == Parsed(msgs, []);
    var r := Receive(q, s);
    assert r == q.(queue := q.queue + p.msgs, buffer := p.rest);
  }

  /** `enable(fd)`: binds the queue to a descriptor; nothing else changes. */
  function EnableIn(q: InQueue, fd: int): (r: InQueue)
    ensures r.fd == fd
    ensures r.queue == q.queue && r.name == q.name && r.buffer == q.buffer
    ensures r.bytesGot == q.bytesGot && r.eof == q.eof && r.suspended == q.suspended
  {
    q.(fd := fd)
  }

  /** `disable()`: unbinds the queue and drops the bytes of a message not
      yet complete; the completed messages stay for the owner to drain. */
  function DisableIn(q: InQueue): (r: InQueue)
    ensures r.fd == NO_FD && r.buffer == [] && r.bytesGot == 0
    ensures r.queue == q.queue && r.name == q.name
    ensures r.eof == q.eof && r.suspended == q.suspended
  {
    q.(fd := NO_FD, buffer := [], bytesGot := 0)
  }

  /** Rebinding a disabled queue starts a fresh stream: what arrives on the
      new descriptor is parsed from its first byte, with nothing left over
      from the old one in front of it; disabling twice is disabling once. */
  lemma RebindStartsFresh(q: InQueue, fd: int, chunk: seq<byte>)
    ensures Receive(EnableIn(DisableIn(q), fd), chunk).queue == q.queue + Parse(chunk).msgs
    ensures Receive(EnableIn(DisableIn(q), fd), chunk).buffer == Parse(chunk).rest
    ensures DisableIn(DisableIn(q)) == DisableIn(q)
  {
    assert EnableIn(DisableIn(q), fd).buffer + chunk == chunk;
  }

  /** `enable(fd)`: binds the queue to a descriptor; nothing else changes. */
  function EnableOut(q: OutQueue, fd: int): (r: OutQueue)
    ensures r.fd == fd
    ensures r.queue == q.queue && r.buffer == q.buffer && r.bytesSent == q.bytesSent
  {
    q.(fd := fd)
  }

  /** `disable()`: unbinds the queue; pending and in-flight data stay. */
  function DisableOut(q: OutQueue): (r: OutQueue)
    ensures r.fd == NO_FD
    ensures r.queue == q.queue && r.buffer == q.buffer && r.bytesSent == q.bytesSent
  {
    q.(fd := NO_FD)
  }

  /** `add_message`: the message joins the back of the pending queue. */
  function AddMessage(q: OutQueue, m: Message): (r: OutQueue)
    ensures |r.queue| == |q.queue| + 1 && r.queue[..|q.queue|] == q.queue
    ensures r.queue[|q.queue|] == m
    ensures r.buffer == q.buffer && r.bytesSent == q.bytesSent && r.fd == q.fd
  {
    var r := q.(queue := q.queue + [m]);
    assert r.queue[..|q.queue|] == q.queue;
    r
  }

  /** `clear`: drops every pending message; the message already moved to
      the send buffer, its progress and the descriptor are kept. */
  function Clear(q: OutQueue): (r: OutQueue)
    ensures r.queue == []
    ensures r.buffer == q.buffer && r.bytesSent == q.bytesSent && r.fd == q.fd
  {
    q.(queue := [])
  }

  /** After `clear`, the queue holds exactly what is added next, and
      clearing twice is clearing once. */
  lemma ClearThenAdd(q: OutQueue, m: Message)
    ensures AddMessage(Clear(q), m).queue == [m]
    ensures Clear(Clear(q)) == Clear(q)
    ensures Clear(q) == q <==> q.queue == []
  {
  }
}
