/** Frames on the buffers of a connection: appending one to the output, taking them off the input. */
module Framing {
  import opened Bytes
  import opened Codec
  import opened IoBuffer
  import opened BufferPool
  import opened ReactorBuffer
  import opened Outputs

  /** A call of `send` ends as the specification says, unless the pool ends the process. */
  ghost predicate Sending(r: SendResult, o: Out, m: Message, given: seq<byte>, given': seq<byte>, o': Out)
    requires Sendable(m) && WellFormed(o)
  {
    r.SendExited? || Framed(o, m, given, given') == SendEnd(r, o')
  }

  /** The common part of both `send` functions. When the body finds no room, the program removes eight
      bytes from the front of the buffer, meaning to take back the header it has just appended. */
  method AppendFrame(out: ReactorBuf, m: Message)
      returns (r: SendResult, ghost given: seq<byte>, ghost given': seq<byte>)
    requires out.Ready() && out.Bounded() && WellFormed(out.Image()) && Sendable(m)
    modifies out`buf, out.pool, out.Footprint()
    ensures out.Ready() && out.Bounded()
    ensures if r.SendOverread? then Kept(old(out.pool.lent), out.pool.lent, {out}) else out.Local()
    ensures Sending(r, old(out.Image()), m, given, given', out.Image())
    ensures r.SendExited? ==> out.pool.RunsOut()
  {
    hide BufPool.Ready, BufPool.FreeObjects, BufPool.RunsOut, Header, Evolves, Kept, Writing, Framed;
    ghost var start, before, lent := out.Now(), out.Image(), out.pool.lent;
    var ret;
    given' := [];
    ret, given := out.WriteData(Header(m));
    HeaderOnly(ret, before, m, given, out.Image());
    if ret.Failed? {
      return HeaderFailed, given, given';
    } else if ret.Exited? {
      return SendExited, given, given';
    } else if ret.Overreads? {
      return SendOverread, given, given';
    }
    ghost var middle := out.Now();
    out.LocalFootprint();
    out.LocalKeeps();
    r, given' := AppendBody(out, m, before, given);
    if r.SendOverread? {
      KeptTwice(lent, middle.lent, out.pool.lent, {out});
    } else {
      EvolvesTwice(start, middle, out.Now());
    }
  }

  method AppendBody(out: ReactorBuf, m: Message, ghost before: Out, ghost given: seq<byte>)
      returns (r: SendResult, ghost given': seq<byte>)
    requires out.Ready() && out.Bounded() && WellFormed(before) && Sendable(m) && out.buf != null
    requires out.buf.length >= HEADER_SIZE && Written(before, Header(m), given) == Wrote(out.Image())
    modifies out`buf, out.pool, out.Footprint()
    ensures out.Ready() && out.Bounded()
    ensures if r.SendOverread? then Kept(old(out.pool.lent), out.pool.lent, {out}) else out.Local()
    ensures Sending(r, before, m, given, given', out.Image())
    ensures r.SendExited? ==> out.pool.RunsOut()
  {
    hide BufPool.Ready, BufPool.FreeObjects, BufPool.RunsOut, Header, Evolves, Kept, Writing, Written, Framed, Popped;
    ghost var start, framed := out.Now(), out.Image();
    out.Shape();
    var ret;
    ret, given' := out.WriteData(m.body);
    if ret.Failed? {
      ghost var middle := out.Now();
      out.Pop(HEADER_SIZE);
      EvolvesTwice(start, middle, out.Now());
      r := BodyFailed;
    } else if ret.Exited? {
      r := SendExited;
    } else if ret.Overreads? {
      r := SendOverread;
    } else {
      r := Sent;
    }
    BodyToo(ret, r, before, m, given, given', framed, out.Image());
  }

  lemma HeaderOnly(ret: Status, o: Out, m: Message, given: seq<byte>, o': Out)
    requires WellFormed(o) && Sendable(m) && Writing(ret, o, Header(m), given, o')
    ensures ret.Failed? ==> Sending(HeaderFailed, o, m, given, [], o')
    ensures ret.Overreads? ==> Sending(SendOverread, o, m, given, [], o')
    ensures ret.Done? ==> Written(o, Header(m), given) == Wrote(o') && o'.Held? && o'.length >= HEADER_SIZE
    ensures !ret.Aborts?
  {
    hide Header;
    WrittenKeeps(o, Header(m), given);
  }

  lemma BodyToo(ret: Status, r: SendResult, o: Out, m: Message, given: seq<byte>, given': seq<byte>, o1: Out, o': Out)
    requires WellFormed(o) && Sendable(m) && Written(o, Header(m), given) == Wrote(o1) && WellFormed(o1) && o1.Held?
    requires o1.length >= HEADER_SIZE
    requires ret.Failed? ==> Writing(ret, o1, m.body, given', o1) && r == BodyFailed && o' == Popped(o1, HEADER_SIZE)
    requires ret.Overreads? ==> Writing(ret, o1, m.body, given', o') && r == SendOverread
    requires ret.Exited? ==> r == SendExited
    requires ret.Done? ==> Writing(ret, o1, m.body, given', o') && r == Sent
    requires !ret.Aborts?
    ensures Sending(r, o, m, given, given', o')
  {
    hide Header;
  }

  lemma KeptTwice(lent: map<IoBuf, object>, lent': map<IoBuf, object>, lent'': map<IoBuf, object>, movers: set<object>)
    requires Kept(lent, lent', movers) && Kept(lent', lent'', movers)
    ensures Kept(lent, lent'', movers)
  {
  }

  /** How the loop over the input ends: waiting for bytes, or at a length field it cannot use. */
  datatype LoopEnd = Waits | Drops | Breaks

  ghost predicate EndsAs(end: LoopEnd, next: Decoder, rest: seq<byte>) {
    match end
    case Waits => next == Running(rest)
    case Drops => next == Rejected
    case Breaks => next == Undefined
  }

  function Window(data: array<byte>, at: nat, total: nat): (s: seq<byte>)
    requires at + total <= data.Length
    reads data
    ensures |s| == total
  {
    data[at..at + total]
  }

  /** One pass of the loop: header and body are at index `at` of `data`, `length` bytes are buffered. */
  method ReadFront(data: array<byte>, at: nat, total: nat, length: nat) returns (front: Front)
    requires length <= total && at + total <= data.Length && length >= HEADER_SIZE
    ensures front == FrontOf(Window(data, at, total), length)
  {
    hide DecodeInt32;
    var bytes := Window(data, at, total);
    var msgLen := LengthField(bytes);
    if msgLen > MAX_SIZE || msgLen < 0 {
      return BadLength;
    }
    if length < msgLen {
      return Incomplete;
    }
    if msgLen < HEADER_SIZE {
      return Undersized;
    }
    return Complete(Message(DecodeInt32(bytes[..4]), bytes[HEADER_SIZE..msgLen]), msgLen);
  }

  /** The whole pass: a complete frame is popped from the buffer. */
  method TakeOne(inp: ReactorBuf, data: array<byte>, at: nat, total: nat, length: nat) returns (front: Front)
    requires inp.Ready() && inp.Sound() && length == |inp.Contents()|
    requires HEADER_SIZE <= length <= total && at + total <= data.Length
    modifies inp`buf, inp.pool`pool, inp.pool`free, inp.pool`lent, inp.Handle()
    ensures inp.Ready() && inp.Sound() && Evolves(old(inp.Now()), inp.Now())
    ensures inp.buf == null || inp.buf == old(inp.buf)
    ensures front == FrontOf(Window(data, at, total), length) && Window(data, at, total) == old(Window(data, at, total))
    ensures front.Complete? ==> front.size <= length
    ensures inp.Contents() == old(inp.Contents())[if front.Complete? then front.size else 0..]
  {
    hide BufPool.Ready, FrontOf, Evolves;
    EvolvesNot(inp.Now());
    front := ReadFront(data, at, total, length);
    if front.Complete? {
      FrontSize(Window(data, at, total), length);
      inp.Pop(front.size);
    }
  }

  lemma FrontWindow(inp: ReactorBuf, length: nat)
    requires inp.Sound() && inp.buf != null && length == |inp.Contents()|
    ensures Window(inp.buf.data, inp.buf.head, length) == inp.Contents()
  {
  }

  /** The loop of the client side: header and body are read at the current front of the buffer. */
  method TakeFrames(inp: ReactorBuf) returns (msgs: seq<Message>, end: LoopEnd)
    requires inp.Ready() && inp.Sound()
    modifies inp`buf, inp.pool`pool, inp.pool`free, inp.pool`lent, inp.Handle()
    ensures inp.Ready() && inp.Sound() && inp.Local()
    ensures inp.buf == null || inp.buf == old(inp.buf)
    ensures msgs == Drain(old(inp.Contents())).msgs
    ensures EndsAs(end, Drain(old(inp.Contents())).next, inp.Contents())
  {
    hide BufPool.Ready, FrontOf, Drain, Evolves, Progress, Window;
    ghost var s, start := inp.Contents(), inp.Now();
    EvolvesNot(start);
    ProgressStart(s);
    msgs := [];
    var length := inp.Length();
    while length >= HEADER_SIZE
      invariant inp.Ready() && inp.Sound() && Evolves(start, inp.Now())
      invariant inp.buf == null || inp.buf == old(inp.buf)
      invariant length == |inp.Contents()|
      invariant Progress(s, msgs, inp.Contents())
      decreases length
    {
      ghost var rest, middle := inp.Contents(), inp.Now();
      FrontWindow(inp, length);
      var front := TakeOne(inp, inp.buf.data, inp.buf.head, length, length);
      EvolvesTwice(start, middle, inp.Now());
      if !front.Complete? {
        ProgressEnd(s, msgs, rest);
        return msgs, if front.BadLength? then Drops else if front.Undersized? then Breaks else Waits;
      }
      ProgressStep(s, msgs, rest);
      msgs := msgs + [front.msg];
      length := inp.Length();
    }
    TooShort(inp.Contents());
    ProgressEnd(s, msgs, inp.Contents());
    end := Waits;
  }

  /** The loop of the server side: the data pointer is taken once, before the loop, so that every pass
      reads what was at the front of the buffer then. */
  method TakeFramesStale(inp: ReactorBuf) returns (msgs: seq<Message>, end: LoopEnd)
    requires inp.Ready() && inp.Sound()
    modifies inp`buf, inp.pool`pool, inp.pool`free, inp.pool`lent, inp.Handle()
    ensures inp.Ready() && inp.Sound() && inp.Local()
    ensures inp.buf == null || inp.buf == old(inp.buf)
    ensures var s := old(inp.Contents()); msgs == StaleDrain(s, s).msgs
    ensures var s := old(inp.Contents()); EndsAs(end, StaleDrain(s, s).next, inp.Contents())
  {
    hide BufPool.Ready, FrontOf, StaleDrain, Evolves, StaleProgress;
    ghost var s, start := inp.Contents(), inp.Now();
    EvolvesNot(start);
    StaleStart(s);
    msgs := [];
    var length := inp.Length();
    if length < HEADER_SIZE {
      StaleEnd(s, [], s);
      return msgs, Waits;
    }
    var data, at, total := inp.buf.data, inp.buf.head, length;
    assert Window(data, at, total) == s;
    hide Window, ReactorBuf.Sound, ReactorBuf.Contents, EndsAs;
    while length >= HEADER_SIZE
      invariant inp.Ready() && inp.Sound() && Evolves(start, inp.Now())
      invariant inp.buf == null || inp.buf == old(inp.buf)
      invariant length == |inp.Contents()| <= total && Window(data, at, total) == s
      invariant StaleProgress(s, msgs, inp.Contents())
      decreases length
    {
      ghost var rest, middle := inp.Contents(), inp.Now();
      var front := TakeOne(inp, data, at, total, length);
      EvolvesTwice(start, middle, inp.Now());
      if !front.Complete? {
        StaleEnd(s, msgs, rest);
        return msgs, if front.BadLength? then Drops else if front.Undersized? then Breaks else Waits;
      }
      StaleStep(s, msgs, rest);
      msgs := msgs + [front.msg];
      length := inp.Length();
    }
    StaleEnd(s, msgs, inp.Contents());
    end := Waits;
  }

  /** As `Progress`, for the loop that keeps reading the front of `s`. */
  ghost predicate StaleProgress(s: seq<byte>, sofar: seq<Message>, rest: seq<byte>)
    requires |rest| <= |s|
  {
    StaleDrain(s, s) == Decoded(sofar + StaleDrain(s, rest).msgs, StaleDrain(s, rest).next)
  }

  lemma StaleStart(s: seq<byte>)
    ensures StaleProgress(s, [], s)
  {
  }

  lemma FrontSize(s: seq<byte>, available: nat)
    requires available <= |s| && FrontOf(s, available).Complete?
    ensures HEADER_SIZE <= FrontOf(s, available).size <= available
  {
  }

  lemma StaleStep(s: seq<byte>, sofar: seq<Message>, rest: seq<byte>)
    requires |rest| <= |s| && StaleProgress(s, sofar, rest) && FrontOf(s, |rest|).Complete?
    ensures var front := FrontOf(s, |rest|);
      HEADER_SIZE <= front.size <= |rest| && StaleProgress(s, sofar + [front.msg], rest[front.size..])
  {
  }

  lemma StaleEnd(s: seq<byte>, sofar: seq<Message>, rest: seq<byte>)
    requires |rest| <= |s| && StaleProgress(s, sofar, rest)
    requires |rest| < HEADER_SIZE || !FrontOf(s, |rest|).Complete?
    ensures var front := FrontOf(s, |rest|);
      StaleDrain(s, s) == Decoded(sofar, if front.BadLength? then Rejected
                                         else if front.Undersized? then Undefined else Running(rest))
    ensures |rest| < HEADER_SIZE ==> StaleDrain(s, s) == Decoded(sofar, Running(rest))
  {
  }

  /** Of the input `s` the messages `sofar` have been delivered and `rest` is still to be read. */
  ghost predicate Progress(s: seq<byte>, sofar: seq<Message>, rest: seq<byte>) {
    Drain(s) == Decoded(sofar + Drain(rest).msgs, Drain(rest).next)
  }

  lemma ProgressStart(s: seq<byte>)
    ensures Progress(s, [], s)
  {
  }

  lemma ProgressStep(s: seq<byte>, sofar: seq<Message>, rest: seq<byte>)
    requires Progress(s, sofar, rest) && ParseFront(rest).Complete?
    ensures var front := ParseFront(rest);
      HEADER_SIZE <= front.size <= |rest| && Progress(s, sofar + [front.msg], rest[front.size..])
  {
  }

  lemma ProgressEnd(s: seq<byte>, sofar: seq<Message>, rest: seq<byte>)
    requires Progress(s, sofar, rest) && !ParseFront(rest).Complete?
    ensures Drain(s) == Decoded(sofar, Drain(rest).next)
    ensures Drain(rest).next == if ParseFront(rest).BadLength? then Rejected
                                else if ParseFront(rest).Undersized? then Undefined else Running(rest)
  {
  }

  /** How one readable event ends: the peer is gone or the read failed, the loop came to its end, the
      pool gave up, or the read ran over the end of the buffer. */
  datatype ReceiveEnd = Closed | Ended(loop: LoopEnd) | Exits | Overruns

  function Decoding(stale: bool, s: seq<byte>): Decoded {
    if stale then StaleDrain(s, s) else Drain(s)
  }

  /** The loop over the input `s` delivered `msgs`, ended as `loop`, and left `rest`. */
  ghost predicate Outcome(stale: bool, s: seq<byte>, msgs: seq<Message>, loop: LoopEnd, rest: seq<byte>) {
    msgs == Decoding(stale, s).msgs && EndsAs(loop, Decoding(stale, s).next, rest)
  }

  /** Reading, the loop over the frames, and the move of what is left to the start of the buffer. */
  method Receive(inp: ReactorBuf, need: nat, answer: ReadAnswer, stale: bool)
      returns (msgs: seq<Message>, end: ReceiveEnd)
    requires inp.Ready() && inp.Sound() && inp.AtStart() && KernelRead(need, answer)
    modifies inp`buf, inp.pool, inp.Footprint()
    ensures inp.Ready() && inp.Sound() && inp.Local() && inp.AtStart()
    ensures forall o | o in inp.Mine() :: o in old(inp.Footprint()) || fresh(o)
    ensures end.Ended? ==> answer.Chunk? && answer.bytes != []
    ensures end.Ended? ==> Outcome(stale, old(inp.Contents()) + answer.bytes, msgs, end.loop, inp.Contents())
    ensures !end.Ended? ==> msgs == [] && inp.Contents() == old(inp.Contents())
    ensures end.Closed? <==> !end.Exits? && (answer.ReadError? || answer.bytes == [] || old(inp.NoRoom(need)))
    ensures end.Exits? ==> inp.pool.RunsOut()
    ensures end.Overruns? ==> need == 0 && answer.Chunk?
  {
    hide BufPool.Ready, BufPool.FreeObjects, Outcome, Evolves;
    ghost var start := inp.Now();
    msgs := [];
    var read := inp.ReadData(need, answer);
    inp.LocalFootprint();
    if read.ReadFailed? || read == Got(0) {
      return msgs, Closed;
    } else if read.ReadExited? {
      return msgs, Exits;
    } else if read.Overrun? {
      return msgs, Overruns;
    }
    ghost var middle := inp.Now();
    var loop;
    msgs, loop := TakeAll(inp, stale);
    EvolvesTwice(start, middle, inp.Now());
    inp.LocalFootprint();
    end := Ended(loop);
  }

  method TakeAll(inp: ReactorBuf, stale: bool) returns (msgs: seq<Message>, loop: LoopEnd)
    requires inp.Ready() && inp.Sound()
    modifies inp`buf, inp.pool`pool, inp.pool`free, inp.pool`lent, inp.Mine()
    ensures inp.Ready() && inp.Sound() && inp.Local() && inp.AtStart()
    ensures Outcome(stale, old(inp.Contents()), msgs, loop, inp.Contents())
    ensures inp.buf == null || inp.buf == old(inp.buf)
  {
    hide BufPool.Ready, BufPool.FreeObjects, Drain, StaleDrain, Evolves, EndsAs;
    if stale {
      msgs, loop := TakeFramesStale(inp);
    } else {
      msgs, loop := TakeFrames(inp);
    }
    inp.Adjust();
  }

  /** What the program relies on when it reads: it gets what was announced, or nothing. */
  ghost predicate KernelRead(need: nat, answer: ReadAnswer) {
    && need < 0x8000_0000
    && (answer.Chunk? && need > 0 ==> |answer.bytes| == need || answer.bytes == [])
    && (answer.Chunk? && need == 0 ==> |answer.bytes| <= M4K)
  }

  /** How the flush loop ends: everything has left or the kernel took nothing, or the connection is broken,
      or the assertion on the head ended the process. */
  datatype FlushStop = Stops | BrokenOff | Asserted

  ghost predicate FlushEnd(end: FlushStop, rest: Out, last: WriteAnswer) {
    if end.BrokenOff? then last.Broken? else Count(rest) == 0 || last.WouldBlock? || last == Accepted(0)
  }

  /** The buffer after writes of these sizes. */
  function FlushSteps(o: Out, sizes: seq<nat>): (o': Out)
    ensures o.Held? && o.head == 0 && o.length <= |o.mem| ==>
      o'.Held? && o'.head == 0 && |o'.mem| == |o.mem| && o'.length <= o.length
  {
    if sizes == [] then o
    else
      var k := |sizes| - 1;
      FlushStep(FlushSteps(o, sizes[..k]), sizes[k])
  }

  function FlushStep(o: Out, n: nat): Out {
    if o.Held? && o.head == 0 && n <= o.length <= |o.mem| then Flushed(o, n) else o
  }

  /** The flush loop: bytes leave the front of the buffer until it is empty, the kernel takes no more, or
      the connection is broken. It gets no further than its assertion when the head is not at the start. */
  method Flush(out: ReactorBuf, sock: Socket) returns (end: FlushStop, ghost sizes: seq<nat>)
    requires out.Ready() && out.Bounded()
    modifies sock, out.Mine()
    ensures out.Ready() && out.Bounded() && out.buf == old(out.buf)
    ensures end.Asserted? <==> Count(old(out.Image())) > 0 && !AtStart(old(out.Image()))
    ensures end.Asserted? ==> sizes == [] && sock.wire == old(sock.wire) && out.Image() == old(out.Image())
    ensures Count(out.Image()) <= Count(old(out.Image()))
    ensures out.Image() == FlushSteps(old(out.Image()), sizes)
    ensures !end.Asserted? ==> sock.wire + Contents(out.Image()) == old(sock.wire) + Contents(old(out.Image()))
    ensures old(sock.wire) <= sock.wire
    ensures end.BrokenOff? ==> Count(out.Image()) > 0 && Count(old(out.Image())) > 0
    ensures Count(old(out.Image())) > 0 && !end.Asserted? ==>
      sock.offers > old(sock.offers) && FlushEnd(end, out.Image(), sock.last)
  {
    hide BufPool.Ready, Flushed, FlushSteps, Contents;
    ghost var before, all := out.Image(), sock.wire + Contents(out.Image());
    end, sizes := Stops, [];
    NoSteps(before);
    var length := out.Length();
    while length > 0
      invariant out.Ready() && out.Bounded() && out.buf == old(out.buf) && length == Count(out.Image())
      invariant length <= Count(before)
      invariant end.Stops? && out.Image() == FlushSteps(before, sizes) && (sizes != [] ==> AtStart(before))
      invariant sock.wire + Contents(out.Image()) == all && old(sock.wire) <= sock.wire
      invariant sock.offers >= old(sock.offers)
      invariant if sizes != [] then sock.offers > old(sock.offers)
        else sock.wire == old(sock.wire) && sock.offers == old(sock.offers)
      decreases length
    {
      ghost var wire, rest := sock.wire, out.Image();
      var written := out.Write2Fd(sock);
      if written.Aborts? {
        end := Asserted;
        break;
      } else if written.Failed? {
        end := BrokenOff;
        break;
      }
      OneStep(before, sizes, rest, written.n, wire, all);
      sizes := sizes + [written.n];
      length := out.Length();
      if written.n == 0 {
        break;
      }
    }
  }

  lemma NoSteps(o: Out)
    ensures FlushSteps(o, []) == o
  {
  }

  /** Bytes leave the front and nothing else changes. */
  lemma FlushedFront(o: Out, n: nat)
    requires o.Held? && o.head == 0 && n <= o.length <= |o.mem|
    ensures Contents(o) == Contents(o)[..n] + Contents(Flushed(o, n))
  {
  }

  lemma OneStep(o: Out, sizes: seq<nat>, rest: Out, n: nat, wire: seq<byte>, all: seq<byte>)
    requires rest == FlushSteps(o, sizes) && rest.Held? && rest.head == 0 && n <= rest.length <= |rest.mem|
    requires wire + Contents(rest) == all
    ensures FlushSteps(o, sizes + [n]) == Flushed(rest, n)
    ensures n <= |Contents(rest)| && wire + Contents(rest)[..n] + Contents(Flushed(rest, n)) == all
  {
    StepAfter(o, sizes, n);
    hide FlushSteps, Flushed;
    FlushedFront(rest, n);
    hide Contents;
    assert wire + Contents(rest)[..n] + Contents(Flushed(rest, n)) ==
      wire + (Contents(rest)[..n] + Contents(Flushed(rest, n)));
  }

  lemma StepAfter(o: Out, sizes: seq<nat>, n: nat)
    ensures FlushSteps(o, sizes + [n]) == FlushStep(FlushSteps(o, sizes), n)
  {
    hide FlushStep;
    assert (sizes + [n])[..|sizes|] == sizes;
  }

  lemma TooShort(s: seq<byte>)
    requires |s| < HEADER_SIZE
    ensures ParseFront(s).Incomplete?
  {
  }
}
