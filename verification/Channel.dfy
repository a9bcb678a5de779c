/** The buffers behind a link: calls on them are steps of a run. */
module Channels {
  import opened Bytes
  import opened Codec
  import opened BufferPool
  import opened ReactorBuffer
  import opened Outputs
  import opened Framing
  import opened Connections
  import opened Streams

  lemma RunNothing(stale: bool)
    ensures Run(stale, FRESH, []) == FRESH
  {
  }

  lemma RunSnoc(stale: bool, trace: seq<Label>, s: Link, l: Label)
    requires s == Run(stale, FRESH, trace)
    ensures Step(stale, s, l) == Run(stale, FRESH, trace + [l])
  {
    hide Step;
    RunAppend(stale, FRESH, trace, [l]);
    RunOne(stale, s, l);
  }

  /** The step a call of `send` is. */
  function SendLabel(m: Message, r: SendResult, given: seq<byte>, given': seq<byte>, out': Out): Label {
    if r.SendExited? then Halts(out') else Send(m, given, given')
  }

  lemma SendStep(stale: bool, s: Link, m: Message, r: SendResult, given: seq<byte>, given': seq<byte>, out': Out)
    requires s.process.Going? && Sendable(m) && WellFormed(s.out) && Sending(r, s.out, m, given, given', out')
    ensures Step(stale, s, SendLabel(m, r, given, given', out')) ==
      s.(sent := if r.Sent? then s.sent + [m] else s.sent, out := out',
         process := if r.SendExited? then Stopped else if r.SendOverread? then Wild else Going)
  {
    hide Framed;
  }

  lemma ReadStep(stale: bool, s: Link, bytes: seq<byte>)
    requires s.decoder.Running? && bytes <= s.wire
    ensures var d := Decoding(stale, s.decoder.pending + bytes);
      Step(stale, s, Read(|bytes|)) ==
      s.(wire := s.wire[|bytes|..], received := s.received + bytes,
         decoder := d.next, delivered := s.delivered + d.msgs)
  {
    hide Decoding;
    assert s.wire[..|bytes|] == bytes;
  }

  /** The writes of one flush. */
  function Writes(sizes: seq<nat>): seq<Label> {
    seq(|sizes|, i requires 0 <= i < |sizes| => Flush(sizes[i]))
  }

  lemma {:induction false} WritesRun(stale: bool, s: Link, sizes: seq<nat>)
    requires s.process.Going? && WellFormed(s.out) && (Count(s.out) == 0 || AtStart(s.out))
    ensures WellFormed(FlushSteps(s.out, sizes)) && (Count(s.out) == 0 || AtStart(FlushSteps(s.out, sizes)))
    ensures Count(s.out) == 0 ==> FlushSteps(s.out, sizes) == s.out
    ensures var s' := Run(stale, s, Writes(sizes));
      && s' == s.(out := FlushSteps(s.out, sizes), wire := s'.wire)
      && s.wire <= s'.wire && s'.wire + Contents(s'.out) == s.wire + Contents(s.out)
    decreases |sizes|
  {
    hide Contents, Flushed;
    if sizes != [] {
      var k := |sizes| - 1;
      WritesRun(stale, s, sizes[..k]);
      assert Writes(sizes) == Writes(sizes[..k]) + [Flush(sizes[k])];
      RunAppend(stale, s, Writes(sizes[..k]), [Flush(sizes[k])]);
      var t := Run(stale, s, Writes(sizes[..k]));
      RunOne(stale, t, Flush(sizes[k]));
      OneWrite(stale, t, sizes[k]);
      var u := Step(stale, t, Flush(sizes[k]));
      assert s.wire <= t.wire <= u.wire;
    } else {
      assert Writes(sizes) == [];
    }
  }

  lemma OneWrite(stale: bool, s: Link, n: nat)
    requires s.process.Going? && WellFormed(s.out) && (Count(s.out) == 0 || AtStart(s.out))
    ensures WellFormed(FlushStep(s.out, n)) && (Count(s.out) == 0 || AtStart(FlushStep(s.out, n)))
    ensures Count(s.out) == 0 ==> FlushStep(s.out, n) == s.out
    ensures var s' := Step(stale, s, Flush(n));
      && s' == s.(out := FlushStep(s.out, n), wire := s'.wire)
      && s.wire <= s'.wire && s'.wire + Contents(s'.out) == s.wire + Contents(s.out)
  {
    hide Contents, Flushed, AfterSend, AfterRead;
    if Count(s.out) > 0 && n <= s.out.length {
      FlushedFront(s.out, n);
      FlushedShape(s.out, n);
      var gone, rest := Contents(s.out)[..n], Contents(Flushed(s.out, n));
      assert s.wire + gone + rest == s.wire + (gone + rest);
    } else if s.out.Held? && s.out.head == 0 && n <= s.out.length {
      FlushedNothing(s.out);
    }
  }

  lemma TakenPart(wire: seq<byte>, taken: seq<byte>, bytes: seq<byte>)
    requires taken <= wire && bytes <= wire[|taken|..]
    ensures taken + bytes <= wire && wire[|taken + bytes|..] == wire[|taken|..][|bytes|..]
  {
  }

  /** The wire of a run that follows a flush is the part of the kernel's that is still to be read. */
  lemma SameWire(taken: seq<byte>, wire: seq<byte>, wire': seq<byte>, rest: seq<byte>, c: seq<byte>, c': seq<byte>)
    requires taken <= wire <= wire' && wire' + c' == wire + c && rest + c' == wire[|taken|..] + c
    ensures taken <= wire' && rest == wire'[|taken|..]
  {
    assert wire'[|taken|..] + c' == (wire' + c')[|taken|..] == wire[|taken|..] + c;
    assert rest == (rest + c')[..|rest|];
    assert wire'[|taken|..] == (wire'[|taken|..] + c')[..|rest|];
  }

  /** A sender's output buffer and a receiver's input buffer, with the bytes the kernel has accepted. The two
      ends share a pool and a loop, as in one process. */
  class Channel {
    const stale: bool
    const e: Endpoint
    const sock: Socket
    ghost var sent: seq<Message>
    ghost var process: Process
    ghost var received: seq<byte>
    ghost var decoder: Decoder
    ghost var delivered: seq<Message>
    ghost var trace: seq<Label>

    ghost predicate Held()
      reads this, sock, e.loop`kernel, e.loop`ioEvs, e.loop`listenFds
      reads e.ibuf`buf, e.obuf`buf, e.ibuf.pool, e.obuf.pool
      reads (set b | b in e.ibuf.pool.all && b !in e.ibuf.pool.lent)
      reads (set b | b in e.obuf.pool.all && b !in e.obuf.pool.lent)
      reads if e.ibuf.buf == null then {} else {e.ibuf.buf, e.ibuf.buf.data}
      reads if e.obuf.buf == null then {} else {e.obuf.buf, e.obuf.buf.data}
    {
      && e.Base() && received <= sock.wire && e.ibuf.Sound()
      && (decoder.Running? ==> decoder.pending == e.ibuf.Contents())
    }

    ghost function View(): Link
      requires received <= sock.wire
      reads this, sock, e.obuf`buf, if e.obuf.buf == null then {} else {e.obuf.buf, e.obuf.buf.data}
    {
      Link(sent, e.obuf.Image(), process, sock.wire[|received|..], received, decoder, delivered)
    }

    /** The state of the buffers is the one the trace leads to. */
    ghost predicate Valid()
      reads this, sock, e.loop`kernel, e.loop`ioEvs, e.loop`listenFds
      reads e.ibuf`buf, e.obuf`buf, e.ibuf.pool, e.obuf.pool
      reads (set b | b in e.ibuf.pool.all && b !in e.ibuf.pool.lent)
      reads (set b | b in e.obuf.pool.all && b !in e.obuf.pool.lent)
      reads if e.ibuf.buf == null then {} else {e.ibuf.buf, e.ibuf.buf.data}
      reads if e.obuf.buf == null then {} else {e.obuf.buf, e.obuf.buf.data}
    {
      Held() && View() == Run(stale, FRESH, trace)
    }

    constructor (stale: bool, e: Endpoint, sock: Socket)
      requires e.Base() && e.ibuf.Sound() && e.ibuf.Contents() == [] && e.obuf.Image() == Empty && sock.wire == []
      ensures Valid() && trace == []
    {
      hide Endpoint.Base, ReactorBuf.Sound, ReactorBuf.Contents, ReactorBuf.Image, Step, Run;
      RunNothing(stale);
      this.stale, this.e, this.sock := stale, e, sock;
      sent, process, received, decoder, delivered, trace := [], Going, [], Running([]), [], [];
    }

    ghost method Record(before: Link, l: Label)
      requires Held() && before == Run(stale, FRESH, trace) && View() == Step(stale, before, l)
      modifies this`trace
      ensures Valid() && View() == old(View()) && trace == old(trace) + [l]
    {
      hide Endpoint.Base, ReactorBuf.Sound, ReactorBuf.Contents, ReactorBuf.Image, Step, Run;
      RunSnoc(stale, trace, before, l);
      trace := trace + [l];
    }

    /** Any message, whatever earlier sends have left in the buffer. */
    method Send(m: Message) returns (r: SendResult)
      requires Valid() && process.Going? && Sendable(m)
      modifies this, e.obuf`buf, e.obuf.pool, e.obuf.Footprint()
      ensures Valid() && (process.Going? <==> !r.SendExited? && !r.SendOverread?)
      ensures exists given, given' :: trace == old(trace) + [SendLabel(m, r, given, given', e.obuf.Image())]
    {
      hide Endpoint.Base, ReactorBuf.Sound, ReactorBuf.Contents, ReactorBuf.Image, Run, Step, SendLabel;
      hide Sending, WellFormed;
      hide Header, BufPool.RunsOut, Aside;
      e.InShape();
      ghost var before := View();
      ghost var given, given';
      r, given, given' := e.Append(m);
      SendStep(stale, before, m, r, given, given', e.obuf.Image());
      NoteSend(before, SendLabel(m, r, given, given', e.obuf.Image()));
    }

    ghost method NoteSend(before: Link, l: Label)
      requires Held() && before == Run(stale, FRESH, trace)
      requires var s := Step(stale, before, l);
        s == Link(s.sent, e.obuf.Image(), s.process, sock.wire[|received|..], received, decoder, delivered)
      modifies this
      ensures Valid() && trace == old(trace) + [l] && process == Step(stale, before, l).process
    {
      hide Endpoint.Base, ReactorBuf.Sound, ReactorBuf.Contents, ReactorBuf.Image, Run, Step;
      sent, process := Step(stale, before, l).sent, Step(stale, before, l).process;
      Record(before, l);
    }

    /** The writes of a flush, then its assertion, or the broken connection, if it meets one. */
    method Flush() returns (end: FlushStop)
      requires Valid() && process.Going?
      modifies this, sock, e.obuf.Mine()
      ensures Valid() && (process.Going? <==> end.Stops?)
      ensures exists sizes :: trace == old(trace) + FlushLabels(end, sizes, e.obuf.Image())
      ensures old(e.HasOutput()) && !end.Asserted? ==>
        sock.offers > old(sock.offers) && FlushEnd(end, e.obuf.Image(), sock.last)
    {
      hide Endpoint.Base, ReactorBuf.Sound, ReactorBuf.Contents, ReactorBuf.Image, Run, Step, FlushSteps;
      hide Outputs.Contents, FlushEnd;
      hide FlushLabels;
      e.InShape();
      ghost var before, wire := View(), sock.wire;
      ghost var sizes;
      end, sizes := e.FlushOut(sock);
      NoteFlush(before, wire, end, sizes);
    }

    ghost method NoteFlush(before: Link, wire: seq<byte>, end: FlushStop, sizes: seq<nat>)
      requires e.Base() && e.ibuf.Sound() && (decoder.Running? ==> decoder.pending == e.ibuf.Contents())
      requires before == Run(stale, FRESH, trace) && WellFormed(before.out) && received <= wire <= sock.wire
      requires before == Link(sent, before.out, Going, wire[|received|..], received, decoder, delivered)
      requires process == Going
      requires end.Asserted? <==> Count(before.out) > 0 && !AtStart(before.out)
      requires e.obuf.Image() == FlushSteps(before.out, sizes) && (end.Asserted? ==> sizes == [] && sock.wire == wire)
      requires !end.Asserted? ==> sock.wire + Contents(e.obuf.Image()) == wire + Contents(before.out)
      modifies this
      ensures Valid() && (process.Going? <==> end.Stops?)
      ensures trace == old(trace) + FlushLabels(end, sizes, e.obuf.Image())
    {
      hide Endpoint.Base, ReactorBuf.Sound, ReactorBuf.Contents, ReactorBuf.Image, Run, Step, FlushSteps;
      hide Outputs.Contents;
      var labels := FlushLabels(end, sizes, e.obuf.Image());
      FlushRun(stale, before, wire, received, end, sizes, e.obuf.Image(), sock.wire);
      RunAppend(stale, FRESH, trace, labels);
      process := if end.Stops? then Going else Stopped;
      trace := trace + labels;
    }

    /** The kernel hands over any part of what is on the wire. */
    method Read(need: nat, answer: ReadAnswer) returns (msgs: seq<Message>, end: ReceiveEnd)
      requires Valid() && decoder.Running? && KernelRead(need, answer)
      requires answer.Chunk? ==> answer.bytes <= sock.wire[|received|..]
      modifies this, e.ibuf`buf, e.ibuf.pool, e.ibuf.Footprint()
      ensures Valid()
      ensures end.Ended? ==>
        answer.Chunk? && trace == old(trace) + [Label.Read(|answer.bytes|)] && delivered == old(delivered) + msgs
      ensures !end.Ended? ==> trace == old(trace) && msgs == []
    {
      hide Endpoint.Base, ReactorBuf.Sound, ReactorBuf.Contents, ReactorBuf.Image, ReactorBuf.NoRoom;
      hide ReactorBuf.Bounded;
      hide Run, Step, Decoding, KernelRead, Aside, BufPool.RunsOut;
      e.InShape();
      ghost var before := View();
      msgs, end := e.Read(need, answer, stale);
      if end.Ended? {
        NoteRead(before, answer.bytes, msgs);
      }
    }

    ghost method NoteRead(before: Link, bytes: seq<byte>, msgs: seq<Message>)
      requires e.Base() && e.ibuf.Sound() && received <= sock.wire && before == View() == Run(stale, FRESH, trace)
      requires decoder.Running? && bytes <= sock.wire[|received|..]
      requires var d := Decoding(stale, decoder.pending + bytes);
        msgs == d.msgs && (d.next.Running? ==> d.next.pending == e.ibuf.Contents())
      modifies this
      ensures Valid() && trace == old(trace) + [Label.Read(|bytes|)] && delivered == old(delivered) + msgs
    {
      hide Endpoint.Base, ReactorBuf.Sound, ReactorBuf.Contents, ReactorBuf.Image, Run, Step, Decoding;
      TakenPart(sock.wire, received, bytes);
      ReadStep(stale, before, bytes);
      decoder := Decoding(stale, before.decoder.pending + bytes).next;
      received, delivered := received + bytes, delivered + msgs;
      Record(before, Label.Read(|bytes|));
    }

    /** Whatever was called on them, the client's loop has delivered a prefix of what was sent, provided no
        message has failed below the largest array; and all of it once drained. */
    lemma Delivers()
      requires Valid() && !stale && NeverBelowTop(FRESH, trace)
      ensures delivered <= sent && !decoder.Undefined?
      ensures process.Going? && !e.HasOutput() && View().wire == [] && AllConforming(sent) ==> delivered == sent
    {
      hide Endpoint.Base, Run, NeverBelowTop;
      DeliveredIsPrefix(trace);
      if process.Going? && !e.HasOutput() && View().wire == [] {
        AllDelivered(trace);
      }
    }
  }

  function FlushLabels(end: FlushStop, sizes: seq<nat>, out': Out): seq<Label> {
    Writes(sizes) + if end.Asserted? then [Flush(0)] else if end.BrokenOff? then [Halts(out')] else []
  }

  lemma FlushRun(stale: bool, s: Link, wire: seq<byte>, taken: seq<byte>, end: FlushStop,
      sizes: seq<nat>, out': Out, wire': seq<byte>)
    requires s.process.Going? && WellFormed(s.out) && taken <= wire <= wire' && s.wire == wire[|taken|..]
    requires end.Asserted? <==> Count(s.out) > 0 && !AtStart(s.out)
    requires out' == FlushSteps(s.out, sizes) && (end.Asserted? ==> sizes == [] && wire' == wire)
    requires !end.Asserted? ==> wire' + Contents(out') == wire + Contents(s.out)
    ensures Run(stale, s, FlushLabels(end, sizes, out')) ==
      s.(out := out', wire := wire'[|taken|..], process := if end.Stops? then Going else Stopped)
  {
    hide Step, FlushSteps, Contents;
    if end.Asserted? {
      assert Writes(sizes) == [] && FlushLabels(end, sizes, out') == [Flush(0)];
      RunOne(stale, s, Flush(0));
      AssertedStep(stale, s);
      NoSteps(s.out);
    } else {
      NotAsserted(stale, s, wire, taken, sizes, out', wire');
      var t := Run(stale, s, Writes(sizes));
      if end.BrokenOff? {
        RunAppend(stale, s, Writes(sizes), [Halts(out')]);
        RunOne(stale, t, Halts(out'));
        HaltsStep(stale, t, out');
      } else {
        assert FlushLabels(end, sizes, out') == Writes(sizes);
      }
    }
  }

  lemma NotAsserted(stale: bool, s: Link, wire: seq<byte>, taken: seq<byte>, sizes: seq<nat>,
      out': Out, wire': seq<byte>)
    requires s.process.Going? && WellFormed(s.out) && taken <= wire <= wire' && s.wire == wire[|taken|..]
    requires Count(s.out) == 0 || AtStart(s.out)
    requires out' == FlushSteps(s.out, sizes) && wire' + Contents(out') == wire + Contents(s.out)
    ensures Run(stale, s, Writes(sizes)) == s.(out := out', wire := wire'[|taken|..])
  {
    hide Contents, Step;
    WritesRun(stale, s, sizes);
    var t := Run(stale, s, Writes(sizes));
    SameWire(taken, wire, wire', t.wire, Contents(s.out), Contents(out'));
  }

  lemma AssertedStep(stale: bool, s: Link)
    requires s.process.Going? && WellFormed(s.out) && Count(s.out) > 0 && !AtStart(s.out)
    ensures Step(stale, s, Flush(0)) == s.(process := Stopped)
  {
  }

  lemma HaltsStep(stale: bool, s: Link, left: Out)
    requires s.process.Going?
    ensures Step(stale, s, Halts(left)) == s.(out := left, process := Stopped)
  {
  }
}
