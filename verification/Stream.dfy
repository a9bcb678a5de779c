/**
 One direction of a connection, end to end: a sender appends frames to its output buffer, flushes
 bring any part of it onto the wire, the receiver is handed any part of the wire at a time.
 */
module Streams {
  import opened Bytes
  import opened Codec
  import opened BufferPool
  import opened ReactorBuffer
  import opened Outputs
  import opened Framing

  /** The sender's process: at work, at its end, or past the point where C++ defines it. */
  datatype Process = Going | Stopped | Wild

  /** `received` are the bytes the receiver has read so far; once the process has stopped nothing leaves `out`. */
  datatype Link = Link(
    sent: seq<Message>, out: Out, process: Process, wire: seq<byte>,
    received: seq<byte>, decoder: Decoder, delivered: seq<Message>)

  const FRESH := Link([], Empty, Going, [], [], Running([]), [])

  /** A send carries what the arrays hold that it may obtain from the pool. `Halts` stands for the sender's
      exit and for a broken connection. */
  datatype Label =
    | Send(m: Message, given: seq<byte>, given': seq<byte>)
    | Halts(left: Out)
    | Flush(n: nat)
    | Read(n: nat)

  predicate Enabled(s: Link, l: Label) {
    match l
    case Send(m, _, _) => s.process.Going? && HEADER_SIZE + |m.body| < 0x8000_0000 && WellFormed(s.out)
    case Halts(_) => s.process.Going?
    case Flush(n) => s.process.Going? && 0 < Count(s.out) && n <= Count(s.out) <= |s.out.mem|
    case Read(n) => s.decoder.Running? && n <= |s.wire|
  }

  function AfterSend(s: Link, m: Message, given: seq<byte>, given': seq<byte>): Link
    requires Sendable(m) && WellFormed(s.out)
  {
    var e := Framed(s.out, m, given, given');
    s.(out := e.out,
       sent := if e.result.Sent? then s.sent + [m] else s.sent,
       process := if e.result.SendOverread? then Wild else s.process)
  }

  /** The assertion in `write2fd` ends the process when the head is not at the start. */
  function AfterFlush(s: Link, n: nat): Link
    requires s.out.Held? && n <= s.out.length <= |s.out.mem|
  {
    if s.out.head != 0 then s.(process := Stopped)
    else s.(out := Flushed(s.out, n), wire := s.wire + Contents(s.out)[..n])
  }

  function AfterRead(stale: bool, s: Link, n: nat): Link
    requires s.decoder.Running? && n <= |s.wire|
  {
    var d := Decoding(stale, s.decoder.pending + s.wire[..n]);
    s.(wire := s.wire[n..], received := s.received + s.wire[..n], decoder := d.next, delivered := s.delivered + d.msgs)
  }

  /** One step; `stale` selects the server's loop on the receiving side. */
  function Step(stale: bool, s: Link, l: Label): Link {
    if !Enabled(s, l) then s else
      match l
      case Send(m, given, given') => AfterSend(s, m, given, given')
      case Halts(left) => s.(out := left, process := Stopped)
      case Flush(n) => AfterFlush(s, n)
      case Read(n) => AfterRead(stale, s, n)
  }

  function Run(stale: bool, s: Link, labels: seq<Label>): Link
    decreases |labels|
  {
    if labels == [] then s else Run(stale, Step(stale, s, labels[0]), labels[1..])
  }

  /** What has left the sender is the beginning of what it has accepted. */
  ghost predicate Prefixed(s: Link) {
    AllSendable(s.sent) && !s.process.Wild? && s.received + s.wire <= EncodeAll(s.sent)
  }

  /** While the sender is at work, everything is accounted for, or its next flush ends at the assertion. */
  ghost predicate Inv(s: Link) {
    && Prefixed(s) && Drain(s.received) == Decoded(s.delivered, s.decoder)
    && (s.process.Going? ==> WellFormed(s.out) && (Whole(s) || Stuck(s.out)))
  }

  ghost predicate Whole(s: Link)
    requires AllSendable(s.sent)
  {
    AtStart(s.out) && s.received + s.wire + Contents(s.out) == EncodeAll(s.sent)
  }

  /** A failed body leaves a header behind in an array that is not the largest. */
  predicate FailsBelowTop(s: Link, l: Label) {
    l.Send? && Enabled(s, l) &&
    var e := Framed(s.out, l.m, l.given, l.given');
    e.result.BodyFailed? && e.out.Held? && e.out.head > 0 && |e.out.mem| < M8M
  }

  /** When a send does, in terms of the output before it: a message that waits behind others and finds no
      array for its body, while there is a larger array than the one its header is in. */
  lemma FailsBelowTopExactly(s: Link, l: Label)
    requires Inv(s) && l.Send? && Enabled(s, l)
    ensures FailsBelowTop(s, l) <==>
      && Count(s.out) > 0 && !Full(s.out, HEADER_SIZE) && HeaderArray(s.out) < M8M
      && HeaderArray(s.out) - (Count(s.out) + HEADER_SIZE) < |l.m.body| && HeaderArray(s.out) + |l.m.body| > M8M
  {
    hide Drain, EncodeAll, Framed, Frame, Header, Contents;
    if Stuck(s.out) {
      StuckStays(s.out, l.m, l.given, l.given');
    } else {
      FramedAtStart(s.out, l.m, l.given, l.given');
    }
  }

  /** No step of the run does. */
  ghost predicate NeverBelowTop(s: Link, labels: seq<Label>)
    decreases |labels|
  {
    labels != [] ==> !FailsBelowTop(s, labels[0]) && NeverBelowTop(Step(false, s, labels[0]), labels[1..])
  }

  lemma StartInv()
    ensures Inv(FRESH)
  {
  }

  lemma SendInv(s: Link, m: Message, given: seq<byte>, given': seq<byte>)
    requires Inv(s) && Enabled(s, Send(m, given, given')) && !FailsBelowTop(s, Send(m, given, given'))
    ensures Inv(AfterSend(s, m, given, given'))
  {
    hide Drain, EncodeAll, Frame, Header, Framed, Contents;
    EncodeAppend(s.sent, [m]);
    EncodeOne(m);
    assert AllSendable([m]);
    var e := Framed(s.out, m, given, given');
    if Stuck(s.out) {
      StuckStays(s.out, m, given, given');
    } else {
      FramedAtStart(s.out, m, given, given');
      NoContents(s.out);
      assert s.received + s.wire + Contents(s.out) + Frame(m) == s.received + s.wire + (Contents(s.out) + Frame(m));
    }
  }

  lemma NoContents(o: Out)
    requires AtStart(o) && WellFormed(o)
    ensures Count(o) == 0 ==> Contents(o) == []
    ensures Contents(Empty) == []
  {
  }

  lemma ReadInv(s: Link, n: nat)
    requires Inv(s) && Enabled(s, Read(n))
    ensures Inv(AfterRead(false, s, n))
  {
    hide Drain, EncodeAll, Contents;
    var chunk := s.wire[..n];
    DrainAppend(s.received, chunk);
    assert s.received + s.wire == s.received + chunk + s.wire[n..];
  }

  lemma FlushInv(s: Link, n: nat)
    requires Inv(s) && Enabled(s, Flush(n))
    ensures Inv(AfterFlush(s, n))
  {
    hide Drain, EncodeAll, Contents;
    if s.out.head == 0 {
      FlushedFront(s.out, n);
      FlushedShape(s.out, n);
      var gone, rest := Contents(s.out)[..n], Contents(Flushed(s.out, n));
      assert s.received + (s.wire + gone) + rest == s.received + s.wire + (gone + rest);
    }
  }

  lemma FlushedShape(o: Out, n: nat)
    requires WellFormed(o) && o.Held? && o.head == 0 && n <= o.length
    ensures WellFormed(Flushed(o, n)) && AtStart(Flushed(o, n)) && |Contents(o)| == o.length
  {
  }

  lemma {:induction false} RunInv(s: Link, labels: seq<Label>)
    requires Inv(s) && NeverBelowTop(s, labels)
    ensures Inv(Run(false, s, labels))
    decreases |labels|
  {
    hide Drain, EncodeAll, AfterSend, AfterFlush, AfterRead, FailsBelowTop;
    if labels != [] {
      var l := labels[0];
      if Enabled(s, l) {
        match l
        case Send(m, given, given') => SendInv(s, m, given, given');
        case Flush(n) => FlushInv(s, n);
        case Read(n) => ReadInv(s, n);
        case Halts(_) =>
      }
      RunInv(Step(false, s, l), labels[1..]);
    }
  }

  /** What a receiver can have made of any part of what was sent. */
  lemma PartDecoded(part: seq<byte>, ms: seq<Message>)
    requires AllSendable(ms) && part <= EncodeAll(ms)
    ensures var d := Drain(part);
      && d.msgs <= ms[..AcceptedCount(ms)]
      && !d.next.Undefined?
      && (d.next.Rejected? ==> !AllConforming(ms) && d.msgs == ms[..AcceptedCount(ms)])
  {
    hide Drain, EncodeAll, AcceptedCount;
    var later := EncodeAll(ms)[|part|..];
    assert EncodeAll(ms) == part + later;
    DrainAppend(part, later);
    DrainSent(ms);
    if !Drain(part).next.Running? {
      assert Drain(part).msgs + [] == Drain(part).msgs;
    }
  }

  // ---- What holds in every run without such a failure ----

  /** The receiver has delivered a prefix of what was sent, and never anything else. */
  lemma DeliveredIsPrefix(labels: seq<Label>)
    requires NeverBelowTop(FRESH, labels)
    ensures var s := Run(false, FRESH, labels);
      && s.delivered <= s.sent
      && !s.decoder.Undefined?
      && (s.decoder.Rejected? ==>
          AllSendable(s.sent) && !AllConforming(s.sent) && s.delivered == s.sent[..AcceptedCount(s.sent)])
  {
    hide Drain, EncodeAll, AcceptedCount;
    StartInv();
    RunInv(FRESH, labels);
    var s := Run(false, FRESH, labels);
    assert s.received <= EncodeAll(s.sent);
    PartDecoded(s.received, s.sent);
  }

  /** Conservation: what was sent is what was delivered, what the receiver still holds, what is on the
      wire and what waits in the output buffer, in this order and nothing else. */
  lemma Conservation(labels: seq<Label>)
    requires NeverBelowTop(FRESH, labels)
    ensures var s := Run(false, FRESH, labels);
      && AllSendable(s.sent) && AllSendable(s.delivered)
      && (s.process.Going? && AtStart(s.out) && s.decoder.Running? ==>
          EncodeAll(s.sent) == EncodeAll(s.delivered) + s.decoder.pending + s.wire + Contents(s.out))
  {
    hide Drain, EncodeAll, Contents;
    StartInv();
    RunInv(FRESH, labels);
    DrainConserves(Run(false, FRESH, labels).received);
  }

  /** Once everything has drained, all of the messages are delivered if the receiver accepts their
      sizes, and all before the first oversized one otherwise. */
  lemma AllDelivered(labels: seq<Label>)
    requires NeverBelowTop(FRESH, labels)
    requires var s := Run(false, FRESH, labels); s.process.Going? && Count(s.out) == 0 && s.wire == []
    ensures var s := Run(false, FRESH, labels);
      && AllSendable(s.sent)
      && s.delivered == s.sent[..AcceptedCount(s.sent)]
      && s.decoder == (if AllConforming(s.sent) then Running([]) else Rejected)
      && (s.delivered == s.sent <==> AllConforming(s.sent))
  {
    hide Drain, EncodeAll, AcceptedCount, Contents;
    StartInv();
    RunInv(FRESH, labels);
    var s := Run(false, FRESH, labels);
    NoContents(s.out);
    assert s.received + s.wire + Contents(s.out) == s.received;
    DrainSent(s.sent);
  }

  lemma {:induction false} RunAppend(stale: bool, s: Link, a: seq<Label>, b: seq<Label>)
    ensures Run(stale, s, a + b) == Run(stale, Run(stale, s, a), b)
    decreases |a|
  {
    hide Step;
    if a == [] {
      assert a + b == b;
    } else {
      assert (a + b)[1..] == a[1..] + b;
      RunAppend(stale, Step(stale, s, a[0]), a[1..], b);
    }
  }

  lemma {:induction false} NeverAppend(s: Link, a: seq<Label>, b: seq<Label>)
    ensures NeverBelowTop(s, a + b) <==> NeverBelowTop(s, a) && NeverBelowTop(Run(false, s, a), b)
    decreases |a|
  {
    hide Step, FailsBelowTop;
    if a == [] {
      assert a + b == b;
    } else {
      assert (a + b)[1..] == a[1..] + b;
      NeverAppend(Step(false, s, a[0]), a[1..], b);
    }
  }

  lemma RunOne(stale: bool, s: Link, l: Label)
    ensures Run(stale, s, [l]) == Step(stale, s, l)
    ensures NeverBelowTop(s, [l]) <==> !FailsBelowTop(s, l)
  {
    hide Step, FailsBelowTop;
    assert [l][1..] == [] && Run(stale, Step(stale, s, l), []) == Step(stale, s, l);
    assert NeverBelowTop(Step(false, s, l), []);
  }

  lemma RunTwo(stale: bool, s: Link, l: Label, l': Label)
    ensures Run(stale, s, [l, l']) == Step(stale, Step(stale, s, l), l')
    ensures NeverBelowTop(s, [l, l']) <==> !FailsBelowTop(s, l) && !FailsBelowTop(Step(false, s, l), l')
  {
    hide Step, FailsBelowTop;
    RunOne(stale, s, l);
    RunOne(false, s, l);
    RunOne(stale, Step(stale, s, l), l');
    RunOne(false, Step(false, s, l), l');
    assert [l, l'] == [l] + [l'];
    RunAppend(stale, s, [l], [l']);
    NeverAppend(s, [l], [l']);
  }

  /** From wherever such a run has come with the head at the start, one complete flush and one complete
      read deliver the rest. */
  lemma CanAlwaysFinish(labels: seq<Label>)
    requires NeverBelowTop(FRESH, labels)
    requires var s := Run(false, FRESH, labels);
      s.process.Going? && AtStart(s.out) && s.decoder.Running? && AllConforming(s.sent)
    ensures var s := Run(false, FRESH, labels);
      var end := Run(false, s, [Flush(Count(s.out)), Read(|s.wire| + Count(s.out))]);
      end.sent == s.sent && end.delivered == s.sent && end.decoder == Running([])
  {
    hide Drain, EncodeAll, AcceptedCount, StaleDrain, Step, Inv, NeverBelowTop, Run, Contents;
    StartInv();
    RunInv(FRESH, labels);
    var s := Run(false, FRESH, labels);
    var flush, read := Flush(Count(s.out)), Read(|s.wire| + Count(s.out));
    RunTwo(false, s, flush, read);
    RunAppend(false, FRESH, labels, [flush, read]);
    NeverAppend(FRESH, labels, [flush, read]);
    assert WellFormed(s.out) by { InvWellFormed(s); }
    AfterAll(s);
    AllDelivered(labels + [flush, read]);
    assert s.sent[..|s.sent|] == s.sent;
  }

  lemma InvWellFormed(s: Link)
    requires Inv(s) && s.process.Going?
    ensures WellFormed(s.out)
  {
  }

  lemma AfterAll(s: Link)
    requires WellFormed(s.out) && s.process.Going? && AtStart(s.out) && s.decoder.Running?
    ensures var flush, read := Flush(Count(s.out)), Read(|s.wire| + Count(s.out));
      var end := Step(false, Step(false, s, flush), read);
      && !FailsBelowTop(s, flush) && !FailsBelowTop(Step(false, s, flush), read)
      && end.sent == s.sent && end.process.Going? && Count(end.out) == 0 && end.wire == []
  {
    FlushedAll(s);
    var flushed := Step(false, s, Flush(Count(s.out)));
    assert FailsBelowTop(s, Flush(Count(s.out))) == false;
    ReadAll(flushed);
  }

  lemma FlushedAll(s: Link)
    requires WellFormed(s.out) && s.process.Going? && AtStart(s.out)
    ensures var flushed := Step(false, s, Flush(Count(s.out)));
      && flushed == s.(out := flushed.out, wire := flushed.wire)
      && Count(flushed.out) == 0 && |flushed.wire| == |s.wire| + Count(s.out)
  {
    if Count(s.out) > 0 {
      FlushedShape(s.out, Count(s.out));
    }
    hide Contents, AfterRead, AfterSend;
  }

  lemma ReadAll(s: Link)
    requires s.decoder.Running?
    ensures var end := Step(false, s, Read(|s.wire|));
      end == s.(wire := [], received := end.received, decoder := end.decoder, delivered := end.delivered)
    ensures !FailsBelowTop(s, Read(|s.wire|))
  {
    hide Decoding;
  }

  // ---- The server's read loop ----

  /** Every read of the run leaves the buffer in a state that the server's loop reads correctly. */
  ghost predicate AlwaysReadsAlike(s: Link, labels: seq<Label>)
    decreases |labels|
  {
    labels != [] ==>
      var l := labels[0];
      && (l.Read? && Enabled(s, l) ==> ReadsAlike(s.decoder.pending + s.wire[..l.n]))
      && AlwaysReadsAlike(Step(false, s, l), labels[1..])
  }

  /** Runs of the server's loop are runs of the client's loop as long as its reads allow it. */
  lemma {:induction false} ServerRunsAlike(s: Link, labels: seq<Label>)
    requires AlwaysReadsAlike(s, labels)
    ensures Run(true, s, labels) == Run(false, s, labels)
    decreases |labels|
  {
    hide Drain, StaleDrain, ReadsAlike;
    if labels != [] {
      var l := labels[0];
      if l.Read? && Enabled(s, l) {
        StaleDrainExactly(s.decoder.pending + s.wire[..l.n]);
      }
      assert Step(true, s, l) == Step(false, s, l);
      ServerRunsAlike(Step(false, s, l), labels[1..]);
    }
  }

  /** And at the first read that does not, the two loops part. */
  lemma ServerParts(s: Link, n: nat)
    requires Enabled(s, Read(n))
    ensures Step(true, s, Read(n)) == Step(false, s, Read(n)) <==> ReadsAlike(s.decoder.pending + s.wire[..n])
  {
    hide Drain, StaleDrain, ReadsAlike;
    StaleDrainExactly(s.decoder.pending + s.wire[..n]);
    var server := StaleDrain(s.decoder.pending + s.wire[..n], s.decoder.pending + s.wire[..n]);
    var client := Drain(s.decoder.pending + s.wire[..n]);
    if s.delivered + server.msgs == s.delivered + client.msgs {
      assert server.msgs == (s.delivered + server.msgs)[|s.delivered|..];
      assert client.msgs == (s.delivered + client.msgs)[|s.delivered|..];
    }
  }
}
