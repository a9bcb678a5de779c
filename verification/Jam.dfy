/**
 Sending on after a message whose body found no room. The header that is taken back from the wrong end
 leaves the head at 8. In the largest array that is the end: the next flush stops at its assertion. In a
 smaller one a later message moves the damaged bytes to a larger array, and they are sent.
 */
module Jams {
  import opened Bytes
  import opened Codec
  import opened BufferPool
  import opened Outputs
  import opened Framing
  import opened Streams

  predicate BodyFails(s: Link, l: Label) {
    l.Send? && Enabled(s, l) && Framed(s.out, l.m, l.given, l.given').result.BodyFailed?
  }

  /** Every message whose body fails, in a run, is one that a receiver would accept. */
  ghost predicate FailuresConform(s: Link, labels: seq<Label>)
    decreases |labels|
  {
    labels != [] ==>
      && (BodyFails(s, labels[0]) ==> Conforming(labels[0].m))
      && FailuresConform(Step(false, s, labels[0]), labels[1..])
  }

  /** Then none of them fails below the largest array. */
  lemma {:induction false} ConformingFailAtTop(s: Link, labels: seq<Label>)
    requires Inv(s) && FailuresConform(s, labels)
    ensures NeverBelowTop(s, labels)
    decreases |labels|
  {
    hide Drain, EncodeAll, Framed, Contents, AfterFlush, AfterRead;
    if labels != [] {
      var l := labels[0];
      if l.Send? && Enabled(s, l) {
        if Stuck(s.out) {
          StuckStays(s.out, l.m, l.given, l.given');
        } else {
          FramedAtStart(s.out, l.m, l.given, l.given');
          if Conforming(l.m) {
            AcceptableRefused(s.out, l.m, l.given, l.given');
          }
        }
      }
      assert !FailsBelowTop(s, l);
      hide FailsBelowTop, Step;
      assert NeverBelowTop(s, [l]) by { RunOne(false, s, l); }
      RunInv(s, [l]);
      RunOne(false, s, l);
      ConformingFailAtTop(Step(false, s, l), labels[1..]);
    }
  }

  /** So with messages of acceptable size, or as long as only such messages fail, what is delivered is a
      prefix of what was sent, however sends, failed sends, flushes and reads follow each other. */
  lemma DeliveredIfConforming(labels: seq<Label>)
    requires FailuresConform(FRESH, labels)
    ensures var s := Run(false, FRESH, labels);
      s.delivered <= s.sent && !s.decoder.Undefined? && !s.process.Wild?
  {
    hide Inv;
    StartInv();
    ConformingFailAtTop(FRESH, labels);
    DeliveredIsPrefix(labels);
    RunInv(FRESH, labels);
    InvPrefixed(Run(false, FRESH, labels));
  }

  lemma InvPrefixed(s: Link)
    ensures Inv(s) ==> Prefixed(s)
  {
  }

  // ---- The other messages ----

  /** The first eight bytes gone, the header of the failed message at the end, the head at 8: what the next
      message leaves if its header still fits and its body asks for a larger array. */
  lemma SendAfterJam(o: Out, m: Message, given: seq<byte>, given': seq<byte>)
    requires o.Held? && WellFormed(o) && o.head == 8 && o.length + 16 <= |o.mem| && Sendable(m)
    requires |o.mem| - (o.length + 8) < |m.body| && |o.mem| + |m.body| <= M8M
    ensures var e := Framed(o, m, given, given');
      && e.result == Sent && WellFormed(e.out) && e.out.Held? && AtStart(e.out) && InArray(e.out)
      && e.out.length == o.length + 8 + |m.body|
      && Contents(e.out) == (o.mem[..o.length] + Header(m) + o.mem[o.length + 8..o.length + 16])[8..] + m.body
  {
    hide Header;
    var L := o.length;
    assert |Header(m)| == 8;
    var o1 := Placed(o.mem, o.head, L, Header(m));
    assert Written(o, Header(m), given) == Wrote(o1);
    WrittenKeeps(o1, m.body, given');
    EnlargedWrite(o1, m.body, given');
    Damaged(o.mem, Header(m), L);
  }

  lemma Damaged(mem: seq<byte>, header: seq<byte>, L: nat)
    requires |header| == 8 && L + 16 <= |mem|
    ensures (mem[..L] + header + mem[L + 8..])[8..8 + (L + 8)] == (mem[..L] + header + mem[L + 8..L + 16])[8..]
  {
    var all := mem[..L] + header + mem[L + 8..];
    assert all[..L + 16] == mem[..L] + header + mem[L + 8..L + 16];
    assert all[8..8 + (L + 8)] == all[..L + 16][8..];
  }

  lemma EnlargedWrite(o: Out, bytes: seq<byte>, given: seq<byte>)
    requires o.Held? && WellFormed(o) && InArray(o) && |o.mem| - o.length < |bytes| && |o.mem| + |bytes| <= M8M
    ensures var w := Written(o, bytes, given);
      w.Wrote? && AtStart(w.out) && InArray(w.out) && Contents(w.out) == Contents(o) + bytes
  {
    var moved := MovedTo(o, Stale(given, ClassFor(|o.mem| + |bytes|)));
    assert moved.mem[..o.length] == Contents(o);
    var w := Written(o, bytes, given);
    assert w.out.mem[..o.length + |bytes|] == w.out.mem[..o.length] + bytes;
  }

  lemma OverreadAfterJam(o: Out, m: Message, given: seq<byte>, given': seq<byte>)
    requires o.Held? && WellFormed(o) && o.head == 8 && o.length + 8 <= |o.mem| < o.length + 16 && Sendable(m)
    requires |o.mem| - (o.length + 8) < |m.body| && |o.mem| + |m.body| <= M8M
    ensures Framed(o, m, given, given').result == SendOverread
  {
    hide Header;
    assert Written(o, Header(m), given) == Wrote(Placed(o.mem, o.head, o.length, Header(m)));
  }

  /** A message with a body that does not fit beside what is in an array of `c` bytes, and a header that
      differs from the bytes `old`. */
  function Probe(c: nat, old': seq<byte>): (m: Message)
    ensures c <= M4M ==> Sendable(m)
    ensures |old'| == 8 && Sendable(m) ==> Header(m) != old'
  {
    var body := seq(c, i => 0);
    IdsDiffer();
    if |old'| == 8 && old'[..4] == EncodeInt32(0) then Message(1, body) else Message(0, body)
  }

  lemma IdsDiffer()
    ensures EncodeInt32(0) != EncodeInt32(1)
    ensures forall m | Sendable(m) :: Header(m)[..4] == EncodeInt32(m.id)
  {
    assert EncodeInt32(0)[0] == 0 && EncodeInt32(1)[0] == 1;
  }

  /** A stream that goes on with as many bytes as it should is a prefix only with the right ones. */
  lemma RightBytes(before: seq<byte>, rest: seq<byte>, header: seq<byte>, body: seq<byte>, sent: seq<byte>)
    requires |sent| == |rest| + |header| + |body| && |header| == 8
    requires before + sent <= before + rest + (header + body)
    ensures sent[|rest|..|rest| + 8] == header
  {
    assert before + sent == before + rest + (header + body);
    var all := before + rest + (header + body);
    assert sent == all[|before|..] == rest + (header + body);
    assert (rest + (header + body))[|rest|..|rest| + 8] == header;
  }

  /** The state a failed body leaves below the largest array. */
  lemma Jammed(s: Link, l: Label)
    requires Inv(s) && FailsBelowTop(s, l)
    ensures var s' := Step(false, s, l);
      && s' == s.(out := s'.out) && WellFormed(s'.out) && s'.out.Held? && s'.out.head == 8 && |s'.out.mem| <= M4M
      && s'.out.length == Count(s.out) == |Contents(s.out)| && s'.out.length + 8 <= |s'.out.mem|
      && AllSendable(s.sent) && s.process.Going? && Whole(s)
  {
    hide Drain, EncodeAll, Framed, Frame, Header;
    if Stuck(s.out) {
      StuckStays(s.out, l.m, l.given, l.given');
    }
    FramedAtStart(s.out, l.m, l.given, l.given');
  }

  /** A continuation that breaks the prefix: one more message that is accepted, and a complete flush; or it
      leaves what C++ defines. */
  lemma BelowTopBreaks(s: Link, l: Label) returns (more: seq<Label>)
    requires Inv(s) && FailsBelowTop(s, l)
    ensures NeverBelowTop(Step(false, s, l), more) && !Prefixed(Run(false, Step(false, s, l), more))
  {
    hide Drain, EncodeAll, Framed, Frame, Header, Contents, FailsBelowTop, Step, Run, NeverBelowTop;
    hide Prefixed, Probe, Inv;
    Jammed(s, l);
    var s' := Step(false, s, l);
    var o := s'.out;
    var stale := if o.length + 16 <= |o.mem| then o.mem[o.length + 8..o.length + 16] else [];
    var m := Probe(|o.mem|, stale);
    ProbeSize(|o.mem|, stale);
    var send := Send(m, [], []);
    if o.length + 16 <= |o.mem| {
      var flush := Flush(o.length + 8 + |m.body|);
      more := [send, flush];
      SendAfterJam(o, m, [], []);
      RunTwo(false, s', send, flush);
      AfterProbe(s, s', m, stale);
    } else {
      more := [send];
      OverreadAfterJam(o, m, [], []);
      RunOne(false, s', send);
      GoesWild(s', m);
    }
  }

  lemma ProbeSize(c: nat, old': seq<byte>)
    requires c <= M4M
    ensures var m := Probe(c, old'); Sendable(m) && |m.body| == c && (|old'| == 8 ==> Header(m) != old')
  {
    hide Header;
  }

  lemma GoesWild(s: Link, m: Message)
    requires s.process.Going? && WellFormed(s.out) && Sendable(m) && Framed(s.out, m, [], []).result == SendOverread
    ensures !FailsBelowTop(s, Send(m, [], [])) && !Prefixed(Step(false, s, Send(m, [], [])))
  {
    hide Framed, EncodeAll;
  }

  lemma AfterProbe(s: Link, s': Link, m: Message, stale: seq<byte>)
    requires AllSendable(s.sent) && s.process.Going? && Whole(s) && s' == s.(out := s'.out)
    requires var o := s'.out;
      && WellFormed(o) && o.Held? && o.head == 8 && o.length + 16 <= |o.mem| <= M4M && o.length == |Contents(s.out)|
      && Sendable(m) && |m.body| == |o.mem| && stale == o.mem[o.length + 8..o.length + 16] && Header(m) != stale
    ensures var send, flush := Send(m, [], []), Flush(s'.out.length + 8 + |m.body|);
      && !FailsBelowTop(s', send) && !FailsBelowTop(Step(false, s', send), flush)
      && !Prefixed(Step(false, Step(false, s', send), flush))
  {
    hide EncodeAll, Frame, Header, Framed, Contents;
    var o := s'.out;
    SendAfterJam(o, m, [], []);
    var send, flush := Send(m, [], []), Flush(o.length + 8 + |m.body|);
    var sent := Step(false, s', send);
    var flushed := Step(false, sent, flush);
    var bytes := Contents(sent.out);
    assert flushed.wire == s.wire + bytes && flushed.sent == s.sent + [m] && flushed.received == s.received;
    EncodeAppend(s.sent, [m]);
    EncodeOne(m);
    var damaged := (o.mem[..o.length] + Header(m) + stale)[8..] + m.body;
    assert bytes == damaged && damaged[o.length..o.length + 8] == stale;
    if Prefixed(flushed) {
      FrameParts(m);
      assert s.received + s.wire + bytes == s.received + (s.wire + bytes);
      RightBytes(s.received + s.wire, Contents(s.out), Header(m), m.body, bytes);
      assert false;
    }
  }

  lemma FrameParts(m: Message)
    requires Sendable(m)
    ensures Frame(m) == Header(m) + m.body && |Header(m)| == 8
  {
  }

  // ---- Exactly which runs are safe ----

  /** Whatever follows, as long as no further message fails below the largest array, what leaves the sender
      is the beginning of what it has accepted, and the program stays within what C++ defines. */
  ghost predicate SafeForever(s: Link) {
    forall more | NeverBelowTop(s, more) :: Prefixed(Run(false, s, more))
  }

  lemma SafeWithout(labels: seq<Label>, k: nat)
    requires NeverBelowTop(FRESH, labels) && k <= |labels|
    ensures SafeForever(Run(false, FRESH, labels[..k]))
  {
    hide Inv, Prefixed, NeverBelowTop, Run;
    assert labels == labels[..k] + labels[k..];
    NeverAppend(FRESH, labels[..k], labels[k..]);
    StartInv();
    RunInv(FRESH, labels[..k]);
    var s := Run(false, FRESH, labels[..k]);
    forall more | NeverBelowTop(s, more)
      ensures Prefixed(Run(false, s, more))
    {
      RunInv(s, more);
      InvPrefixed(Run(false, s, more));
    }
  }

  /** The first failure below the largest array, if there is one. */
  lemma {:induction false} FirstFailure(s: Link, labels: seq<Label>) returns (k: nat)
    requires !NeverBelowTop(s, labels)
    ensures k < |labels| && NeverBelowTop(s, labels[..k]) && FailsBelowTop(Run(false, s, labels[..k]), labels[k])
    decreases |labels|
  {
    hide FailsBelowTop, Step;
    if FailsBelowTop(s, labels[0]) {
      k := 0;
      assert labels[..0] == [];
    } else {
      k := FirstFailure(Step(false, s, labels[0]), labels[1..]);
      k := k + 1;
      assert labels[..k][1..] == labels[1..][..k - 1] && labels[..k][0] == labels[0];
    }
  }

  /** A run has no message that fails below the largest array if and only if every state on its way is safe
      forever. */
  lemma SafeExactly(labels: seq<Label>)
    ensures NeverBelowTop(FRESH, labels) <==>
      forall k | 0 <= k <= |labels| :: SafeForever(Run(false, FRESH, labels[..k]))
  {
    hide Inv, Prefixed, FailsBelowTop, Step, NeverBelowTop, Run, SafeForever;
    if NeverBelowTop(FRESH, labels) {
      forall k | 0 <= k <= |labels|
        ensures SafeForever(Run(false, FRESH, labels[..k]))
      {
        SafeWithout(labels, k);
      }
    } else {
      var k := FirstFailure(FRESH, labels);
      StartInv();
      RunInv(FRESH, labels[..k]);
      var s := Run(false, FRESH, labels[..k]);
      var more := BelowTopBreaks(s, labels[k]);
      RunAppend(false, FRESH, labels[..k], [labels[k]]);
      RunOne(false, s, labels[k]);
      assert labels[..k + 1] == labels[..k] + [labels[k]];
      NotSafe(Run(false, FRESH, labels[..k + 1]), more);
    }
  }

  lemma NotSafe(s: Link, more: seq<Label>)
    requires NeverBelowTop(s, more) && !Prefixed(Run(false, s, more))
    ensures !SafeForever(s)
  {
  }

  /** What decides about a single failure is the size of the array it happens in. */
  lemma HarmlessExactly(s: Link, l: Label)
    requires Inv(s) && BodyFails(s, l) && Count(s.out) > 0
    ensures var s' := Step(false, s, l); s'.out.Held? && (SafeForever(s') <==> |s'.out.mem| == M8M)
  {
    hide Drain, EncodeAll, Framed, Frame, Header, Contents, Prefixed;
    var s' := Step(false, s, l);
    if Stuck(s.out) {
      StuckStays(s.out, l.m, l.given, l.given');
    } else {
      FramedAtStart(s.out, l.m, l.given, l.given');
    }
    if FailsBelowTop(s, l) {
      var more := BelowTopBreaks(s, l);
      NotSafe(s', more);
    } else {
      SendInv(s, l.m, l.given, l.given');
      hide Inv, Run, NeverBelowTop;
      forall more | NeverBelowTop(s', more)
        ensures Prefixed(Run(false, s', more))
      {
        RunInv(s', more);
        InvPrefixed(Run(false, s', more));
      }
    }
  }

  // ---- Any run at all ----

  ghost predicate Decodes(s: Link) {
    AllSendable(s.sent) && Drain(s.received) == Decoded(s.delivered, s.decoder)
  }

  lemma {:induction false} RunDecodes(s: Link, labels: seq<Label>)
    requires Decodes(s)
    ensures Decodes(Run(false, s, labels))
    decreases |labels|
  {
    hide Drain, EncodeAll, Framed, Contents;
    if labels != [] {
      var l := labels[0];
      if l.Read? && Enabled(s, l) {
        DrainAppend(s.received, s.wire[..l.n]);
      }
      RunDecodes(Step(false, s, l), labels[1..]);
    }
  }

  /** What is delivered is a prefix of what was sent if and only if the bytes it was read from are the
      beginning of the bytes of the messages accepted. */
  lemma DeliveredExactly(labels: seq<Label>)
    ensures var s := Run(false, FRESH, labels);
      && AllSendable(s.sent) && AllSendable(s.delivered)
      && s.received == EncodeAll(s.delivered) + Tail(s.received)
      && (s.delivered <= s.sent <==> EncodeAll(s.delivered) <= EncodeAll(s.sent))
  {
    hide Drain, EncodeAll, AcceptedCount;
    StartInv();
    RunDecodes(FRESH, labels);
    var s := Run(false, FRESH, labels);
    DrainConserves(s.received);
    hide Run, Tail;
    PrefixEncoded(s.delivered, s.sent);
  }

  lemma PrefixEncoded(a: seq<Message>, b: seq<Message>)
    requires AllSendable(a) && AllConforming(a) && AllSendable(b)
    ensures a <= b <==> EncodeAll(a) <= EncodeAll(b)
  {
    hide Drain, EncodeAll, AcceptedCount;
    if EncodeAll(a) <= EncodeAll(b) {
      DrainEncoded(a, []);
      assert EncodeAll(a) + [] == EncodeAll(a);
      PartDecoded(EncodeAll(a), b);
      assert Drain([]).msgs == [] by { NothingDecoded(); }
    }
    if a <= b {
      assert b == a + b[|a|..];
      EncodeAppend(a, b[|a|..]);
    }
  }

  lemma NothingDecoded()
    ensures Drain([]).msgs == []
  {
  }

  // ---- An example ----

  const INNER := Message(99, [])

  /** The body of the first message is itself a frame; the second message is refused; the third asks for a
      larger array. The receiver delivers a message that was never sent. */
  lemma NeverSent(big: seq<byte>, body: seq<byte>)
    requires |big| == 8384513 && |body| == 5000
    ensures var first, second, third := Message(1, Frame(INNER)), Message(2, big), Message(3, body);
      var s := Run(false, FRESH,
        [Send(first, [], []), Send(second, [], [])] + [Send(third, [], []), Flush(5024)] + [Read(5024)]);
      s.sent == [first, third] && INNER !in s.sent && s.delivered != [] && s.delivered[0] == INNER
  {
    hide Drain, Framed, Frame, Header, Contents, Step, Run;
    var first, second, third := Message(1, Frame(INNER)), Message(2, big), Message(3, body);
    var refused := [Send(first, [], []), Send(second, [], [])];
    var moved := [Send(third, [], []), Flush(5024)];
    var s := AfterTwo(first, second);
    var t := AfterThird(s, third);
    RunAppend(false, FRESH, refused, moved);
    RunAppend(false, FRESH, refused + moved, [Read(5024)]);
    RunOne(false, t, Read(5024));
    InnerFirst(t);
  }

  lemma SmallFirst(m: Message)
    requires HEADER_SIZE + |m.body| <= M4K
    ensures var e := Framed(Empty, m, [], []);
      e.result == Sent && e.out.Held? && |e.out.mem| == M4K && AtStart(e.out) && e.out.length == HEADER_SIZE + |m.body|
  {
    hide Header;
  }

  /** After the refused message: the first frame without its header, and the header of the second. */
  lemma AfterTwo(first: Message, second: Message) returns (s: Link)
    requires first == Message(1, Frame(INNER)) && |second.body| == 8384513
    ensures s == Run(false, FRESH, [Send(first, [], []), Send(second, [], [])])
    ensures s == FRESH.(sent := [first], out := s.out) && WellFormed(s.out)
    ensures s.out.Held? && |s.out.mem| == M4K && s.out.head == 8 && s.out.length == 16
    ensures s.out.mem[8..16] == Frame(INNER)
  {
    hide Frame, Header, Framed, Contents;
    assert |Frame(INNER)| == 8;
    SmallFirst(first);
    FramedAtStart(Empty, first, [], []);
    var o := Framed(Empty, first, [], []).out;
    assert Contents(Empty) == [] by { NoContents(Empty); }
    FramedAtStart(o, second, [], []);
    s := Step(false, Step(false, FRESH, Send(first, [], [])), Send(second, [], []));
    RunTwo(false, FRESH, Send(first, [], []), Send(second, [], []));
    SecondHalf(s.out, first, second);
  }

  lemma SecondHalf(o: Out, first: Message, second: Message)
    requires Sendable(first) && Sendable(second) && |first.body| == 8
    requires o.Held? && o.head == 8 && o.length == 16 && |o.mem| == M4K
    requires Contents(o) == (Frame(first) + Header(second))[HEADER_SIZE..]
    ensures o.mem[8..16] == first.body
  {
    hide Header;
    assert o.mem[8..16] == Contents(o)[..8];
    assert (Frame(first) + Header(second))[8..][..8] == first.body;
  }

  /** The third message moves what is left to a larger array, and everything is sent. */
  lemma AfterThird(s: Link, third: Message) returns (t: Link)
    requires |third.body| == 5000 && s == FRESH.(sent := s.sent, out := s.out) && WellFormed(s.out)
    requires s.out.Held? && |s.out.mem| == M4K && s.out.head == 8 && s.out.length == 16
    requires s.out.mem[8..16] == Frame(INNER)
    ensures t == Run(false, s, [Send(third, [], []), Flush(5024)])
    ensures t == FRESH.(sent := s.sent + [third], out := t.out, wire := t.wire)
    ensures |t.wire| == 5024 && t.wire[..8] == Frame(INNER)
  {
    hide Frame, Header, Framed, Contents;
    var o := s.out;
    SendAfterJam(o, third, [], []);
    RunTwo(false, s, Send(third, [], []), Flush(5024));
    t := Step(false, Step(false, s, Send(third, [], [])), Flush(5024));
    var damaged := (o.mem[..16] + Header(third) + o.mem[24..32])[8..] + third.body;
    assert t.wire == damaged;
    assert damaged[..8] == o.mem[8..16];
  }

  lemma InnerFirst(t: Link)
    requires t.decoder == Running([]) && t.delivered == [] && |t.wire| == 5024 && t.wire[..8] == Frame(INNER)
    ensures var r := Step(false, t, Read(5024));
      r.sent == t.sent && r.delivered != [] && r.delivered[0] == INNER
  {
    hide Frame, DecodeInt32;
    var rest := t.wire[8..];
    assert t.wire == Frame(INNER) + rest;
    FrameParses(INNER, rest);
    assert [] + t.wire[..5024] == t.wire;
    DrainStep(t.wire);
  }
}
