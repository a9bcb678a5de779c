/**
 The length-prefixed frame format: a header of two little-endian `int`s (message id, then the
 length of header and body together) followed by the body, and the loop that takes frames off
 the front of a byte stream.
 */
module Codec {
  import opened Bytes

  const HEADER_SIZE := 8
  const MAX_SIZE := 65535 - HEADER_SIZE

  datatype Message = Message(id: int32, body: seq<byte>)

  /** The sender computes the length field in an `int`, so header and body must fit one. */
  ghost predicate Sendable(m: Message) {
    HEADER_SIZE + |m.body| < 0x8000_0000
  }

  /** What the receiver accepts. */
  predicate Conforming(m: Message) {
    HEADER_SIZE + |m.body| <= MAX_SIZE
  }

  ghost predicate AllSendable(ms: seq<Message>) {
    forall m | m in ms :: Sendable(m)
  }

  ghost predicate AllConforming(ms: seq<Message>) {
    forall m | m in ms :: Conforming(m)
  }

  function Header(m: Message): (s: seq<byte>)
    requires Sendable(m)
    ensures |s| == HEADER_SIZE
  {
    EncodeInt32(m.id) + EncodeInt32(HEADER_SIZE + |m.body|)
  }

  function Frame(m: Message): (s: seq<byte>)
    requires Sendable(m)
    ensures |s| == HEADER_SIZE + |m.body|
  {
    Header(m) + m.body
  }

  ghost function EncodeAll(ms: seq<Message>): (s: seq<byte>)
    requires AllSendable(ms)
    ensures ms != [] ==> |s| >= HEADER_SIZE
  {
    if ms == [] then [] else Frame(ms[0]) + EncodeAll(ms[1..])
  }

  /** What the read loop finds at the front of its buffer. */
  datatype Front =
    | Incomplete                           // wait for more bytes
    | BadLength                            // length field negative or above MAX_SIZE: the connection is dropped
    | Undersized                           // length field 0..7: passes the check, then the body length is negative
    | Complete(msg: Message, size: nat)

  function LengthField(s: seq<byte>): int32
    requires |s| >= HEADER_SIZE
  {
    DecodeInt32(s[4..8])
  }

  /** The decision of one pass: header and body are read from `s`, of which `available` bytes count. */
  function FrontOf(s: seq<byte>, available: nat): Front
    requires available <= |s|
  {
    if available < HEADER_SIZE then
      Incomplete
    else
      var len := LengthField(s);
      if len > MAX_SIZE || len < 0 then
        BadLength
      else if available < len then
        Incomplete
      else if len < HEADER_SIZE then
        Undersized
      else
        Complete(Message(DecodeInt32(s[..4]), s[HEADER_SIZE..len]), len)
  }

  function ParseFront(s: seq<byte>): Front {
    FrontOf(s, |s|)
  }

  /** A receiving connection: bytes still buffered, or dropped, or past the point where C++ defines it. */
  datatype Decoder = Running(pending: seq<byte>) | Rejected | Undefined

  datatype Decoded = Decoded(msgs: seq<Message>, next: Decoder)

  /** The read loop: hand out every complete frame, keep the rest. */
  function Drain(s: seq<byte>): Decoded
    decreases |s|
  {
    match ParseFront(s)
    case Incomplete => Decoded([], Running(s))
    case BadLength => Decoded([], Rejected)
    case Undersized => Decoded([], Undefined)
    case Complete(m, size) =>
      var rest := Drain(s[size..]);
      Decoded([m] + rest.msgs, rest.next)
  }

  /** One readable event: append the chunk and run the loop. A dropped connection reads nothing more. */
  function Feed(d: Decoder, chunk: seq<byte>): Decoded {
    if d.Running? then Drain(d.pending + chunk) else Decoded([], d)
  }

  ghost function Concat(chunks: seq<seq<byte>>): seq<byte> {
    if chunks == [] then [] else chunks[0] + Concat(chunks[1..])
  }

  ghost function FeedAll(d: Decoder, chunks: seq<seq<byte>>): Decoded
    decreases |chunks|
  {
    if chunks == [] then
      Decoded([], d)
    else
      var first := Feed(d, chunks[0]);
      var rest := FeedAll(first.next, chunks[1..]);
      Decoded(first.msgs + rest.msgs, rest.next)
  }

  // ---- Encoding ----

  lemma EncodeCons(m: Message, ms: seq<Message>)
    requires Sendable(m) && AllSendable(ms)
    ensures AllSendable([m] + ms) && EncodeAll([m] + ms) == Frame(m) + EncodeAll(ms)
  {
  }

  lemma EncodeNone()
    ensures EncodeAll([]) == []
  {
  }

  lemma {:induction false} EncodeAppend(a: seq<Message>, b: seq<Message>)
    requires AllSendable(a) && AllSendable(b)
    ensures AllSendable(a + b) && EncodeAll(a + b) == EncodeAll(a) + EncodeAll(b)
  {
    hide Frame, EncodeAll;
    if a == [] {
      EncodeNone();
      assert a + b == b;
    } else {
      EncodeAppend(a[1..], b);
      EncodeCons(a[0], a[1..] + b);
      EncodeCons(a[0], a[1..]);
      assert a == [a[0]] + a[1..];
      assert a + b == [a[0]] + (a[1..] + b);
      assert Frame(a[0]) + (EncodeAll(a[1..]) + EncodeAll(b)) == Frame(a[0]) + EncodeAll(a[1..]) + EncodeAll(b);
    }
  }

  lemma EncodeOne(m: Message)
    requires Sendable(m)
    ensures EncodeAll([m]) == Frame(m)
  {
  }

  // ---- One frame ----

  /** The frame on the wire, byte by byte: the id and the whole length, lowest byte first, and the body. */
  lemma FrameLayout(m: Message)
    requires Sendable(m)
    ensures var f := Frame(m);
      && |f| == 8 + |m.body| && f[8..] == m.body
      && f[0] as int + 0x100 * f[1] as int + 0x1_0000 * f[2] as int + 0x100_0000 * f[3] as int == m.id % 0x1_0000_0000
      && f[4] as int + 0x100 * f[5] as int + 0x1_0000 * f[6] as int + 0x100_0000 * f[7] as int == 8 + |m.body|
  {
    DigitsOf(m.id);
    DigitsOf(HEADER_SIZE + |m.body|);
    hide EncodeInt32;
  }

  /** What the length field, read from bytes 4 to 7, makes of the front of the stream. */
  lemma LengthDecides(s: seq<byte>)
    requires |s| >= 8
    ensures var u := s[4] as int + 0x100 * s[5] as int + 0x1_0000 * s[6] as int + 0x100_0000 * s[7] as int;
      && (ParseFront(s).BadLength? <==> u > 65527)
      && (ParseFront(s).Undersized? <==> u < 8)
      && (ParseFront(s).Incomplete? <==> 8 <= u <= 65527 && |s| < u)
      && (ParseFront(s).Complete? <==> 8 <= u <= 65527 && u <= |s|)
      && (ParseFront(s).Complete? ==> ParseFront(s).size == u && ParseFront(s).msg.body == s[8..u])
  {
    assert s[4..8] == [s[4], s[5], s[6], s[7]];
  }


  /** A decision about the front of the stream never changes when more bytes arrive. */
  lemma FrontExtends(a: seq<byte>, b: seq<byte>)
    requires !ParseFront(a).Incomplete?
    ensures ParseFront(a + b) == ParseFront(a)
  {
  }

  /** Decoding inverts encoding, with the receiver's size limit as the exact condition. */
  lemma FrameParses(m: Message, tail: seq<byte>)
    requires Sendable(m)
    ensures ParseFront(Frame(m) + tail) == if Conforming(m) then Complete(m, |Frame(m)|) else BadLength
  {
  }

  /** Encoding inverts decoding: the bytes taken off the front are the frame of the message found. */
  lemma ParsedIsFrame(s: seq<byte>)
    requires ParseFront(s).Complete?
    ensures var front := ParseFront(s);
      Conforming(front.msg) && HEADER_SIZE <= front.size <= |s| && Frame(front.msg) == s[..front.size]
  {
    EncodeDecodeInt32(s[..4]);
    EncodeDecodeInt32(s[4..8]);
    assert s[..LengthField(s)] == s[..4] + s[4..8] + s[HEADER_SIZE..LengthField(s)];
  }

  // ---- The read loop ----

  /** Chunking invariance for one split, for every byte string, well formed or not. */
  lemma {:induction false} DrainAppend(a: seq<byte>, b: seq<byte>)
    ensures var first := Drain(a);
      var rest := Feed(first.next, b);
      Drain(a + b) == Decoded(first.msgs + rest.msgs, rest.next)
    decreases |a|
  {
    hide ParseFront, Frame, DecodeInt32;
    match ParseFront(a)
    case Incomplete =>
    case BadLength => FrontExtends(a, b);
    case Undersized => FrontExtends(a, b);
    case Complete(m, size) =>
      FrontExtends(a, b);
      ParsedIsFrame(a);
      assert (a + b)[size..] == a[size..] + b;
      DrainAppend(a[size..], b);
      var later := Drain(a[size..]);
      assert [m] + (later.msgs + Feed(later.next, b).msgs) == [m] + later.msgs + Feed(later.next, b).msgs;
  }

  /** Chunking invariance: however the transport cuts the stream, the same messages come out. */
  lemma {:induction false} ChunkingInvariance(pending: seq<byte>, chunks: seq<seq<byte>>)
    requires ParseFront(pending).Incomplete?
    ensures FeedAll(Running(pending), chunks) == Drain(pending + Concat(chunks))
    decreases |chunks|
  {
    if chunks == [] {
      assert pending + Concat(chunks) == pending;
    } else {
      var head, tail := chunks[0], chunks[1..];
      DrainAppend(pending + head, Concat(tail));
      assert pending + Concat(chunks) == pending + head + Concat(tail);
      var d := Drain(pending + head).next;
      if d.Running? {
        LeftoverIsIncomplete(pending + head);
        ChunkingInvariance(d.pending, tail);
      } else {
        DeadStaysDead(d, tail);
      }
    }
  }

  lemma {:induction false} DeadStaysDead(d: Decoder, chunks: seq<seq<byte>>)
    requires !d.Running?
    ensures FeedAll(d, chunks) == Decoded([], d)
    decreases |chunks|
  {
    if chunks != [] {
      DeadStaysDead(d, chunks[1..]);
    }
  }

  /** The bound on buffered input: the loop leaves less than one frame, so fewer than MAX_SIZE bytes. */
  lemma {:induction false} LeftoverIsIncomplete(s: seq<byte>)
    ensures var d := Drain(s).next;
      d.Running? ==> ParseFront(d.pending).Incomplete? && |d.pending| < MAX_SIZE && |d.pending| <= |s|
    decreases |s|
  {
    if ParseFront(s).Complete? {
      LeftoverIsIncomplete(s[ParseFront(s).size..]);
    }
  }

  /** Where the loop stops: the part of the input it does not consume. */
  ghost function Tail(s: seq<byte>): (t: seq<byte>)
    ensures Drain(s).next.Running? ==> t == Drain(s).next.pending
    decreases |s|
  {
    if ParseFront(s).Complete? then Tail(s[ParseFront(s).size..]) else s
  }

  lemma {:induction false} DrainedConform(s: seq<byte>)
    ensures AllConforming(Drain(s).msgs) && AllSendable(Drain(s).msgs)
    decreases |s|
  {
    hide ParseFront, DecodeInt32;
    if ParseFront(s).Complete? {
      ParsedIsFrame(s);
      DrainedConform(s[ParseFront(s).size..]);
    }
  }

  lemma DrainStep(s: seq<byte>)
    requires ParseFront(s).Complete?
    ensures var front := ParseFront(s);
      var rest := s[front.size..];
      Drain(s) == Decoded([front.msg] + Drain(rest).msgs, Drain(rest).next) && Tail(s) == Tail(rest)
  {
  }

  lemma DrainStop(s: seq<byte>)
    requires !ParseFront(s).Complete?
    ensures Drain(s).msgs == [] && EncodeAll(Drain(s).msgs) == [] && Tail(s) == s
  {
  }

  /** Nothing is lost or invented: the input is the encoding of what was delivered, then the tail. */
  lemma {:induction false} DrainConserves(s: seq<byte>)
    ensures AllConforming(Drain(s).msgs) && AllSendable(Drain(s).msgs)
    ensures s == EncodeAll(Drain(s).msgs) + Tail(s)
    decreases |s|
  {
    hide ParseFront, Drain, Tail, Frame, EncodeAll;
    DrainedConform(s);
    if ParseFront(s).Complete? {
      var front := ParseFront(s);
      ParsedIsFrame(s);
      DrainStep(s);
      var rest := s[front.size..];
      DrainConserves(rest);
      EncodeCons(front.msg, Drain(rest).msgs);
      assert s == s[..front.size] + rest;
    } else {
      DrainStop(s);
    }
  }

  /** How the loop ends, by the first eight bytes of what it does not consume: it waits for a header or for the rest
      of a frame, it drops the connection at a length field out of range, and it leaves what C++ defines at one
      below the size of a header. */
  lemma {:induction false} DrainEnds(s: seq<byte>)
    ensures var t := Tail(s);
      if |t| < 8 then Drain(s).next == Running(t)
      else
        var u := t[4] as int + 0x100 * t[5] as int + 0x1_0000 * t[6] as int + 0x100_0000 * t[7] as int;
        && (Drain(s).next == Rejected <==> u > 65527)
        && (Drain(s).next == Undefined <==> u < 8)
        && (8 <= u <= 65527 ==> |t| < u && Drain(s).next == Running(t))
    decreases |s|
  {
    hide ParseFront;
    if ParseFront(s).Complete? {
      ParsedIsFrame(s);
      DrainStep(s);
      DrainEnds(s[ParseFront(s).size..]);
    } else {
      DrainStop(s);
      FrontShort(s);
      if |s| >= 8 {
        LengthDecides(s);
      }
    }
  }

  lemma FrontShort(s: seq<byte>)
    ensures |s| < 8 ==> ParseFront(s).Incomplete?
  {
  }

  /** Decoding an encoded list of conforming messages gives the list back and goes on with the tail. */
  lemma {:induction false} DrainEncoded(ms: seq<Message>, tail: seq<byte>)
    requires AllSendable(ms) && AllConforming(ms)
    ensures Drain(EncodeAll(ms) + tail) == Decoded(ms + Drain(tail).msgs, Drain(tail).next)
  {
    hide ParseFront, Frame, DecodeInt32, Drain;
    if ms == [] {
      assert EncodeAll(ms) + tail == tail;
    } else {
      var m, later := ms[0], ms[1..];
      var rest := EncodeAll(later) + tail;
      assert EncodeAll(ms) + tail == Frame(m) + rest;
      hide EncodeAll;
      DrainEncoded(later, tail);
      DrainFrame(m, rest);
      assert [m] + (later + Drain(tail).msgs) == ms + Drain(tail).msgs;
    }
  }

  lemma DrainFrame(m: Message, rest: seq<byte>)
    requires Sendable(m) && Conforming(m)
    ensures Drain(Frame(m) + rest) == Decoded([m] + Drain(rest).msgs, Drain(rest).next)
  {
    hide ParseFront, Frame, DecodeInt32, Drain;
    FrameParses(m, rest);
    assert (Frame(m) + rest)[|Frame(m)|..] == rest;
    DrainStep(Frame(m) + rest);
  }

  /** Number of messages before the first one the receiver refuses. */
  ghost function AcceptedCount(ms: seq<Message>): (n: nat)
    ensures n <= |ms| && AllConforming(ms[..n]) && (n < |ms| ==> !Conforming(ms[n]))
    ensures n == |ms| <==> AllConforming(ms)
  {
    if ms == [] || !Conforming(ms[0]) then 0 else
      var n := 1 + AcceptedCount(ms[1..]);
      assert ms[..n] == [ms[0]] + ms[1..][..n - 1];
      n
  }

  /** The receiver delivers exactly the messages before the first oversized one, and drops there. */
  lemma DrainSent(ms: seq<Message>)
    requires AllSendable(ms)
    ensures Drain(EncodeAll(ms)) ==
      Decoded(ms[..AcceptedCount(ms)], if AllConforming(ms) then Running([]) else Rejected)
  {
    hide Drain, EncodeAll, AcceptedCount;
    var n := AcceptedCount(ms);
    var good, bad := ms[..n], ms[n..];
    assert ms == good + bad;
    EncodeAppend(good, bad);
    DrainEncoded(good, EncodeAll(bad));
    assert good + [] == good;
    if bad != [] {
      RefusedAtFront(bad);
    } else {
      EmptyInput();
    }
  }

  lemma RefusedAtFront(ms: seq<Message>)
    requires AllSendable(ms) && ms != [] && !Conforming(ms[0])
    ensures Drain(EncodeAll(ms)) == Decoded([], Rejected)
  {
  }

  lemma EmptyInput()
    ensures Drain(EncodeAll([])) == Decoded([], Running([]))
  {
  }

  /** The round trip holds exactly for lists within the receiver's size limit. */
  lemma RoundTripExactly(ms: seq<Message>)
    requires AllSendable(ms)
    ensures Drain(EncodeAll(ms)) == Decoded(ms, Running([])) <==> AllConforming(ms)
  {
    DrainSent(ms);
    if AllConforming(ms) {
      assert ms[..|ms|] == ms;
    }
  }

  // ---- The server side's loop ----

  /** The loop of the server side, which takes its data pointer once, before the loop: every pass
      reads header and body at the front `s` had on entry, while `rest` is what is still buffered. */
  function StaleDrain(s: seq<byte>, rest: seq<byte>): Decoded
    requires |rest| <= |s|
    decreases |rest|
  {
    match FrontOf(s, |rest|)
    case Incomplete => Decoded([], Running(rest))
    case BadLength => Decoded([], Rejected)
    case Undersized => Decoded([], Undefined)
    case Complete(m, size) =>
      var more := StaleDrain(s, rest[size..]);
      Decoded([m] + more.msgs, more.next)
  }

  function Times(size: nat, count: nat): nat {
    if count == 0 then 0 else size + Times(size, count - 1)
  }

  /** One pass of it, with a complete frame at the front. */
  lemma StaleOne(s: seq<byte>, rest: seq<byte>)
    requires ParseFront(s).Complete? && |rest| <= |s|
    ensures var first := ParseFront(s);
      && first.size > 0
      && (|rest| < first.size ==> StaleDrain(s, rest) == Decoded([], Running(rest)))
      && (|rest| >= first.size ==>
          var more := StaleDrain(s, rest[first.size..]);
          StaleDrain(s, rest) == Decoded([first.msg] + more.msgs, more.next))
  {
    hide DecodeInt32;
  }

  /** What the server-side loop computes: one copy of the first message for every whole multiple of its length. */
  lemma {:induction false} StaleRepeats(s: seq<byte>, rest: seq<byte>)
    requires ParseFront(s).Complete? && |rest| <= |s|
    ensures var first := ParseFront(s);
      var d := StaleDrain(s, rest);
      && (forall i | 0 <= i < |d.msgs| :: d.msgs[i] == first.msg)
      && d.next.Running? && |d.next.pending| < first.size
      && Times(first.size, |d.msgs|) + |d.next.pending| == |rest|
      && d.next.pending == rest[Times(first.size, |d.msgs|)..]
    decreases |rest|
  {
    StaleOne(s, rest);
    hide ParseFront, StaleDrain;
    var first := ParseFront(s);
    if |rest| >= first.size {
      var shorter := rest[first.size..];
      StaleRepeats(s, shorter);
      var more := StaleDrain(s, shorter);
      OneMore(first.size, first.msg, more.msgs);
      SkipTwice(rest, first.size, Times(first.size, |more.msgs|));
      hide Times;
    }
  }

  lemma OneMore(size: nat, m: Message, ms: seq<Message>)
    ensures Times(size, |[m] + ms|) == size + Times(size, |ms|)
    ensures (forall i | 0 <= i < |ms| :: ms[i] == m) ==> forall i | 0 <= i < |[m] + ms| :: ([m] + ms)[i] == m
  {
  }

  lemma SkipTwice(s: seq<byte>, a: nat, b: nat)
    requires a + b <= |s|
    ensures s[a..][b..] == s[a + b..]
  {
  }

  /** Length of a stream of copies of one message. */
  lemma {:induction false} CopiesLength(ms: seq<Message>, m: Message)
    requires Sendable(m) && AllSendable(ms) && forall i | 0 <= i < |ms| :: ms[i] == m
    ensures |EncodeAll(ms)| == Times(HEADER_SIZE + |m.body|, |ms|)
  {
    hide Frame;
    if ms != [] {
      CopiesLength(ms[1..], m);
    }
  }

  /** When the server-side loop reads a buffer as the client-side loop does: for every content of the
      buffer, exactly if no frame is complete, or all complete frames carry the same message and what
      is left is an unfinished frame shorter than that one. */
  ghost predicate ReadsAlike(s: seq<byte>) {
    var d := Drain(s);
    d.msgs == [] ||
    (&& (forall i | 0 <= i < |d.msgs| :: d.msgs[i] == d.msgs[0])
     && d.next.Running?
     && |d.next.pending| < HEADER_SIZE + |d.msgs[0].body|)
  }

  lemma StaleDrainExactly(s: seq<byte>)
    ensures StaleDrain(s, s) == Drain(s) <==> ReadsAlike(s)
  {
    if ParseFront(s).Complete? {
      var first := ParseFront(s);
      ParsedIsFrame(s);
      StaleRepeats(s, s);
      var stale, exact := StaleDrain(s, s), Drain(s);
      assert exact.msgs[0] == first.msg;
      if ReadsAlike(s) {
        DrainConserves(s);
        CopiesLength(exact.msgs, first.msg);
        SameQuotient(first.size, |stale.msgs|, |stale.next.pending|, |exact.msgs|, |exact.next.pending|);
        assert stale.msgs == exact.msgs;
        assert exact.next.pending == s[Times(first.size, |exact.msgs|)..];
      }
    }
  }

  lemma {:induction false} SameQuotient(size: nat, q: nat, r: nat, q': nat, r': nat)
    requires r < size && r' < size && Times(size, q) + r == Times(size, q') + r'
    ensures q == q' && r == r'
  {
    if q != 0 && q' != 0 {
      SameQuotient(size, q - 1, r, q' - 1, r');
    }
  }

  /** Two different messages that arrive together: the server-side loop hands out the first one twice. */
  lemma StaleExample()
    ensures var s := EncodeAll([Message(1, []), Message(2, [])]);
      StaleDrain(s, s).msgs == [Message(1, []), Message(1, [])] &&
      Drain(s).msgs == [Message(1, []), Message(2, [])]
  {
    var a, b := Message(1, []), Message(2, []);
    var s := EncodeAll([a, b]);
    DrainSent([a, b]);
    assert [a, b][..2] == [a, b];
    assert s == Frame(a) + EncodeAll([b]);
    EncodeOne(b);
    FrameParses(a, EncodeAll([b]));
    StaleRepeats(s, s);
    var d := StaleDrain(s, s);
    assert Times(8, 2) == 16 == |s|;
    SameQuotient(8, |d.msgs|, |d.next.pending|, 2, 0);
    assert d.msgs == [a, a];
  }
}
