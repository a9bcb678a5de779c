/**
 The output buffer as the program keeps it: an array, the index of the first byte and the number of
 bytes. Appending writes at index `length`, which is the end of the bytes only while `head` is 0; a
 failed message leaves a head behind, and only a move to a larger array resets it.
 */
module Outputs {
  import opened Bytes
  import opened Codec
  import opened BufferPool

  datatype Out = Empty | Held(mem: seq<byte>, head: nat, length: nat)

  predicate WellFormed(o: Out) {
    o.Held? ==> IsClass(|o.mem|) && 0 <= o.length <= |o.mem|
  }

  /** The state in which the program's assertion lets bytes be written to the socket. */
  predicate AtStart(o: Out) {
    o.Held? ==> o.head == 0
  }

  predicate InArray(o: Out) {
    o.Held? ==> o.head + o.length <= |o.mem|
  }

  function Count(o: Out): nat {
    if o.Held? then o.length else 0
  }

  /** The bytes from the head on, as far as they lie in the array. */
  function Contents(o: Out): (s: seq<byte>)
    ensures InArray(o) ==> |s| == Count(o)
  {
    if o.Held? && InArray(o) then o.mem[o.head..o.head + o.length] else []
  }

  /** What a pooled array of `c` bytes holds when it is handed out. */
  function Stale(given: seq<byte>, c: nat): (m: seq<byte>)
    ensures |m| == c
    ensures |given| == c ==> m == given
  {
    if |given| >= c then given[..c] else given + seq(c - |given|, i => 0)
  }

  /** The effect of `memcpy(m_data + m_length, bytes)`. */
  function Placed(mem: seq<byte>, head: nat, length: nat, bytes: seq<byte>): Out
    requires length + |bytes| <= |mem|
  {
    Held(mem[..length] + bytes + mem[length + |bytes|..], head, length + |bytes|)
  }

  /** `Overread`: the copy into a larger array reads behind the end of the old one. */
  datatype Write = Wrote(out: Out) | NoRoom | Overread

  /** The bytes at the start of a new array. */
  function MovedTo(o: Out, given: seq<byte>): (o': Out)
    requires o.Held? && InArray(o) && o.length <= |given|
    ensures o'.Held? && o'.length == o.length && |o'.mem| == |given|
  {
    Held(Contents(o) + given[o.length..], 0, o.length)
  }

  /** Room for `n` more bytes: a first array, or a larger one that takes over the bytes. */
  function Reserved(o: Out, n: nat, given: seq<byte>): (w: Write)
    requires o.Held? ==> o.length <= |o.mem|
    ensures w.Wrote? ==> w.out.Held? && w.out.length == Count(o) && w.out.length + n <= |w.out.mem|
  {
    if o.Empty? then
      var c := ClassFor(n);
      if c == 0 then NoRoom else Wrote(Held(Stale(given, c), 0, 0))
    else if |o.mem| - o.length < n then
      var c := ClassFor(|o.mem| + n);
      if c == 0 then NoRoom
      else if !InArray(o) then Overread
      else Wrote(MovedTo(o, Stale(given, c)))
    else
      Wrote(o)
  }

  /** `write_data`, given what a newly obtained array holds. */
  function Written(o: Out, bytes: seq<byte>, given: seq<byte>): Write
    requires o.Held? ==> o.length <= |o.mem|
  {
    var w := Reserved(o, |bytes|, given);
    if w.Wrote? then Wrote(Placed(w.out.mem, w.out.head, w.out.length, bytes)) else w
  }

  /** `pop`: an array without bytes goes back to the pool. */
  function Popped(o: Out, n: nat): Out
    requires o.Held? && n <= o.length
  {
    if n == o.length then Empty else Held(o.mem, o.head + n, o.length - n)
  }

  datatype SendResult = Sent | HeaderFailed | BodyFailed | SendExited | SendOverread

  datatype SendEnd = SendEnd(result: SendResult, out: Out)

  /** The part of both `send` functions that concerns the buffer, unless the pool ends the process: when
      the body finds no room, eight bytes are removed from the front. */
  function Framed(o: Out, m: Message, given: seq<byte>, given': seq<byte>): SendEnd
    requires Sendable(m) && WellFormed(o)
  {
    match Written(o, Header(m), given)
    case NoRoom => SendEnd(HeaderFailed, o)
    case Overread => SendEnd(SendOverread, o)
    case Wrote(o1) =>
      match Written(o1, m.body, given')
      case NoRoom => SendEnd(BodyFailed, Popped(o1, HEADER_SIZE))
      case Overread => SendEnd(SendOverread, o1)
      case Wrote(o2) => SendEnd(Sent, o2)
  }

  /** One successful `write` of `n` bytes: they leave the front, and the rest moves to the start. */
  function Flushed(o: Out, n: nat): Out
    requires o.Held? && n <= o.length <= |o.mem|
  {
    Held(o.mem[n..o.length] + o.mem[o.length - n..], 0, o.length - n)
  }

  lemma FlushedNothing(o: Out)
    requires o.Held? && o.head == 0 && o.length <= |o.mem|
    ensures Flushed(o, 0) == o
  {
    assert o.mem[0..o.length] + o.mem[o.length..] == o.mem;
  }

  lemma MovedIs(mem: seq<byte>, head: nat, length: nat, given: seq<byte>)
    requires head + length <= |mem| && length <= |given|
    ensures MovedTo(Held(mem, head, length), given) == Held(mem[head..head + length] + given[length..], 0, length)
  {
  }

  lemma FlushedIs(mem: seq<byte>, length: nat, n: nat)
    requires n <= length <= |mem|
    ensures Flushed(Held(mem, 0, length), n) == Held(mem[n..n + (length - n)] + mem[length - n..], 0, length - n)
  {
  }

  // ---- The append ----

  /** Room for `n` more bytes, exactly: the array stays if they fit behind the bytes there are; otherwise it is the
      smallest one that can be requested with room for the whole old array and them, in which the bytes come first;
      beyond the largest there is none, and bytes that reach behind the old array cannot be copied. */
  lemma ReservedExactly(o: Out, n: nat, given: seq<byte>)
    requires WellFormed(o)
    ensures var w := Reserved(o, n, given);
      var size := if o.Empty? then n else |o.mem| + n;
      if o.Held? && |o.mem| - o.length >= n then w == Wrote(o)
      else if size > 8388608 then w == NoRoom
      else if !InArray(o) then w == Overread
      else
        && w.Wrote? && w.out.Held? && w.out.head == 0 && w.out.length == Count(o)
        && w.out.mem[..Count(o)] == Contents(o) && |w.out.mem| >= size
        && |w.out.mem| in {4096, 65536, 262144, 1048576, 4194304, 8388608}
        && forall c | Reachable(c) && c >= size :: |w.out.mem| <= c
  {
  }

  lemma WrittenKeeps(o: Out, bytes: seq<byte>, given: seq<byte>)
    requires WellFormed(o)
    ensures var w := Written(o, bytes, given);
      w.Wrote? ==> WellFormed(w.out) && w.out.Held? && w.out.length == Count(o) + |bytes|
  {
  }

  /** With the head at the start, `write_data` is append at the tail; when it fails, exactly. */
  lemma WrittenAtStart(o: Out, bytes: seq<byte>, given: seq<byte>)
    requires WellFormed(o) && AtStart(o)
    ensures var w := Written(o, bytes, given);
      && !w.Overread?
      && (w.Wrote? ==> AtStart(w.out) && InArray(w.out) && Contents(w.out) == Contents(o) + bytes)
      && (w.NoRoom? <==> Full(o, |bytes|))
  {
    var w := Written(o, bytes, given);
    if w.Wrote? && o.Held? {
      assert w.out.mem[..o.length] == Contents(o);
      assert w.out.mem[..o.length + |bytes|] == w.out.mem[..o.length] + bytes;
    }
  }

  /** `n` more bytes fit no array of the pool. */
  predicate Full(o: Out, n: nat) {
    if o.Empty? then n > M8M else |o.mem| - o.length < n && |o.mem| + n > M8M
  }

  // ---- Sending a message ----

  /** The size of the array once the header is in it. */
  function HeaderArray(o: Out): nat {
    if o.Empty? then M4K else if |o.mem| - o.length < HEADER_SIZE then ClassFor(|o.mem| + HEADER_SIZE) else |o.mem|
  }

  /** What `send` leaves in a buffer that starts at the head, and when each part fails, exactly. A failed
      body in an empty buffer is undone; otherwise the first eight bytes are gone, a header without
      body stands at the end, and the head is at 8. */
  lemma FramedAtStart(o: Out, m: Message, given: seq<byte>, given': seq<byte>)
    requires WellFormed(o) && AtStart(o) && Sendable(m)
    ensures var s := Framed(o, m, given, given');
      && WellFormed(s.out) && InArray(s.out) && s.result != SendOverread && s.result != SendExited
      && (s.result == HeaderFailed <==> Full(o, HEADER_SIZE))
      && (s.result == BodyFailed <==>
          (!Full(o, HEADER_SIZE)
           && HeaderArray(o) - (Count(o) + HEADER_SIZE) < |m.body| && HeaderArray(o) + |m.body| > M8M))
    ensures var s := Framed(o, m, given, given');
      && (s.result == Sent ==> AtStart(s.out) && Contents(s.out) == Contents(o) + Frame(m))
      && (s.result == HeaderFailed ==> s.out == o)
      && (s.result == BodyFailed && Count(o) == 0 ==> s.out == Empty)
      && (s.result == BodyFailed && Count(o) > 0 ==>
          s.out.Held? && s.out.head == 8 && |s.out.mem| == HeaderArray(o) && s.out.length == Count(o) &&
          Contents(s.out) == (Contents(o) + Header(m))[HEADER_SIZE..])
  {
    hide Header;
    WrittenKeeps(o, Header(m), given);
    WrittenAtStart(o, Header(m), given);
    var w := Written(o, Header(m), given);
    if w.Wrote? {
      assert |w.out.mem| == HeaderArray(o);
      hide Written;
      WrittenKeeps(w.out, m.body, given');
      WrittenAtStart(w.out, m.body, given');
      assert Contents(o) + Header(m) + m.body == Contents(o) + Frame(m);
    }
  }

  /** For amounts below the smallest difference of the upper classes, what counts is the total. */
  lemma SmallWrite(capacity: nat, length: nat, n: nat)
    requires IsClass(capacity) && length <= capacity && n <= MAX_SIZE
    ensures capacity - length < n && capacity + n > M8M <==> length + n > M8M
    ensures capacity - length < n && capacity + n > M8M ==> capacity == M8M
  {
  }

  /** A message of acceptable size is refused exactly if with what waits before it, it exceeds the largest
      array; its body then fails in an array of that size. */
  lemma AcceptableRefused(o: Out, m: Message, given: seq<byte>, given': seq<byte>)
    requires WellFormed(o) && AtStart(o) && Conforming(m)
    ensures var s := Framed(o, m, given, given');
      && (s.result == HeaderFailed <==> Count(o) + HEADER_SIZE > M8M)
      && (s.result == BodyFailed <==> Count(o) + HEADER_SIZE <= M8M < Count(o) + HEADER_SIZE + |m.body|)
      && (s.result == BodyFailed && Count(o) > 0 ==> s.out.Held? && |s.out.mem| == M8M)
  {
    FramedAtStart(o, m, given, given');
    hide Framed;
    if o.Held? {
      SmallWrite(|o.mem|, o.length, HEADER_SIZE);
    }
    if !Full(o, HEADER_SIZE) {
      SmallWrite(HeaderArray(o), Count(o) + HEADER_SIZE, |m.body|);
    }
  }

  /** A head left behind in the largest array stays there: no write can move the bytes to a larger one. */
  predicate Stuck(o: Out) {
    o.Held? && o.head > 0 && 0 < o.length <= |o.mem| == M8M
  }

  lemma StuckStays(o: Out, m: Message, given: seq<byte>, given': seq<byte>)
    requires Stuck(o) && Sendable(m)
    ensures var s := Framed(o, m, given, given');
      Stuck(s.out) && s.result != SendOverread && s.result != SendExited
  {
    hide Header;
    var w := Written(o, Header(m), given);
    if w.Wrote? {
      StuckWrite(o, Header(m), given);
      StuckWrite(w.out, m.body, given');
    }
  }

  lemma StuckWrite(o: Out, bytes: seq<byte>, given: seq<byte>)
    requires Stuck(o)
    ensures var w := Written(o, bytes, given);
      !w.Overread? && (w.Wrote? ==> Stuck(w.out) && w.out.length == o.length + |bytes|)
  {
  }
}
