/**
 Input and output buffers of a connection: a byte queue kept in at most one pooled buffer, which
 is replaced by a larger one when it runs full and returned to the pool when it runs empty.
 */
module ReactorBuffer {
  import opened Bytes
  import opened IoBuffer
  import opened BufferPool
  import Outputs

  /** `Failed` is the result -1; `Exited` means that the pool ended the process, `Aborts` that an assertion
      did. `Overreads`: a copy reads behind the end of an array. */
  datatype Status = Done(n: nat) | Failed | Exited | Aborts | Overreads

  /** What the kernel answers to `read`. */
  datatype ReadAnswer = Chunk(bytes: seq<byte>) | ReadError

  /** `Overrun`: the read stores bytes behind the end of the buffer. */
  datatype ReadStatus = Got(n: nat) | ReadFailed | ReadExited | Overrun

  datatype WriteAnswer = Accepted(n: nat) | WouldBlock | Broken

  /** The kernel's side of a connection: it accepts any part of what it is offered, or none. */
  class Socket {
    ghost var wire: seq<byte>   // all bytes accepted so far, in order
    ghost var offers: nat       // how often it has been offered bytes, and what it said last
    ghost var last: WriteAnswer

    method Write(data: array<byte>, count: nat) returns (w: WriteAnswer)
      requires count <= data.Length
      modifies this
      ensures w.Accepted? ==> w.n <= count && wire == old(wire) + data[..w.n]
      ensures !w.Accepted? ==> wire == old(wire)
      ensures last == w && offers == old(offers) + 1
    {
      if * {
        var n: nat :| n <= count;
        wire := wire + data[..n];
        w := Accepted(n);
      } else if * {
        w := WouldBlock;
      } else {
        w := Broken;
      }
      last, offers := w, offers + 1;
    }
  }

  /** Who holds what: the buffers made, their holders, and the one buffer of the holder looked at. */
  datatype Holding = Holding(all: set<IoBuf>, lent: map<IoBuf, object>, mine: IoBuf?)

  /** Between two moments only the holding of one holder changed; what others held stays with them. */
  ghost predicate Evolves(h: Holding, h': Holding) {
    && h.all <= h'.all
    && (forall b | b in h.lent && b != h.mine :: b in h'.lent && h'.lent[b] == h.lent[b] && b != h'.mine)
    && (forall b | b in h'.lent && b != h'.mine :: b in h.lent && b != h.mine)
  }

  lemma ByAdoption(h: Holding, h': Holding, b: IoBuf, moved: bool, who: object)
    requires h.all <= h'.all && h.mine != null && b !in h.lent
    requires moved ==> h'.mine == b && h'.lent == h.lent[b := who] - {h.mine}
    requires !moved ==> h'.lent == h.lent[b := who]
    ensures if moved then Evolves(h, h') else Kept(h.lent, h'.lent, {who})
  {
  }

  lemma EvolvesNot(h: Holding)
    ensures Evolves(h, h)
  {
  }

  /** What others than `movers` hold stays with them, and they get nothing more. */
  ghost predicate Kept(lent: map<IoBuf, object>, lent': map<IoBuf, object>, movers: set<object>) {
    && (forall b | b in lent && lent[b] !in movers :: b in lent' && lent'[b] == lent[b])
    && (forall b | b in lent' && lent'[b] !in movers :: b in lent && lent[b] == lent'[b])
  }

  lemma EvolvesKept(h: Holding, h': Holding, who: object)
    requires Evolves(h, h')
    requires h.mine != null ==> h.mine in h.lent && h.lent[h.mine] == who
    requires h'.mine != null ==> h'.mine in h'.lent && h'.lent[h'.mine] == who
    ensures Kept(h.lent, h'.lent, {who})
  {
  }

  lemma EvolvesTwice(h: Holding, h': Holding, h'': Holding)
    requires Evolves(h, h') && Evolves(h', h'')
    ensures Evolves(h, h'')
  {
  }

  lemma ClassOfInt(capacity: nat, n: nat)
    requires capacity <= M8M && n < 0x8000_0000
    ensures ClassFor(AsInt32(capacity + n)) == ClassFor(capacity + n)
  {
  }

  /** A request for room, or an append, ends as the specification says, unless the pool ends the process. */
  ghost predicate Reserving(r: Status, o: Outputs.Out, n: nat, given: seq<byte>, o': Outputs.Out)
    requires o.Held? ==> o.length <= |o.mem|
  {
    Ending(r, o, Outputs.Reserved(o, n, given), o')
  }

  ghost predicate Writing(r: Status, o: Outputs.Out, bytes: seq<byte>, given: seq<byte>, o': Outputs.Out)
    requires o.Held? ==> o.length <= |o.mem|
  {
    Ending(r, o, Outputs.Written(o, bytes, given), o')
  }

  ghost predicate Ending(r: Status, o: Outputs.Out, w: Outputs.Write, o': Outputs.Out) {
    match r
    case Done(_) => w == Outputs.Wrote(o')
    case Failed => w == Outputs.NoRoom && o' == o
    case Overreads => w == Outputs.Overread && o' == o
    case Exited => o' == o
    case Aborts => false
  }

  lemma FirstArray(r: Status, n: nat, given: seq<byte>, o: Outputs.Out)
    requires r.Failed? ==> n > M8M && o.Empty?
    requires r.Done? ==> n <= M8M && |given| == ClassFor(n) && o == Outputs.Held(given, 0, 0)
    requires r.Exited? ==> o.Empty?
    requires r.Failed? || r.Done? || r.Exited?
    ensures Reserving(r, Outputs.Empty, n, given, o)
  {
  }

  lemma LargerArray(r: Status, o: Outputs.Out, n: nat, given: seq<byte>, o': Outputs.Out)
    requires o.Held? && o.length <= |o.mem| && |o.mem| - o.length < n
    requires r.Failed? || r.Done? || r.Exited? || r.Overreads?
    requires r.Failed? <==> |o.mem| + n > M8M && !r.Exited?
    requires r.Done? || r.Overreads? ==> |given| == ClassFor(|o.mem| + n)
    requires r.Overreads? ==> !Outputs.InArray(o)
    requires r.Done? ==> Outputs.InArray(o) && o.length <= |given| && o' == Outputs.MovedTo(o, given)
    requires !r.Done? ==> o' == o
    ensures Reserving(r, o, n, given, o')
  {
  }

  lemma RoomAtStart(r: Status, o: Outputs.Out, n: nat, given: seq<byte>, o': Outputs.Out)
    requires Outputs.WellFormed(o) && Outputs.AtStart(o) && Reserving(r, o, n, given, o')
    ensures !r.Overreads? && !r.Aborts? && Outputs.AtStart(o') && (r.Failed? <==> Outputs.Full(o, n) && !r.Exited?)
    ensures Outputs.InArray(o') && Outputs.Contents(o') == Outputs.Contents(o)
    ensures !r.Done? ==> o' == o
    ensures r.Done? ==> o'.Held? && o'.length + n <= |o'.mem|
  {
  }

  lemma AppendsNot(r: Status, o: Outputs.Out, bytes: seq<byte>, given: seq<byte>, o': Outputs.Out)
    requires o.Held? ==> o.length <= |o.mem|
    requires Reserving(r, o, |bytes|, given, o')
    ensures !r.Done? ==> Writing(r, o, bytes, given, o')
    ensures r.Done? ==> o'.Held? && o'.length + |bytes| <= |o'.mem|
  {
  }

  lemma AppendsThen(r: Status, o: Outputs.Out, bytes: seq<byte>, given: seq<byte>, roomy: Outputs.Out, o': Outputs.Out)
    requires o.Held? ==> o.length <= |o.mem|
    requires r.Done? && Reserving(r, o, |bytes|, given, roomy)
    requires roomy.Held? && roomy.length + |bytes| <= |roomy.mem|
    requires o' == Outputs.Placed(roomy.mem, roomy.head, roomy.length, bytes)
    ensures Writing(Done(|bytes|), o, bytes, given, o')
  {
  }

  class ReactorBuf {
    const pool: BufPool
    var buf: IoBuf?

    constructor (p: BufPool)
      ensures pool == p && buf == null
    {
      pool := p;
      buf := null;
    }

    ghost function Mine(): set<object>
      reads this`buf
    {
      if buf == null then {} else {buf, buf.data}
    }

    /** What an operation may touch besides this object and its pool. */
    ghost function Footprint(): set<object>
      reads this`buf, pool`all, pool`lent
    {
      Mine() + pool.FreeObjects()
    }

    /** The pooled buffer without its array. */
    ghost function Handle(): set<object>
      reads this`buf
    {
      if buf == null then {} else {buf}
    }

    ghost predicate Ready()
      reads this`buf, pool, (set b | b in pool.all && b !in pool.lent)
    {
      && pool.Ready()
      && (buf != null ==> buf in pool.all && buf in pool.lent && pool.lent[buf] == this)
    }

    ghost predicate Sound()
      reads this`buf, if buf == null then {} else {buf, buf.data}
    {
      buf != null ==> buf.Valid()
    }

    /** The byte queue the buffer stands for. */
    ghost function Contents(): seq<byte>
      requires Sound()
      reads this`buf, if buf == null then {} else {buf, buf.data}
    {
      if buf == null then [] else buf.Contents()
    }

    /** What also holds when a failed message has left its head behind. */
    ghost predicate Bounded()
      reads this`buf, if buf == null then {} else {buf, buf.data}
    {
      buf != null ==> buf.data.Length == buf.capacity && buf.length <= buf.capacity
    }

    /** Array, head and length. */
    ghost function Image(): Outputs.Out
      reads this`buf, if buf == null then {} else {buf, buf.data}
    {
      if buf == null then Outputs.Empty else Outputs.Held(buf.data[..], buf.head, buf.length)
    }

    /** The state in which bytes can be appended and written: `write2fd` and `read_data` assert it. */
    ghost predicate AtStart()
      reads this`buf, if buf == null then {} else {buf, buf.data}
    {
      buf != null ==> buf.head == 0
    }

    ghost function Now(): Holding
      reads this`buf, pool`lent, pool`all
    {
      Holding(pool.all, pool.lent, buf)
    }

    /** Only the holding of this object changes, and what it holds or returns comes from its footprint. */
    twostate predicate Local()
      reads this`buf, pool`lent, pool`all
    {
      && Evolves(old(Now()), Now())
      && forall b | b in pool.all && b !in old(pool.all) :: fresh(b) && fresh(b.data)
    }

    twostate lemma LocalFootprint()
      requires old(Ready()) && Ready() && Local()
      ensures forall o | o in Footprint() :: o in old(Footprint()) || fresh(o)
    {
      hide BufPool.Ready;
      forall b | b in pool.all && (b !in pool.lent || b == buf)
        ensures (fresh(b) && fresh(b.data)) || b == old(buf) || b in old(pool.FreeBufs())
      {
      }
    }

    twostate lemma LocalKeeps()
      requires old(Ready()) && Ready() && Local()
      ensures Kept(old(pool.lent), pool.lent, {this})
    {
      hide BufPool.Ready, Evolves, Kept;
      EvolvesKept(old(Now()), Now(), this);
    }

    lemma Shape()
      requires Ready() && Bounded()
      ensures Outputs.WellFormed(Image()) && (Sound() <==> Outputs.InArray(Image()))
      ensures Sound() ==> Contents() == Outputs.Contents(Image())
    {
      hide BufPool.Ready, IsClass;
      if buf != null {
        pool.HeldApart(buf);
      }
    }

    method Length() returns (n: nat)
      requires Bounded()
      ensures n == Outputs.Count(Image()) && (Sound() ==> n == |Contents()|)
    {
      n := if buf == null then 0 else buf.length;
    }

    method Clear()
      requires Ready()
      modifies this`buf, pool`pool, pool`free, pool`lent, Handle()
      ensures Ready() && Sound() && buf == null && Contents() == []
      ensures Local()
      ensures pool.lent == old(pool.lent) - (if old(buf) == null then {} else {old(buf)})
    {
      hide BufPool.Ready;
      if buf != null {
        pool.Revert(buf);
        buf := null;
      }
    }

    /** Removes bytes from the front; the pooled buffer goes back when none are left. */
    method Pop(len: nat)
      requires Ready() && Bounded() && buf != null && len <= buf.length
      modifies this`buf, pool`pool, pool`free, pool`lent, Handle()
      ensures Ready() && Bounded() && Local()
      ensures Image() == Outputs.Popped(old(Image()), len)
      ensures old(Sound()) ==> Sound() && Contents() == old(Contents())[len..]
      ensures buf == if old(buf.length) > len then old(buf) else null
      ensures buf != null ==> buf.head == old(buf.head) + len && pool.lent == old(pool.lent)
      ensures buf == null ==> pool.lent == old(pool.lent) - {old(buf)}
    {
      hide BufPool.Ready;
      buf.Pop(len);
      if buf.length == 0 {
        pool.Revert(buf);
        buf := null;
      }
    }

    /** `n` more bytes fit no buffer of the pool. */
    ghost predicate NoRoom(n: nat)
      requires Bounded()
      reads this`buf, if buf == null then {} else {buf, buf.data}
    {
      Outputs.Full(Image(), n)
    }

    lemma NoRoomExactly(n: nat)
      requires Bounded()
      ensures NoRoom(n) <==>
        if buf == null then n > 8388608 else buf.data.Length - buf.length < n && buf.data.Length + n > 8388608
    {
    }

    /** Makes room for `n` more bytes: a first buffer, or a larger one that takes over the contents. */
    method Reserve(n: nat) returns (r: Status, ghost given: seq<byte>)
      requires Ready() && Bounded() && n < 0x8000_0000
      modifies this`buf, pool, Footprint()
      ensures Ready() && Bounded() && if r.Overreads? then Kept(old(pool.lent), pool.lent, {this}) else Local()
      ensures Reserving(r, old(Image()), n, given, Image()) && (r.Exited? ==> pool.RunsOut())
      ensures !r.Aborts? && (!r.Done? ==> buf == old(buf) && Image() == old(Image()))
      ensures r.Done? ==> buf != null
      ensures r.Done? && old(buf) == null ==> buf.length == 0 && buf.capacity >= M4K
      ensures old(buf) != null && old(buf.capacity - buf.length) >= n ==> r.Done? && buf == old(buf)
    {
      hide BufPool.Ready;
      given := [];
      if buf == null {
        r, given := AllocFirst(n);
      } else if buf.capacity - buf.length < n {
        r, given := Enlarge(n);
      } else {
        r := Done(0);
      }
    }

    method AllocFirst(n: nat) returns (r: Status, ghost given: seq<byte>)
      requires Ready() && buf == null && n < 0x8000_0000
      modifies this`buf, pool, Footprint()
      ensures Ready() && Sound() && Bounded() && Local()
      ensures Reserving(r, Outputs.Empty, n, given, Image()) && (r.Exited? ==> pool.RunsOut())
      ensures r.Done? ==> buf != null && M4K <= buf.capacity && buf.length == 0
      ensures Contents() == [] && !r.Overreads?
    {
      hide BufPool.Ready, Reserving;
      given := [];
      var a := pool.AllocBuf(n, this);
      match a {
        case NoBuffer =>
          r := Failed;
        case Exit =>
          r := Exited;
        case Buffer(b) =>
          buf := b;
          given := b.data[..];
          r := Done(0);
      }
      FirstArray(r, n, given, Image());
    }

    method Enlarge(n: nat) returns (r: Status, ghost given: seq<byte>)
      requires Ready() && Bounded() && n < 0x8000_0000
      requires buf != null && buf.capacity - buf.length < n
      modifies this`buf, pool, Footprint()
      ensures Ready() && Bounded() && if r.Overreads? then Kept(old(pool.lent), pool.lent, {this}) else Local()
      ensures Reserving(r, old(Image()), n, given, Image()) && (r.Exited? ==> pool.RunsOut())
      ensures !r.Aborts? && (!r.Done? ==> buf == old(buf) && Image() == old(Image()))
      ensures r.Done? ==> buf != null
    {
      hide BufPool.Ready, BufPool.RunsOut, Evolves, Reserving, IsClass, Kept, ClassFor, Outputs.MovedTo;
      ghost var start, before := Now(), Image();
      var a := NewArray(n);
      given := [];
      match a {
        case NoBuffer =>
          EvolvesNot(start);
          r := Failed;
        case Exit =>
          EvolvesNot(start);
          r := Exited;
        case Buffer(b) =>
          given := b.data[..];
          r := MoveTo(b);
          ByAdoption(start, Now(), b, r.Done?, this);
      }
      LargerArray(r, before, n, given, Image());
    }

    /** An array for `n` bytes more than the buffer's capacity. */
    method NewArray(n: nat) returns (a: Alloc)
      requires Ready() && Bounded() && buf != null && n < 0x8000_0000
      modifies pool`pool, pool`totalMem, pool`all, pool`free, pool`lent, pool.FreeBufs()`next
      ensures Ready() && Bounded() && Image() == old(Image()) && old(pool.all) <= pool.all
      ensures a.NoBuffer? <==> buf.capacity + n > M8M
      ensures a.Exit? ==> pool.RunsOut()
      ensures !a.Buffer? ==> pool.lent == old(pool.lent) && pool.all == old(pool.all)
      ensures a.Buffer? ==>
        && a.buf.Valid() && a.buf.capacity == ClassFor(buf.capacity + n) && buf.length <= a.buf.capacity
        && a.buf != buf && a.buf.data != buf.data && a.buf in pool.all && a.buf !in old(pool.lent)
        && pool.lent == old(pool.lent)[a.buf := this]
      ensures forall b | b in pool.all && b !in old(pool.all) :: fresh(b) && fresh(b.data)
      ensures a.Buffer? ==> a.buf in old(pool.FreeBufs()) || fresh(a.buf)
    {
      hide BufPool.Ready, BufPool.RunsOut, IsClass;
      pool.HeldApart(buf);
      ClassOfInt(buf.capacity, n);
      a := pool.AllocBuf(AsInt32(buf.capacity + n), this);
    }

    /** Copies the contents into a larger buffer and returns the old one, provided the copy stays in the array. */
    method MoveTo(b: IoBuf) returns (r: Status)
      requires Ready() && Bounded() && buf != null && b != buf
      requires b in pool.all && b in pool.lent && pool.lent[b] == this && b.Valid() && b.data != buf.data
      requires buf.length <= b.capacity
      modifies this`buf, pool`pool, pool`free, pool`lent, buf`next, buf`head, buf`length, buf`rank, b`head
      modifies b`length, b.data
      ensures Ready() && Bounded()
      ensures r == if Outputs.InArray(old(Image())) then Done(0) else Overreads
      ensures r.Overreads? ==> buf == old(buf) && Image() == old(Image()) && pool.lent == old(pool.lent)
      ensures r.Done? ==> buf == b && b.head == 0 && pool.lent == old(pool.lent) - {old(buf)}
      ensures r.Done? ==> Image() == Outputs.MovedTo(old(Image()), old(b.data[..]))
    {
      hide BufPool.Ready, Outputs.MovedTo;
      if buf.head + buf.length > buf.capacity {
        return Overreads;
      }
      TakeBytes(b);
      Replace(b);
      r := Done(0);
    }

    method TakeBytes(b: IoBuf)
      requires buf != null && b != buf && buf.Valid() && b.Valid() && b.data != buf.data && buf.length <= b.capacity
      modifies b`head, b`length, b.data
      ensures b.Valid() && b.head == 0
      ensures Outputs.Held(b.data[..], b.head, b.length) == Outputs.MovedTo(Image(), old(b.data[..]))
    {
      hide Outputs.MovedTo;
      ghost var mem, head, length, given := buf.data[..], buf.head, buf.length, b.data[..];
      Outputs.MovedIs(mem, head, length, given);
      b.Copy(buf);
      assert b.data[..] == mem[head..head + length] + given[length..];
    }

    method Replace(b: IoBuf)
      requires Ready() && buf != null && b != buf && b in pool.all && b in pool.lent && pool.lent[b] == this
      requires b.Valid() && b.head == 0
      modifies this`buf, pool`pool, pool`free, pool`lent, buf`next, buf`head, buf`length, buf`rank
      ensures Ready() && Bounded() && buf == b && b.head == 0 && pool.lent == old(pool.lent) - {old(buf)}
      ensures Image() == old(Outputs.Held(b.data[..], b.head, b.length))
    {
      hide BufPool.Ready;
      pool.Revert(buf);
      buf := b;
    }

    /** `write_data`, exactly: append at the tail while the head is at the start of the array. */
    method WriteData(bytes: seq<byte>) returns (r: Status, ghost given: seq<byte>)
      requires Ready() && Bounded() && |bytes| < 0x8000_0000
      modifies this`buf, pool, Footprint()
      ensures Ready() && Bounded() && if r.Overreads? then Kept(old(pool.lent), pool.lent, {this}) else Local()
      ensures Writing(r, old(Image()), bytes, given, Image()) && (r.Exited? ==> pool.RunsOut())
      ensures !r.Aborts? && (!r.Done? ==> buf == old(buf) && Image() == old(Image()))
      ensures r.Done? ==> r.n == |bytes| && buf != null
    {
      hide BufPool.Ready, Reserving, Writing, Evolves, Kept;
      ghost var before := Image();
      r, given := Reserve(|bytes|);
      AppendsNot(r, before, bytes, given, Image());
      if r.Done? {
        ghost var roomy := Image();
        LocalFootprint();
        buf.Append(bytes);
        AppendsThen(r, before, bytes, given, roomy, Image());
        r := Done(|bytes|);
      }
    }

    /** Reads what the kernel has: `need` is the amount it announced, 0 meaning unknown. */
    method ReadData(need: nat, answer: ReadAnswer) returns (r: ReadStatus)
      requires Ready() && Sound() && AtStart() && need < 0x8000_0000
      requires answer.Chunk? && need > 0 ==> |answer.bytes| == need || answer.bytes == []
      requires answer.Chunk? && need == 0 ==> |answer.bytes| <= M4K
      modifies this`buf, pool, Footprint()
      ensures Ready() && Sound() && AtStart() && Local()
      ensures r.Got? ==>
        answer.Chunk? && r.n == |answer.bytes| && buf != null && Contents() == old(Contents()) + answer.bytes
      ensures !r.Got? ==> Contents() == old(Contents())
      ensures r.ReadFailed? <==> !r.ReadExited? && (answer.ReadError? || old(NoRoom(need)))
      ensures r.ReadExited? ==> pool.RunsOut()
      ensures r.Overrun? <==>
        (need == 0 && answer.Chunk? && old(buf) != null && |answer.bytes| > old(buf.capacity - buf.length))
    {
      hide BufPool.Ready, IsClass, Evolves, NoRoom;
      var room := RoomToRead(need);
      if room.Failed? {
        return ReadFailed;
      } else if room.Exited? {
        return ReadExited;
      }
      LocalFootprint();
      r := ReadInto(answer);
    }

    /** Room for what has been announced; with nothing announced, whatever there is, or a first buffer. */
    method RoomToRead(need: nat) returns (r: Status)
      requires Ready() && Sound() && AtStart() && need < 0x8000_0000
      modifies this`buf, pool, Footprint()
      ensures Ready() && Sound() && AtStart() && Local() && Contents() == old(Contents())
      ensures r.Failed? <==> old(NoRoom(need)) && !r.Exited?
      ensures r.Exited? ==> pool.RunsOut()
      ensures !r.Aborts? && !r.Overreads?
      ensures r.Done? ==> buf != null && buf.capacity - buf.length >= need
      ensures r.Done? && old(buf) == null ==> buf.capacity - buf.length >= M4K
      ensures need == 0 && old(buf) != null ==> r.Done? && buf == old(buf) && buf.length == old(buf.length)
    {
      hide BufPool.Ready, IsClass, Evolves, Reserving, Outputs.Full;
      Shape();
      ghost var before := Image();
      ghost var given;
      r, given := Reserve(need);
      RoomAtStart(r, before, need, given, Image());
      Shape();
    }

    method ReadInto(answer: ReadAnswer) returns (r: ReadStatus)
      requires Ready() && Sound() && AtStart() && buf != null
      modifies buf`length, buf.data
      ensures Ready() && Sound() && AtStart() && buf.length >= old(buf.length)
      ensures r.Got? ==> answer.Chunk? && r.n == |answer.bytes| && Contents() == old(Contents()) + answer.bytes
      ensures !r.Got? ==> Contents() == old(Contents())
      ensures r.ReadFailed? <==> answer.ReadError?
      ensures r.Overrun? <==> answer.Chunk? && |answer.bytes| > old(buf.capacity - buf.length)
      ensures !r.ReadExited?
    {
      hide BufPool.Ready;
      if answer.ReadError? {
        return ReadFailed;
      }
      if |answer.bytes| > buf.capacity - buf.length {
        return Overrun;
      }
      buf.Append(answer.bytes);
      return Got(|answer.bytes|);
    }

    /** Moves the contents to the start of the pooled buffer. */
    method Adjust()
      requires Ready() && Sound()
      modifies Mine()
      ensures Ready() && Sound() && AtStart()
      ensures Contents() == old(Contents())
    {
      hide BufPool.Ready;
      if buf != null {
        buf.Adjust();
      }
    }

    /** Offers the contents to the kernel and removes what it accepts; an empty buffer is kept. The program
        asserts that the head is at the start. */
    method Write2Fd(sock: Socket) returns (r: Status)
      requires Ready() && Bounded() && buf != null
      modifies sock, Mine()
      ensures Ready() && Bounded() && !r.Exited? && !r.Overreads?
      ensures r.Aborts? <==> old(buf.head) != 0
      ensures r.Aborts? || r.Failed? ==> sock.wire == old(sock.wire) && Image() == old(Image())
      ensures r.Done? ==> r.n <= old(buf.length) && Image() == Outputs.Flushed(old(Image()), r.n)
      ensures r.Done? ==> sock.wire == old(sock.wire) + Outputs.Contents(old(Image()))[..r.n]
      ensures r.Aborts? ==> sock.offers == old(sock.offers)
      ensures !r.Aborts? ==> sock.offers == old(sock.offers) + 1
      ensures !r.Aborts? ==>
        if sock.last.Broken? then r.Failed? else r == Done(if sock.last.Accepted? then sock.last.n else 0)
    {
      hide BufPool.Ready, Outputs.Flushed;
      if buf.head != 0 {
        return Aborts;
      }
      var w := sock.Write(buf.data, buf.length);
      match w {
        case Accepted(n) =>
          Accept(n);
          r := Done(n);
        case WouldBlock =>
          Outputs.FlushedNothing(Image());
          r := Done(0);
        case Broken =>
          r := Failed;
      }
    }

    /** Removes what the kernel has accepted, and moves the rest to the start. */
    method Accept(n: nat)
      requires Bounded() && buf != null && buf.head == 0 && n <= buf.length
      modifies Mine()
      ensures Bounded() && buf == old(buf) && Image() == Outputs.Flushed(old(Image()), n)
    {
      hide Outputs.Flushed;
      Outputs.FlushedNothing(Image());
      if n > 0 {
        ghost var mem, length := buf.data[..], buf.length;
        buf.Pop(n);
        buf.Adjust();
        Outputs.FlushedIs(mem, length, n);
      }
    }
  }

  /** What two connections' buffers may touch never overlaps. */
  lemma Separate(a: ReactorBuf, b: ReactorBuf)
    requires a.Ready() && b.Ready() && a != b && a.pool == b.pool
    ensures a.Mine() !! b.Footprint() && b.Mine() !! a.Footprint()
  {
    hide BufPool.Ready;
    if a.buf != null {
      a.pool.HeldApart(a.buf);
    }
    if b.buf != null {
      b.pool.HeldApart(b.buf);
    }
  }

  /** Every buffer that is out of the pool belongs to exactly one of the connections' buffers. */
  ghost predicate Exclusive(pool: BufPool, owners: set<ReactorBuf>)
    reads pool, owners
  {
    && (forall o | o in owners :: o.pool == pool && (o.buf != null ==> o.buf in pool.lent && pool.lent[o.buf] == o))
    && (forall b | b in pool.lent :: exists o | o in owners :: o.buf == b)
  }

  /** Whatever one of them does, this stays so. */
  twostate lemma OwnershipKept(pool: BufPool, owners: set<ReactorBuf>, r: ReactorBuf)
    requires old(Exclusive(pool, owners)) && r in owners && r.pool == pool
    requires r.Ready() && r.Local()
    requires forall o | o in owners && o != r :: o.buf == old(o.buf)
    ensures Exclusive(pool, owners)
  {
    hide BufPool.Ready;
    forall b | b in pool.lent
      ensures exists o | o in owners :: o.buf == b
    {
      if b != r.buf {
        var o :| o in owners && old(o.buf) == b;
        assert o != r;
      }
    }
  }

  /** Each buffer is in exactly one free list, or is used by exactly one owner, and not both. */
  lemma InExactlyOnePlace(pool: BufPool, owners: set<ReactorBuf>, b: IoBuf)
    requires pool.Ready() && Exclusive(pool, owners) && b in pool.all
    ensures (exists o | o in owners :: o.buf == b) <==> !(exists c | c in pool.free :: b in pool.free[c])
    ensures forall o, o' | o in owners && o' in owners && o.buf == b == o'.buf :: o == o'
    ensures forall c, c' | c in pool.free && c' in pool.free && b in pool.free[c] && b in pool.free[c'] :: c == c'
    ensures forall c, i, j | c in pool.free && 0 <= i < j < |pool.free[c]| :: pool.free[c][i] != pool.free[c][j]
  {
    if b !in pool.lent {
      assert b in pool.free[b.capacity];
    }
    forall c, i, j | c in pool.free && 0 <= i < j < |pool.free[c]|
      ensures pool.free[c][i] != pool.free[c][j]
    {
      LinkedDistinct(c, pool.free[c], i, j);
    }
  }

  lemma LinkedDistinct(c: int, stack: seq<IoBuf>, i: nat, j: nat)
    requires Linked(c, 0, stack) && i < j < |stack|
    ensures stack[i] != stack[j]
  {
  }
}
