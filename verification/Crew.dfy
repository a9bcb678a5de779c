/** Connections of any loops that share the buffer pool: what one of them does leaves the others as they were. */
module Crews {
  import opened Codec
  import opened IoBuffer
  import opened BufferPool
  import opened ReactorBuffer
  import opened Outputs
  import opened Framing
  import opened EventLoops
  import opened Connections

  /** What a loop may do to one of its connections. */
  datatype Op =
    | Listens
    | Closes
    | Sends(m: Message)
    | Writes
    | Reads(need: nat, answer: ReadAnswer)

  ghost predicate Possible(op: Op) {
    match op
    case Sends(m) => Sendable(m)
    case Reads(need, answer) => KernelRead(need, answer)
    case _ => true
  }

  /** Two connections with buffers of their own from one pool, and on one loop also with their own descriptors. */
  ghost predicate Apart(c: TcpConn, d: TcpConn) {
    && c.e.ibuf.pool == d.e.ibuf.pool && (c.e.loop == d.e.loop ==> c.e.fd != d.e.fd)
    && c.e.ibuf != d.e.ibuf && c.e.ibuf != d.e.obuf && c.e.obuf != d.e.ibuf && c.e.obuf != d.e.obuf
  }

  /** Buffers and event table are in order, and the write interest is exact. */
  ghost predicate InOrder(d: TcpConn)
    reads d`state, d.e.loop`kernel, d.e.loop`ioEvs, d.e.loop`listenFds
    reads d.e.ibuf`buf, d.e.obuf`buf, d.e.ibuf.pool, d.e.obuf.pool
    reads (set b | b in d.e.ibuf.pool.all && b !in d.e.ibuf.pool.lent)
    reads (set b | b in d.e.obuf.pool.all && b !in d.e.obuf.pool.lent)
    reads if d.e.ibuf.buf == null then {} else {d.e.ibuf.buf, d.e.ibuf.buf.data}
    reads if d.e.obuf.buf == null then {} else {d.e.obuf.buf, d.e.obuf.buf.data}
  {
    d.e.Base() && d.Interest()
  }

  ghost function Fixed(c: TcpConn, sock: Socket): set<object> {
    {c, c.e.loop, sock, c.e.ibuf, c.e.obuf, c.e.ibuf.pool}
  }

  /** Everything a step of `c` may touch. */
  ghost function Reach(c: TcpConn, sock: Socket): set<object>
    reads c.e.ibuf`buf, c.e.obuf`buf, c.e.ibuf.pool`all, c.e.ibuf.pool`lent
  {
    Fixed(c, sock) + c.e.ibuf.Footprint() + c.e.obuf.Mine()
  }

  /** What another connection has to itself: its loop too if that is another one. */
  ghost function Own(c: TcpConn, d: TcpConn): set<object>
    reads d.e.ibuf`buf, d.e.obuf`buf
  {
    Named(c, d) + d.e.ibuf.Mine() + d.e.obuf.Mine()
  }

  ghost function Named(c: TcpConn, d: TcpConn): set<object> {
    {d, d.e.ibuf, d.e.obuf} + OtherLoop(c, d)
  }

  ghost function OtherLoop(c: TcpConn, d: TcpConn): set<object> {
    if c.e.loop == d.e.loop then {} else {d.e.loop}
  }

  /** One step of one connection. `alive` says that the process has neither ended nor left what C++ defines. */
  method Perform(c: TcpConn, op: Op, sock: Socket) returns (alive: bool)
    requires InOrder(c) && Possible(op)
    modifies Reach(c, sock)
    ensures c.e.Base() && (alive ==> InOrder(c))
    ensures Aside(old(c.e.Around()), c.e.Around(), c.e.fd, c.e.Both())
    ensures op.Listens? ==> WantsRead(c.e.loop.ioEvs, c.e.fd) && c.e.fd in c.e.loop.conns
    ensures op.Closes? ==> c.state == Disconnected
    ensures op.Sends? ==> exists r, given, given' ::
      Sending(r, old(c.e.obuf.Image()), op.m, given, given', c.e.obuf.Image()) && (r.SendExited? ==> !alive)
    ensures op.Writes? && alive && old(c.e.HasOutput()) ==> sock.offers > old(sock.offers) || c.state == Disconnected
    ensures op.Reads? && alive && c.state == Connected ==> old(c.state) == Connected && op.answer.Chunk?
    ensures op.Reads? && alive && c.state == Connected ==> exists msgs ::
      Outcome(true, old(c.e.ibuf.Contents()) + op.answer.bytes, msgs, Waits, c.e.ibuf.Contents())
  {
    hide BufPool.Ready, InterestExact, Aside, Kept, EventLoop.Valid, Sending, Outcome, Decoding;
    hide FateFits, FlushSteps, FlushEnd;
    hide WellFormed, KernelRead, Outputs.Contents;
    c.e.InShape();
    alive := true;
    match op {
      case Listens => c.ListenRead();
      case Closes => c.Close();
      case Sends(m) =>
        var r;
        ghost var given, given';
        r, given, given' := c.Send(m);
        alive := !r.SendExited? && !r.SendOverread?;
      case Writes =>
        var end;
        ghost var sizes;
        end, sizes := c.HandleWrite(sock);
        alive := !end.Asserted?;
      case Reads(need, answer) =>
        var msgs, fate := c.HandleRead(need, answer);
        alive := fate.Alive? || fate.Dropped?;
    }
  }

  lemma KindsApart(c: TcpConn, d: TcpConn, sock: Socket)
    requires Apart(c, d)
    ensures Fixed(c, sock) !! Named(c, d)
    ensures c.e.obuf.Mine() !! Named(c, d) && Fixed(c, sock) !! d.e.ibuf.Mine()
    ensures Fixed(c, sock) !! d.e.obuf.Mine()
  {
  }

  lemma FreeKinds(r: ReactorBuf, c: TcpConn, d: TcpConn)
    ensures r.Footprint() !! Named(c, d)
  {
  }

  lemma Unions(a: set<object>, b: set<object>, c: set<object>, x: set<object>, y: set<object>, z: set<object>)
    requires a !! x && a !! y && a !! z && b !! x && b !! y && b !! z && c !! x && c !! y && c !! z
    ensures a + b + c !! x + y + z
  {
  }

  /** What a step may touch is not what another connection has to itself. */
  lemma ApartBuffers(c: TcpConn, d: TcpConn, sock: Socket)
    requires Apart(c, d) && InOrder(c) && InOrder(d)
    ensures Reach(c, sock) !! Own(c, d)
  {
    KindsApart(c, d, sock);
    FreeKinds(c.e.ibuf, c, d);
    BuffersReady(c);
    BuffersReady(d);
    hide InOrder, ReactorBuf.Footprint, ReactorBuf.Mine, ReactorBuf.Ready, Fixed, Named;
    Separate(c.e.ibuf, d.e.ibuf);
    Separate(c.e.ibuf, d.e.obuf);
    Separate(c.e.obuf, d.e.ibuf);
    Separate(c.e.obuf, d.e.obuf);
    MineReached(c.e.obuf);
    Unions(Fixed(c, sock), c.e.ibuf.Footprint(), c.e.obuf.Mine(),
      Named(c, d), d.e.ibuf.Mine(), d.e.obuf.Mine());
  }

  lemma MineReached(r: ReactorBuf)
    ensures r.Mine() <= r.Footprint()
  {
  }

  lemma BuffersReady(c: TcpConn)
    requires InOrder(c)
    ensures c.e.ibuf.Ready() && c.e.obuf.Ready() && c.e.ibuf.pool == c.e.obuf.pool
  {
    hide BufPool.Ready, EventLoop.Valid;
  }

  /** What a connection relies on: its buffers are in order and held by it, and the event table watches for
      output exactly when there is some. */
  ghost predicate Guarded(d: TcpConn, s: Shared)
    reads d`state
    reads d.e.ibuf`buf, if d.e.ibuf.buf == null then {} else {d.e.ibuf.buf, d.e.ibuf.buf.data}
    reads d.e.obuf`buf, if d.e.obuf.buf == null then {} else {d.e.obuf.buf, d.e.obuf.buf.data}
  {
    && d.e.ibuf != d.e.obuf && d.e.ibuf.pool == d.e.obuf.pool
    && (d.e.ibuf.buf != null ==> d.e.ibuf.buf in s.lent && s.lent[d.e.ibuf.buf] == d.e.ibuf)
    && (d.e.obuf.buf != null ==> d.e.obuf.buf in s.lent && s.lent[d.e.obuf.buf] == d.e.obuf)
    && d.e.ibuf.Sound() && d.e.ibuf.AtStart() && d.e.obuf.Bounded()
    && (d.state == Connected ==> InterestExact(s.evs, d.e.fd, d.e.HasOutput()))
  }

  lemma IsGuarded(d: TcpConn)
    requires InOrder(d)
    ensures Guarded(d, d.e.Around())
  {
    hide BufPool.Ready, EventLoop.Valid, InterestExact;
  }

  /** The tables `t` around `d` and `s` around `c` of one moment, of which another loop's are still the same. */
  ghost predicate Beside(c: TcpConn, d: TcpConn, s: Shared, t: Shared)
    reads OtherLoop(c, d)
  {
    && s.lent == t.lent
    && if c.e.loop == d.e.loop then s == t else d.e.loop.Valid() && d.e.loop.ioEvs == t.evs
  }

  lemma AreBeside(c: TcpConn, d: TcpConn)
    requires Apart(c, d) && InOrder(d)
    ensures Beside(c, d, c.e.Around(), d.e.Around())
  {
    hide BufPool.Ready, EventLoop.Valid, InterestExact;
  }

  /** After a step of `c`, this still carries the other connection. */
  lemma StaysInOrder(c: TcpConn, d: TcpConn, s: Shared, t: Shared)
    requires Apart(c, d) && c.e.Base() && Aside(s, c.e.Around(), c.e.fd, c.e.Both())
    requires Beside(c, d, s, t) && Guarded(d, t)
    ensures InOrder(d)
  {
    hide BufPool.Ready, EventLoop.Valid, IsClass, SameElsewhere, InterestExact;
    if d.e.ibuf.buf != null {
      c.e.ibuf.pool.HeldApart(d.e.ibuf.buf);
    }
    if d.e.obuf.buf != null {
      c.e.ibuf.pool.HeldApart(d.e.obuf.buf);
    }
    if d.state.Connected? && c.e.loop == d.e.loop {
      InterestElsewhere(s.evs, c.e.loop.ioEvs, c.e.fd, d.e.fd, d.e.HasOutput());
    }
  }

  /** What is buffered for the other side, and the state, are as before. */
  twostate predicate Undisturbed(d: TcpConn)
    reads d`state, d.e.obuf`buf, if d.e.obuf.buf == null then {} else {d.e.obuf.buf, d.e.obuf.buf.data}
  {
    d.state == old(d.state) && d.e.obuf.Image() == old(d.e.obuf.Image())
  }

  /** Any step of any connection keeps the write interest, the buffers and the contents of all the others,
      and its own unless the process has ended. */
  method AnyStep(cs: set<TcpConn>, c: TcpConn, op: Op, sock: Socket) returns (alive: bool)
    requires c in cs && Possible(op)
    requires forall d | d in cs && d != c :: Apart(c, d)
    requires forall d | d in cs :: InOrder(d)
    modifies Reach(c, sock)
    ensures forall d | d in cs && (alive || d != c) :: InOrder(d)
    ensures forall d | d in cs && d != c :: Undisturbed(d)
  {
    hide InOrder, Guarded, Beside, Aside, Possible, ReactorBuf.Image, Endpoint.Base, Reach;
    ghost var shared := c.e.Around();
    forall d | d in cs && d != c
      ensures Reach(c, sock) !! Own(c, d)
      ensures Guarded(d, d.e.Around()) && Beside(c, d, shared, d.e.Around())
    {
      ApartBuffers(c, d, sock);
      IsGuarded(d);
      AreBeside(c, d);
    }
    alive := Perform(c, op, sock);
    forall d | d in cs && d != c
      ensures InOrder(d)
    {
      StaysInOrder(c, d, shared, old(d.e.Around()));
    }
  }
}
