/** Connections, the client's and the server's: their buffers, and their entry in the event table of a loop. */
module Connections {
  import opened Bytes
  import opened Codec
  import opened IoBuffer
  import opened BufferPool
  import opened ReactorBuffer
  import opened Outputs
  import opened Framing
  import opened EventLoops

  /** What became of a connection in a callback. */
  datatype Fate = Alive | Dropped | UndefinedFate | OverrunFate | ExitedFate | AssertedFate

  /** What a readable event may lead to, by the bytes buffered before it and the kernel's answer. */
  ghost predicate FateFits(stale: bool, fate: Fate, before: seq<byte>, answer: ReadAnswer, noRoom: bool, pool: BufPool)
    reads pool`free
  {
    var closed := answer.ReadError? || answer.bytes == [];
    match fate
    case Alive => !closed && Decoding(stale, before + answer.bytes).next.Running?
    case Dropped => closed || noRoom || Decoding(stale, before + answer.bytes).next.Rejected?
    case UndefinedFate => !closed && Decoding(stale, before + answer.bytes).next.Undefined?
    case OverrunFate => !closed
    case ExitedFate => pool.RunsOut()
    case AssertedFate => false
  }

  /** What connections share: the loop's event table, the loop thread's table, and who holds which buffer. */
  datatype Shared = Shared(evs: EventMap, conns: set<int>, lent: map<IoBuf, object>)

  /** Only what belongs to the connection `fd` with the buffers `movers` has changed. */
  ghost predicate Aside(s: Shared, s': Shared, fd: int, movers: set<object>) {
    && SameElsewhere(s.evs, s'.evs, fd)
    && s.conns - {fd} == s'.conns - {fd}
    && Kept(s.lent, s'.lent, movers)
  }

  lemma AsideSame(s: Shared, fd: int, movers: set<object>)
    ensures Aside(s, s, fd, movers)
  {
  }

  lemma AsideTwice(s: Shared, s': Shared, s'': Shared, fd: int, movers: set<object>)
    requires Aside(s, s', fd, movers) && Aside(s', s'', fd, movers)
    ensures Aside(s, s'', fd, movers)
  {
  }

  lemma AsideTables(s: Shared, s': Shared, fd: int, movers: set<object>)
    requires SameElsewhere(s.evs, s'.evs, fd) && s.conns - {fd} == s'.conns - {fd} && s.lent == s'.lent
    ensures Aside(s, s', fd, movers)
  {
  }

  lemma AsideBuffers(s: Shared, s': Shared, fd: int, movers: set<object>, mover: object)
    requires s.evs == s'.evs && s.conns == s'.conns && Kept(s.lent, s'.lent, {mover}) && mover in movers
    ensures Aside(s, s', fd, movers)
  {
  }

  /** A send that succeeds adds to the output; one that fails leaves as many bytes as there were. */
  lemma CountAfter(r: SendResult, o: Out, m: Message, given: seq<byte>, given': seq<byte>, o': Out)
    requires WellFormed(o) && Sendable(m) && Sending(r, o, m, given, given', o')
    ensures r.Sent? ==> Count(o') > Count(o)
    ensures r.HeaderFailed? || r.BodyFailed? ==> Count(o') == Count(o)
  {
    hide Header;
    WrittenKeeps(o, Header(m), given);
    var w := Written(o, Header(m), given);
    if w.Wrote? {
      WrittenKeeps(w.out, m.body, given');
    }
  }

  /** What both kinds of connection are made of. */
  class Endpoint {
    const loop: EventLoop
    const fd: int
    const ibuf: ReactorBuf
    const obuf: ReactorBuf

    constructor (l: EventLoop, f: int, i: ReactorBuf, o: ReactorBuf)
      ensures loop == l && fd == f && ibuf == i && obuf == o
    {
      loop, fd, ibuf, obuf := l, f, i, o;
    }

    ghost predicate Buffers()
      reads ibuf`buf, obuf`buf, ibuf.pool, obuf.pool
      reads (set b | b in ibuf.pool.all && b !in ibuf.pool.lent), (set b | b in obuf.pool.all && b !in obuf.pool.lent)
      reads if ibuf.buf == null then {} else {ibuf.buf, ibuf.buf.data}
      reads if obuf.buf == null then {} else {obuf.buf, obuf.buf.data}
    {
      && ibuf != obuf && ibuf.pool == obuf.pool && ibuf.Ready() && obuf.Ready()
      && ibuf.Sound() && ibuf.AtStart() && obuf.Bounded()
    }

    ghost predicate Base()
      reads loop`kernel, loop`ioEvs, loop`listenFds, ibuf`buf, obuf`buf, ibuf.pool, obuf.pool
      reads (set b | b in ibuf.pool.all && b !in ibuf.pool.lent), (set b | b in obuf.pool.all && b !in obuf.pool.lent)
      reads if ibuf.buf == null then {} else {ibuf.buf, ibuf.buf.data}
      reads if obuf.buf == null then {} else {obuf.buf, obuf.buf.data}
    {
      loop.Valid() && Buffers()
    }

    /** Bytes are waiting to be sent. */
    ghost predicate HasOutput()
      reads obuf`buf, if obuf.buf == null then {} else {obuf.buf, obuf.buf.data}
    {
      Count(obuf.Image()) > 0
    }

    ghost function Around(): Shared
      reads loop`ioEvs, loop`conns, ibuf.pool`lent
    {
      Shared(loop.ioEvs, loop.conns, ibuf.pool.lent)
    }

    ghost function Both(): set<object> {
      {ibuf, obuf}
    }

    lemma Parts()
      requires Buffers()
      ensures ibuf != obuf && ibuf.pool == obuf.pool && ibuf.Ready() && obuf.Ready()
      ensures ibuf.Sound() && ibuf.AtStart() && ibuf.Bounded() && obuf.Bounded() && WellFormed(obuf.Image())
    {
      hide BufPool.Ready, IsClass;
      obuf.Shape();
    }

    lemma InShape()
      requires Base()
      ensures ibuf.Sound() && ibuf.Bounded() && WellFormed(obuf.Image())
    {
      hide EventLoop.Valid, BufPool.Ready, IsClass;
      Parts();
    }

    method OutputLength() returns (n: nat)
      requires Base()
      ensures n == Count(obuf.Image())
    {
      Parts();
      n := obuf.Length();
    }

    /** `Receive`, seen from the connection: the output buffer is not touched. */
    method Read(need: nat, answer: ReadAnswer, stale: bool) returns (msgs: seq<Message>, end: ReceiveEnd)
      requires Base() && ibuf.Sound() && ibuf.Bounded() && KernelRead(need, answer)
      modifies ibuf`buf, ibuf.pool, ibuf.Footprint()
      ensures Base() && Aside(old(Around()), Around(), fd, Both())
      ensures ibuf.Sound() && obuf.Image() == old(obuf.Image())
      ensures forall o | o in ibuf.Mine() :: o in old(ibuf.Footprint()) || fresh(o)
      ensures end.Ended? ==> answer.Chunk? && answer.bytes != []
      ensures end.Ended? ==> Outcome(stale, old(ibuf.Contents()) + answer.bytes, msgs, end.loop, ibuf.Contents())
      ensures !end.Ended? ==> msgs == [] && ibuf.Contents() == old(ibuf.Contents())
      ensures end.Closed? <==> !end.Exits? && (answer.ReadError? || answer.bytes == [] || old(ibuf.NoRoom(need)))
      ensures end.Exits? ==> ibuf.pool.RunsOut()
      ensures end.Overruns? ==> need == 0 && answer.Chunk?
    {
      hide BufPool.Ready, BufPool.RunsOut, Outcome, Aside, Kept, EventLoop.Valid, ReactorBuf.NoRoom, KernelRead;
      Parts();
      Separate(ibuf, obuf);
      ghost var before := Around();
      msgs, end := Receive(ibuf, need, answer, stale);
      ibuf.LocalKeeps();
      AsideBuffers(before, Around(), fd, Both(), ibuf);
    }

    /** Both buffers go back to the pool. */
    method ClearBoth()
      requires Base()
      modifies ibuf`buf, obuf`buf, ibuf.pool`pool, ibuf.pool`free, ibuf.pool`lent, ibuf.Handle(), obuf.Handle()
      ensures Base() && Aside(old(Around()), Around(), fd, Both())
      ensures ibuf.Sound() && ibuf.Contents() == [] && obuf.Image() == Empty
    {
      hide BufPool.Ready, Evolves, Aside, Kept, EventLoop.Valid;
      Parts();
      Separate(ibuf, obuf);
      ghost var before := Around();
      ibuf.Clear();
      ibuf.LocalKeeps();
      ghost var middle := Around();
      AsideBuffers(before, middle, fd, Both(), ibuf);
      ClearOutput(before, middle);
    }

    method ClearOutput(ghost before: Shared, ghost middle: Shared)
      requires Base() && Aside(before, middle, fd, Both()) && middle == Around() && ibuf.buf == null
      modifies obuf`buf, obuf.pool`pool, obuf.pool`free, obuf.pool`lent, obuf.Handle()
      ensures Base() && Aside(before, Around(), fd, Both()) && ibuf.buf == null && obuf.Image() == Empty
    {
      hide BufPool.Ready, Evolves, Aside, Kept, EventLoop.Valid;
      Parts();
      obuf.Clear();
      obuf.LocalKeeps();
      AsideBuffers(middle, Around(), fd, Both(), obuf);
      AsideTwice(before, middle, Around(), fd, Both());
    }

    /** `AppendFrame`, seen from the connection: the input buffer is not touched. */
    method Append(m: Message) returns (r: SendResult, ghost given: seq<byte>, ghost given': seq<byte>)
      requires Base() && WellFormed(obuf.Image()) && ibuf.Sound() && Sendable(m)
      modifies obuf`buf, obuf.pool, obuf.Footprint()
      ensures Base() && Aside(old(Around()), Around(), fd, Both())
      ensures ibuf.Sound() && ibuf.Contents() == old(ibuf.Contents())
      ensures Sending(r, old(obuf.Image()), m, given, given', obuf.Image()) && (r.SendExited? ==> obuf.pool.RunsOut())
    {
      hide BufPool.Ready, BufPool.RunsOut, Header, Evolves, Aside, EventLoop.Valid, Sending, WellFormed, IsClass;
      Parts();
      Separate(obuf, ibuf);
      ghost var before := Around();
      r, given, given' := AppendFrame(obuf, m);
      if !r.SendOverread? {
        obuf.LocalKeeps();
      }
      if ibuf.buf != null {
        ibuf.pool.HeldApart(ibuf.buf);
      }
      AsideBuffers(before, Around(), fd, Both(), obuf);
    }

    method FlushOut(sock: Socket) returns (end: FlushStop, ghost sizes: seq<nat>)
      requires Base() && ibuf.Sound()
      modifies sock, obuf.Mine()
      ensures Base() && Around() == old(Around())
      ensures ibuf.Sound() && ibuf.Contents() == old(ibuf.Contents())
      ensures end.Asserted? <==> old(HasOutput()) && !AtStart(old(obuf.Image()))
      ensures end.Asserted? ==> sizes == [] && sock.wire == old(sock.wire) && obuf.Image() == old(obuf.Image())
      ensures HasOutput() ==> old(HasOutput())
      ensures obuf.Image() == FlushSteps(old(obuf.Image()), sizes)
      ensures !end.Asserted? ==> sock.wire + Contents(obuf.Image()) == old(sock.wire) + Contents(old(obuf.Image()))
      ensures old(sock.wire) <= sock.wire && (end.BrokenOff? ==> HasOutput() && old(HasOutput()))
      ensures old(HasOutput()) && !end.Asserted? ==>
        sock.offers > old(sock.offers) && FlushEnd(end, obuf.Image(), sock.last)
    {
      hide BufPool.Ready, EventLoop.Valid, FlushEnd, FlushSteps, Contents;
      Parts();
      Separate(obuf, ibuf);
      end, sizes := Flush(obuf, sock);
    }

    method Watch(event: set<Interest>, cb: Callback)
      requires Base() && event != {}
      modifies loop`ioEvs, loop`listenFds, loop`kernel
      ensures Base() && Aside(old(Around()), Around(), fd, Both())
      ensures loop.ioEvs == old(loop.ioEvs)[fd := Registered(old(loop.ioEvs), fd, event, cb)]
    {
      hide EventLoop.Valid, Buffers, Registered, Aside, SameElsewhere;
      ghost var before := Around();
      RegisteredElsewhere(loop.ioEvs, fd, event, cb);
      loop.AddIoEvent(fd, event, cb);
      AsideTables(before, Around(), fd, Both());
    }

    method GiveUp(event: set<Interest>)
      requires Base()
      modifies loop`ioEvs, loop`listenFds, loop`kernel
      ensures Base() && Aside(old(Around()), Around(), fd, Both())
      ensures loop.ioEvs == Without(old(loop.ioEvs), fd, event)
    {
      hide EventLoop.Valid, Buffers, Without, Aside, SameElsewhere;
      ghost var before := Around();
      RegisteredElsewhere(loop.ioEvs, fd, event, Other(0));
      loop.DelIoEventMask(fd, event);
      AsideTables(before, Around(), fd, Both());
    }

    method Unwatch()
      requires Base()
      modifies loop`ioEvs, loop`listenFds, loop`kernel
      ensures Base() && Aside(old(Around()), Around(), fd, Both())
      ensures loop.ioEvs == old(loop.ioEvs) - {fd}
    {
      hide EventLoop.Valid, Buffers, Aside, SameElsewhere;
      ghost var before := Around();
      RegisteredElsewhere(loop.ioEvs, fd, {}, Other(0));
      loop.DelIoEvent(fd);
      AsideTables(before, Around(), fd, Both());
    }

    /** What both `send` functions do once there is a connection: the write interest is registered by the
        send that makes the output non-empty. */
    method SendFrame(m: Message) returns (r: SendResult, ghost given: seq<byte>, ghost given': seq<byte>)
      requires Base() && WellFormed(obuf.Image()) && ibuf.Sound() && Sendable(m)
      modifies loop`ioEvs, loop`listenFds, loop`kernel, obuf`buf, obuf.pool, obuf.Footprint()
      ensures Base() && Aside(old(Around()), Around(), fd, Both())
      ensures ibuf.Sound() && ibuf.Contents() == old(ibuf.Contents())
      ensures Sending(r, old(obuf.Image()), m, given, given', obuf.Image()) && (r.SendExited? ==> obuf.pool.RunsOut())
      ensures !r.SendExited? && !r.SendOverread? && old(InterestExact(loop.ioEvs, fd, HasOutput())) ==>
        InterestExact(loop.ioEvs, fd, HasOutput())
    {
      hide Base, Aside, ReactorBuf.Sound, ReactorBuf.Contents, ReactorBuf.Image, BufPool.RunsOut;
      hide InterestExact, Registered, WellFormed, Sending, Header;
      ghost var before, image := Around(), obuf.Image();
      var length := OutputLength();
      var activateEpollout := length == 0;
      r, given, given' := Append(m);
      CountAfter(r, image, m, given, given', obuf.Image());
      if r.Sent? && activateEpollout {
        WatchOutput(before);
      }
    }

    method WatchOutput(ghost before: Shared)
      requires Base() && Aside(before, Around(), fd, Both())
      modifies loop`ioEvs, loop`listenFds, loop`kernel
      ensures Base() && Aside(before, Around(), fd, Both()) && InterestExact(loop.ioEvs, fd, true)
    {
      hide Base, Aside, InterestExact, Registered;
      ghost var middle := Around();
      RegisterOutput(loop.ioEvs, fd);
      Watch({Out}, Callback.HandleWrite(fd));
      AsideTwice(before, middle, Around(), fd, Both());
    }

    /** What both `handle_write` functions end with: an empty output gives up the write interest. */
    method GiveUpWhenEmpty(ghost before: Shared)
      requires Base() && Aside(before, Around(), fd, Both())
      modifies loop`ioEvs, loop`listenFds, loop`kernel
      ensures Base() && Aside(before, Around(), fd, Both())
      ensures loop.ioEvs == if HasOutput() then old(loop.ioEvs) else Without(old(loop.ioEvs), fd, {Out})
      ensures !HasOutput() ==> InterestExact(loop.ioEvs, fd, false) && (fd !in old(loop.ioEvs) ==> fd !in loop.ioEvs)
    {
      hide Base, Aside, InterestExact, Without, ReactorBuf.Image;
      ghost var middle := Around();
      var length := OutputLength();
      if length == 0 {
        GiveUpOutput(loop.ioEvs, fd);
        GiveUp({Out});
        AsideTwice(before, middle, Around(), fd, Both());
      }
    }

    /** The descriptor is no longer watched, and both buffers go back to the pool. */
    method Release()
      requires Base()
      modifies loop`ioEvs, loop`listenFds, loop`kernel
      modifies ibuf`buf, obuf`buf, ibuf.pool`pool, ibuf.pool`free, ibuf.pool`lent, ibuf.Handle(), obuf.Handle()
      ensures Base() && Aside(old(Around()), Around(), fd, Both())
      ensures loop.ioEvs == old(loop.ioEvs) - {fd}
      ensures ibuf.Sound() && ibuf.Contents() == [] && obuf.Image() == Empty
    {
      hide Base, Buffers, Aside, ReactorBuf.Image;
      ghost var before := Around();
      Unwatch();
      ghost var middle := Around();
      ClearBoth();
      AsideTwice(before, middle, Around(), fd, Both());
    }
  }

  datatype ConnState = Disconnected | Connected

  /** The server's side of a connection. */
  class TcpConn {
    const e: Endpoint
    var state: ConnState
    var closeCalls: nat   // how often the close callback has run, each time posting one delete task

    /** While connected, the loop watches for output exactly when there is some. */
    ghost predicate Interest()
      reads this`state, e.loop`ioEvs, e.obuf`buf, if e.obuf.buf == null then {} else {e.obuf.buf, e.obuf.buf.data}
    {
      state == Connected ==> InterestExact(e.loop.ioEvs, e.fd, e.HasOutput())
    }

    constructor (endpoint: Endpoint)
      requires endpoint.Base() && endpoint.fd !in endpoint.loop.ioEvs && !endpoint.HasOutput()
      ensures e == endpoint && e.Base() && Interest() && state == Connected && closeCalls == 0
    {
      hide Endpoint.Base, Endpoint.HasOutput;
      e, state, closeCalls := endpoint, Connected, 0;
    }

    method ListenRead()
      requires e.Base() && Interest()
      modifies e.loop
      ensures e.Base() && Interest() && Aside(old(e.Around()), e.Around(), e.fd, e.Both())
      ensures WantsRead(e.loop.ioEvs, e.fd) && e.fd in e.loop.conns
    {
      hide Endpoint.Base, Endpoint.HasOutput, InterestExact, Registered, WantsRead, Aside;
      ghost var before := e.Around();
      RegisterInput(e.loop.ioEvs, e.fd, e.HasOutput());
      e.Watch({In}, Callback.HandleRead(e.fd));
      EnterConns(before, e.Around(), e.fd, e.Both());
      e.loop.conns := e.loop.conns + {e.fd};
    }

    /** Closing is done once; afterwards the loop does not watch the descriptor. */
    method Close()
      requires e.Base()
      modifies this`state, this`closeCalls, e.loop, e.ibuf`buf, e.obuf`buf
      modifies e.ibuf.pool`pool, e.ibuf.pool`free, e.ibuf.pool`lent, e.ibuf.Handle(), e.obuf.Handle()
      ensures e.Base() && state == Disconnected && Aside(old(e.Around()), e.Around(), e.fd, e.Both())
      ensures old(state) == Connected ==>
        e.loop.ioEvs == old(e.loop.ioEvs) - {e.fd} && e.fd !in e.loop.conns && closeCalls == old(closeCalls) + 1
      ensures old(state) == Connected ==> e.ibuf.Sound() && e.ibuf.Contents() == [] && e.obuf.Image() == Empty
      ensures old(state) == Disconnected ==>
        closeCalls == old(closeCalls) && e.loop.ioEvs == old(e.loop.ioEvs) && e.obuf.Image() == old(e.obuf.Image())
    {
      hide Endpoint.Base, Aside, ReactorBuf.Sound, ReactorBuf.Contents, ReactorBuf.Image;
      ghost var before := e.Around();
      AsideSame(before, e.fd, e.Both());
      if state != Connected {
        return;
      }
      state := Disconnected;
      e.Release();
      EnterConns(before, e.Around(), e.fd, e.Both());
      e.loop.conns := e.loop.conns - {e.fd};
      closeCalls := closeCalls + 1;
    }

    /** The write interest is registered by the send that makes the output non-empty. */
    method Send(m: Message) returns (r: SendResult, ghost given: seq<byte>, ghost given': seq<byte>)
      requires e.Base() && Interest() && WellFormed(e.obuf.Image()) && e.ibuf.Sound() && Sendable(m)
      modifies e.loop`ioEvs, e.loop`listenFds, e.loop`kernel, e.obuf`buf, e.obuf.pool, e.obuf.Footprint()
      ensures e.Base() && Aside(old(e.Around()), e.Around(), e.fd, e.Both())
      ensures !r.SendExited? && !r.SendOverread? ==> Interest()
      ensures e.ibuf.Sound() && e.ibuf.Contents() == old(e.ibuf.Contents())
      ensures Sending(r, old(e.obuf.Image()), m, given, given', e.obuf.Image())
      ensures (r.SendExited? ==> e.obuf.pool.RunsOut())
    {
      hide Endpoint.Base, Aside, ReactorBuf.Sound, ReactorBuf.Contents, ReactorBuf.Image, BufPool.RunsOut;
      hide InterestExact, WellFormed, Sending;
      r, given, given' := e.SendFrame(m);
    }

    /** The loop of `HandleWrite`: a broken connection is closed. */
    method FlushOrClose(sock: Socket) returns (end: FlushStop, ghost sizes: seq<nat>)
      requires e.Base() && e.ibuf.Sound()
      modifies this`state, this`closeCalls, e.loop, sock, e.ibuf`buf, e.obuf`buf
      modifies e.ibuf.pool`pool, e.ibuf.pool`free, e.ibuf.pool`lent, e.ibuf.Handle(), e.obuf.Mine()
      ensures e.Base() && Aside(old(e.Around()), e.Around(), e.fd, e.Both())
      ensures end.Asserted? <==> old(e.HasOutput()) && !AtStart(old(e.obuf.Image()))
      ensures end.Asserted? ==> sock.wire == old(sock.wire) && e.obuf.Image() == old(e.obuf.Image())
      ensures end.Stops? ==> e.HasOutput() ==> old(e.HasOutput())
      ensures old(sock.wire) <= sock.wire
      ensures !end.BrokenOff? ==> e.obuf.Image() == FlushSteps(old(e.obuf.Image()), sizes)
      ensures !end.BrokenOff? ==>
        state == old(state) && closeCalls == old(closeCalls) && e.loop.ioEvs == old(e.loop.ioEvs)
      ensures !end.BrokenOff? ==> e.ibuf.Sound() && e.ibuf.Contents() == old(e.ibuf.Contents())
      ensures end.Stops? ==> sock.wire + Contents(e.obuf.Image()) == old(sock.wire) + Contents(old(e.obuf.Image()))
      ensures end.BrokenOff? ==> state == Disconnected && old(e.HasOutput())
      ensures end.BrokenOff? && old(state) == Connected ==>
        e.obuf.Image() == Empty && e.fd !in e.loop.ioEvs && closeCalls == old(closeCalls) + 1
      ensures old(e.HasOutput()) && end.Stops? ==>
        sock.offers > old(sock.offers) && FlushEnd(end, e.obuf.Image(), sock.last)
      ensures end.BrokenOff? ==> sock.last.Broken?
    {
      hide Endpoint.Base, Aside, ReactorBuf.Sound, ReactorBuf.Contents, ReactorBuf.Image, FlushSteps, Outputs.Contents;
      ghost var before := e.Around();
      AsideSame(before, e.fd, e.Both());
      end, sizes := e.FlushOut(sock);
      if end.BrokenOff? {
        Close();
      }
    }

    /** An empty output gives up the write interest. */
    method HandleWrite(sock: Socket) returns (end: FlushStop, ghost sizes: seq<nat>)
      requires e.Base() && Interest() && e.ibuf.Sound()
      modifies this`state, this`closeCalls, e.loop, sock, e.ibuf`buf, e.obuf`buf
      modifies e.ibuf.pool`pool, e.ibuf.pool`free, e.ibuf.pool`lent, e.ibuf.Handle(), e.obuf.Mine()
      ensures e.Base() && Interest() && Aside(old(e.Around()), e.Around(), e.fd, e.Both())
      ensures end.Asserted? <==> old(e.HasOutput()) && !AtStart(old(e.obuf.Image()))
      ensures end.Asserted? ==> sock.wire == old(sock.wire)
      ensures old(sock.wire) <= sock.wire
      ensures !end.BrokenOff? ==> e.obuf.Image() == FlushSteps(old(e.obuf.Image()), sizes)
      ensures !end.BrokenOff? ==> state == old(state) && closeCalls == old(closeCalls)
      ensures !end.BrokenOff? ==> e.ibuf.Sound() && e.ibuf.Contents() == old(e.ibuf.Contents())
      ensures end.Stops? ==> sock.wire + Contents(e.obuf.Image()) == old(sock.wire) + Contents(old(e.obuf.Image()))
      ensures end.BrokenOff? ==> state == Disconnected && old(e.HasOutput()) && sock.last.Broken?
      ensures end.BrokenOff? && old(state) == Connected ==>
        e.obuf.Image() == Empty && e.fd !in e.loop.ioEvs && closeCalls == old(closeCalls) + 1
      ensures old(e.HasOutput()) && end.Stops? ==>
        sock.offers > old(sock.offers) && FlushEnd(end, e.obuf.Image(), sock.last)
    {
      hide Endpoint.Base, Aside, ReactorBuf.Sound, ReactorBuf.Contents, ReactorBuf.Image, FlushSteps, Outputs.Contents;
      hide InterestExact, Without, FlushEnd;
      ghost var before := e.Around();
      end, sizes := FlushOrClose(sock);
      if !end.Asserted? {
        e.GiveUpWhenEmpty(before);
      }
    }

    /** The loop may call this once more on a connection that it has closed in the same round. */
    method HandleRead(need: nat, answer: ReadAnswer) returns (msgs: seq<Message>, fate: Fate)
      requires e.Base() && Interest() && e.ibuf.Sound() && e.ibuf.Bounded() && KernelRead(need, answer)
      modifies this`state, this`closeCalls, e.loop, e.ibuf`buf, e.obuf`buf, e.ibuf.pool, e.ibuf.Footprint()
      modifies e.obuf.Handle()
      ensures e.Base() && Interest() && Aside(old(e.Around()), e.Around(), e.fd, e.Both())
      ensures fate.Alive? ==>
        state == old(state) && answer.Chunk? && e.obuf.Image() == old(e.obuf.Image()) && e.ibuf.Sound()
      ensures fate.Alive? ==> Outcome(true, old(e.ibuf.Contents()) + answer.bytes, msgs, Waits, e.ibuf.Contents())
      ensures fate.Dropped? ==> state == Disconnected
      ensures FateFits(true, fate, old(e.ibuf.Contents()), answer, old(e.ibuf.NoRoom(need)), e.ibuf.pool)
      ensures fate.Dropped? || fate.UndefinedFate? ==>
        if answer.ReadError? || answer.bytes == [] || old(e.ibuf.NoRoom(need)) then msgs == []
        else msgs == Decoding(true, old(e.ibuf.Contents()) + answer.bytes).msgs
      ensures fate.OverrunFate? ==> need == 0
      ensures fate.Dropped? && old(state) == Connected ==> e.fd !in e.loop.ioEvs && closeCalls == old(closeCalls) + 1
      ensures fate.Dropped? && old(state) == Disconnected ==>
        e.loop.ioEvs == old(e.loop.ioEvs) && closeCalls == old(closeCalls)
      ensures answer.ReadError? || answer.bytes == [] ==> fate.Dropped? || fate.ExitedFate?
    {
      hide Endpoint.Base, Aside, ReactorBuf.Sound, ReactorBuf.Contents, ReactorBuf.Image;
      hide ReactorBuf.NoRoom, ReactorBuf.Bounded;
      hide InterestExact, Decoding, BufPool.RunsOut;
      ghost var before := e.Around();
      var end;
      msgs, end := e.Read(need, answer, true);
      ghost var middle := e.Around();
      fate := FateOf(end);
      if fate.Dropped? {
        Close();
        AsideTwice(before, middle, e.Around(), e.fd, e.Both());
      }
    }
  }

  function FateOf(end: ReceiveEnd): Fate {
    match end
    case Closed => Dropped
    case Exits => ExitedFate
    case Overruns => OverrunFate
    case Ended(loop) => if loop.Waits? then Alive else if loop.Breaks? then UndefinedFate else Dropped
  }

  lemma EnterConns(s: Shared, s': Shared, fd: int, movers: set<object>)
    requires Aside(s, s', fd, movers)
    ensures Aside(s, s'.(conns := s'.conns + {fd}), fd, movers)
    ensures Aside(s, s'.(conns := s'.conns - {fd}), fd, movers)
  {
    hide Kept, SameElsewhere;
    assert s'.conns + {fd} - {fd} == s'.conns - {fd} == s'.conns - {fd} - {fd};
  }
}
