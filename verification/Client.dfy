/** The client's side of a connection, with its connecting and reconnecting. */
module Clients {
  import opened Bytes
  import opened Codec
  import opened BufferPool
  import opened ReactorBuffer
  import opened Outputs
  import opened Framing
  import opened EventLoops
  import opened Connections

  /** What `connect` answers: a positive number, zero, "in progress", or another error, which ends the process. */
  datatype Connecting = Positive | Zero | InProgress | Refused

  class TcpClient {
    const e: Endpoint
    var connected: bool

    /** While connected, the loop watches for output exactly when there is some; otherwise there is none. */
    ghost predicate Interest()
      reads this`connected, e.loop`ioEvs, e.obuf`buf, if e.obuf.buf == null then {} else {e.obuf.buf, e.obuf.buf.data}
    {
      if connected then InterestExact(e.loop.ioEvs, e.fd, e.HasOutput()) else !e.HasOutput()
    }

    constructor (endpoint: Endpoint)
      requires endpoint.Base() && !endpoint.HasOutput()
      ensures e == endpoint && e.Base() && Interest() && !connected
    {
      hide Endpoint.Base, Endpoint.HasOutput;
      e, connected := endpoint, false;
    }

    /** A connection under way is watched for output; the answer zero is not taken up at all. */
    method DoConnect(a: Connecting) returns (alive: bool)
      requires e.Base() && !connected && !e.HasOutput() && e.fd !in e.loop.ioEvs
      modifies this`connected, e.loop`ioEvs, e.loop`listenFds, e.loop`kernel
      ensures e.Base() && Interest() && Aside(old(e.Around()), e.Around(), e.fd, e.Both())
      ensures alive <==> !a.Refused?
      ensures connected <==> a.Positive?
      ensures e.loop.ioEvs == Dialled(old(e.loop.ioEvs), e.fd, a)
      ensures WatchedAsConnecting(e.loop.ioEvs, e.fd, a)
    {
      hide Endpoint.Base, Endpoint.HasOutput, InterestExact, Registered, Aside;
      hide WatchedAsConnecting;
      AsideSame(e.Around(), e.fd, e.Both());
      DialledWatches(e.loop.ioEvs, e.fd, a);
      alive := true;
      match a {
        case Positive =>
          connected := true;
          NewInterest(e.loop.ioEvs, e.fd);
          e.Watch({In}, Callback.HandleRead(e.fd));
        case Zero =>
        case InProgress =>
          e.Watch({Out}, Callback.HandleConnect(e.fd));
        case Refused =>
          alive := false;
      }
    }

    /** The outcome of connecting: reading starts, or the process ends. */
    method HandleConnect(ok: bool) returns (alive: bool)
      requires e.Base() && !connected && !e.HasOutput()
      modifies this`connected, e.loop`ioEvs, e.loop`listenFds, e.loop`kernel
      ensures e.Base() && Interest() && Aside(old(e.Around()), e.Around(), e.fd, e.Both())
      ensures alive <==> ok
      ensures connected <==> ok
      ensures if ok then WantsRead(e.loop.ioEvs, e.fd) else e.fd !in e.loop.ioEvs
      ensures e.loop.ioEvs == Dialled(old(e.loop.ioEvs) - {e.fd}, e.fd, if ok then Positive else Refused)
    {
      hide Endpoint.Base, Endpoint.HasOutput, InterestExact, Registered, Aside;
      ghost var before := e.Around();
      e.Unwatch();
      ghost var middle := e.Around();
      DialledWatches(e.loop.ioEvs, e.fd, if ok then Positive else Refused);
      alive := ok;
      if ok {
        connected := true;
        NewInterest(e.loop.ioEvs, e.fd);
        e.Watch({In}, Callback.HandleRead(e.fd));
        AsideTwice(before, middle, e.Around(), e.fd, e.Both());
      }
    }

    /** Drops the connection, with whatever was buffered in either direction, and connects again. */
    method CleanConn(a: Connecting) returns (alive: bool)
      requires e.Base()
      modifies this`connected, e.loop`ioEvs, e.loop`listenFds, e.loop`kernel, e.ibuf`buf, e.obuf`buf
      modifies e.ibuf.pool`pool, e.ibuf.pool`free, e.ibuf.pool`lent, e.ibuf.Handle(), e.obuf.Handle()
      ensures e.Base() && Interest() && Aside(old(e.Around()), e.Around(), e.fd, e.Both())
      ensures alive <==> !a.Refused?
      ensures connected <==> a.Positive?
      ensures e.ibuf.Sound() && e.ibuf.Contents() == [] && e.obuf.Image() == Empty
      ensures e.loop.ioEvs == Dialled(old(e.loop.ioEvs) - {e.fd}, e.fd, a)
      ensures WatchedAsConnecting(e.loop.ioEvs, e.fd, a)
    {
      hide WatchedAsConnecting;
      hide Endpoint.Base, Dialled, Aside, ReactorBuf.Image, ReactorBuf.Sound, ReactorBuf.Contents;
      ghost var before := e.Around();
      e.Release();
      ghost var middle := e.Around();
      connected := false;
      alive := DoConnect(a);
      AsideTwice(before, middle, e.Around(), e.fd, e.Both());
    }

    /** The loop may call this once more after the first call has dropped the connection; the assertion at its start
        then ends the process unless the client is connected again. */
    method HandleRead(need: nat, answer: ReadAnswer, a: Connecting)
        returns (msgs: seq<Message>, fate: Fate, alive: bool)
      requires e.Base() && Interest() && e.ibuf.Sound() && e.ibuf.Bounded() && KernelRead(need, answer)
      modifies this`connected, e.loop`ioEvs, e.loop`listenFds, e.loop`kernel
      modifies e.ibuf`buf, e.obuf`buf, e.ibuf.pool, e.ibuf.Footprint(), e.obuf.Handle()
      ensures e.Base() && Interest() && Aside(old(e.Around()), e.Around(), e.fd, e.Both())
      ensures fate.AssertedFate? <==> !old(connected)
      ensures fate.AssertedFate? ==> msgs == [] && !connected && e.Around() == old(e.Around())
      ensures fate.AssertedFate? ==>
        e.ibuf.Contents() == old(e.ibuf.Contents()) && e.obuf.Image() == old(e.obuf.Image())
      ensures old(connected) ==>
        FateFits(false, fate, old(e.ibuf.Contents()), answer, old(e.ibuf.NoRoom(need)), e.ibuf.pool)
      ensures fate.Alive? ==> connected && answer.Chunk? && e.ibuf.Sound() && e.obuf.Image() == old(e.obuf.Image())
      ensures fate.Alive? ==>
        Feed(Running(old(e.ibuf.Contents())), answer.bytes) == Decoded(msgs, Running(e.ibuf.Contents()))
      ensures fate.Dropped? ==>
        e.loop.ioEvs == Dialled(old(e.loop.ioEvs) - {e.fd}, e.fd, a) && (connected <==> a.Positive?)
      ensures fate.Dropped? || fate.UndefinedFate? ==>
        if answer.ReadError? || answer.bytes == [] || old(e.ibuf.NoRoom(need)) then msgs == []
        else msgs == Drain(old(e.ibuf.Contents()) + answer.bytes).msgs
      ensures alive <==> !(fate.Dropped? && a.Refused?) && !fate.ExitedFate? && !fate.AssertedFate?
      ensures fate.OverrunFate? ==> need == 0
      ensures answer.ReadError? || answer.bytes == [] ==> fate.Dropped? || fate.ExitedFate? || fate.AssertedFate?
    {
      hide Endpoint.Base, Aside, ReactorBuf.Sound, ReactorBuf.Contents, ReactorBuf.Image;
      hide ReactorBuf.NoRoom, ReactorBuf.Bounded;
      hide InterestExact, Drain, BufPool.RunsOut, Dialled;
      ghost var before := e.Around();
      AsideSame(before, e.fd, e.Both());
      if !connected {
        return [], AssertedFate, false;
      }
      var end;
      msgs, end := e.Read(need, answer, false);
      ghost var middle := e.Around();
      fate := FateOf(end);
      alive := !fate.ExitedFate?;
      if fate.Dropped? {
        alive := CleanConn(a);
        AsideTwice(before, middle, e.Around(), e.fd, e.Both());
      }
    }

    /** Without a connection nothing is sent. */
    method Send(m: Message) returns (sent: Option<SendResult>, ghost given: seq<byte>, ghost given': seq<byte>)
      requires e.Base() && Interest() && WellFormed(e.obuf.Image()) && e.ibuf.Sound() && Sendable(m)
      modifies e.loop`ioEvs, e.loop`listenFds, e.loop`kernel, e.obuf`buf, e.obuf.pool, e.obuf.Footprint()
      ensures e.Base() && Aside(old(e.Around()), e.Around(), e.fd, e.Both())
      ensures sent.Some? <==> connected
      ensures sent.None? ==> e.obuf.Image() == old(e.obuf.Image()) && e.loop.ioEvs == old(e.loop.ioEvs)
      ensures sent.Some? ==> Sending(sent.value, old(e.obuf.Image()), m, given, given', e.obuf.Image())
      ensures sent.Some? && sent.value.SendExited? ==> e.obuf.pool.RunsOut()
      ensures sent.None? || (!sent.value.SendExited? && !sent.value.SendOverread?) ==> Interest()
      ensures e.ibuf.Sound() && e.ibuf.Contents() == old(e.ibuf.Contents())
    {
      hide Endpoint.Base, Aside, ReactorBuf.Sound, ReactorBuf.Contents, ReactorBuf.Image, BufPool.RunsOut;
      hide InterestExact, WellFormed, Sending;
      given, given' := [], [];
      AsideSame(e.Around(), e.fd, e.Both());
      sent := None;
      if connected {
        var r;
        r, given, given' := e.SendFrame(m);
        sent := Some(r);
      }
    }

    /** A flush that finds the connection broken reconnects, and then gives up the interest in output even
        though this is what the new connection waits for. */
    method HandleWrite(sock: Socket, a: Connecting) returns (end: FlushStop, ghost sizes: seq<nat>, alive: bool)
      requires e.Base() && Interest() && e.ibuf.Sound()
      modifies this`connected, e.loop`ioEvs, e.loop`listenFds, e.loop`kernel, sock, e.ibuf`buf, e.obuf`buf
      modifies e.ibuf.pool`pool, e.ibuf.pool`free, e.ibuf.pool`lent, e.ibuf.Handle(), e.obuf.Mine()
      ensures e.Base() && Interest() && Aside(old(e.Around()), e.Around(), e.fd, e.Both())
      ensures end.Asserted? <==> old(e.HasOutput()) && !AtStart(old(e.obuf.Image()))
      ensures old(sock.wire) <= sock.wire
      ensures !end.BrokenOff? ==>
        connected == old(connected) && e.obuf.Image() == FlushSteps(old(e.obuf.Image()), sizes)
      ensures end.Stops? ==> sock.wire + Contents(e.obuf.Image()) == old(sock.wire) + Contents(old(e.obuf.Image()))
      ensures end.Stops? && old(e.HasOutput()) ==>
        sock.offers > old(sock.offers) && FlushEnd(end, e.obuf.Image(), sock.last)
      ensures end.BrokenOff? ==> sock.last.Broken? && e.obuf.Image() == Empty && (connected <==> a.Positive?)
      ensures end.BrokenOff? ==> e.loop.ioEvs == Without(Dialled(old(e.loop.ioEvs) - {e.fd}, e.fd, a), e.fd, {Out})
      ensures alive <==> !end.Asserted? && !(end.BrokenOff? && a.Refused?)
    {
      hide Endpoint.Base, Aside, ReactorBuf.Sound, ReactorBuf.Contents, ReactorBuf.Image, FlushSteps, Outputs.Contents;
      hide InterestExact, Without, Dialled;
      ghost var before := e.Around();
      AsideSame(before, e.fd, e.Both());
      end, sizes := e.FlushOut(sock);
      alive := !end.Asserted?;
      if end.BrokenOff? {
        alive := CleanConn(a);
      }
      if !end.Asserted? {
        e.GiveUpWhenEmpty(before);
      }
    }
  }

  /** The event table after a connecting that started without an entry. */
  function Dialled(evs: EventMap, fd: int, a: Connecting): EventMap {
    match a
    case Positive => evs[fd := Registered(evs, fd, {In}, Callback.HandleRead(fd))]
    case InProgress => evs[fd := Registered(evs, fd, {Out}, Callback.HandleConnect(fd))]
    case _ => evs
  }

  /** A made connection is read, one under way waits for its outcome, and otherwise nothing is watched. */
  ghost predicate WatchedAsConnecting(evs: EventMap, fd: int, a: Connecting) {
    match a
    case Positive => WantsRead(evs, fd) && Out !in evs[fd].mask
    case InProgress => fd in evs && evs[fd].mask == {Out} && evs[fd].write == Some(Callback.HandleConnect(fd))
    case _ => fd !in evs
  }

  lemma DialledWatches(evs: EventMap, fd: int, a: Connecting)
    requires fd !in evs
    ensures WatchedAsConnecting(Dialled(evs, fd, a), fd, a) && SameElsewhere(evs, Dialled(evs, fd, a), fd)
  {
    assert SameElsewhere(evs, Dialled(evs, fd, a), fd) by {
      assert evs - {fd} == evs;
      assert Dialled(evs, fd, a) - {fd} == evs;
    }
  }

  lemma NewInterest(evs: EventMap, fd: int)
    requires fd !in evs
    ensures InterestExact(evs[fd := Registered(evs, fd, {In}, Callback.HandleRead(fd))], fd, false)
  {
  }

  /** After a write error, a reconnection under way is watched for nothing: it is never completed. Only a
      read error leaves it watched. */
  lemma StuckAfterWriteError(evs: EventMap, fd: int)
    ensures fd !in Without(Dialled(evs - {fd}, fd, InProgress), fd, {Out})
    ensures var after := Dialled(evs - {fd}, fd, InProgress);
      fd in after && Out in after[fd].mask && after[fd].write == Some(Callback.HandleConnect(fd))
  {
  }
}
