/**
 The event table of a loop: which events each descriptor is watched for, which callback serves
 them, and the interest set kept for the loop by the kernel.
 */
module EventLoops {

  datatype Option<+T> = None | Some(value: T)

  /** EPOLLIN and EPOLLOUT; a mask is a set of them. */
  datatype Interest = In | Out

  /** Callbacks of a connection are named by its descriptor. */
  datatype Callback = HandleRead(fd: int) | HandleWrite(fd: int) | HandleConnect(fd: int) | Other(id: int)

  datatype IoEvent = IoEvent(mask: set<Interest>, read: Option<Callback>, write: Option<Callback>)

  type EventMap = map<int, IoEvent>

  datatype CtlOp = Add | Mod

  /** What the kernel reports for a descriptor: `Hangup` stands for EPOLLHUP and EPOLLERR. */
  datatype Event = Readable | Writable | Hangup

  /** The entry of `fd` after registering `event` with `cb`. */
  function Registered(evs: EventMap, fd: int, event: set<Interest>, cb: Callback): IoEvent {
    var before := if fd in evs then evs[fd] else IoEvent({}, None, None);
    IoEvent(
      before.mask + event,
      if In in event then Some(cb) else before.read,
      if In !in event && Out in event then Some(cb) else before.write)
  }

  /** The table after giving up `event` on `fd`: an entry without events disappears. */
  function Without(evs: EventMap, fd: int, event: set<Interest>): EventMap {
    if fd !in evs then evs
    else if evs[fd].mask - event == {} then evs - {fd}
    else evs[fd := evs[fd].(mask := evs[fd].mask - event)]
  }

  /** Whether the loop watches `fd` for output and calls `handle_write` of its connection then. */
  predicate WantsWrite(evs: EventMap, fd: int) {
    fd in evs && Out in evs[fd].mask && evs[fd].write == Some(HandleWrite(fd))
  }

  /** EPOLLOUT is in the mask, with `handle_write` behind it, exactly while there is output. */
  ghost predicate InterestExact(evs: EventMap, fd: int, output: bool) {
    && (output ==> WantsWrite(evs, fd))
    && (!output && fd in evs ==> Out !in evs[fd].mask)
  }

  predicate WantsRead(evs: EventMap, fd: int) {
    fd in evs && In in evs[fd].mask && evs[fd].read == Some(HandleRead(fd))
  }

  /** The entries of all other descriptors are the same. */
  ghost predicate SameElsewhere(evs: EventMap, evs': EventMap, fd: int) {
    evs - {fd} == evs' - {fd}
  }

  class EventLoop {
    var ioEvs: EventMap
    var listenFds: set<int>
    var kernel: map<int, set<Interest>>
    var conns: set<int>   // the loop thread's table of connections, by descriptor

    /** The kernel watches exactly what the table says, and `listenFds` are the watched descriptors. */
    ghost predicate Valid()
      reads this`kernel, this`ioEvs, this`listenFds
    {
      && kernel.Keys == ioEvs.Keys == listenFds
      && forall fd | fd in ioEvs :: kernel[fd] == ioEvs[fd].mask && ioEvs[fd].mask != {}
    }

    constructor ()
      ensures Valid() && ioEvs == map[]
    {
      ioEvs, listenFds, kernel, conns := map[], {}, map[], {};
    }

    /** `epoll_ctl`, which fails only when an addition finds the descriptor there or a change does not. */
    method Ctl(op: CtlOp, fd: int, mask: set<Interest>) returns (ok: bool)
      modifies this`kernel
      ensures ok <==> (op.Add? <==> fd !in old(kernel))
      ensures kernel == if ok then old(kernel)[fd := mask] else old(kernel)
    {
      ok := op.Add? == (fd !in kernel);
      if ok {
        kernel := kernel[fd := mask];
      }
    }

    method AddIoEvent(fd: int, event: set<Interest>, proc: Callback)
      requires Valid() && event != {}
      modifies this`ioEvs, this`listenFds, this`kernel
      ensures Valid() && ioEvs == old(ioEvs)[fd := Registered(old(ioEvs), fd, event, proc)]
      ensures kernel[fd] == event + if fd in old(kernel) then old(kernel)[fd] else {}
      ensures In in event ==> ioEvs[fd].read == Some(proc)
      ensures event == {Out} ==> ioEvs[fd].write == Some(proc)
      ensures fd in old(ioEvs) && In !in event ==> ioEvs[fd].read == old(ioEvs)[fd].read
      ensures fd in old(ioEvs) && In in event ==> ioEvs[fd].write == old(ioEvs)[fd].write
    {
      var entry, op := IoEvent({}, None, None), Add;
      if fd in ioEvs {
        entry, op := ioEvs[fd], Mod;
      }
      var finalEvent := entry.mask + event;
      if In in event {
        entry := entry.(read := Some(proc));
      } else if Out in event {
        entry := entry.(write := Some(proc));
      }
      ioEvs := ioEvs[fd := entry.(mask := finalEvent)];
      var ok := Ctl(op, fd, finalEvent);
      if !ok {
        return;
      }
      listenFds := listenFds + {fd};
    }

    method DelIoEvent(fd: int)
      requires Valid()
      modifies this`ioEvs, this`listenFds, this`kernel
      ensures Valid() && ioEvs == old(ioEvs) - {fd}
    {
      if fd !in ioEvs {
        return;
      }
      ioEvs := ioEvs - {fd};
      listenFds := listenFds - {fd};
      kernel := kernel - {fd};
    }

    method DelIoEventMask(fd: int, event: set<Interest>)
      requires Valid()
      modifies this`ioEvs, this`listenFds, this`kernel
      ensures Valid() && ioEvs == Without(old(ioEvs), fd, event)
      ensures fd in kernel <==> fd in old(kernel) && old(kernel)[fd] - event != {}
      ensures fd in kernel ==>
        && kernel[fd] == old(kernel)[fd] - event
        && ioEvs[fd].read == old(ioEvs)[fd].read && ioEvs[fd].write == old(ioEvs)[fd].write
    {
      if fd !in ioEvs {
        return;
      }
      var mask := ioEvs[fd].mask - event;
      if mask == {} {
        DelIoEvent(fd);
        return;
      }
      ioEvs := ioEvs[fd := ioEvs[fd].(mask := mask)];
      var ok := Ctl(Mod, fd, mask);
    }

    /** A callback may register and give up anything, also for its own descriptor. */
    method Call(cb: Callback)
      requires Valid()
      modifies this
      ensures Valid()
    {
      var steps: nat :| true;
      for i := 0 to steps
        invariant Valid()
      {
        var fd: int, event: set<Interest> := *, *;
        var proc: Callback := *;
        var registers: bool := *;
        if event == {} {
          DelIoEvent(fd);
        } else if registers {
          AddIoEvent(fd, event, proc);
        } else {
          DelIoEventMask(fd, event);
        }
      }
    }

    method CallSome(cb: Option<Callback>) returns (called: seq<Callback>)
      requires Valid()
      modifies this
      ensures Valid() && called == One(cb) && (cb.None? ==> ioEvs == old(ioEvs))
    {
      called := [];
      if cb.Some? {
        Call(cb.value);
        called := [cb.value];
      }
    }

    /** Takes up one report. The entry is copied, so that what a callback does to it does not decide
        which callbacks follow. */
    method Dispatch(fd: int, events: set<Event>) returns (called: seq<Callback>)
      requires Valid()
      modifies this
      ensures Valid() && called == Calls(old(ioEvs), fd, events)
      ensures fd !in old(ioEvs) ==> ioEvs == old(ioEvs)
      ensures fd in old(ioEvs) && old(ioEvs)[fd].read.None? && old(ioEvs)[fd].write.None? ==>
        ioEvs == if Hangup in events then old(ioEvs) - {fd} else old(ioEvs)
    {
      called := [];
      if fd !in ioEvs {
        return;
      }
      var ev := ioEvs[fd];
      if Readable in events {
        var run := CallSome(ev.read);
        called := called + run;
      }
      if Writable in events {
        var run := CallSome(ev.write);
        called := called + run;
      }
      if Hangup in events {
        var run := HangUp(fd, ev);
        called := called + run;
      }
    }

    /** An entry without callbacks is deleted; otherwise they are run again. */
    method HangUp(fd: int, ev: IoEvent) returns (called: seq<Callback>)
      requires Valid()
      modifies this
      ensures Valid() && called == One(ev.read) + One(ev.write)
      ensures ev.read.None? && ev.write.None? ==> ioEvs == old(ioEvs) - {fd}
    {
      if ev.read.None? && ev.write.None? {
        DelIoEvent(fd);
      }
      called := CallSome(ev.read);
      var run := CallSome(ev.write);
      called := called + run;
    }

    /** One round of the loop: the reports are taken up in order, and those for descriptors that have been
        given up in the meantime are skipped. */
    method DispatchAll(reports: seq<(int, set<Event>)>)
        returns (called: seq<seq<Callback>>, ghost tables: seq<EventMap>)
      requires Valid()
      modifies this
      ensures Valid() && |called| == |tables| == |reports| && (reports != [] ==> tables[0] == old(ioEvs))
      ensures forall i | 0 <= i < |reports| :: called[i] == Calls(tables[i], reports[i].0, reports[i].1)
    {
      hide Calls;
      called, tables := [], [];
      for i := 0 to |reports|
        invariant Valid() && |called| == |tables| == i
        invariant (i > 0 ==> tables[0] == old(ioEvs)) && (i == 0 ==> ioEvs == old(ioEvs))
        invariant forall j | 0 <= j < i :: called[j] == Calls(tables[j], reports[j].0, reports[j].1)
      {
        tables := tables + [ioEvs];
        var run := Dispatch(reports[i].0, reports[i].1);
        called := called + [run];
      }
    }
  }

  function One(cb: Option<Callback>): seq<Callback> {
    if cb.Some? then [cb.value] else []
  }

  /** The callbacks run for one report, in order: they are decided by the entry found when the report is
      taken up. After a hang-up both are run, a second time if the report had called them already. */
  function Calls(evs: EventMap, fd: int, events: set<Event>): seq<Callback> {
    if fd !in evs then []
    else
      var ev := evs[fd];
      (if Readable in events then One(ev.read) else [])
      + (if Writable in events then One(ev.write) else [])
      + (if Hangup in events then One(ev.read) + One(ev.write) else [])
  }

  /** Each callback that the entry has is run once for its own event and once for a hang-up, in this order and at
      these places, and nothing else is run; a descriptor without an entry has none. */
  lemma EachCallback(evs: EventMap, fd: int, events: set<Event>)
    ensures fd !in evs ==> Calls(evs, fd, events) == []
    ensures fd in evs ==>
      var called, ev := Calls(evs, fd, events), evs[fd];
      var r := if ev.read.Some? && Readable in events then 1 else 0;
      var w := if ev.write.Some? && Writable in events then 1 else 0;
      var r' := if ev.read.Some? && Hangup in events then 1 else 0;
      var w' := if ev.write.Some? && Hangup in events then 1 else 0;
      && |called| == r + w + r' + w'
      && (r == 1 ==> called[0] == ev.read.value)
      && (w == 1 ==> called[r] == ev.write.value)
      && (r' == 1 ==> called[r + w] == ev.read.value)
      && (w' == 1 ==> called[r + w + r'] == ev.write.value)
  {
  }

  /** So a connection watched for input is read first when it is readable, whatever else is reported and whether or
      not it has anything to send; and one that waits for output, or for its connecting, gets that. */
  lemma ReportsServed(evs: EventMap, fd: int, events: set<Event>)
    ensures WantsRead(evs, fd) && Readable in events ==>
      Calls(evs, fd, events) != [] && Calls(evs, fd, events)[0] == HandleRead(fd)
    ensures WantsWrite(evs, fd) && Writable in events ==> HandleWrite(fd) in Calls(evs, fd, events)
    ensures fd in evs && evs[fd].write == Some(HandleConnect(fd)) && Writable in events ==>
      HandleConnect(fd) in Calls(evs, fd, events)
  {
    EachCallback(evs, fd, events);
  }

  /** A connection waiting for input and output is read before it is written to, and nothing of another
      descriptor is run for it. */
  lemma ReadBeforeWrite(evs: EventMap, fd: int)
    requires WantsRead(evs, fd) && WantsWrite(evs, fd)
    ensures Calls(evs, fd, {Readable, Writable}) == [HandleRead(fd), HandleWrite(fd)]
    ensures Calls(evs, fd, {Readable, Hangup}) == [HandleRead(fd), HandleRead(fd), HandleWrite(fd)]
    ensures forall events :: forall cb | cb in Calls(evs, fd, events) :: cb == HandleRead(fd) || cb == HandleWrite(fd)
  {
  }

  lemma RegisteredElsewhere(evs: EventMap, fd: int, event: set<Interest>, cb: Callback)
    ensures SameElsewhere(evs, evs[fd := Registered(evs, fd, event, cb)], fd)
    ensures SameElsewhere(evs, Without(evs, fd, event), fd)
    ensures SameElsewhere(evs, evs - {fd}, fd)
  {
    hide Registered;
  }

  /** What another descriptor is watched for depends on its own entry. */
  lemma InterestElsewhere(evs: EventMap, evs': EventMap, fd: int, other: int, output: bool)
    requires SameElsewhere(evs, evs', fd) && other != fd && InterestExact(evs, other, output)
    ensures InterestExact(evs', other, output)
  {
    assert other in evs <==> other in evs - {fd};
    assert other in evs' <==> other in evs' - {fd};
  }

  lemma RegisterOutput(evs: EventMap, fd: int)
    ensures InterestExact(evs[fd := Registered(evs, fd, {Out}, HandleWrite(fd))], fd, true)
  {
  }

  lemma GiveUpOutput(evs: EventMap, fd: int)
    ensures InterestExact(Without(evs, fd, {Out}), fd, false)
    ensures fd !in evs ==> Without(evs, fd, {Out}) == evs
  {
  }

  lemma RegisterInput(evs: EventMap, fd: int, output: bool)
    ensures var evs' := evs[fd := Registered(evs, fd, {In}, HandleRead(fd))];
      WantsRead(evs', fd) && (InterestExact(evs, fd, output) ==> InterestExact(evs', fd, output))
  {
  }

  /** Registering for output and giving it up again restores a reading connection's interest. */
  lemma WriteInterestRoundTrip(evs: EventMap, fd: int)
    requires WantsRead(evs, fd) && evs[fd].mask == {In}
    ensures var on := evs[fd := Registered(evs, fd, {Out}, HandleWrite(fd))];
      && WantsWrite(on, fd) && WantsRead(on, fd)
      && var off := Without(on, fd, {Out});
      && WantsRead(off, fd) && off[fd].mask == evs[fd].mask && !WantsWrite(off, fd)
  {
  }
}
