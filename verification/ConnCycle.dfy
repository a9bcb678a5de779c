/** The way of a connection through the server, from the kernel's descriptor and back. */
module ConnCycles {
  import opened EventLoops
  import opened ConnLifecycle
  import opened Sets

  /** A run, state by state. */
  lemma {:induction false} RunThrough(max: int, labels: seq<Label>, states: seq<State>)
    requires |states| == |labels| + 1
    requires forall i | 0 <= i < |labels| :: states[i + 1] == Step(max, states[i], labels[i])
    ensures Run(max, states[0], labels) == states[|labels|]
    decreases |labels|
  {
    hide Step;
    if labels != [] {
      assert states[1] == Step(max, states[0], labels[0]);
      forall i | 0 <= i < |labels| - 1
        ensures states[1..][i + 1] == Step(max, states[1..][i], labels[1..][i])
      {
        assert states[i + 2] == Step(max, states[i + 1], labels[i + 1]);
      }
      RunThrough(max, labels[1..], states[1..]);
    }
  }

  lemma {:induction false} RunAppend(max: int, s: State, a: seq<Label>, b: seq<Label>)
    ensures Run(max, s, a + b) == Run(max, Run(max, s, a), b)
    decreases |a|
  {
    hide Step;
    if a == [] {
      assert a + b == b;
    } else {
      assert (a + b)[1..] == a[1..] + b;
      RunAppend(max, Step(max, s, a[0]), a[1..], b);
    }
  }

  lemma ReachableRun(max: int, s: State, labels: seq<Label>)
    requires Reachable(max, s)
    ensures Reachable(max, Run(max, s, labels))
  {
    hide Run;
    var before :| s == Run(max, START, before);
    RunAppend(max, START, before, labels);
  }

  // ---- What a step may change ----

  /** Only listening and a registration enter a connection in the tables of its loop. */
  lemma Entered(max: int, s: State, l: Label, id: int)
    ensures id in Step(max, s, l).watch.Values ==>
      id in s.watch.Values || (Enabled(s, l) && (l == Listen(id) || l == Rearm(id)))
    ensures id in Step(max, s, l).listed.Values ==> id in s.listed.Values || (Enabled(s, l) && l == Listen(id))
  {
    if Enabled(s, l) {
      EntriesAfter(max, s, l);
      hide Step, Enabled;
    }
  }

  lemma EntriesAfter(max: int, s: State, l: Label)
    requires Enabled(s, l)
    ensures var s' := Step(max, s, l);
      && (forall k | k in s'.watch ::
          (k in s.watch && s'.watch[k] == s.watch[k]) || ((l.Listen? || l.Rearm?) && s'.watch[k] == l.id))
      && (forall k | k in s'.listed ::
          (k in s.listed && s'.listed[k] == s.listed[k]) || (l.Listen? && s'.listed[k] == l.id))
  {
    hide Referenced;
  }

  /** Only a step of the connection with this key changes an entry. */
  lemma EntryChange(max: int, s: State, l: Label, k: Key)
    ensures var s' := Step(max, s, l);
      || (k in s.watch && k in s'.watch && s'.watch[k] == s.watch[k]) || (k !in s.watch && k !in s'.watch)
      || ((l.Listen? || l.Rearm? || l.Shut? || l.Unwatch?) && l.id in s.conns && KeyOf(s.conns[l.id]) == k)
    ensures var s' := Step(max, s, l);
      || (k in s.listed && k in s'.listed && s'.listed[k] == s.listed[k]) || (k !in s.listed && k !in s'.listed)
      || ((l.Listen? || l.Shut?) && l.id in s.conns && KeyOf(s.conns[l.id]) == k)
  {
    hide Referenced;
  }

  /** A connection keeps its descriptor and the loop it was given. */
  lemma ConnChange(max: int, s: State, l: Label, id: int)
    requires id in s.conns && s.next !in s.conns && id in Step(max, s, l).conns
    ensures var c, c' := s.conns[id], Step(max, s, l).conns[id];
      && c'.fd == c.fd && c'.loop == c.loop
      && (c'.connected == c.connected || (l == Shut(id) && c.connected))
      && (|| c'.phase == c.phase || (l.Enqueue? && s.main == Created(id) && c'.phase.Queued?)
          || (l == Listen(id) && c.phase.Queued? && c'.phase.Listening?))
      && (c'.holders >= c.holders || l == Drop(id))
  {
    hide Referenced;
  }

  lemma ConnsChange(max: int, s: State, l: Label, id: int)
    ensures var s' := Step(max, s, l); id in s'.conns && id !in s.conns ==>
      l.Create? && s.main.Admitted? && id == s.next && s'.main == Created(id) && s'.conns[id].phase.Made?
    ensures id in s.conns && id !in Step(max, s, l).conns ==> l == Destroy(id) && Enabled(s, l)
  {
    hide Referenced;
  }

  lemma NextGrows(max: int, s: State, l: Label)
    ensures s.next <= Step(max, s, l).next
  {
  }

  // ---- What is held, exactly ----

  /** Every open descriptor has its connection, or has just been accepted. */
  ghost predicate Used(s: State) {
    forall fd | fd in s.open && Pending(s.main) != Some(fd) :: exists id :: id in s.conns && s.conns[id].fd == fd
  }

  /** A connection that is not just being made has been handed to its loop. */
  ghost predicate HandedOver(s: State) {
    forall id | id in s.conns && s.conns[id].phase.Made? :: s.main == Created(id)
  }

  /** The loop lists a connection that listens and has not been closed. */
  ghost predicate Enlisted(s: State) {
    forall id | id in s.conns && s.conns[id].phase.Listening? && s.conns[id].connected ::
      KeyOf(s.conns[id]) in s.listed && s.listed[KeyOf(s.conns[id])] == id
  }

  lemma UsedStays(s: State, s': State)
    requires Used(s) && forall fd | fd in s'.open && Pending(s'.main) != Some(fd) ::
      fd in s.open && Pending(s.main) != Some(fd)
    requires forall id | id in s.conns && s.conns[id].fd in s'.open ::
      id in s'.conns && s'.conns[id].fd == s.conns[id].fd
    ensures Used(s')
  {
    forall fd | fd in s'.open && Pending(s'.main) != Some(fd)
      ensures exists id :: id in s'.conns && s'.conns[id].fd == fd
    {
      var id :| id in s.conns && s.conns[id].fd == fd;
      assert s'.conns[id].fd == fd;
    }
  }

  lemma UsedCreate(s: State, loop: int)
    requires Used(s) && s.main.Admitted? && s.next !in s.conns
    ensures Used(AfterCreate(s, loop))
  {
    var s' := AfterCreate(s, loop);
    forall fd | fd in s'.open
      ensures exists id :: id in s'.conns && s'.conns[id].fd == fd
    {
      if fd == s.main.fd {
        assert s'.conns[s.next].fd == fd;
      } else {
        var id :| id in s.conns && s.conns[id].fd == fd;
        assert s'.conns[id].fd == fd;
      }
    }
  }

  lemma UsedStep(max: int, s: State, l: Label)
    requires Inv(max, s) && Used(s)
    ensures Used(Step(max, s, l))
  {
    hide InTable, Phases, Posted, Tasks, Counted, Tables, Referenced, Used;
    if l.Create? && Enabled(s, l) {
      UsedCreate(s, l.loop);
    } else {
      UsedStays(s, Step(max, s, l));
    }
  }

  lemma HandedOverStep(max: int, s: State, l: Label)
    requires Inv(max, s) && HandedOver(s)
    ensures HandedOver(Step(max, s, l))
  {
    hide InTable, Posted, Tasks, Counted, Tables, Referenced, Step, Phases;
    var s' := Step(max, s, l);
    if s.main.Created? && s'.main != s.main {
      MadeMoves(max, s, l);
    }
    forall id | id in s'.conns && s'.conns[id].phase.Made?
      ensures s'.main == Created(id)
    {
      ConnsChange(max, s, l, id);
      if id in s.conns {
        ConnChange(max, s, l, id);
      }
    }
  }

  lemma MadeMoves(max: int, s: State, l: Label)
    requires s.main.Created? && Step(max, s, l).main != s.main
    ensures l.Enqueue? && s.main.id in s.conns && s.main.id in Step(max, s, l).conns
    ensures Step(max, s, l).conns[s.main.id].phase.Queued?
  {
    hide Referenced;
  }

  lemma EnlistedStays(s: State, s': State)
    requires Enlisted(s) && s'.listed == s.listed
    requires forall id | id in s'.conns && s'.conns[id].phase.Listening? && s'.conns[id].connected ::
      id in s.conns && s.conns[id].phase.Listening? && s.conns[id].connected
      && KeyOf(s.conns[id]) == KeyOf(s'.conns[id])
    ensures Enlisted(s')
  {
  }

  /** Only listening and closing change the lists, each for its own connection. */
  lemma EnlistedListen(max: int, s: State, id: int)
    requires Inv(max, s) && Enlisted(s) && id in s.conns
    ensures Enlisted(AfterListen(s, id)) && Enlisted(AfterShut(s, id))
  {
    hide InTable, Posted, Tasks, Counted, Phases, Tables;
  }

  lemma EnlistedStep(max: int, s: State, l: Label)
    requires Inv(max, s) && Enlisted(s)
    ensures Enlisted(Step(max, s, l))
  {
    hide InTable, Posted, Tasks, Counted, Referenced, Tables, Phases;
    if l.Listen? && Enabled(s, l) {
      assert Step(max, s, l) == AfterListen(s, l.id);
      hide Step, Enlisted, AfterListen;
      EnlistedListen(max, s, l.id);
    } else if l.Shut? && Enabled(s, l) {
      assert Step(max, s, l) == AfterShut(s, l.id);
      hide Step, Enlisted, AfterShut;
      EnlistedListen(max, s, l.id);
    } else {
      OthersEnlisted(max, s, l);
      hide Step, Enlisted;
    }
  }

  lemma OthersEnlisted(max: int, s: State, l: Label)
    requires Inv(max, s) && Enlisted(s) && ((!l.Listen? && !l.Shut?) || !Enabled(s, l))
    ensures Enlisted(Step(max, s, l))
  {
    hide InTable, Posted, Tasks, Counted, Referenced, Tables, Phases;
    var s' := Step(max, s, l);
    assert s'.listed == s.listed;
    hide Step, Enabled;
    forall id | id in s'.conns && s'.conns[id].phase.Listening? && s'.conns[id].connected
      ensures id in s.conns && s.conns[id].phase.Listening? && s.conns[id].connected
      ensures KeyOf(s.conns[id]) == KeyOf(s'.conns[id])
    {
      ConnsChange(max, s, l, id);
      ConnChange(max, s, l, id);
    }
    EnlistedStays(s, s');
  }

  ghost predicate Exact(s: State) {
    Used(s) && HandedOver(s) && Enlisted(s)
  }

  lemma {:induction false} RunExact(max: int, s: State, labels: seq<Label>)
    requires Inv(max, s) && Exact(s)
    ensures Exact(Run(max, s, labels))
    decreases |labels|
  {
    hide Inv, Step, Used, HandedOver, Enlisted;
    if labels != [] {
      var l := labels[0];
      UsedStep(max, s, l);
      HandedOverStep(max, s, l);
      EnlistedStep(max, s, l);
      StepInv(max, s, l);
      RunExact(max, Step(max, s, l), labels[1..]);
    }
  }

  lemma StartExact()
    ensures Exact(START)
  {
  }

  lemma ReachableExact(max: int, s: State)
    requires Reachable(max, s)
    ensures Exact(s) && Inv(max, s)
  {
    hide Inv, Run, Exact;
    var labels :| s == Run(max, START, labels);
    ReachableInv(max, s);
    StartInv(max);
    StartExact();
    RunExact(max, START, labels);
  }

  /** No descriptor is lost: the open ones are exactly those of the connections alive and the one just accepted. */
  lemma OpenExactly(max: int, s: State, fd: int)
    requires Reachable(max, s)
    ensures fd in s.open <==> Pending(s.main) == Some(fd) || exists id :: id in s.conns && s.conns[id].fd == fd
  {
    ReachableExact(max, s);
    hide InTable, Posted, Tasks, Counted, Tables, Reachable;
  }

  /** The table of a loop's thread has exactly the connections that listen there and have not been closed; one
      that is not just being made has been handed to that loop. */
  lemma ListedExactly(max: int, s: State, id: int)
    requires Reachable(max, s) && id in s.conns
    ensures id in s.listed.Values <==> s.conns[id].phase.Listening? && s.conns[id].connected
    ensures id in s.listed.Values <==> KeyOf(s.conns[id]) in s.listed && s.listed[KeyOf(s.conns[id])] == id
    ensures s.conns[id].phase.Made? ==> s.main == Created(id)
  {
    ReachableExact(max, s);
    hide Posted, Tasks, Counted, Reachable;
    if id in s.listed.Values {
      var k :| k in s.listed && s.listed[k] == id;
    }
  }

  // ---- From the kernel's descriptor and back ----

  lemma Again<V>(m: map<int, V>, k: int, a: V, b: V)
    ensures m[k := a][k := b] == m[k := b]
  {
  }

  /** The way in: accepted, admitted, made, handed to its loop, stored, and listening; the whole state after it. */
  lemma Opens(max: int, s: State, fd: int, loop: int)
    requires s.main.Waiting? && fd !in s.open && s.nums <= max && s.next !in s.conns
    ensures var id, k := s.next, Key(loop, fd);
      Run(max, s, [Accept(fd), Check, Create(loop)] + [Enqueue, Store, Listen(id)]) ==
      s.(open := s.open + {fd}, conns := s.conns[id := Conn(fd, loop, Listening, true, false, false, 0)],
         next := id + 1, nums := s.nums + 1, table := s.table[fd := id],
         watch := s.watch[k := id], listed := s.listed[k := id])
  {
    hide Run;
    var id := s.next;
    var t := Admits(max, s, fd, loop);
    RunAppend(max, s, [Accept(fd), Check, Create(loop)], [Enqueue, Store, Listen(id)]);
    Starts(max, t, id);
    Again(s.conns, id, t.conns[id], t.conns[id].(phase := Listening));
  }

  lemma Admits(max: int, s: State, fd: int, loop: int) returns (t: State)
    requires s.main.Waiting? && fd !in s.open && s.nums <= max && s.next !in s.conns
    ensures t == Run(max, s, [Accept(fd), Check, Create(loop)])
    ensures t == s.(main := Created(s.next), open := s.open + {fd}, next := s.next + 1, nums := s.nums + 1,
                    conns := s.conns[s.next := Conn(fd, loop, Made, true, false, false, 0)])
  {
    var s1 := AfterAccept(s, fd);
    var s2 := AfterCheck(max, s1);
    t := AfterCreate(s2, loop);
    assert s1 == Step(max, s, Accept(fd)) && s2 == Step(max, s1, Check) && t == Step(max, s2, Create(loop));
    hide Step, Enabled;
    RunThrough(max, [Accept(fd), Check, Create(loop)], [s, s1, s2, t]);
  }

  lemma Starts(max: int, s: State, id: int)
    requires s.main == Created(id) && id in s.conns
    ensures var c := s.conns[id];
      Run(max, s, [Enqueue, Store, Listen(id)]) ==
      s.(main := Waiting, conns := s.conns[id := c.(phase := Listening)], table := s.table[c.fd := id],
         watch := s.watch[KeyOf(c) := id], listed := s.listed[KeyOf(c) := id])
  {
    var s1 := AfterEnqueue(s, id);
    var s2 := AfterStore(s1, id);
    var s3 := AfterListen(s2, id);
    Again(s.conns, id, s1.conns[id], s3.conns[id]);
    assert s1 == Step(max, s, Enqueue) && s2 == Step(max, s1, Store) && s3 == Step(max, s2, Listen(id));
    hide Step, Enabled;
    RunThrough(max, [Enqueue, Store, Listen(id)], [s, s1, s2, s3]);
  }

  /** A connection that is refused leaves no trace. */
  lemma Refuses(max: int, s: State, fd: int)
    requires s.main.Waiting? && fd !in s.open && s.nums > max
    ensures Run(max, s, [Accept(fd), Check]) == s
  {
    var s1 := s.(main := Accepted(fd), open := s.open + {fd});
    assert s.open + {fd} - {fd} == s.open;
    RunThrough(max, [Accept(fd), Check], [s, s1, s]);
  }

  /** A connection that its loop watches, that nobody else holds, and that is alone in being closed. */
  predicate Closable(s: State, id: int) {
    && s.main.Waiting? && s.deletes == [] && id in s.conns && Watched(s, id)
    && s.conns[id].connected && !s.conns[id].dispatched && s.conns[id].holders == 0
  }

  /** The way out: called back, closed, its task posted, run, and the object destroyed. The descriptor can be
      accepted again, and every table is without the connection. */
  lemma Closes(max: int, s: State, id: int)
    requires Reachable(max, s) && Closable(s, id)
    ensures var c := s.conns[id];
      Run(max, s, [Dispatch(id), Shut(id), PostDelete(id), Leave(id)] + [TakeDelete, Erase, Destroy(id)]) ==
      s.(open := s.open - {c.fd}, conns := s.conns - {id}, nums := s.nums - 1, table := s.table - {c.fd},
         watch := s.watch - {KeyOf(c)}, listed := s.listed - {KeyOf(c)},
         posts := s.posts + [id], erased := s.erased + [id])
  {
    hide Run, Reachable;
    var c := s.conns[id];
    OwnTable(max, s, id);
    RunAppend(max, s, [Dispatch(id), Shut(id), PostDelete(id), Leave(id)], [TakeDelete, Erase, Destroy(id)]);
    var t := Closed(max, s, id);
    ReachableRun(max, s, [Dispatch(id), Shut(id), PostDelete(id), Leave(id)]);
    var task := DeleteTask(c.fd, id);
    var t1 := t.(main := Deleting(task, Some(id)), deletes := []);
    var t2 := t1.(main := Waiting, table := s.table - {c.fd}, erased := s.erased + [id]);
    var t3 := Step(max, t2, Destroy(id));
    assert [task][1..] == [];
    RunThrough(max, [TakeDelete, Erase, Destroy(id)], [t, t1, t2, t3]);
    RunThrough(max, [TakeDelete, Erase], [t, t1, t2]);
    ReachableRun(max, t, [TakeDelete, Erase]);
    assert id !in t2.watch.Values;
    DestroyExactly(max, t2, id);
    assert t2.conns[id] == c.(connected := false);
    assert s.conns[id := c.(connected := false)] - {id} == s.conns - {id};
    hide Referenced, Enabled;
  }

  lemma OwnTable(max: int, s: State, id: int)
    requires Reachable(max, s) && s.main.Waiting? && s.deletes == [] && id in s.conns && s.conns[id].connected
    ensures s.conns[id].fd in s.table && s.table[s.conns[id].fd] == id && !s.conns[id].closing
    ensures forall k | k in s.watch && s.watch[k] == id :: k == KeyOf(s.conns[id])
  {
    ReachableInv(max, s);
    hide Reachable;
    ErasedBefore(s);
  }

  lemma Closed(max: int, s: State, id: int) returns (t: State)
    requires Closable(s, id) && !s.conns[id].closing
    ensures t == Run(max, s, [Dispatch(id), Shut(id), PostDelete(id), Leave(id)])
    ensures var c := s.conns[id];
      t == s.(conns := s.conns[id := c.(connected := false)], watch := s.watch - {KeyOf(c)},
              listed := s.listed - {KeyOf(c)}, deletes := [DeleteTask(c.fd, id)], posts := s.posts + [id])
  {
    hide Run;
    var c := s.conns[id];
    var s1 := With(s, id, c.(dispatched := true));
    var s2 := AfterShut(s1, id);
    var s3 := AfterPost(s2, id);
    t := With(s3, id, s3.conns[id].(dispatched := false));
    Again(s.conns, id, s1.conns[id], s2.conns[id]);
    Again(s.conns, id, s2.conns[id], s3.conns[id]);
    Again(s.conns, id, s3.conns[id], t.conns[id]);
    assert s1 == Step(max, s, Dispatch(id)) && s2 == Step(max, s1, Shut(id));
    assert s3 == Step(max, s2, PostDelete(id)) && t == Step(max, s3, Leave(id));
    hide Step, Enabled;
    RunThrough(max, [Dispatch(id), Shut(id), PostDelete(id), Leave(id)], [s, s1, s2, s3, t]);
  }

  /** A connection that comes and goes leaves nothing behind: afterwards only its number is used up and its
      delete task is in the records. */
  lemma ComesAndGoes(max: int, s: State, fd: int, loop: int)
    requires Reachable(max, s) && s.main.Waiting? && s.deletes == [] && fd !in s.open && s.nums <= max
    ensures var id := s.next;
      Run(max, s, [Accept(fd), Check, Create(loop)] + [Enqueue, Store, Listen(id)]
                  + ([Dispatch(id), Shut(id), PostDelete(id), Leave(id)] + [TakeDelete, Erase, Destroy(id)])) ==
      s.(next := id + 1, posts := s.posts + [id], erased := s.erased + [id])
  {
    hide Run, Reachable, Referenced, Enabled, Step;
    Vacant(max, s, fd, loop);
    var id, k := s.next, Key(loop, fd);
    var opening := [Accept(fd), Check, Create(loop)] + [Enqueue, Store, Listen(id)];
    Opens(max, s, fd, loop);
    var t := Run(max, s, opening);
    ReachableRun(max, s, opening);
    Closes(max, t, id);
    RunAppend(max, s, opening, [Dispatch(id), Shut(id), PostDelete(id), Leave(id)] + [TakeDelete, Erase, Destroy(id)]);
    assert s.conns[id := t.conns[id]] - {id} == s.conns;
    assert s.table[fd := id] - {fd} == s.table;
    assert s.watch[k := id] - {k} == s.watch && s.listed[k := id] - {k} == s.listed;
    assert s.open + {fd} - {fd} == s.open;
  }

  lemma Vacant(max: int, s: State, fd: int, loop: int)
    requires Reachable(max, s) && fd !in s.open
    ensures s.next !in s.conns && fd !in s.table && Key(loop, fd) !in s.watch && Key(loop, fd) !in s.listed
  {
    ReachableInv(max, s);
    VacantIn(s, fd, loop);
  }

  lemma VacantIn(s: State, fd: int, loop: int)
    requires Descriptors(s) && Tables(s) && fd !in s.open
    ensures s.next !in s.conns && fd !in s.table && Key(loop, fd) !in s.watch && Key(loop, fd) !in s.listed
  {
    forall f | f in s.table
      ensures f in s.open
    {
      var id := s.table[f];
      assert id in s.conns && s.conns[id].fd in s.open;
    }
    forall k | k in s.watch
      ensures k.fd in s.open
    {
      var id := s.watch[k];
      assert id in s.conns && s.conns[id].fd in s.open;
    }
    forall k | k in s.listed
      ensures k.fd in s.open
    {
      var id := s.listed[k];
      assert id in s.conns && s.conns[id].fd in s.open;
    }
  }

  /** The limit is reached: any number of connections up to one above the maximum can be open at once. */
  lemma {:induction false} LimitReached(max: int, n: nat) returns (labels: seq<Label>)
    requires n <= max + 1 || n == 0
    ensures var s := Run(max, START, labels); s.main.Waiting? && s.deletes == [] && |s.conns| == s.nums == n
    decreases n
  {
    hide Run, Reachable, Step;
    labels := [];
    RunThrough(max, [], [START]);
    if n > 0 {
      var before := LimitReached(max, n - 1);
      var s := Run(max, START, before);
      ReachableStart(max, before);
      Unused(s.open);
      var fd :| fd !in s.open;
      Vacant(max, s, fd, 0);
      Opens(max, s, fd, 0);
      labels := before + ([Accept(fd), Check, Create(0)] + [Enqueue, Store, Listen(s.next)]);
      RunAppend(max, START, before, ([Accept(fd), Check, Create(0)] + [Enqueue, Store, Listen(s.next)]));
    }
  }

  lemma ReachableStart(max: int, labels: seq<Label>)
    ensures Reachable(max, Run(max, START, labels))
  {
  }

  // ---- Who stays, and who does not ----

  /** A watched connection stays watched by its loop, whatever the others do, until it is closed or given up. */
  lemma {:induction false} WatchedStays(max: int, s: State, labels: seq<Label>, id: int)
    requires Inv(max, s) && id in s.conns && Watched(s, id) && Shut(id) !in labels && Unwatch(id) !in labels
    ensures var s' := Run(max, s, labels); id in s'.conns && Watched(s', id)
    ensures var s' := Run(max, s, labels); s'.conns[id].fd == s.conns[id].fd && s'.conns[id].loop == s.conns[id].loop
    decreases |labels|
  {
    hide Inv, Step, Watched;
    if labels != [] {
      WatchedStep(max, s, labels[0], id);
      StepInv(max, s, labels[0]);
      WatchedStays(max, Step(max, s, labels[0]), labels[1..], id);
    }
  }

  lemma WatchedStep(max: int, s: State, l: Label, id: int)
    requires Inv(max, s) && id in s.conns && Watched(s, id) && l != Shut(id) && l != Unwatch(id)
    ensures var s' := Step(max, s, l); id in s'.conns && Watched(s', id)
    ensures var s' := Step(max, s, l); s'.conns[id].fd == s.conns[id].fd && s'.conns[id].loop == s.conns[id].loop
  {
    hide InTable, Posted, Tasks, Counted, Tables, Step;
    ConnsChange(max, s, l, id);
    if l == Destroy(id) {
      assert id in s.watch.Values;
    }
    ConnChange(max, s, l, id);
    if l == Listen(id) || l == Rearm(id) {
      Rewatched(max, s, l, id);
    }
    EntryChange(max, s, l, KeyOf(s.conns[id]));
    hide Enabled;
  }

  lemma Rewatched(max: int, s: State, l: Label, id: int)
    requires id in s.conns && Watched(s, id) && (l == Listen(id) || l == Rearm(id))
    ensures var k := KeyOf(s.conns[id]); k in Step(max, s, l).watch && Step(max, s, l).watch[k] == id
  {
    hide Referenced;
  }

  /** Closed, and registered nowhere. */
  ghost predicate Out(s: State, id: int) {
    && id < s.next && id !in s.watch.Values && id !in s.listed.Values
    && (id in s.conns ==> !s.conns[id].connected && s.conns[id].phase.Listening?)
  }

  lemma OutStep(max: int, s: State, l: Label, id: int)
    requires Inv(max, s) && Out(s, id) && l != Rearm(id)
    ensures Out(Step(max, s, l), id) && !Enabled(s, Dispatch(id))
  {
    hide InTable, Posted, Tasks, Counted, Referenced, Tables, Step;
    Entered(max, s, l, id);
    ConnsChange(max, s, l, id);
    NextGrows(max, s, l);
    if id in Step(max, s, l).conns && id in s.conns {
      ConnChange(max, s, l, id);
    }
  }

  lemma {:induction false} OutStays(max: int, s: State, labels: seq<Label>, id: int)
    requires Inv(max, s) && Out(s, id) && Rearm(id) !in labels
    ensures Out(Run(max, s, labels), id)
    decreases |labels|
  {
    hide Inv, Step, Out;
    if labels != [] {
      OutStep(max, s, labels[0], id);
      StepInv(max, s, labels[0]);
      OutStays(max, Step(max, s, labels[0]), labels[1..], id);
    }
  }

  lemma ShutIsOut(max: int, s: State, id: int)
    requires Inv(max, s) && Enabled(s, Shut(id))
    ensures Out(Step(max, s, Shut(id)), id)
  {
    hide InTable, Posted, Tasks, Counted, Referenced;
  }

  /** A closed connection is in none of its loop's tables and is not called back, as long as no later `send`
      registers it again. */
  lemma ClosedStaysOut(max: int, s: State, labels: seq<Label>, id: int)
    requires Reachable(max, s) && Enabled(s, Shut(id)) && Rearm(id) !in labels
    ensures var s' := Run(max, Step(max, s, Shut(id)), labels);
      && id !in s'.watch.Values && id !in s'.listed.Values && !Enabled(s', Dispatch(id))
      && (id in s'.conns ==> !s'.conns[id].connected)
  {
    hide Run, Inv, Step, Reachable;
    ReachableInv(max, s);
    StepInv(max, s, Shut(id));
    ShutIsOut(max, s, id);
    var t := Step(max, s, Shut(id));
    OutStays(max, t, labels, id);
  }

  /** So once its delete task has run, only a callback in progress or the application can keep it alive. */
  lemma NothingElseKeepsIt(max: int, s: State, labels: seq<Label>, id: int)
    requires Reachable(max, s) && Enabled(s, Shut(id)) && Rearm(id) !in labels
    ensures var s' := Run(max, Step(max, s, Shut(id)), labels);
      id in s'.conns && id in s'.erased ==>
        (Enabled(s', Destroy(id)) <==> !s'.conns[id].dispatched && s'.conns[id].holders == 0)
  {
    hide Run, Step, Reachable, Referenced, Enabled;
    ClosedStaysOut(max, s, labels, id);
    RunStep(max, s, Shut(id));
    ReachableRun(max, s, [Shut(id)]);
    var t := Step(max, s, Shut(id));
    ReachableRun(max, t, labels);
    var s' := Run(max, t, labels);
    if id in s'.conns {
      DestroyExactly(max, s', id);
    }
  }

  lemma RunStep(max: int, s: State, l: Label)
    ensures Run(max, s, [l]) == Step(max, s, l)
  {
    RunThrough(max, [l], [s, Step(max, s, l)]);
  }

  /** A `send` on a closed connection that still has a reference does register it: it is watched again and
      stays alive in every run in which it is not given up again. */
  lemma RearmedStays(max: int, s: State, labels: seq<Label>, id: int)
    requires Reachable(max, s) && Enabled(s, Rearm(id)) && !s.conns[id].connected
    requires Unwatch(id) !in labels && Shut(id) !in labels
    ensures var s' := Run(max, Step(max, s, Rearm(id)), labels);
      id in s'.conns && Watched(s', id) && !Enabled(s', Destroy(id))
  {
    hide Run, Inv;
    ReachableInv(max, s);
    StepInv(max, s, Rearm(id));
    WatchedStays(max, Step(max, s, Rearm(id)), labels, id);
  }

  /** A reference that the application keeps holds the connection until it is dropped, and dropping undoes it. */
  lemma HeldStays(max: int, s: State, labels: seq<Label>, id: int)
    requires Inv(max, s) && Enabled(s, Hold(id)) && Drop(id) !in labels
    ensures id in Run(max, Step(max, s, Hold(id)), labels).conns
    ensures Step(max, Step(max, s, Hold(id)), Drop(id)) == s
  {
    hide Run, Inv;
    StepInv(max, s, Hold(id));
    HeldRun(max, Step(max, s, Hold(id)), labels, id);
    assert s.conns[id].(holders := s.conns[id].holders) == s.conns[id];
    assert s.conns[id := s.conns[id]] == s.conns;
  }

  lemma {:induction false} HeldRun(max: int, s: State, labels: seq<Label>, id: int)
    requires Inv(max, s) && id in s.conns && s.conns[id].holders > 0 && Drop(id) !in labels
    ensures id in Run(max, s, labels).conns
    decreases |labels|
  {
    hide Inv, Step;
    if labels != [] {
      HeldStep(max, s, labels[0], id);
      StepInv(max, s, labels[0]);
      HeldRun(max, Step(max, s, labels[0]), labels[1..], id);
    }
  }

  lemma HeldStep(max: int, s: State, l: Label, id: int)
    requires Inv(max, s) && id in s.conns && s.conns[id].holders > 0 && l != Drop(id)
    ensures var s' := Step(max, s, l); id in s'.conns && s'.conns[id].holders > 0
  {
    hide InTable, Posted, Tasks, Counted, Tables, Phases, Step;
    ConnsChange(max, s, l, id);
    ConnChange(max, s, l, id);
  }

  /** Giving up the registration takes the connection from its loop, and registering again brings it back. */
  lemma GivenUp(max: int, s: State, id: int)
    requires Reachable(max, s) && Enabled(s, Unwatch(id)) && s.conns[id].phase.Listening?
    ensures var off := Step(max, s, Unwatch(id));
      && id !in off.watch.Values && !Enabled(off, Dispatch(id))
      && (Watched(s, id) ==> Step(max, off, Rearm(id)) == s)
  {
    ReachableInv(max, s);
    hide Reachable, InTable, Posted, Tasks, Counted, Descriptors;
    var k := KeyOf(s.conns[id]);
    var off := Step(max, s, Unwatch(id));
    assert Tables(s) && off == s.(watch := s.watch - {k});
    assert Referenced(off, id);
    hide Step, Referenced, Phases;
    assert forall k' | k' in off.watch :: off.watch[k'] != id;
    if Watched(s, id) {
      assert (s.watch - {k})[k := id] == s.watch;
      assert Step(max, off, Rearm(id)) == AfterRearm(off, id) by { Rearms(max, off, id); }
    }
  }

  lemma Rearms(max: int, s: State, id: int)
    requires Enabled(s, Rearm(id))
    ensures Step(max, s, Rearm(id)) == AfterRearm(s, id)
  {
  }
}
