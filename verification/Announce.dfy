/** What becomes of the changes that are handed to a loop: each is sent to a subscriber once, or kept for one. */
module Announcements {
  import opened Bytes
  import opened ChangeLog

  // ---- Where an announced change is ----

  function InBatch(b: Batch, d: Due): nat {
    if d.change in b.changes && b.seen == d.seen && b.loaded == d.loaded then 1 else 0
  }

  function InTasks(tasks: seq<Batch>, d: Due): nat {
    if tasks == [] then 0 else InBatch(tasks[0], d) + InTasks(tasks[1..], d)
  }

  function InWorker(w: Worker, d: Due): nat {
    if w.Working? && d.change in w.left && w.batch.seen == d.seen && w.batch.loaded == d.loaded then 1 else 0
  }

  function InPush(p: Push, d: Due): nat {
    if p.change == d.change && p.seen == d.seen && p.loaded == d.loaded then 1 else 0
  }

  /** How many responses have been sent for it. */
  function Sent(pushes: seq<Push>, d: Due): nat {
    if pushes == [] then 0 else Sent(pushes[..|pushes| - 1], d) + InPush(pushes[|pushes| - 1], d)
  }

  /** In a waiting task, in the task at work, kept for a subscriber, or sent. */
  function Places(s: State, d: Due): nat {
    InTasks(s.tasks, d) + InWorker(s.worker, d) + s.deferred[d] + Sent(s.pushes, d)
  }

  /** How often a round has handed it over, by the steps taken and the lists the rounds had loaded. */
  function Handovers(strict: bool, s: State, labels: seq<Label>, d: Due): nat
    decreases |labels|
  {
    if labels == [] then 0
    else
      (if labels[0].Publish? && s.checker.Listed? && Lists(s.checker, d) then 1 else 0)
      + Handovers(strict, Step(strict, s, labels[0]), labels[1..], d)
  }

  /** The change is on the round's list. */
  predicate Lists(k: Checker, d: Due)
    requires k.Listed?
  {
    d.change in k.list && d.seen == k.seen && d.loaded == k.loaded
  }

  lemma {:induction false} InTasksSnoc(tasks: seq<Batch>, b: Batch, d: Due)
    ensures InTasks(tasks + [b], d) == InTasks(tasks, d) + InBatch(b, d)
  {
    hide InBatch;
    if tasks == [] {
      assert [b][1..] == [] && [] + [b] == [b];
    } else {
      assert (tasks + [b])[1..] == tasks[1..] + [b];
      InTasksSnoc(tasks[1..], b, d);
    }
  }

  lemma SentSnoc(pushes: seq<Push>, p: Push, d: Due)
    ensures Sent(pushes + [p], d) == Sent(pushes, d) + InPush(p, d)
  {
    assert (pushes + [p])[..|pushes|] == pushes;
  }

  lemma PlacesStep(strict: bool, s: State, l: Label, d: Due)
    ensures Places(Step(strict, s, l), d) == Places(s, d) + Handovers(strict, s, [l], d)
  {
    hide Sent, InTasks;
    assert [l][1..] == [] && Handovers(strict, Step(strict, s, l), [], d) == 0;
    if Allowed(strict, s, l) {
      TickPlaces(After(s, l), d);
      if IsChecker(l) {
        CheckerPlaces(s, l, d);
      } else {
        LoopPlaces(s, l, d);
      }
    }
    hide After, Places;
  }

  lemma CheckerPlaces(s: State, l: Label, d: Due)
    requires Allowed(false, s, l) && IsChecker(l)
    ensures var k := s.checker;
      Places(After(s, l), d) == Places(s, d)
        + if l.Publish? && d.change in k.list && d.seen == k.seen && d.loaded == k.loaded then 1 else 0
  {
    hide Sent, InTasks;
    if l.Publish? {
      var k := s.checker;
      InTasksSnoc(s.tasks, Batch(k.list, k.seen, k.loaded), d);
    }
  }

  lemma LoopPlaces(s: State, l: Label, d: Due)
    requires Allowed(false, s, l) && !IsChecker(l)
    ensures Places(After(s, l), d) == Places(s, d)
  {
    hide Sent, InTasks;
    match l
    case Take =>
      InTasksHead(s.tasks, d);
    case PushOne(c) =>
      SentSnoc(s.pushes, Push(c, s.current, s.worker.batch.seen, s.worker.batch.loaded), d);
    case PushDeferred(e) =>
      SentSnoc(s.pushes, Push(e.change, s.current, e.seen, e.loaded), d);
    case _ =>
  }

  lemma TickPlaces(s: State, d: Due)
    ensures Places(Tick(s), d) == Places(s, d)
  {
  }

  lemma InTasksHead(tasks: seq<Batch>, d: Due)
    requires tasks != []
    ensures InTasks(tasks, d) == InBatch(tasks[0], d) + InTasks(tasks[1..], d)
  {
  }

  lemma {:induction false} PlacesRun(strict: bool, s: State, labels: seq<Label>, d: Due)
    ensures Places(Run(strict, s, labels), d) == Places(s, d) + Handovers(strict, s, labels, d)
    decreases |labels|
  {
    hide Step, Places;
    if labels != [] {
      PlacesStep(strict, s, labels[0], d);
      HandoversHead(strict, s, labels, d);
      PlacesRun(strict, Step(strict, s, labels[0]), labels[1..], d);
    }
  }

  lemma HandoversHead(strict: bool, s: State, labels: seq<Label>, d: Due)
    requires labels != []
    ensures Handovers(strict, s, labels, d) ==
      Handovers(strict, s, [labels[0]], d) + Handovers(strict, Step(strict, s, labels[0]), labels[1..], d)
  {
    hide Step;
    var l := labels[0];
    assert [l][1..] == [] && Handovers(strict, Step(strict, s, l), [], d) == 0;
  }

  /** The checker is in a round that began at `seen`. */
  predicate InRound(k: Checker, seen: Moment) {
    match k
    case Changed(m) => m == seen
    case Loaded(m, _) => m == seen
    case Installed(m, _) => m == seen
    case Listed(m, _, _, _) => m == seen
    case _ => false
  }

  lemma RoundStep(strict: bool, s: State, l: Label, seen: Moment)
    requires seen.time < s.clock && !InRound(s.checker, seen)
    ensures var s' := Step(strict, s, l); seen.time < s'.clock && !InRound(s'.checker, seen)
  {
  }

  /** A round that is over does not come back. */
  lemma {:induction false} RoundOver(strict: bool, s: State, labels: seq<Label>, d: Due)
    requires d.seen.time < s.clock && !InRound(s.checker, d.seen)
    ensures Handovers(strict, s, labels, d) == 0
    decreases |labels|
  {
    hide Step;
    if labels != [] {
      RoundStep(strict, s, labels[0], d.seen);
      RoundOver(strict, Step(strict, s, labels[0]), labels[1..], d);
    }
  }

  /** So a round hands each of its changes over once. */
  lemma {:induction false} HandedOnce(strict: bool, s: State, labels: seq<Label>, d: Due)
    requires Timing(s)
    ensures Handovers(strict, s, labels, d) <= 1
    decreases |labels|
  {
    hide Timing;
    if labels != [] {
      var s' := Step(strict, s, labels[0]);
      var k := s.checker;
      if labels[0].Publish? && k.Listed? && d.change in k.list && d.seen == k.seen && d.loaded == k.loaded {
        ListedBefore(s);
        RoundOver(strict, s', labels[1..], d);
      } else {
        RunTiming(strict, s, [labels[0]]);
        RunOne(strict, s, labels[0]);
        hide Step;
        HandedOnce(strict, s', labels[1..], d);
      }
    }
  }

  lemma ListedBefore(s: State)
    requires Timing(s) && s.checker.Listed?
    ensures s.checker.seen.time <= s.clock
  {
  }

  /** Exactly once, for every change of every round, whatever the administrator does: what a round has handed over
      is in a waiting task, in the task at work, kept for a subscriber, or sent, and in one of these places only;
      nothing else is. */
  lemma ExactlyOnce(strict: bool, start: State, labels: seq<Label>, d: Due)
    requires Initial(start)
    ensures Places(Run(strict, start, labels), d) == Handovers(strict, start, labels, d) <= 1
  {
    hide Run, Handovers;
    InitialHolds(start);
    assert Places(start, d) == 0;
    PlacesRun(strict, start, labels, d);
    HandedOnce(strict, start, labels, d);
  }

  // ---- The histories ----

  lemma {:induction false} PublishedRun(strict: bool, s: State, labels: seq<Label>, c: Change)
    ensures c in Run(strict, s, labels).published <==>
      c in s.published || exists d: Due :: d.change == c && Handovers(strict, s, labels, d) > 0
    decreases |labels|
  {
    hide Handovers;
    if labels == [] {
      assert forall d :: Handovers(strict, s, [], d) == 0 by { NoHandovers(strict, s); }
    } else {
      var l, rest := labels[0], labels[1..];
      var s' := Step(strict, s, l);
      PublishedRun(strict, s', rest, c);
      forall d: Due
        ensures Handovers(strict, s, labels, d) == Handovers(strict, s, [l], d) + Handovers(strict, s', rest, d)
      {
        HandoversHead(strict, s, labels, d);
      }
      PublishedStep(strict, s, l, c);
      hide Step, Run;
      if d: Due :| d.change == c && Handovers(strict, s', rest, d) > 0 {
        assert Handovers(strict, s, labels, d) > 0;
      }
      if d: Due :| d.change == c && Handovers(strict, s, [l], d) > 0 {
        assert Handovers(strict, s, labels, d) > 0;
      }
    }
  }

  lemma NoHandovers(strict: bool, s: State)
    ensures forall d :: Handovers(strict, s, [], d) == 0
  {
  }

  lemma PublishedStep(strict: bool, s: State, l: Label, c: Change)
    ensures c in Step(strict, s, l).published <==>
      c in s.published || exists d: Due :: d.change == c && Handovers(strict, s, [l], d) > 0
  {
    forall d: Due
      ensures Handovers(strict, s, [l], d) ==
        if l.Publish? && s.checker.Listed? && d.change in s.checker.list && d.seen == s.checker.seen
           && d.loaded == s.checker.loaded then 1 else 0
    {
      assert [l][1..] == [] && Handovers(strict, Step(strict, s, l), [], d) == 0;
    }
    hide Handovers;
    if l.Publish? && s.checker.Listed? && c in s.checker.list {
      assert Handovers(strict, s, [l], Due(c, s.checker.seen, s.checker.loaded)) > 0;
    }
  }

  lemma SentIs(pushes: seq<Push>, d: Due)
    ensures Sent(pushes, d) > 0 <==>
      exists p :: p in pushes && p.change == d.change && p.seen == d.seen && p.loaded == d.loaded
  {
    if pushes != [] {
      var n := |pushes| - 1;
      SentIs(pushes[..n], d);
      assert pushes == pushes[..n] + [pushes[n]];
    }
  }

  /** A change is in the record of what has been published exactly if it is in one of those places. */
  lemma PublishedSomewhere(strict: bool, start: State, labels: seq<Label>, c: Change)
    requires Initial(start)
    ensures var s := Run(strict, start, labels); c in s.published <==>
      exists d: Due :: d.change == c && Places(s, d) > 0
  {
    hide Run, Handovers, Places, Initial;
    PublishedRun(strict, start, labels, c);
    forall d: Due
      ensures Places(Run(strict, start, labels), d) == Handovers(strict, start, labels, d)
    {
      ExactlyOnce(strict, start, labels, d);
    }
    assert c !in start.published by { InitialPublished(start); }
  }

  lemma InitialPublished(s: State)
    requires Initial(s)
    ensures s.published == {}
  {
  }

  /** So once a loop has no task and keeps nothing, every change published has been sent; and only such are. */
  lemma AllSent(strict: bool, start: State, labels: seq<Label>, c: Change)
    requires Initial(start)
    ensures var s := Run(strict, start, labels);
      && ((exists p :: p in s.pushes && p.change == c) ==> c in s.published)
      && (s.tasks == [] && s.worker.Waiting? && s.deferred == multiset{} && c in s.published ==>
          exists p :: p in s.pushes && p.change == c)
  {
    hide Run, Initial;
    PublishedSomewhere(strict, start, labels, c);
    var s := Run(strict, start, labels);
    if p :| p in s.pushes && p.change == c {
      SentIs(s.pushes, Due(c, p.seen, p.loaded));
      assert Places(s, Due(c, p.seen, p.loaded)) > 0;
    }
    if s.tasks == [] && s.worker.Waiting? && s.deferred == multiset{} && c in s.published {
      var d: Due :| d.change == c && Places(s, d) > 0;
      SentIs(s.pushes, d);
    }
  }

  function ToDo(s: State): nat {
    if s.worker.Working? then 1 + |s.worker.left| + |s.deferred| else 0
  }

  ghost predicate Nearer(s: State, s': State) {
    && (|s'.tasks| < |s.tasks| || (|s'.tasks| == |s.tasks| && ToDo(s') < ToDo(s)))
    && (s'.tasks != [] || s'.worker.Working? || s'.deferred == multiset{})
  }

  lemma TakeNearer(s: State)
    requires s.worker.Waiting? && s.tasks != []
    ensures Nearer(s, Tick(AfterTake(s)))
  {
  }

  lemma PushNearer(s: State, c: Change)
    requires s.worker.Working? && c in s.worker.left
    ensures Nearer(s, Tick(AfterPush(s, c)))
  {
  }

  lemma DeferredNearer(s: State, d: Due)
    requires s.worker.Working? && d in s.deferred
    ensures Nearer(s, Tick(AfterPushDeferred(s, d)))
  {
  }

  lemma NextStep(strict: bool, s: State) returns (l: Label)
    requires s.tasks != [] || s.worker.Working?
    ensures l.Take? || l.PushOne? || l.PushDeferred? || l.Finish?
    ensures Nearer(s, Step(strict, s, l))
  {
    hide Nearer, AfterTake, AfterPush, AfterPushDeferred, ToDo;
    if s.worker.Waiting? {
      l := Take;
      TakeNearer(s);
    } else if s.worker.left != {} {
      var c :| c in s.worker.left;
      l := PushOne(c);
      PushNearer(s, c);
    } else if s.deferred != multiset{} {
      var d :| d in s.deferred;
      l := PushDeferred(d);
      DeferredNearer(s, d);
    } else {
      l := Finish;
      FinishNearer(s);
    }
  }

  lemma FinishNearer(s: State)
    requires s.worker.Working? && s.deferred == multiset{}
    ensures Nearer(s, Tick(s.(worker := Waiting)))
  {
  }

  /** A loop that is given its turns gets there: some of its steps empty its tasks and what it keeps, provided
      there is a task in which to send that. */
  lemma {:induction false} Empties(strict: bool, s: State) returns (labels: seq<Label>)
    ensures forall l | l in labels :: l.Take? || l.PushOne? || l.PushDeferred? || l.Finish?
    ensures var s' := Run(strict, s, labels);
      s'.tasks == [] && s'.worker.Waiting? && (s.tasks != [] || s.worker.Working? ==> s'.deferred == multiset{})
    decreases |s.tasks|, ToDo(s)
  {
    hide Run, Step, ToDo;
    labels := [];
    RunNone(strict, s);
    if s.tasks != [] || s.worker.Working? {
      var l := NextStep(strict, s);
      var s' := Step(strict, s, l);
      var rest := Empties(strict, s');
      RunOne(strict, s, l);
      RunAppend(strict, s, [l], rest);
      if s'.tasks == [] && s'.worker.Waiting? {
        rest := [];
        RunNone(strict, s');
        RunAppend(strict, s, [l], rest);
      }
      labels := [l] + rest;
    }
  }

  lemma RunNone(strict: bool, s: State)
    ensures Run(strict, s, []) == s
  {
  }

  // ---- What a round lists ----

  /** Between the query and the delete, what has been listed are exactly the rows that were in the table then under
      a version already reached; nothing if the query failed. */
  lemma ListedExactly(strict: bool, s: State, c: Change)
    requires Reachable(strict, s) && s.checker.Listed?
    ensures s.checker.ok ==>
      (c in s.checker.list <==> c in s.changes && c.version <= s.version && c.at.time < s.queried)
    ensures !s.checker.ok ==> s.checker.list == {}
  {
    ReachableHolds(strict, s);
    hide Handed, Timing;
  }

  // ---- The purge at the start ----

  /** Rows that were purged are never announced. */
  ghost predicate Purged(s: State) {
    !s.checker.Starting? ==>
      && s.changes !! s.early && s.published !! s.early && (s.checker.Listed? ==> s.checker.list !! s.early)
      && s.early <= s.added
  }

  lemma PurgedStep(strict: bool, s: State, l: Label)
    requires Books(s) && Purged(s) && l != Purge(false)
    ensures Purged(Step(strict, s, l))
  {
    hide Handed;
  }

  lemma {:induction false} PurgedRun(strict: bool, s: State, labels: seq<Label>)
    requires Books(s) && Purged(s) && Purge(false) !in labels
    ensures Purged(Run(strict, s, labels))
    decreases |labels|
  {
    hide Step, Books, Purged;
    if labels != [] {
      PurgedStep(strict, s, labels[0]);
      StepBooks(strict, s, labels[0]);
      PurgedRun(strict, Step(strict, s, labels[0]), labels[1..]);
    }
  }

  lemma KeptStep(strict: bool, s: State, l: Label)
    requires Books(s) && s.added == s.changes + s.removed && l != Purge(true)
    ensures var s' := Step(strict, s, l); s'.added == s'.changes + s'.removed
  {
    hide Handed;
  }

  lemma {:induction false} KeptRun(strict: bool, s: State, labels: seq<Label>)
    requires Books(s) && s.added == s.changes + s.removed && Purge(true) !in labels
    ensures var s' := Run(strict, s, labels); s'.added == s'.changes + s'.removed
    decreases |labels|
  {
    hide Step, Books;
    if labels != [] {
      KeptStep(strict, s, labels[0]);
      StepBooks(strict, s, labels[0]);
      KeptRun(strict, Step(strict, s, labels[0]), labels[1..]);
    }
  }

  /** The checker starts by emptying the table. If that succeeds, no row from before is ever announced; as long
      as it does not, rows leave the table by the deletes of the rounds only. */
  lemma PurgeClears(strict: bool, start: State, labels: seq<Label>)
    requires Initial(start)
    ensures var s := Run(strict, start, labels);
      && (Purge(false) !in labels ==> s.published !! s.early && s.changes !! s.early)
      && (Purge(true) !in labels ==> s.added == s.changes + s.removed)
  {
    InitialHolds(start);
    hide Run, Books, Timing;
    if Purge(false) !in labels {
      PurgedRun(strict, start, labels);
      StillStarting(strict, start, labels);
    }
    if Purge(true) !in labels {
      KeptRun(strict, start, labels);
    }
  }

  lemma StillStarting(strict: bool, start: State, labels: seq<Label>)
    requires Initial(start)
    ensures var s := Run(strict, start, labels); s.checker.Starting? ==> s.published == s.early == {}
  {
    InitialHolds(start);
    RunBooks(strict, start, labels);
    hide Run;
  }

  // ---- The administrator ----

  /** What the administrator does is there for the checker to find: one row more, of the service and the version
      given; the version, as soon as it is queried; an edit, in the next query of the table. */
  lemma AdministratorActs(s: State, service: uint64, v: int)
    requires Rows(s)
    ensures var s' := Step(false, s, Add(service, v));
      exists c :: c !in s.added && c.service == service && c.version == v
        && s'.changes == s.changes + {c} && s'.added == s.added + {c}
    ensures s.checker.Sleeping? && v != s.version ==>
      var s' := Step(false, Step(false, s, Bump(v)), LoadVersion(true)); s'.version == v && s'.checker.Changed?
    ensures s.checker.Changed? ==>
      var s' := Step(false, Step(false, s, Edit), LoadData(true));
      s'.checker.Loaded? && s'.checker.snapshot.edits == s.edits + 1
  {
    var c := Change(s.next, service, v, Now(s));
    assert c !in s.added && Step(false, s, Add(service, v)).changes == s.changes + {c};
  }

  /** A round in which everything succeeds: the subscriber is told the hosts as they are after the edit. */
  lemma RoundExample()
    ensures var c := Change(0, 7, 1, Moment(2, 1));
      var s := Run(true, EMPTY,
        [] + [Purge(true), Edit] + [Add(7, 1), Bump(1)] + [LoadVersion(true), LoadData(true)]
        + [Swap, LoadChanges(true)] + [Publish, Remove(true)] + [Take, PushOne(c)]);
      s.pushes == [Push(c, Moment(5, 1), Moment(4, 1), true)] && s.published == s.removed == {c} && s.changes == {}
  {
    hide Run;
    EmptyInitial();
    var c := Change(0, 7, 1, Moment(2, 1));
    var s0 := Announced(c);
    var labels := [] + [Purge(true), Edit] + [Add(7, 1), Bump(1)];
    var seen, loaded := Moment(4, 1), Moment(5, 1);
    var b := Batch({c}, seen, true);
    var s1 := s0.(version := 1, checker := Loaded(seen, loaded), clock := 6);
    Two(true, labels, s0, LoadVersion(true), LoadData(true), s1);
    labels := labels + [LoadVersion(true), LoadData(true)];
    assert Eligible({c}, 1) == {c};
    var s2 := s1.(current := loaded, checker := Listed(seen, true, {c}, true), queried := 7, clock := 8);
    Two(true, labels, s1, Swap, LoadChanges(true), s2);
    labels := labels + [Swap, LoadChanges(true)];
    var s3 := s2.(checker := Sleeping, tasks := [b], published := {c}, changes := {}, removed := {c}, clock := 10);
    Two(true, labels, s2, Publish, Remove(true), s3);
    labels := labels + [Publish, Remove(true)];
    var s4 := s3.(tasks := [], worker := Working(b, {}), pushes := [Push(c, loaded, seen, true)], clock := 12);
    Two(true, labels, s3, Take, PushOne(c), s4);
  }
}
