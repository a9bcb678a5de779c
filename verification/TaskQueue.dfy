/**
 The queue through which any thread hands tasks to a loop. Producers push under a lock and then
 write an eventfd; the loop, woken by the eventfd, reads it and then takes the whole queue under
 the lock. Every lock region and every system call is one step.
 */
module TaskQueues {
  import opened Sets

  /** Where the loop's thread is: waiting, between `read` and `swap`, or working on the tasks taken. */
  datatype Consumer<T> = Idle | AfterRead | Draining(tasks: seq<T>)

  /** `between` are the producers that have pushed and not yet written; `pushed` and `executed` are histories. */
  datatype State<T> = State(
    queue: seq<T>, counter: nat, between: set<int>, consumer: Consumer<T>,
    exited: bool, pushed: seq<T>, executed: seq<T>)

  /** The largest value an eventfd holds: a write that would exceed it fails, and `add` exits. */
  const COUNTER_MAX := 0xffff_ffff_ffff_fffe

  datatype Label<T> = Push(producer: int, task: T) | Notify(producer: int) | Wake | Swap | RunFront | Return

  function Start<T>(): State<T> {
    State([], 0, {}, Idle, false, [], [])
  }

  predicate Enabled<T>(s: State<T>, l: Label<T>) {
    !s.exited &&
    match l
    case Push(p, _) => p !in s.between
    case Notify(p) => p in s.between
    case Wake => s.consumer.Idle?
    case Swap => s.consumer.AfterRead?
    case RunFront => s.consumer.Draining? && s.consumer.tasks != []
    case Return => s.consumer.Draining? && s.consumer.tasks == []
  }

  /** The loop calls the consumer when the eventfd can be read. */
  predicate Due<T>(s: State<T>, l: Label<T>) {
    Enabled(s, l) && (l.Wake? ==> s.counter > 0)
  }

  /** A `Wake` whose read fails because nothing was written leads on to the swap all the same. */
  function Step<T>(s: State<T>, l: Label<T>): State<T> {
    if !Enabled(s, l) then s else
      match l
      case Push(p, t) => s.(queue := s.queue + [t], between := s.between + {p}, pushed := s.pushed + [t])
      case Notify(p) =>
        if s.counter < COUNTER_MAX then s.(counter := s.counter + 1, between := s.between - {p}) else s.(exited := true)
      case Wake => s.(counter := 0, consumer := AfterRead)
      case Swap => s.(queue := [], consumer := Draining(s.queue))
      case RunFront => s.(consumer := Draining(s.consumer.tasks[1..]), executed := s.executed + [s.consumer.tasks[0]])
      case Return => s.(consumer := Idle)
  }

  function Run<T>(s: State<T>, labels: seq<Label<T>>): State<T>
    decreases |labels|
  {
    if labels == [] then s else Run(Step(s, labels[0]), labels[1..])
  }

  function Taken<T>(s: State<T>): seq<T> {
    if s.consumer.Draining? then s.consumer.tasks else []
  }

  ghost predicate Inv<T>(s: State<T>) {
    && s.pushed == s.executed + Taken(s) + s.queue
    && (s.queue != [] ==> s.counter > 0 || s.between != {} || s.consumer.AfterRead?)
    && s.counter + |s.between| <= |s.pushed|
    && (s.exited ==> |s.pushed| > COUNTER_MAX)
  }

  lemma StepInv<T>(s: State<T>, l: Label<T>)
    requires Inv(s)
    ensures Inv(Step(s, l))
  {
    if Enabled(s, l) && l.RunFront? {
      var tasks := s.consumer.tasks;
      assert s.executed + tasks + s.queue == s.executed + [tasks[0]] + tasks[1..] + s.queue;
    } else if Enabled(s, l) && l.Push? {
      assert s.executed + Taken(s) + (s.queue + [l.task]) == s.executed + Taken(s) + s.queue + [l.task];
    }
  }

  lemma {:induction false} RunInv<T>(s: State<T>, labels: seq<Label<T>>)
    requires Inv(s)
    ensures Inv(Run(s, labels))
    decreases |labels|
  {
    if labels != [] {
      StepInv(s, labels[0]);
      RunInv(Step(s, labels[0]), labels[1..]);
    }
  }

  /** A task in the queue is never overlooked: the loop is about to look, or somebody is about to wake it. */
  lemma NoLostWakeUp<T>(labels: seq<Label<T>>)
    ensures var s := Run(Start(), labels);
      s.queue != [] ==>
        Due(s, Wake) || Enabled(s, Swap) || s.consumer.Draining? || s.exited || exists p :: Enabled(s, Notify(p))
    ensures var s := Run(Start(), labels);
      s.queue != [] ==> s.counter > 0 || s.between != {} || s.consumer.AfterRead?
  {
    RunInv(Start(), labels);
    var s := Run(Start(), labels);
    if s.between != {} && !s.exited {
      Somebody(s.between);
      var p :| p in s.between;
      assert Enabled(s, Notify(p));
    }
  }

  /** The tasks that the producers have handed in, by the steps they took: one for each. */
  ghost function HandedIn<T>(s: State<T>, labels: seq<Label<T>>): seq<T>
    decreases |labels|
  {
    if labels == [] then []
    else
      (if labels[0].Push? && Enabled(s, labels[0]) then [labels[0].task] else [])
      + HandedIn(Step(s, labels[0]), labels[1..])
  }

  /** How many tasks the loop has run, by the steps it took. */
  ghost function RunCount<T>(s: State<T>, labels: seq<Label<T>>): nat
    decreases |labels|
  {
    if labels == [] then 0
    else
      (if labels[0].RunFront? && Enabled(s, labels[0]) then 1 else 0) + RunCount(Step(s, labels[0]), labels[1..])
  }

  lemma {:induction false} Histories<T>(s: State<T>, labels: seq<Label<T>>)
    ensures var s' := Run(s, labels);
      s'.pushed == s.pushed + HandedIn(s, labels) && |s'.executed| == |s.executed| + RunCount(s, labels)
    decreases |labels|
  {
    if labels != [] {
      var l := labels[0];
      Histories(Step(s, l), labels[1..]);
      var rest := HandedIn(Step(s, l), labels[1..]);
      if l.Push? && Enabled(s, l) {
        assert s.pushed + [l.task] + rest == s.pushed + ([l.task] + rest);
      }
    }
  }

  lemma FromStart<T>(labels: seq<Label<T>>)
    ensures var s := Run(Start(), labels);
      s.pushed == HandedIn(Start(), labels) && |s.executed| == RunCount(Start(), labels)
  {
    Histories(Start(), labels);
    assert Start().pushed + HandedIn(Start(), labels) == HandedIn(Start(), labels);
  }

  /** Those of one producer. */
  ghost function HandedBy<T>(s: State<T>, labels: seq<Label<T>>, p: int): seq<T>
    decreases |labels|
  {
    if labels == [] then []
    else
      (if labels[0].Push? && labels[0].producer == p && Enabled(s, labels[0]) then [labels[0].task] else [])
      + HandedBy(Step(s, labels[0]), labels[1..], p)
  }

  lemma {:induction false} HandedSnoc<T>(s: State<T>, labels: seq<Label<T>>, l: Label<T>, p: int)
    ensures HandedBy(s, labels + [l], p) == HandedBy(s, labels, p)
      + if l.Push? && l.producer == p && Enabled(Run(s, labels), l) then [l.task] else []
    decreases |labels|
  {
    hide Step, Enabled;
    if labels == [] {
      assert ([] + [l])[1..] == [] && ([] + [l])[0] == l;
      assert HandedBy(Step(s, l), [], p) == [];
    } else {
      assert (labels + [l])[1..] == labels[1..] + [l] && (labels + [l])[0] == labels[0];
      HandedSnoc(Step(s, labels[0]), labels[1..], l, p);
    }
  }

  /** Each task handed in runs at most once, in the order of the pushes, one for each step of the loop's work,
      and none is invented. */
  lemma ExecutedInPushOrder<T>(labels: seq<Label<T>>)
    ensures var s := Run(Start(), labels);
      && s.executed <= HandedIn(Start(), labels) && |s.executed| == RunCount(Start(), labels)
      && HandedIn(Start(), labels) == s.executed + Taken(s) + s.queue
  {
    RunInv(Start(), labels);
    FromStart(labels);
    var s := Run(Start(), labels);
    assert s.pushed == s.executed + (Taken(s) + s.queue);
    hide Run, HandedIn, RunCount;
  }

  /** When nobody can take a step any more, except to push new tasks, every task has run. */
  lemma QuietMeansDone<T>(labels: seq<Label<T>>)
    requires var s := Run(Start(), labels); !s.exited && forall l | Due(s, l) :: l.Push?
    ensures Run(Start(), labels).executed == HandedIn(Start(), labels)
  {
    RunInv(Start(), labels);
    FromStart(labels);
    var s := Run(Start(), labels);
    assert !Due(s, Wake) && !Due(s, Swap) && !Due(s, RunFront) && !Due(s, Return);
    if s.between != {} {
      Somebody(s.between);
      var p :| p in s.between;
      assert Due(s, Notify(p));
    }
  }

  /** Steps left before that point. */
  ghost function Work<T>(s: State<T>): nat {
    4 * |s.between| + (if s.counter > 0 then 3 else 0)
    + (match s.consumer case Idle => 0 case AfterRead => 2 case Draining(tasks) => 1 + |tasks|)
    + |s.queue| + (if s.exited then 0 else 1)
  }

  /** Everything but a push brings that point nearer, whoever takes the step. */
  lemma EveryStepHelps<T>(s: State<T>, l: Label<T>)
    requires Due(s, l) && !l.Push?
    ensures Work(Step(s, l)) < Work(s)
  {
  }

  /** So a run without new pushes takes at most `Work` steps that do something. */
  lemma {:induction false} FinishesInTime<T>(s: State<T>, labels: seq<Label<T>>)
    requires AllDue(s, labels) && forall l | l in labels :: !l.Push?
    ensures |labels| + Work(Run(s, labels)) <= Work(s)
    decreases |labels|
  {
    if labels != [] {
      EveryStepHelps(s, labels[0]);
      FinishesInTime(Step(s, labels[0]), labels[1..]);
    }
  }

  ghost predicate AllDue<T>(s: State<T>, labels: seq<Label<T>>)
    decreases |labels|
  {
    labels != [] ==> Due(s, labels[0]) && AllDue(Step(s, labels[0]), labels[1..])
  }

  /** The exit in `add` takes more pushes than an eventfd can count. */
  lemma ExitTakesManyPushes<T>(labels: seq<Label<T>>)
    ensures Run(Start(), labels).exited ==> |HandedIn(Start(), labels)| >= 0xffff_ffff_ffff_ffff
  {
    RunInv(Start(), labels);
    FromStart(labels);
  }

  lemma {:induction false} RunAppend<T>(s: State<T>, a: seq<Label<T>>, b: seq<Label<T>>)
    ensures Run(s, a + b) == Run(Run(s, a), b)
    decreases |a|
  {
    hide Step;
    if a == [] {
      assert a + b == b;
    } else {
      assert (a + b)[1..] == a[1..] + b;
      RunAppend(Step(s, a[0]), a[1..], b);
    }
  }

  lemma RunSnoc<T>(s: State<T>, labels: seq<Label<T>>, l: Label<T>)
    ensures Run(s, labels + [l]) == Step(Run(s, labels), l)
  {
    hide Step;
    RunAppend(s, labels, [l]);
    assert Run(Step(Run(s, labels), l), []) == Step(Run(s, labels), l);
  }

  // ---- The queue itself ----

  /** Who executes a method: a producer, or the loop's own thread. */
  datatype Actor = Producer(id: int) | Loop

  predicate By<T>(l: Label<T>, who: Actor) {
    match l
    case Push(p, _) => who == Producer(p)
    case Notify(p) => who == Producer(p)
    case _ => who == Loop
  }

  ghost predicate Others<T>(labels: seq<Label<T>>, me: Actor) {
    forall l | l in labels :: !By(l, me)
  }

  class TaskQueue<T(!new)> {
    var queue: seq<T>
    var counter: nat
    var between: set<int>
    var consumer: Consumer<T>
    var exited: bool
    ghost var pushed: seq<T>
    ghost var executed: seq<T>
    ghost var trace: seq<Label<T>>

    ghost function View(): State<T>
      reads this
    {
      State(queue, counter, between, consumer, exited, pushed, executed)
    }

    ghost predicate Valid()
      reads this
    {
      View() == Run(Start(), trace)
    }

    constructor ()
      ensures Valid() && trace == [] && queue == pushed == executed == [] && between == {}
      ensures counter == 0 && consumer.Idle? && !exited
    {
      queue, counter, between, consumer, exited := [], 0, {}, Idle, false;
      pushed, executed, trace := [], [], [];
    }

    ghost method Record(l: Label<T>, before: State<T>)
      requires before == Run(Start(), trace) && View() == Step(before, l)
      modifies this`trace
      ensures Valid() && trace == old(trace) + [l]
    {
      RunSnoc(Start(), trace, l);
      trace := trace + [l];
    }

    method Push(p: int, t: T)
      requires Valid()
      modifies this
      ensures Valid() && trace == old(trace) + [Label.Push(p, t)] && View() == Step(old(View()), Label.Push(p, t))
      ensures !old(exited) && p !in old(between) ==>
        && queue == old(queue) + [t] && pushed == old(pushed) + [t] && between == old(between) + {p}
        && counter == old(counter) && consumer == old(consumer) && executed == old(executed) && !exited
    {
      ghost var before := View();
      if !exited && p !in between {
        queue := queue + [t];
        between := between + {p};
        pushed := pushed + [t];
      }
      Record(Label.Push(p, t), before);
    }

    method Notify(p: int)
      requires Valid()
      modifies this
      ensures Valid() && trace == old(trace) + [Label.Notify(p)] && View() == Step(old(View()), Label.Notify(p))
      ensures !old(exited) && p in old(between) ==>
        && (exited <==> old(counter) >= 0xffff_ffff_ffff_fffe)
        && (!exited ==> counter == old(counter) + 1 && between == old(between) - {p})
        && queue == old(queue) && pushed == old(pushed) && consumer == old(consumer) && executed == old(executed)
    {
      ghost var before := View();
      if !exited && p in between {
        if counter < COUNTER_MAX {
          counter := counter + 1;
          between := between - {p};
        } else {
          exited := true;
        }
      }
      Record(Label.Notify(p), before);
    }

    method Wake()
      requires Valid()
      modifies this
      ensures Valid() && trace == old(trace) + [Label.Wake] && View() == Step(old(View()), Label.Wake)
      ensures !old(exited) && old(consumer).Idle? ==>
        && counter == 0 && consumer.AfterRead? && queue == old(queue) && between == old(between)
        && pushed == old(pushed) && executed == old(executed) && !exited
    {
      ghost var before := View();
      if !exited && consumer.Idle? {
        counter, consumer := 0, AfterRead;
      }
      Record(Label.Wake, before);
    }

    method SwapOut()
      requires Valid()
      modifies this
      ensures Valid() && trace == old(trace) + [Swap] && View() == Step(old(View()), Swap)
      ensures !old(exited) && old(consumer).AfterRead? ==>
        && queue == [] && consumer == Draining(old(queue)) && counter == old(counter) && between == old(between)
        && pushed == old(pushed) && executed == old(executed) && !exited
    {
      ghost var before := View();
      if !exited && consumer.AfterRead? {
        queue, consumer := [], Draining(queue);
      }
      Record(Swap, before);
    }

    method RunNext()
      requires Valid()
      modifies this
      ensures Valid() && trace == old(trace) + [RunFront] && View() == Step(old(View()), RunFront)
      ensures !old(exited) && old(consumer).Draining? && old(consumer).tasks != [] ==>
        && executed == old(executed) + [old(consumer).tasks[0]] && consumer == Draining(old(consumer).tasks[1..])
        && queue == old(queue) && counter == old(counter) && between == old(between) && pushed == old(pushed)
    {
      ghost var before := View();
      if !exited && consumer.Draining? && consumer.tasks != [] {
        executed := executed + [consumer.tasks[0]];
        consumer := Draining(consumer.tasks[1..]);
      }
      Record(RunFront, before);
    }

    method Leave()
      requires Valid()
      modifies this
      ensures Valid() && trace == old(trace) + [Return] && View() == Step(old(View()), Return)
      ensures !old(exited) && old(consumer) == Draining([]) ==>
        && consumer.Idle? && queue == old(queue) && counter == old(counter) && between == old(between)
        && pushed == old(pushed) && executed == old(executed) && !exited
    {
      ghost var before := View();
      if !exited && consumer.Draining? && consumer.tasks == [] {
        consumer := Idle;
      }
      Record(Return, before);
    }

    /** What the other threads do in the meantime: any number of their steps, in any order. */
    method Meanwhile(me: Actor)
      requires Valid()
      modifies this
      ensures Valid() && old(trace) <= trace && Others(trace[|old(trace)|..], me)
      ensures old(pushed) <= pushed
      ensures me.Loop? ==> consumer == old(consumer) && executed == old(executed)
      ensures me.Producer? ==> (me.id in between <==> me.id in old(between))
      ensures me.Producer? ==> HandedBy(Start(), trace, me.id) == old(HandedBy(Start(), trace, me.id))
    {
      hide HandedBy;
      var candidates: seq<Label<T>> := *;
      for i := 0 to |candidates|
        invariant Valid() && old(trace) <= trace && Others(trace[|old(trace)|..], me)
        invariant old(pushed) <= pushed
        invariant me.Loop? ==> consumer == old(consumer) && executed == old(executed)
        invariant me.Producer? ==> (me.id in between <==> me.id in old(between))
        invariant me.Producer? ==> HandedBy(Start(), trace, me.id) == old(HandedBy(Start(), trace, me.id))
      {
        if !By(candidates[i], me) {
          if me.Producer? {
            HandedSnoc(Start(), trace, candidates[i], me.id);
          }
          Perform(candidates[i]);
        }
      }
    }

    method Perform(l: Label<T>)
      requires Valid()
      modifies this
      ensures Valid() && trace == old(trace) + [l] && View() == Step(old(View()), l)
    {
      match l
      case Push(p, t) => Push(p, t);
      case Notify(p) => Notify(p);
      case Wake => Wake();
      case Swap => SwapOut();
      case RunFront => RunNext();
      case Return => Leave();
    }

    /** `add`: push, then write, with any steps of the others in between. */
    method Add(p: int, t: T)
      requires Valid() && !exited && p !in between
      modifies this
      ensures Valid() && (p !in between || exited)
      ensures old(pushed) + [t] <= pushed
      ensures HandedBy(Start(), trace, p) == old(HandedBy(Start(), trace, p)) + [t]
      ensures |trace| >= |old(trace)| + 2 && old(trace) + [Label.Push(p, t)] <= trace
      ensures trace[|trace| - 1] == Label.Notify(p) && Others(trace[|old(trace)| + 1..|trace| - 1], Producer(p))
    {
      HandedSnoc(Start(), trace, Label.Push(p, t), p);
      Push(p, t);
      assert pushed == old(pushed) + [t];
      Meanwhile(Producer(p));
      ghost var n := |trace|;
      HandedSnoc(Start(), trace, Label.Notify(p), p);
      Notify(p);
      assert trace[..n][|old(trace)| + 1..] == trace[|old(trace)| + 1..n];
    }

    /** `deal_task`: when it returns, every task pushed before it was called has run, whether or not the eventfd
        had been written. */
    method DealTask()
      requires Valid() && !exited && consumer.Idle?
      modifies this
      ensures Valid() && old(trace) <= trace
      ensures exited || (consumer.Idle? && old(pushed) <= executed)
    {
      Wake();
      Meanwhile(Loop);
      SwapOut();
      if exited {
        return;
      }
      RunInv(Start(), trace);
      RunAll(pushed);
      Leave();
    }

    /** Runs the tasks taken, up to the last one of `target`. */
    method RunAll(ghost target: seq<T>)
      requires Valid() && consumer.Draining? && executed + consumer.tasks == target && !exited
      modifies this
      ensures Valid() && old(trace) <= trace
      ensures exited || (consumer == Draining([]) && executed == target)
    {
      hide Run;
      while !exited && consumer.tasks != []
        invariant Valid() && old(trace) <= trace
        invariant consumer.Draining? && executed + consumer.tasks == target
        decreases !exited, |consumer.tasks|
      {
        Meanwhile(Loop);
        RunNext();
      }
    }
  }
}
