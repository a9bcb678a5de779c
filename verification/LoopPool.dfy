/** The pool of loops behind a server: connections are spread over them in turn, tasks go to all. */
module LoopPool {
  import opened Rotation

  class Loop {
    var tasks: seq<int>

    constructor ()
      ensures tasks == []
    {
      tasks := [];
    }

    method AddTask(task: int)
      modifies this
      ensures tasks == old(tasks) + [task]
    {
      tasks := tasks + [task];
    }
  }

  /** What the program keeps as its next position after a number of calls: it wraps only when asked again. */
  function NextAfter(n: nat, calls: nat): nat
    requires n > 0
  {
    if calls == 0 then 0 else (calls - 1) % n + 1
  }

  lemma NextServed(n: nat, calls: nat)
    requires n > 0
    ensures 0 <= calls % n < n && NextAfter(n, calls + 1) == calls % n + 1
    ensures (if NextAfter(n, calls) >= n then 0 else NextAfter(n, calls)) == calls % n
  {
    if calls == 0 {
      QuotientUnique(n, 0 / n, 0 % n, 0, 0);
    } else {
      NextTurn(calls - 1, n);
    }
  }

  class LoopThreadPool {
    const mainLoop: Loop
    const threadNum: int
    var loops: seq<Loop>
    var next: int
    ghost var handed: seq<Loop>   // all answers given so far

    ghost predicate Valid()
      reads this
    {
      && |loops| == (if threadNum > 0 then threadNum else 0)
      && (loops != [] ==> next == NextAfter(|loops|, |handed|))
      && (loops != [] ==> InTurn(loops, handed))
      && (forall i | 0 <= i < |loops| :: loops[i] != mainLoop)
      && (forall i, j | 0 <= i < j < |loops| :: loops[i] != loops[j])
    }

    /** The pool with its loops started, one per thread. */
    constructor (main: Loop, n: int)
      ensures Valid() && mainLoop == main && threadNum == n && handed == []
      ensures forall l | l in loops :: fresh(l) && l.tasks == []
    {
      mainLoop, threadNum, loops, next, handed := main, n, [], 0, [];
      new;
      for i := 0 to if n > 0 then n else 0
        invariant |loops| == i && next == 0 && handed == []
        invariant forall k | 0 <= k < i :: fresh(loops[k]) && loops[k].tasks == [] && loops[k] != mainLoop
        invariant forall a, b | 0 <= a < b < |loops| :: loops[a] != loops[b]
      {
        var l := new Loop();
        loops := loops + [l];
      }
    }

    /** Without worker threads the main loop serves every connection; otherwise the loops take turns. */
    method GetNextLoop() returns (l: Loop)
      requires Valid()
      modifies this`next, this`handed
      ensures Valid() && handed == old(handed) + [l]
      ensures threadNum <= 0 ==> l == mainLoop
      ensures threadNum > 0 ==> l == loops[|old(handed)| % threadNum]
    {
      hide NextAfter, InTurn;
      if threadNum <= 0 {
        handed := handed + [mainLoop];
        return mainLoop;
      }
      NextServed(threadNum, |handed|);
      if next >= threadNum {
        next := 0;
      }
      l := loops[next];
      InTurnSnoc(loops, handed);
      next := next + 1;
      handed := handed + [l];
    }

    /** The loops to which `send_task` sends. */
    ghost function Everyone(): set<Loop>
      reads this
    {
      {mainLoop} + set l | l in loops
    }

    /** Every loop gets the task exactly once, behind what it already had. */
    method SendTask(task: int)
      requires Valid()
      modifies Everyone()
      ensures forall l | l in Everyone() :: l.tasks == old(l.tasks) + [task]
    {
      hide InTurn;
      mainLoop.AddTask(task);
      for i := 0 to |loops|
        invariant mainLoop.tasks == old(mainLoop.tasks) + [task]
        invariant forall k | 0 <= k < i :: loops[k].tasks == old(loops[k].tasks) + [task]
        invariant forall k | i <= k < |loops| :: loops[k].tasks == old(loops[k].tasks)
      {
        loops[i].AddTask(task);
      }
    }

    /** No loop is ever more than one connection ahead of another. */
    lemma SpreadEvenly(i: nat, j: nat)
      requires Valid() && i < |loops| && j < |loops|
      ensures -1 <= Occurrences(handed, loops[i]) - Occurrences(handed, loops[j]) <= 1
    {
      OccursInTurn(handed, loops, i);
      OccursInTurn(handed, loops, j);
      TurnsEven(|handed|, |loops|, i, j);
    }
  }
}
