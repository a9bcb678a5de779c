/** The main thread's part of the server: accepting connections and erasing them from its table. */
module Servers {
  import opened EventLoops
  import opened ConnLifecycle
  import opened Sets

  /** What `accept` answers; the other errors end the process. */
  datatype Answer = Connection | Interrupted | TooManyFiles | WouldBlock | Fatal

  /** How one call of the accept callback ends; `Unanswered` is still waiting in its loop. */
  datatype Outcome = Served(fd: int, id: int) | Refused(fd: int) | NothingThere | Exits | Unanswered

  /** The first answer after which `accept` is not asked again. */
  ghost predicate Decided(answers: seq<Answer>, k: nat)
    requires k < |answers|
  {
    && (forall i | 0 <= i < k :: answers[i].Interrupted? || answers[i].TooManyFiles?)
    && !answers[k].Interrupted? && !answers[k].TooManyFiles?
  }

  predicate IsMain(l: Label) {
    l.Accept? || l.Check? || l.Create? || l.Enqueue? || l.Store? || l.TakeDelete? || l.Erase?
  }

  /** The steps of the main thread among those of all threads. */
  ghost function MainPart(labels: seq<Label>): seq<Label> {
    if labels == [] then []
    else
      var n := |labels| - 1;
      MainPart(labels[..n]) + if IsMain(labels[n]) then [labels[n]] else []
  }

  lemma MainPartSnoc(labels: seq<Label>, l: Label)
    ensures MainPart(labels + [l]) == MainPart(labels) + if IsMain(l) then [l] else []
  {
  }

  lemma {:induction false} RunSnoc(max: int, s: State, labels: seq<Label>, l: Label)
    ensures Run(max, s, labels + [l]) == Step(max, Run(max, s, labels), l)
    decreases |labels|
  {
    hide Step;
    if labels == [] {
      assert [l][1..] == [] && [] + [l] == [l];
      assert Run(max, Step(max, s, l), []) == Step(max, s, l);
    } else {
      assert (labels + [l])[1..] == labels[1..] + [l];
      RunSnoc(max, Step(max, s, labels[0]), labels[1..], l);
    }
  }

  /** The other threads do not touch what belongs to the main thread. */
  lemma OthersKeep(max: int, s: State, l: Label)
    requires !IsMain(l)
    ensures var s' := Step(max, s, l);
      && s'.main == s.main && s'.table == s.table && s'.erased == s.erased && s'.next == s.next
      && forall id | id in s'.conns ::
        id in s.conns && s'.conns[id].fd == s.conns[id].fd && s'.conns[id].loop == s.conns[id].loop
  {
  }

  class TcpServer {
    const max: int                     // the configured number of connections
    var table: map<int, int>           // m_conns: connections by descriptor
    var nums: int                      // s_conn_nums
    var deletes: seq<DeleteTask>       // tasks waiting in the main loop
    var open: set<int>
    var conns: map<int, Conn>
    var next: int
    var main: Main
    var watch: map<Key, int>
    var listed: map<Key, int>
    var posts: seq<int>
    var erased: seq<int>
    var misses: nat
    ghost var trace: seq<Label>

    function View(): State
      reads this
    {
      State(main, open, conns, next, nums, table, deletes, watch, listed, posts, erased, misses)
    }

    ghost predicate Valid()
      reads this
    {
      View() == Run(max, START, trace)
    }

    constructor (max: int)
      ensures Valid() && this.max == max && main.Waiting? && trace == []
    {
      this.max := max;
      table, nums, deletes, open, conns, next, main, watch, listed := map[], 0, [], {}, map[], 0, Waiting, map[], map[];
      posts, erased, misses, trace := [], [], 0, [];
    }

    lemma Safe()
      requires Valid()
      ensures Inv(max, View())
    {
      hide Inv;
      StartInv(max);
      RunInv(max, START, trace);
    }

    ghost method Record(l: Label, before: State)
      requires before == Run(max, START, trace) && View() == Step(max, before, l)
      modifies this`trace
      ensures Valid() && trace == old(trace) + [l]
      ensures MainPart(trace) == MainPart(old(trace)) + if IsMain(l) then [l] else []
    {
      hide Step;
      RunSnoc(max, START, trace, l);
      MainPartSnoc(trace, l);
      trace := trace + [l];
    }

    /** A step of a worker, or the last reference going away. */
    method Elsewhere(l: Label)
      requires Valid() && !IsMain(l)
      modifies this
      ensures Valid() && MainPart(trace) == MainPart(old(trace))
      ensures main == old(main) && table == old(table) && erased == old(erased) && next == old(next)
      ensures forall id | id in conns ::
        id in old(conns) && conns[id].fd == old(conns)[id].fd && conns[id].loop == old(conns)[id].loop
    {
      hide Step, Run;
      ghost var before := View();
      OthersKeep(max, before, l);
      var s := Step(max, View(), l);
      nums, deletes, open, conns := s.nums, s.deletes, s.open, s.conns;
      watch, listed, posts, misses := s.watch, s.listed, s.posts, s.misses;
      Record(l, before);
    }

    /** What the other threads do in the meantime: any number of their steps, in any order. */
    method Meanwhile()
      requires Valid()
      modifies this
      ensures Valid() && MainPart(trace) == MainPart(old(trace))
      ensures main == old(main) && table == old(table) && erased == old(erased) && next == old(next)
      ensures forall id | id in conns ::
        id in old(conns) && conns[id].fd == old(conns)[id].fd && conns[id].loop == old(conns)[id].loop
    {
      hide Run;
      var others: seq<Label> := *;
      for i := 0 to |others|
        invariant Valid() && MainPart(trace) == MainPart(old(trace))
        invariant main == old(main) && table == old(table) && erased == old(erased) && next == old(next)
        invariant forall id | id in conns ::
          id in old(conns) && conns[id].fd == old(conns)[id].fd && conns[id].loop == old(conns)[id].loop
      {
        if !IsMain(others[i]) {
          Elsewhere(others[i]);
        }
      }
    }

    /** The loop around `accept`: one connection is served or refused per call. */
    method AcceptCallback(answers: seq<Answer>, loop: int) returns (r: Outcome, ghost asked: nat)
      requires Valid() && main.Waiting?
      modifies this
      ensures Valid() && main.Waiting?
      ensures r.Served? ==>
        MainPart(trace) == MainPart(old(trace)) + [Accept(r.fd), Check, Create(loop), Enqueue, Store]
      ensures r.Served? ==> r.fd !in old(table) && table == old(table)[r.fd := r.id] && r.id == old(next)
      ensures r.Served? ==> r.id in conns && conns[r.id].fd == r.fd && conns[r.id].loop == loop
      ensures r.Refused? ==> r.fd !in open
      ensures r.Refused? ==> MainPart(trace) == MainPart(old(trace)) + [Accept(r.fd), Check]
      ensures !r.Served? ==> table == old(table)
      ensures !r.Served? && !r.Refused? ==> MainPart(trace) == MainPart(old(trace))
      ensures r.Unanswered? <==> forall a | a in answers :: a.Interrupted? || a.TooManyFiles?
      ensures !r.Unanswered? ==> asked < |answers| && Decided(answers, asked)
      ensures !r.Unanswered? ==>
        && (answers[asked].WouldBlock? <==> r.NothingThere?) && (answers[asked].Fatal? <==> r.Exits?)
        && (answers[asked].Connection? <==> r.Served? || r.Refused?)
    {
      hide Run, Step, Inv;
      for i := 0 to |answers|
        invariant Valid() && main.Waiting? && MainPart(trace) == MainPart(old(trace))
        invariant table == old(table) && next == old(next)
        invariant forall k | 0 <= k < i :: answers[k].Interrupted? || answers[k].TooManyFiles?
      {
        Meanwhile();
        assert answers[i] in answers;
        match answers[i] {
          case Interrupted =>
          case TooManyFiles =>
          case WouldBlock => return NothingThere, i;
          case Fatal => return Exits, i;
          case Connection =>
            Unused(open);
            var fd :| fd !in open;   // the kernel returns a descriptor that is not open
            r := Take(fd, loop);
            return r, i;
        }
      }
      return Unanswered, |answers|;
    }

    /** Refuses the connection at the limit; otherwise it is made and handed to its loop before the table
        knows it. */
    method Take(fd: int, loop: int) returns (r: Outcome)
      requires Valid() && main.Waiting? && fd !in open
      modifies this
      ensures Valid() && main.Waiting?
      ensures (r.Served? || r.Refused?) && r.fd == fd
      ensures r.Served? ==> MainPart(trace) == MainPart(old(trace)) + [Accept(fd), Check, Create(loop), Enqueue, Store]
      ensures r.Served? ==> fd !in old(table) && table == old(table)[fd := r.id] && r.id == old(next)
      ensures r.Served? ==> r.id in conns && conns[r.id].fd == fd && conns[r.id].loop == loop
      ensures r.Refused? ==> fd !in open
      ensures r.Refused? ==> MainPart(trace) == MainPart(old(trace)) + [Accept(fd), Check] && table == old(table)
    {
      hide Valid, MainPart;
      FreshDescriptor(fd);
      Open(fd);
      Meanwhile();
      var admitted := Admit(fd);
      if !admitted {
        return Refused(fd);
      }
      Meanwhile();
      var id := Make(fd, loop);
      Meanwhile();
      HandOver(id);
      Meanwhile();
      Keep(id, fd);
      r := Served(fd, id);
    }

    method Open(fd: int)
      requires Valid() && main.Waiting? && fd !in open
      modifies this`open, this`main, this`trace
      ensures open == old(open) + {fd}
      ensures Valid() && main == Accepted(fd) && MainPart(trace) == MainPart(old(trace)) + [Accept(fd)]
    {
      hide Run, MainPart;
      ghost var before := View();
      open := open + {fd};
      main := Accepted(fd);
      Record(Accept(fd), before);
    }

    method Admit(fd: int) returns (admitted: bool)
      requires Valid() && main == Accepted(fd)
      modifies this`open, this`main, this`trace
      ensures Valid() && MainPart(trace) == MainPart(old(trace)) + [Check]
      ensures admitted <==> nums <= max
      ensures main == (if admitted then Admitted(fd) else Waiting)
      ensures open == if admitted then old(open) else old(open) - {fd}
    {
      hide Run, MainPart;
      ghost var before := View();
      admitted := nums <= max;
      if nums > max {
        open := open - {fd};
        main := Waiting;
      } else {
        main := Admitted(fd);
      }
      Record(Check, before);
    }

    method Make(fd: int, loop: int) returns (id: int)
      requires Valid() && main == Admitted(fd)
      modifies this`conns, this`nums, this`next, this`main, this`trace
      ensures Valid() && MainPart(trace) == MainPart(old(trace)) + [Create(loop)]
      ensures id == old(next) && main == Created(id) && next == id + 1 && nums == old(nums) + 1
      ensures conns == old(conns)[id := Conn(fd, loop, Made, true, false, false, 0)]
    {
      hide Run, MainPart;
      ghost var before := View();
      id := next;
      conns := conns[id := Conn(fd, loop, Made, true, false, false, 0)];
      nums := nums + 1;
      next := next + 1;
      main := Created(id);
      Record(Create(loop), before);
    }

    method HandOver(id: int)
      requires Valid() && main == Created(id)
      modifies this`conns, this`main, this`trace
      ensures Valid() && MainPart(trace) == MainPart(old(trace)) + [Enqueue] && main == Handed(id)
      ensures id in old(conns) && conns == old(conns)[id := old(conns)[id].(phase := Phase.Queued)]
    {
      hide Run, MainPart;
      MakingAlive();
      ghost var before := View();
      conns := conns[id := conns[id].(phase := Phase.Queued)];
      main := Handed(id);
      Record(Enqueue, before);
    }

    method Keep(id: int, fd: int)
      requires Valid() && main == Handed(id) && (id in conns ==> conns[id].fd == fd)
      modifies this`table, this`main, this`trace
      ensures Valid() && MainPart(trace) == MainPart(old(trace)) + [Store] && main.Waiting?
      ensures table == old(table)[fd := id] && id in conns
    {
      hide Run, MainPart;
      MakingAlive();
      ghost var before := View();
      table := table[fd := id];
      main := Waiting;
      Record(Store, before);
    }

    /** A delete task of the main loop finds, and erases, the connection that posted it. */
    method DeleteConnInLoop()
      requires Valid() && main.Waiting? && deletes != []
      modifies this
      ensures Valid() && main.Waiting?
      ensures MainPart(trace) == MainPart(old(trace)) + [TakeDelete, Erase]
      ensures var task := old(deletes[0]);
        && table == old(table) - {task.fd}
        && task.fd in old(table) && old(table)[task.fd] == task.poster
        && erased == old(erased) + [task.poster]
    {
      hide Valid, MainPart;
      LookUp();
      OwnEntry();
      Meanwhile();
      EraseEntry();
    }

    method LookUp()
      requires Valid() && main.Waiting? && deletes != []
      modifies this`deletes, this`main, this`trace
      ensures Valid() && MainPart(trace) == MainPart(old(trace)) + [TakeDelete]
      ensures main.Deleting? && main.task == old(deletes[0]) && deletes == old(deletes)[1..]
    {
      hide Run, MainPart;
      ghost var before := View();
      var task := deletes[0];
      main := Deleting(task, if task.fd in table then Some(table[task.fd]) else None);
      deletes := deletes[1..];
      Record(TakeDelete, before);
    }

    method EraseEntry()
      requires Valid() && main.Deleting?
      modifies this`table, this`erased, this`misses, this`main, this`trace
      ensures Valid() && MainPart(trace) == MainPart(old(trace)) + [Erase]
      ensures main.Waiting? && table == old(table) - {old(main).task.fd}
      ensures erased == old(erased) + [old(main).task.poster]
    {
      hide Run, MainPart;
      ghost var before := View();
      var task, got := main.task, main.got;
      table := table - {task.fd};
      erased := erased + [task.poster];
      if got != Some(task.poster) {
        misses := misses + 1;
      }
      main := Waiting;
      Record(Erase, before);
    }

    lemma FreshDescriptor(fd: int)
      requires Valid() && main.Waiting? && fd !in open
      ensures fd !in table
    {
      hide Run;
      assert Reachable(max, View());
      DescriptorsNotReused(max, View());
      assert fd in table ==> !Enabled(View(), Accept(fd));
    }

    lemma MakingAlive()
      requires Valid()
      ensures (main.Created? || main.Handed?) ==> main.id in conns
    {
      hide Run, Descriptors, Tables, Posted, Tasks, Counted, Phases;
      Safe();
    }

    lemma OwnEntry()
      requires Valid() && main.Deleting?
      ensures main.task.fd in table && table[main.task.fd] == main.task.poster
    {
      hide Run;
      DeletesOwnEntry(max, View());
    }
  }
}
