/**
 The choice of a host for one service: idle hosts take turns, and every eleventh answer gives a busy
 host a chance.
 */
module LoadBalancer {
  import opened Rotation

  datatype Host = Host(ip: int, port: int, calls: seq<nat>, overload: bool)

  /** `RET_SUCC` and `RET_OVERLOAD`. */
  datatype Code = Success | Overload

  /** What one call fills in: nothing if the list it turned to is empty. */
  datatype Pick = NoPick | FromIdle(host: Host) | FromBusy(host: Host)

  datatype State = State(idle: seq<Host>, busy: seq<Host>, count: int)

  datatype Call = Call(next: State, code: Code, pick: Pick)

  const PROBE := 10

  /** The program counts in an `int`. */
  const INT_MAX := 0x7fff_ffff

  function Choice(s: State): Call {
    if s.idle == [] then
      if s.count >= PROBE then ProbeBusy(s) else Call(s.(count := s.count + 1), Overload, NoPick)
    else if s.busy != [] && s.count >= PROBE then
      ProbeBusy(s)
    else
      Call(s.(count := s.count + 1, idle := Advanced(s.idle)), Success, FromIdle(s.idle[0]))
  }

  function ProbeBusy(s: State): Call {
    Call(s.(count := 0, busy := Advanced(s.busy)), Success, if s.busy == [] then NoPick else FromBusy(s.busy[0]))
  }

  class LoadBalance {
    var idle: seq<Host>
    var busy: seq<Host>
    var accessCnt: int

    ghost function View(): State
      reads this
    {
      State(idle, busy, accessCnt)
    }

    /** `count` is whatever the counter's memory holds: the program does not initialise it. */
    constructor (i: seq<Host>, b: seq<Host>, count: int)
      ensures View() == State(i, b, count)
    {
      idle, busy, accessCnt := i, b, count;
    }

    /** Address and port of the front of a list are copied out, and the front moves to the back. */
    method FromList(l: seq<Host>, ip: int, port: int) returns (rest: seq<Host>, ip': int, port': int)
      ensures rest == Advanced(l)
      ensures l == [] ==> ip' == ip && port' == port
      ensures l != [] ==> ip' == l[0].ip && port' == l[0].port
    {
      rest, ip', port' := l, ip, port;
      if l == [] {
        return;
      }
      var it := l[0];
      rest := rest[1..];
      ip', port' := it.ip, it.port;
      rest := rest + [it];
    }

    method ChoiceOneHost(ip: int, port: int) returns (code: Code, ip': int, port': int)
      modifies this
      ensures View() == Choice(old(View())).next && code == Choice(old(View())).code
      ensures var pick := Choice(old(View())).pick;
        if pick.NoPick? then ip' == ip && port' == port else ip' == pick.host.ip && port' == pick.host.port
      ensures multiset(idle) == multiset(old(idle)) && multiset(busy) == multiset(old(busy))
    {
      AdvancedKeeps(idle);
      AdvancedKeeps(busy);
      ip', port' := ip, port;
      if idle == [] {
        if accessCnt >= PROBE {
          accessCnt := 0;
          busy, ip', port' := FromList(busy, ip', port');
          return Success, ip', port';
        } else {
          accessCnt := accessCnt + 1;
          return Overload, ip', port';
        }
      }
      if busy != [] && accessCnt >= PROBE {
        accessCnt := 0;
        busy, ip', port' := FromList(busy, ip', port');
        return Success, ip', port';
      }
      accessCnt := accessCnt + 1;
      idle, ip', port' := FromList(idle, ip', port');
      return Success, ip', port';
    }
  }

  // ---- Many calls ----

  function After(s: State, calls: nat): State {
    if calls == 0 then s else Choice(After(s, calls - 1)).next
  }

  /** What call number `t` gives, counted from 0. */
  function At(s: State, t: nat): Call {
    Choice(After(s, t))
  }

  /** Calls before the first probe of the busy list. */
  function Delay(count: int): nat {
    if count >= PROBE then 0 else PROBE - count
  }

  /** Call `t` probes the busy list. */
  predicate Probes(count: int, t: nat) {
    t >= Delay(count) && (t - Delay(count)) % (PROBE + 1) == 0
  }

  /** How many of the first `t` calls do. */
  function ProbesBefore(count: int, t: nat): nat {
    if t <= Delay(count) then 0 else (t - Delay(count) - 1) / (PROBE + 1) + 1
  }

  /** The counter after `t` calls. */
  function CountAfter(count: int, t: nat): int {
    if t <= Delay(count) then count + t else (t - Delay(count) - 1) % (PROBE + 1)
  }

  lemma ProbesCounted(count: int, t: nat)
    ensures ProbesBefore(count, t) <= t
    ensures ProbesBefore(count, t + 1) == ProbesBefore(count, t) + if Probes(count, t) then 1 else 0
    ensures Probes(count, t) <==> CountAfter(count, t) >= PROBE
    ensures CountAfter(count, t + 1) == if Probes(count, t) then 0 else CountAfter(count, t) + 1
  {
  }

  /** The state after any number of calls, from any value of the counter, unless only idle hosts are left:
      both lists have turned by the number of calls they were asked, and the counter has its place in
      the cycle of eleven. */
  lemma {:induction false} AfterExactly(s: State, t: nat)
    requires s.idle == [] || s.busy != []
    ensures ProbesBefore(s.count, t) <= t
    ensures After(s, t) ==
      State(Rotated(s.idle, t - ProbesBefore(s.count, t)), Rotated(s.busy, ProbesBefore(s.count, t)),
            CountAfter(s.count, t))
    decreases t
  {
    if t == 0 {
      RotatedNot(s.idle);
      RotatedNot(s.busy);
    } else {
      var k := t - 1;
      AfterExactly(s, k);
      ProbesCounted(s.count, k);
      hide ProbesBefore, Probes, CountAfter, Rotated, Advanced;
      TurnOf(s, k);
    }
  }

  lemma EmptyTurns(l: seq<Host>, k: nat)
    ensures l == [] ==> Rotated(l, k) == [] && Rotated(l, k + 1) == [] && Advanced(Rotated(l, k)) == []
    ensures l != [] ==> Rotated(l, k) != []
  {
  }

  lemma TurnOf(s: State, k: nat)
    requires ProbesBefore(s.count, k) <= k
    ensures var p := ProbesBefore(s.count, k);
      && (s.idle != [] ==> Rotated(s.idle, k - p) != [] && Rotated(s.idle, k - p)[0] == s.idle[(k - p) % |s.idle|])
      && (s.busy != [] ==> Rotated(s.busy, p) != [] && Rotated(s.busy, p)[0] == s.busy[p % |s.busy|])
      && Advanced(Rotated(s.idle, k - p)) == Rotated(s.idle, k - p + 1)
      && Advanced(Rotated(s.busy, p)) == Rotated(s.busy, p + 1)
      && (s.idle == [] ==> Rotated(s.idle, k - p) == [] && Rotated(s.idle, k - p + 1) == [])
  {
    hide ProbesBefore, Rotated;
    var p := ProbesBefore(s.count, k);
    EmptyTurns(s.idle, k - p);
    EmptyTurns(s.busy, p);
    hide Advanced;
    if s.idle != [] {
      RotatedOnce(s.idle, k - p);
    }
    if s.busy != [] {
      RotatedOnce(s.busy, p);
    }
  }

  /** The schedule with hosts in both lists, from any value of the counter. */
  lemma Schedule(s: State, t: nat)
    requires s.idle != [] && s.busy != []
    ensures ProbesBefore(s.count, t) <= t
    ensures var p := ProbesBefore(s.count, t);
      At(s, t).code == Success &&
      At(s, t).pick ==
        if Probes(s.count, t) then FromBusy(s.busy[p % |s.busy|]) else FromIdle(s.idle[(t - p) % |s.idle|])
    ensures At(s, t).pick.FromBusy? <==>
      var delay := if s.count >= 10 then 0 else 10 - s.count; t >= delay && (t - delay) % 11 == 0
  {
    AfterExactly(s, t);
    ProbesCounted(s.count, t);
    TurnOf(s, t);
  }

  /** The schedule from a counter of 0. */
  lemma ScheduleFromZero(s: State, t: nat)
    requires s.idle != [] && s.busy != [] && s.count == 0
    ensures At(s, t).pick ==
      if t % 11 == 10 then FromBusy(s.busy[(t / 11) % |s.busy|]) else FromIdle(s.idle[(t - t / 11) % |s.idle|])
  {
    Schedule(s, t);
    assert Probes(0, t) <==> t % 11 == 10;
    assert ProbesBefore(0, t) == t / 11;
  }

  /** With only busy hosts, the answer is an overload except at the probes, which take turns. */
  lemma OverloadSchedule(s: State, t: nat)
    requires s.idle == [] && s.busy != []
    ensures At(s, t) ==
      Call(After(s, t + 1),
           if Probes(s.count, t) then Success else Overload,
           if Probes(s.count, t) then FromBusy(s.busy[ProbesBefore(s.count, t) % |s.busy|]) else NoPick)
    ensures At(s, t).code == Success <==>
      var delay := if s.count >= 10 then 0 else 10 - s.count; t >= delay && (t - delay) % 11 == 0
    ensures 0 <= s.count <= 10 ==> 0 <= After(s, t).count <= 10
  {
    AfterExactly(s, t);
    ProbesCounted(s.count, t);
    TurnOf(s, t);
  }

  /** Two probes that follow each other are exactly ten other calls apart. */
  lemma TenBetweenProbes(count: int, t: nat)
    requires Probes(count, t)
    ensures Probes(count, t + 11)
    ensures forall u | t < u <= t + 10 :: !Probes(count, u)
    ensures ProbesBefore(count, t + 11) == ProbesBefore(count, t) + 1
  {
  }

  /** Without any host a probe still reports success, and fills in nothing. */
  lemma NoHostAtAll(s: State, t: nat)
    requires s.idle == [] && s.busy == []
    ensures At(s, t).pick.NoPick? && (At(s, t).code == Success <==> Probes(s.count, t))
  {
    AfterExactly(s, t);
    ProbesCounted(s.count, t);
  }

  /** With only idle hosts the counter is never reset: it counts all calls, and leaves the range of the
      program's counter exactly with the call that exceeds it. */
  lemma {:induction false} OnlyIdle(s: State, t: nat)
    requires s.idle != [] && s.busy == []
    ensures After(s, t) == State(Rotated(s.idle, t), [], s.count + t)
    ensures At(s, t).code == Success && At(s, t).pick == FromIdle(s.idle[t % |s.idle|])
    ensures After(s, t).count <= INT_MAX <==> t <= 0x7fff_ffff - s.count
    decreases t
  {
    hide Rotated, Advanced;
    if t == 0 {
      RotatedNot(s.idle);
      assert 0 % |s.idle| == 0;
    } else {
      OnlyIdle(s, t - 1);
      RotatedOnce(s.idle, t - 1);
      RotatedOnce(s.idle, t);
    }
  }

  // ---- Shares ----

  /** The idle hosts handed out in the first `t` calls, in order. */
  ghost function IdlePicks(s: State, t: nat): seq<Host> {
    if t == 0 then [] else
      IdlePicks(s, t - 1) + if At(s, t - 1).pick.FromIdle? then [At(s, t - 1).pick.host] else []
  }

  lemma IdlePick(s: State, t: nat)
    requires s.idle != [] && s.busy != []
    ensures ProbesBefore(s.count, t) <= t
    ensures IdlePicks(s, t + 1) ==
      IdlePicks(s, t) + if Probes(s.count, t) then [] else [s.idle[(t - ProbesBefore(s.count, t)) % |s.idle|]]
  {
    Schedule(s, t);
    hide At, Probes, ProbesBefore;
  }

  lemma NoPicksYet(s: State)
    requires s.idle != []
    ensures IdlePicks(s, 0) == [] && ProbesBefore(s.count, 0) == 0 && InTurn(s.idle, [])
  {
  }

  lemma {:induction false} IdlePicksInTurn(s: State, t: nat)
    requires s.idle != [] && s.busy != []
    ensures ProbesBefore(s.count, t) <= t && |IdlePicks(s, t)| == t - ProbesBefore(s.count, t)
    ensures InTurn(s.idle, IdlePicks(s, t))
    decreases t
  {
    hide Probes, ProbesBefore, IdlePicks, InTurn;
    NoPicksYet(s);
    if t > 0 {
      IdlePicksInTurn(s, t - 1);
      IdlePick(s, t - 1);
      ProbesCounted(s.count, t - 1);
      InTurnSnoc(s.idle, IdlePicks(s, t - 1));
      assert IdlePicks(s, t - 1) + [] == IdlePicks(s, t - 1);
    }
  }

  /** Over any number of calls no idle host is picked more than once more than another. */
  lemma IdleShare(s: State, t: nat, i: nat, j: nat)
    requires s.idle != [] && s.busy != [] && i < |s.idle| && j < |s.idle|
    requires forall a, b | 0 <= a < b < |s.idle| :: s.idle[a] != s.idle[b]
    ensures -1 <= Occurrences(IdlePicks(s, t), s.idle[i]) - Occurrences(IdlePicks(s, t), s.idle[j]) <= 1
  {
    IdlePicksInTurn(s, t);
    OccursInTurn(IdlePicks(s, t), s.idle, i);
    OccursInTurn(IdlePicks(s, t), s.idle, j);
    TurnsEven(|IdlePicks(s, t)|, |s.idle|, i, j);
  }

  lemma ChoiceKeeps(s: State)
    ensures multiset(Choice(s).next.idle) == multiset(s.idle) && multiset(Choice(s).next.busy) == multiset(s.busy)
  {
    AdvancedKeeps(s.idle);
    AdvancedKeeps(s.busy);
    hide Advanced;
  }

  /** The lists keep their hosts, however many calls are made. */
  lemma {:induction false} HostsKept(s: State, t: nat)
    ensures multiset(After(s, t).idle) == multiset(s.idle) && multiset(After(s, t).busy) == multiset(s.busy)
    decreases t
  {
    hide Choice;
    if t > 0 {
      HostsKept(s, t - 1);
      ChoiceKeeps(After(s, t - 1));
    }
  }
}
