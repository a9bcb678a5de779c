/**
 Subscriptions of one loop: which descriptors want to hear of which service, and the changes each of
 them has still to be sent. The tables belong to the loop's thread; publish tasks run one at a time.
 */
module Subscriptions {
  import opened Bytes
  import opened RouteKeys
  import opened RouteStores
  import opened Sets

  /** Keyed by `int`: of a service's 64-bit key only the low half is kept. */
  type SubMap = map<int32, set<int>>

  type PubMap = map<int, set<uint64>>

  function Subscribers(subs: SubMap, mod: uint64): set<int> {
    if AsInt32(mod) in subs then subs[AsInt32(mod)] else {}
  }

  function Waiting(pending: PubMap, fd: int): set<uint64> {
    if fd in pending then pending[fd] else {}
  }

  function Subscribed(subs: SubMap, fd: int, mod: uint64): SubMap {
    subs[AsInt32(mod) := Subscribers(subs, mod) + {fd}]
  }

  /** A key without subscribers disappears. */
  function Unsubscribed(subs: SubMap, fd: int, mod: uint64): SubMap {
    var left := Subscribers(subs, mod) - {fd};
    if left == {} then subs - {AsInt32(mod)} else subs[AsInt32(mod) := left]
  }

  /** The changed services that `fd` is subscribed under. */
  ghost function Changed(subs: SubMap, mods: seq<uint64>, fd: int): set<uint64> {
    set m | m in mods && fd in Subscribers(subs, m)
  }

  /** What is due to `fd` once the changes have been noted. */
  ghost function Due(subs: SubMap, pending: PubMap, mods: seq<uint64>, fd: int): set<uint64> {
    Waiting(pending, fd) + Changed(subs, mods, fd)
  }

  ghost predicate NoEmptySubs(subs: SubMap) {
    forall k | k in subs :: subs[k] != {}
  }

  ghost predicate NoEmptyPending(pending: PubMap) {
    forall fd | fd in pending :: pending[fd] != {}
  }

  /** A response, with the service it is sent for and the service it names. */
  datatype Response = Response(fd: int, mod: uint64, modid: int32, cmdid: int32)

  function ResponseTo(fd: int, mod: uint64): Response {
    Response(fd, mod, KeyMod(mod), KeyCmd(mod))
  }

  /** The pushes of one publish task: each service due to an online descriptor once, and nothing else. */
  ghost predicate PushedExactly(pushes: seq<Response>, due: PubMap) {
    && (forall i | 0 <= i < |pushes| ::
        pushes[i] == ResponseTo(pushes[i].fd, pushes[i].mod) && pushes[i].mod in Waiting(due, pushes[i].fd))
    && (forall fd, m | m in Waiting(due, fd) :: ResponseTo(fd, m) in pushes)
    && (forall i, j | 0 <= i < j < |pushes| :: pushes[i] != pushes[j])
  }

  class SubscribeList {
    var subs: SubMap
    var pending: PubMap

    ghost predicate Valid()
      reads this
    {
      NoEmptySubs(subs) && NoEmptyPending(pending)
    }

    constructor ()
      ensures Valid() && subs == map[] && pending == map[]
    {
      subs, pending := map[], map[];
    }

    method Subscribe(fd: int, mod: uint64)
      requires Valid()
      modifies this`subs
      ensures Valid() && subs == Subscribed(old(subs), fd, mod)
    {
      if AsInt32(mod) !in subs {
        subs := subs[AsInt32(mod) := {}];
      }
      subs := subs[AsInt32(mod) := subs[AsInt32(mod)] + {fd}];
    }

    method Unsubscribe(fd: int, mod: uint64)
      requires Valid()
      modifies this`subs
      ensures Valid() && subs == Unsubscribed(old(subs), fd, mod)
    {
      if AsInt32(mod) !in subs {
        subs := subs[AsInt32(mod) := {}];
      }
      subs := subs[AsInt32(mod) := subs[AsInt32(mod)] - {fd}];
      if subs[AsInt32(mod)] == {} {
        subs := subs - {AsInt32(mod)};
      }
    }

    /** Notes one changed service for each of its subscribers. */
    method Note(mod: uint64)
      requires Valid()
      modifies this`pending
      ensures Valid()
      ensures forall fd ::
        Waiting(pending, fd) == Waiting(old(pending), fd) + if fd in Subscribers(subs, mod) then {mod} else {}
    {
      if AsInt32(mod) !in subs {
        return;
      }
      var fds := subs[AsInt32(mod)];
      var todo := fds;
      while todo != {}
        invariant Valid() && todo <= fds
        invariant forall fd ::
          Waiting(pending, fd) == Waiting(old(pending), fd) + if fd in fds - todo then {mod} else {}
        decreases |todo|
      {
        Somebody(todo);
        var fd :| fd in todo;
        NoteOne(pending, fd, mod);
        pending := pending[fd := Waiting(pending, fd) + {mod}];
        todo := todo - {fd};
        hide NoEmptySubs, NoEmptyPending;
      }
    }

    method NoteAll(mods: seq<uint64>)
      requires Valid()
      modifies this`pending
      ensures Valid()
      ensures forall fd :: Waiting(pending, fd) == Due(subs, old(pending), mods, fd)
    {
      hide Subscribers, Changed;
      Nothing(subs);
      for i := 0 to |mods|
        invariant Valid()
        invariant forall fd :: Waiting(pending, fd) == Due(subs, old(pending), mods[..i], fd)
      {
        ghost var before := pending;
        Note(mods[i]);
        forall fd
          ensures Due(subs, old(pending), mods[..i + 1], fd) ==
            Due(subs, old(pending), mods[..i], fd) + if fd in Subscribers(subs, mods[i]) then {mods[i]} else {}
        {
          ChangedStep(subs, mods, i, fd);
        }
      }
      assert mods[..|mods|] == mods;
    }

    /** Takes what is due to the online descriptors out of the table. */
    method MakePublishMap(online: set<int>) returns (need: PubMap)
      requires Valid()
      modifies this`pending
      ensures Valid() && NoEmptyPending(need)
      ensures forall fd :: Waiting(need, fd) == if fd in online then Waiting(old(pending), fd) else {}
      ensures forall fd :: Waiting(pending, fd) == if fd in online then {} else Waiting(old(pending), fd)
    {
      need := map[];
      var todo := online;
      while todo != {}
        invariant Valid() && NoEmptyPending(need) && todo <= online
        invariant forall fd | fd in need :: fd in online && fd in old(pending) && need[fd] == old(pending)[fd]
        invariant forall fd | fd in pending :: fd in old(pending) && pending[fd] == old(pending)[fd]
        invariant forall fd | fd in old(pending) :: (fd in pending <==> fd !in online || fd in todo)
        invariant forall fd | fd in old(pending) && fd in online :: fd in need || fd in todo
        decreases |todo|
      {
        Somebody(todo);
        var fd :| fd in todo;
        if fd in pending {
          need := need[fd := pending[fd]];
          pending := pending - {fd};
        }
        todo := todo - {fd};
      }
    }

    /** Sends the responses, each with the hosts looked up for it while the refresh goes on; without a
        connection for a descriptor the program dereferences a null pointer. */
    method PushAll(need: PubMap, conns: set<int>, store: RouteStore, me: int)
        returns (crashed: bool, pushes: seq<Response>, hosts: seq<set<uint64>>)
      requires NoEmptyPending(need) && store.Valid() && me !in store.readers
      modifies store, store.data, store.tmp
      ensures store.Valid() && me !in store.readers && old(store.installed) <= store.installed && store.OwnMaps()
      ensures crashed <==> !(need.Keys <= conns)
      ensures !crashed ==> PushedExactly(pushes, need)
      ensures Answered(pushes, hosts, store.installed, |old(store.installed)| - 1)
    {
      hide PushedExactly, RouteStore.Valid;
      pushes, hosts := [], [];
      var left := need.Keys;
      ghost var done: PubMap := need - left;
      assert done == map[];
      NothingPushed();
      while left != {}
        invariant left <= need.Keys && need.Keys - left <= conns
        invariant done == need - left
        invariant PushedExactly(pushes, done)
        invariant store.Valid() && me !in store.readers && old(store.installed) <= store.installed && store.OwnMaps()
        invariant Answered(pushes, hosts, store.installed, |old(store.installed)| - 1)
        decreases |left|
      {
        Somebody(left);
        var fd :| fd in left;
        if fd !in conns {
          return true, pushes, hosts;
        }
        pushes, hosts := PushTo(pushes, hosts, done, fd, need[fd], store, me, |old(store.installed)| - 1);
        assert (need - left)[fd := need[fd]] == need - (left - {fd});
        left := left - {fd};
        done := need - left;
      }
      assert need - left == need;
      crashed := false;
    }

    method PushTo(before: seq<Response>, hostsBefore: seq<set<uint64>>, ghost done: PubMap, fd: int,
        mods: set<uint64>, store: RouteStore, me: int, ghost first: int)
        returns (pushes: seq<Response>, hosts: seq<set<uint64>>)
      requires PushedExactly(before, done) && fd !in done && store.Valid() && me !in store.readers
      requires first < |store.installed| && Answered(before, hostsBefore, store.installed, first)
      modifies store, store.data, store.tmp
      ensures store.Valid() && me !in store.readers && old(store.installed) <= store.installed && store.OwnMaps()
      ensures PushedExactly(pushes, done[fd := mods]) && Answered(pushes, hosts, store.installed, first)
    {
      hide PushedExactly, ResponseTo, RouteStore.Valid, HostsOf, Answered;
      pushes, hosts := before, hostsBefore;
      PushNone(pushes, done, fd);
      var todo := mods;
      assert mods - todo == {};
      while todo != {}
        invariant todo <= mods && PushedExactly(pushes, done[fd := mods - todo])
        invariant store.Valid() && me !in store.readers && old(store.installed) <= store.installed && store.OwnMaps()
        invariant Answered(pushes, hosts, store.installed, first)
        decreases |todo|
      {
        var m :| m in todo;
        PushOne(pushes, done, fd, mods - todo, m);
        ghost var installed := store.installed;
        var r := ResponseTo(fd, m);
        var found;
        ghost var at;
        found, at := store.GetHosts(me, r.modid, r.cmdid);
        AnsweredSnoc(pushes, hosts, installed, r, found, at, store.installed, first);
        pushes, hosts := pushes + [r], hosts + [found];
        assert mods - todo + {m} == mods - (todo - {m});
        todo := todo - {m};
      }
      assert mods - todo == mods;
    }

    /** One publish task on this loop. */
    method Publish(mods: seq<uint64>, online: set<int>, conns: set<int>, store: RouteStore, me: int)
        returns (crashed: bool, pushes: seq<Response>, hosts: seq<set<uint64>>, ghost due: PubMap)
      requires Valid() && store.Valid() && me !in store.readers
      modifies this`pending, store, store.data, store.tmp
      ensures Valid() && store.Valid() && old(store.installed) <= store.installed
      ensures forall fd :: Waiting(due, fd) == if fd in online then Due(subs, old(pending), mods, fd) else {}
      ensures pending == PendingAfter(subs, old(pending), mods, online)
      ensures !crashed ==> PushedExactly(pushes, due)
      ensures crashed <==> exists fd :: fd in online && fd !in conns && Due(subs, old(pending), mods, fd) != {}
      ensures Answered(pushes, hosts, store.installed, |old(store.installed)| - 1)
    {
      hide RouteStore.Valid, Answered;
      NoteAll(mods);
      var need := MakePublishMap(online);
      due := need;
      WaitingAfter(subs, old(pending), mods, online);
      SameWaiting(pending, PendingAfter(subs, old(pending), mods, online));
      DueKeys(need, online, conns);
      hide Due, PushedExactly, NoEmptyPending;
      crashed, pushes, hosts := PushAll(need, conns, store, me);
    }
  }

  /** The hosts of the service that `r` names, in one complete result of the table from number `first` on. */
  ghost predicate FromOneResult(hosts: set<uint64>, r: Response, installed: seq<seq<Row>>, first: int) {
    exists at :: 0 <= at < |installed| && first <= at && hosts == HostsOf(installed[at], r.modid, r.cmdid)
  }

  /** Each response carries the hosts of one complete result. */
  ghost predicate Answered(pushes: seq<Response>, hosts: seq<set<uint64>>, installed: seq<seq<Row>>, first: int) {
    |hosts| == |pushes| && forall i | 0 <= i < |pushes| :: FromOneResult(hosts[i], pushes[i], installed, first)
  }

  lemma AnsweredSnoc(pushes: seq<Response>, hosts: seq<set<uint64>>, installed: seq<seq<Row>>,
      r: Response, found: set<uint64>, at: nat, installed': seq<seq<Row>>, first: int)
    requires Answered(pushes, hosts, installed, first) && installed <= installed'
    requires first <= at < |installed'| && found == HostsOf(installed'[at], r.modid, r.cmdid)
    ensures Answered(pushes + [r], hosts + [found], installed', first)
  {
    hide HostsOf;
    forall i | 0 <= i < |pushes|
      ensures FromOneResult(hosts[i], pushes[i], installed', first)
    {
      assert FromOneResult(hosts[i], pushes[i], installed, first);
      var k :|
        0 <= k < |installed| && first <= k && hosts[i] == HostsOf(installed[k], pushes[i].modid, pushes[i].cmdid);
      assert installed'[k] == installed[k];
    }
    assert FromOneResult(found, r, installed', first);
  }

  lemma DueKeys(need: PubMap, online: set<int>, conns: set<int>)
    requires NoEmptyPending(need) && forall fd | fd !in online :: Waiting(need, fd) == {}
    ensures !(need.Keys <= conns) <==> exists fd :: fd in online && fd !in conns && Waiting(need, fd) != {}
  {
    if !(need.Keys <= conns) {
      assert need.Keys == (need.Keys - conns) + need.Keys * conns;
      Somebody(need.Keys - conns);
      var fd :| fd in need.Keys - conns;
      assert fd in online && Waiting(need, fd) != {};
    }
  }

  lemma NoteOne(pending: PubMap, fd: int, mod: uint64)
    requires NoEmptyPending(pending)
    ensures var pending' := pending[fd := Waiting(pending, fd) + {mod}];
      && NoEmptyPending(pending')
      && forall other :: Waiting(pending', other) == Waiting(pending, other) + if other == fd then {mod} else {}
  {
  }

  lemma ChangedStep(subs: SubMap, mods: seq<uint64>, i: nat, fd: int)
    requires i < |mods|
    ensures Changed(subs, mods[..i + 1], fd) ==
      Changed(subs, mods[..i], fd) + if fd in Subscribers(subs, mods[i]) then {mods[i]} else {}
  {
  }

  lemma Nothing(subs: SubMap)
    ensures forall fd :: Changed(subs, [], fd) == {}
  {
  }

  lemma NothingPushed()
    ensures PushedExactly([], map[])
  {
  }

  lemma PushNone(pushes: seq<Response>, done: PubMap, fd: int)
    requires PushedExactly(pushes, done) && fd !in done
    ensures PushedExactly(pushes, done[fd := {}])
  {
  }

  lemma PushOne(pushes: seq<Response>, done: PubMap, fd: int, sent: set<uint64>, m: uint64)
    requires PushedExactly(pushes, done[fd := sent]) && m !in sent
    ensures PushedExactly(pushes + [ResponseTo(fd, m)], done[fd := sent + {m}])
  {
  }

  // ---- Subscriptions and services ----

  /** Unsubscribing undoes subscribing, up to and including the entry of the key. */
  lemma UnsubscribeUndoes(subs: SubMap, fd: int, mod: uint64)
    requires NoEmptySubs(subs)
    ensures fd !in Subscribers(subs, mod) ==> Unsubscribed(Subscribed(subs, fd, mod), fd, mod) == subs
    ensures fd in Subscribers(subs, mod) ==> Subscribed(Unsubscribed(subs, fd, mod), fd, mod) == subs
  {
    var key := AsInt32(mod);
    var on := Subscribed(subs, fd, mod);
    if fd !in Subscribers(subs, mod) {
      assert on[key] - {fd} == Subscribers(subs, mod);
    } else {
      assert subs[key] - {fd} + {fd} == subs[key];
    }
  }

  /** After subscribing to a service, whatever else is subscribed, a descriptor hears exactly of what it heard
      before and of the changes of all services with this command number: the module number does not count. */
  lemma HeardByCommand(subs: SubMap, mods: seq<uint64>, fd: int, modid: int32, cmdid: int32,
      modid': int32, cmdid': int32)
    requires Key(modid', cmdid') in mods
    ensures Key(modid', cmdid') in Changed(Subscribed(subs, fd, Key(modid, cmdid)), mods, fd) <==>
      Key(modid', cmdid') in Changed(subs, mods, fd) || cmdid' == cmdid
  {
    KeyAsInt(modid, cmdid);
    KeyAsInt(modid', cmdid');
    hide Key, AsInt32;
  }

  /** The response names the service that changed exactly if its command number is not negative. */
  lemma ResponseNames(fd: int, modid: int32, cmdid: int32)
    ensures var r := ResponseTo(fd, Key(modid, cmdid));
      r.cmdid == cmdid && (r.modid == modid <==> cmdid >= 0)
  {
    UnpackKey(modid, cmdid);
  }

  /** The hosts looked up for it are those of the service it names: the table's rows of the changed service
      if its command number is not negative, those of the neighbouring module otherwise. */
  lemma PushedHosts(rows: seq<Row>, fd: int, modid: int32, cmdid: int32)
    ensures var r := ResponseTo(fd, Key(modid, cmdid));
      Lookup(Grouped(rows), Key(r.modid, r.cmdid)) ==
      HostsOf(rows, AsInt32(if cmdid >= 0 then modid else modid - 1), cmdid)
  {
    UnpackKey(modid, cmdid);
    hide Key;
    GroupedByService(rows, AsInt32(if cmdid >= 0 then modid else modid - 1), cmdid);
  }

  // ---- Many operations ----

  datatype Op = Sub(fd: int, mod: uint64) | Unsub(fd: int, mod: uint64) | Pub(mods: seq<uint64>, online: set<int>)

  /** A service announced to, or sent to, a descriptor. */
  datatype Notice = Notice(fd: int, mod: uint64)

  /** `announced` and `sent` are histories. */
  datatype Table = Table(subs: SubMap, pending: PubMap, announced: set<Notice>, sent: set<Notice>)

  ghost function Concerned(subs: SubMap, mods: seq<uint64>): set<int> {
    set m, fd | m in mods && fd in Subscribers(subs, m) :: fd
  }

  /** The table of pending changes after a publish task. */
  ghost function PendingAfter(subs: SubMap, pending: PubMap, mods: seq<uint64>, online: set<int>): PubMap {
    map fd | fd in pending.Keys + Concerned(subs, mods) && fd !in online :: Due(subs, pending, mods, fd)
  }

  lemma WaitingAfter(subs: SubMap, pending: PubMap, mods: seq<uint64>, online: set<int>)
    requires NoEmptyPending(pending)
    ensures NoEmptyPending(PendingAfter(subs, pending, mods, online))
    ensures forall fd ::
      Waiting(PendingAfter(subs, pending, mods, online), fd) ==
        if fd in online then {} else Due(subs, pending, mods, fd)
  {
    hide Subscribers;
    forall fd, m | m in Changed(subs, mods, fd)
      ensures fd in Concerned(subs, mods)
    {
    }
    forall fd | fd in Concerned(subs, mods)
      ensures Changed(subs, mods, fd) != {}
    {
      var m :| m in mods && fd in Subscribers(subs, m);
      assert m in Changed(subs, mods, fd);
    }
  }

  /** Tables without empty entries are determined by what waits in them. */
  lemma SameWaiting(a: PubMap, b: PubMap)
    requires NoEmptyPending(a) && NoEmptyPending(b) && forall fd :: Waiting(a, fd) == Waiting(b, fd)
    ensures a == b
  {
    forall fd | fd in a || fd in b
      ensures fd in a && fd in b && a[fd] == b[fd]
    {
      assert Waiting(a, fd) == Waiting(b, fd);
    }
  }

  ghost function Apply(t: Table, op: Op): Table {
    match op
    case Sub(fd, mod) => t.(subs := Subscribed(t.subs, fd, mod))
    case Unsub(fd, mod) => t.(subs := Unsubscribed(t.subs, fd, mod))
    case Pub(mods, online) =>
      t.(pending := PendingAfter(t.subs, t.pending, mods, online),
         announced := t.announced + (set m, fd | m in mods && fd in Subscribers(t.subs, m) :: Notice(fd, m)),
         sent := t.sent + set fd, m | fd in t.pending.Keys + Concerned(t.subs, mods) && fd in online
                                      && m in Due(t.subs, t.pending, mods, fd) :: Notice(fd, m))
  }

  ghost function ApplyAll(t: Table, ops: seq<Op>): Table
    decreases |ops|
  {
    if ops == [] then t else ApplyAll(Apply(t, ops[0]), ops[1..])
  }

  ghost predicate Consistent(t: Table) {
    && NoEmptySubs(t.subs) && NoEmptyPending(t.pending)
    && forall fd, m :: Notice(fd, m) in t.announced <==> Notice(fd, m) in t.sent || m in Waiting(t.pending, fd)
  }

  lemma ApplyConsistent(t: Table, op: Op)
    requires Consistent(t)
    ensures Consistent(Apply(t, op))
  {
    hide Subscribers;
    if op.Pub? {
      WaitingAfter(t.subs, t.pending, op.mods, op.online);
      var t' := Apply(t, op);
      forall fd, m
        ensures Notice(fd, m) in t'.announced <==> Notice(fd, m) in t'.sent || m in Waiting(t'.pending, fd)
      {
        assert m in Changed(t.subs, op.mods, fd) ==> fd in Concerned(t.subs, op.mods);
      }
    } else {
      KeepsNoEmpty(t.subs, op.fd, op.mod);
    }
  }

  lemma KeepsNoEmpty(subs: SubMap, fd: int, mod: uint64)
    requires NoEmptySubs(subs)
    ensures NoEmptySubs(Subscribed(subs, fd, mod)) && NoEmptySubs(Unsubscribed(subs, fd, mod))
  {
  }

  lemma {:induction false} AllConsistent(t: Table, ops: seq<Op>)
    requires Consistent(t)
    ensures Consistent(ApplyAll(t, ops))
    decreases |ops|
  {
    hide Consistent, Apply;
    if ops != [] {
      ApplyConsistent(t, ops[0]);
      AllConsistent(Apply(t, ops[0]), ops[1..]);
    }
  }

  // ---- A descriptor number that is used again ----

  /** Not a subscription of `fd`, and no task in which it is online. */
  predicate PassesBy(op: Op, fd: int) {
    match op
    case Sub(other, _) => other != fd
    case Unsub(other, _) => other != fd
    case Pub(_, online) => fd !in online
  }

  /** What operations that pass `fd` by announce to it. */
  ghost function Gathered(subs: SubMap, ops: seq<Op>, fd: int): set<uint64> {
    if ops == [] then {}
    else
      var n := |ops| - 1;
      Gathered(subs, ops[..n], fd) + if ops[n].Pub? then Changed(subs, ops[n].mods, fd) else {}
  }

  ghost predicate SameHearing(subs: SubMap, subs': SubMap, fd: int) {
    forall mod :: fd in Subscribers(subs, mod) <==> fd in Subscribers(subs', mod)
  }

  lemma PassingBy(t: Table, op: Op, fd: int)
    requires Consistent(t) && PassesBy(op, fd)
    ensures var t' := Apply(t, op);
      && SameHearing(t.subs, t'.subs, fd)
      && Waiting(t'.pending, fd) == Waiting(t.pending, fd) + if op.Pub? then Changed(t.subs, op.mods, fd) else {}
  {
    if op.Pub? {
      WaitingAfter(t.subs, t.pending, op.mods, op.online);
    }
  }

  lemma ApplySnoc(t: Table, ops: seq<Op>, op: Op)
    ensures ApplyAll(t, ops + [op]) == Apply(ApplyAll(t, ops), op)
    decreases |ops|
  {
    hide Apply;
    if ops == [] {
      assert ApplyAll(Apply(t, op), []) == Apply(t, op);
    } else {
      assert (ops + [op])[1..] == ops[1..] + [op];
      ApplySnoc(Apply(t, ops[0]), ops[1..], op);
    }
  }

  lemma {:induction false} Gathers(t: Table, ops: seq<Op>, fd: int)
    requires Consistent(t) && forall op | op in ops :: PassesBy(op, fd)
    ensures var t' := ApplyAll(t, ops);
      Consistent(t') && SameHearing(t.subs, t'.subs, fd)
      && Waiting(t'.pending, fd) == Waiting(t.pending, fd) + Gathered(t.subs, ops, fd)
    decreases |ops|
  {
    hide Apply, Consistent, Subscribers;
    if ops != [] {
      var n := |ops| - 1;
      Gathers(t, ops[..n], fd);
      var t' := ApplyAll(t, ops[..n]);
      assert ops[..n] + [ops[n]] == ops;
      ApplySnoc(t, ops[..n], ops[n]);
      PassingBy(t', ops[n], fd);
      ApplyConsistent(t', ops[n]);
      if ops[n].Pub? {
        assert Changed(t'.subs, ops[n].mods, fd) == Changed(t.subs, ops[n].mods, fd);
      }
    }
  }

  /** Nothing ends a subscription with its connection. A task in which a descriptor is online again sends to it
      exactly what waited for it, what was announced to it since, and what the task announces, whichever
      connection has the number now. */
  lemma Inherited(t: Table, ops: seq<Op>, fd: int, mods: seq<uint64>, online: set<int>, mod: uint64)
    requires Consistent(t) && (forall op | op in ops :: PassesBy(op, fd)) && fd in online
    ensures var t' := ApplyAll(t, ops);
      && (mod in Due(t'.subs, t'.pending, mods, fd) <==>
          mod in Waiting(t.pending, fd) || mod in Gathered(t.subs, ops, fd) || mod in Changed(t.subs, mods, fd))
      && (mod in Due(t'.subs, t'.pending, mods, fd) ==> Notice(fd, mod) in Apply(t', Pub(mods, online)).sent)
  {
    hide Subscribers, ApplyAll;
    Gathers(t, ops, fd);
    var t' := ApplyAll(t, ops);
    if mod in Changed(t'.subs, mods, fd) {
      assert fd in Concerned(t'.subs, mods);
    }
  }

  /** Nothing is lost, over any sequence of operations: what was ever announced to a descriptor has been sent
      to it or is pending, and nothing else; no key has an empty set of subscribers. */
  lemma NothingLost(ops: seq<Op>)
    ensures var t := ApplyAll(Table(map[], map[], {}, {}), ops);
      && (forall fd, m :: Notice(fd, m) in t.announced <==> Notice(fd, m) in t.sent || m in Waiting(t.pending, fd))
      && (forall k | k in t.subs :: t.subs[k] != {})
  {
    AllConsistent(Table(map[], map[], {}, {}), ops);
  }
}
