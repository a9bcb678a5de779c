/**
 The endless loop that watches the version, as the program runs it on the route store, among the steps
 of the others; and the hosts that the loops read from the store for their responses.
 */
module RouteCheckers {
  import opened Bytes
  import opened RouteKeys
  import opened RouteStores
  import opened ChangeLog
  import opened Sets

  /** The checker's steps among all. */
  ghost function CheckerPart(labels: seq<Label>): seq<Label> {
    if labels == [] then []
    else
      var n := |labels| - 1;
      CheckerPart(labels[..n]) + if IsChecker(labels[n]) then [labels[n]] else []
  }

  lemma CheckerPartSnoc(labels: seq<Label>, l: Label)
    ensures CheckerPart(labels + [l]) == CheckerPart(labels) + if IsChecker(l) then [l] else []
  {
  }

  lemma RunSnoc(strict: bool, s: State, labels: seq<Label>, l: Label)
    ensures Run(strict, s, labels + [l]) == Step(strict, Run(strict, s, labels), l)
  {
    hide Step;
    RunAppend(strict, s, labels, [l]);
    RunOne(strict, Run(strict, s, labels), l);
  }

  /** Which of the queries of a round succeed. */
  datatype Queries = Queries(version: bool, data: bool, changes: bool, remove: bool)

  /** The route table by the number of edits made to it. */
  type History = nat -> seq<Row>

  /** The hosts in `rows` of the service that a response for the key `service` names. */
  ghost function NamedHosts(rows: seq<Row>, service: uint64): set<uint64> {
    HostsOf(rows, KeyMod(service), KeyCmd(service))
  }

  lemma NamedHostsAre(rows: seq<Row>, modid: int32, cmdid: int32)
    ensures NamedHosts(rows, Key(modid, cmdid)) ==
      HostsOf(rows, AsInt32(if cmdid >= 0 then modid else modid - 1), cmdid)
  {
    UnpackKey(modid, cmdid);
  }

  /** The store's current map is the table as it was when `current` was queried, and between a load and the
      swap its second map is the table as it was when that load was. */
  ghost predicate Mirrors(table: History, s: State, installed: seq<seq<Row>>, refresh: Refresh) {
    && installed != [] && installed[|installed| - 1] == table(s.current.edits)
    && match s.checker
       case Loaded(_, snapshot) => refresh == Filled(table(snapshot.edits))
       case Timed(snapshot) => refresh == Filled(table(snapshot.edits))
       case _ => true
  }

  /** Each push said the hosts of the table as its snapshot has it. */
  ghost predicate Told(table: History, pushes: seq<Push>, told: seq<set<uint64>>) {
    && |told| == |pushes|
    && forall i | 0 <= i < |pushes| :: told[i] == NamedHosts(table(pushes[i].snapshot.edits), pushes[i].change.service)
  }

  /** What the steps of a load and of a swap are to the store. */
  ghost predicate StoreSteps(table: History, s: State, l: Label, installed: seq<seq<Row>>, refresh: Refresh,
      installed': seq<seq<Row>>, refresh': Refresh)
  {
    match l
    case LoadData(ok) => installed' == installed && (ok ==> refresh' == Filled(table(s.edits)))
    case Swap => refresh.Filled? && installed' == installed + [refresh.rows]
    case _ => installed' == installed && refresh' == refresh
  }

  lemma MirrorsStep(table: History, s: State, l: Label, installed: seq<seq<Row>>, refresh: Refresh,
      installed': seq<seq<Row>>, refresh': Refresh)
    requires Mirrors(table, s, installed, refresh) && Allowed(false, s, l)
    requires StoreSteps(table, s, l, installed, refresh, installed', refresh')
    ensures Mirrors(table, Tick(After(s, l)), installed', refresh')
  {
  }

  lemma Carried(table: History, s: State, installed: seq<seq<Row>>, refresh: Refresh, l: Label)
    requires Mirrors(table, s, installed, refresh) && Allowed(false, s, l)
    ensures installed != [] && installed[|installed| - 1] == table(s.current.edits)
    ensures l.Swap? ==> refresh.Filled?
  {
  }

  function AskedFor(l: Label): seq<uint64> {
    match l
    case PushOne(c) => [c.service]
    case PushDeferred(d) => [d.change.service]
    case _ => []
  }

  lemma ToldStep(table: History, s: State, l: Label, told: seq<set<uint64>>, hosts: set<uint64>)
    requires Told(table, s.pushes, told) && Allowed(false, s, l)
    requires AskedFor(l) != [] ==> hosts == NamedHosts(table(s.current.edits), AskedFor(l)[0])
    ensures Told(table, Tick(After(s, l)).pushes, told + if AskedFor(l) == [] then [] else [hosts])
  {
    hide NamedHosts;
  }

  /** The checker's thread: its methods are made of steps, and any steps of the others come in between. */
  class RouteChecker {
    const strict: bool   // whether the administrator is disciplined
    const table: History
    const store: RouteStore
    ghost const start: State
    var s: State
    var lastLoad: int   // last_load_time, in seconds
    ghost var trace: seq<Label>
    ghost var told: seq<set<uint64>>   // the hosts in each of the responses, in their order

    ghost predicate Valid()
      reads this`s, this`trace
    {
      Initial(start) && s == Run(strict, start, trace)
    }

    /** The store is where the steps have brought it, and so is what has been said from it. */
    ghost predicate InStep()
      reads this`s, this`told, store, store.data, store.tmp, store.readers.Values
    {
      store.Valid() && Mirrors(table, s, store.installed, store.refresh) && Told(table, s.pushes, told)
    }

    constructor (strict: bool, initial: State, store: RouteStore, table: History, now: int)
      requires Initial(initial) && store.Valid()
      requires store.installed[|store.installed| - 1] == table(initial.current.edits)
      ensures Valid() && InStep() && this.strict == strict && start == s == initial && trace == []
      ensures this.store == store && this.table == table && lastLoad == now
    {
      this.strict, this.table, this.store := strict, table, store;
      start, s, trace, told, lastLoad := initial, initial, [], [], now;
    }

    /** One step, with what it does to the store. */
    method Perform(l: Label)
      requires Valid() && InStep()
      modifies this, store, store.data, store.tmp
      ensures Valid() && InStep() && store.OwnMaps() && s == Step(strict, old(s), l)
      ensures CheckerPart(trace) == CheckerPart(old(trace)) + if IsChecker(l) then [l] else []
      ensures lastLoad == old(lastLoad) && s.clock >= old(s.clock)
      ensures !l.Swap? ==> store.installed == old(store.installed) && s.current == old(s.current)
      ensures l.Swap? && (old(s.checker).Loaded? || old(s.checker).Timed?) ==>
        |store.installed| == |old(store.installed)| + 1 && s.current == old(s.checker).snapshot
    {
      hide Initial, RouteStore.Valid, Told, After, Run, Mirrors, CheckerPart;
      RunSnoc(strict, start, trace, l);
      CheckerPartSnoc(trace, l);
      CurrentAfter(strict, s, l);
      if Allowed(strict, s, l) {
        PerformOnStore(l);
      }
      s := Step(strict, s, l);
      trace := trace + [l];
    }

    method PerformOnStore(l: Label)
      requires InStep() && Allowed(strict, s, l)
      modifies this`told, store, store.data, store.tmp
      ensures store.Valid() && store.OwnMaps()
      ensures |store.installed| == |old(store.installed)| + if l.Swap? then 1 else 0
      ensures !l.Swap? ==> store.installed == old(store.installed)
      ensures Mirrors(table, Step(strict, s, l), store.installed, store.refresh)
      ensures Told(table, Step(strict, s, l).pushes, told)
    {
      hide RouteStore.Valid, Told, After, NamedHosts, Mirrors, StoreSteps, AskedFor;
      ghost var installed, refresh := store.installed, store.refresh;
      var hosts := OnStore(l);
      ToldStep(table, s, l, told, hosts);
      MirrorsStep(table, s, l, installed, refresh, store.installed, store.refresh);
      told := told + if AskedFor(l) == [] then [] else [hosts];
    }

    method OnStore(l: Label) returns (hosts: set<uint64>)
      requires store.Valid() && Mirrors(table, s, store.installed, store.refresh) && Allowed(strict, s, l)
      modifies store, store.data, store.tmp
      ensures store.Valid() && store.OwnMaps()
      ensures StoreSteps(table, s, l, old(store.installed), old(store.refresh), store.installed, store.refresh)
      ensures |store.installed| == |old(store.installed)| + if l.Swap? then 1 else 0
      ensures !l.Swap? ==> store.installed == old(store.installed)
      ensures AskedFor(l) != [] ==> hosts == NamedHosts(table(s.current.edits), AskedFor(l)[0])
    {
      hide RouteStore.Valid, NamedHosts, Mirrors;
      Carried(table, s, store.installed, store.refresh, l);
      hosts := {};
      match l {
        case LoadData(ok) => var _ := store.LoadRouteData(if ok then Answer.Rows(table(s.edits)) else Failed);
        case Swap => store.Swap();
        case PushOne(c) => hosts := Ask(c.service);
        case PushDeferred(d) => hosts := Ask(d.change.service);
        case _ =>
      }
    }

    method Ask(service: uint64) returns (hosts: set<uint64>)
      requires store.Valid()
      modifies store`readers, store`taken
      ensures store.Valid() && hosts == NamedHosts(store.installed[|store.installed| - 1], service)
    {
      Unused(store.readers.Keys);
      var me: int :| me !in store.readers.Keys;
      hosts := store.HostsNow(me, KeyMod(service), KeyCmd(service));
    }

    /** Nothing new has been installed. */
    twostate predicate SameRoutes()
      reads this`s, this`lastLoad, store`installed
    {
      s.current == old(s.current) && lastLoad == old(lastLoad) && store.installed == old(store.installed)
    }

    /** The table has been queried anew, and what was found is installed. */
    twostate predicate NewRoutes()
      reads this`s, store`installed
    {
      s.current.time >= old(s.clock) && |store.installed| == |old(store.installed)| + 1
    }

    /** Steps of the administrator and of a loop. */
    method Meanwhile()
      requires Valid() && InStep()
      modifies this, store, store.data, store.tmp
      ensures Valid() && InStep() && store.OwnMaps() && CheckerPart(trace) == CheckerPart(old(trace))
      ensures s.checker == old(s.checker) && s.version == old(s.version) && s.missed == old(s.missed)
      ensures SameRoutes() && s.clock >= old(s.clock)
    {
      hide Valid, InStep, CheckerPart, Step;
      var others: seq<Label> := *;
      for i := 0 to |others|
        invariant Valid() && InStep() && store.OwnMaps() && CheckerPart(trace) == CheckerPart(old(trace))
        invariant s.checker == old(s.checker) && s.version == old(s.version) && s.missed == old(s.missed)
        invariant SameRoutes() && s.clock >= old(s.clock)
      {
        if !IsChecker(others[i]) {
          OthersKeep(strict, s, others[i]);
          Perform(others[i]);
        }
      }
    }

    /** Result 1: the version has changed; 0: it has not; -1: the query failed. */
    method DoLoadVersion(ok: bool) returns (ret: int)
      requires Valid() && InStep() && s.checker.Sleeping?
      modifies this, store, store.data, store.tmp
      ensures Valid() && InStep() && store.OwnMaps() && SameRoutes() && s.clock >= old(s.clock)
      ensures CheckerPart(trace) == CheckerPart(old(trace)) + [LoadVersion(ok)]
      ensures ret == if !ok then -1 else if s.dbVersion == old(s.version) then 0 else 1
      ensures s.version == (if ret == 1 then s.dbVersion else old(s.version)) && s.missed == old(s.missed)
      ensures if ret == 1 then s.checker.Changed? else s.checker.Unchanged?
    {
      hide Valid, InStep, CheckerPart;
      ret := if !ok then -1 else if s.dbVersion == s.version then 0 else 1;
      Perform(LoadVersion(ok));
    }

    /** One round of the loop, at `now`. The table is loaded and installed if the version has changed or the last
        load is ten seconds old; if the version has changed, the changes are queried, handed over and deleted. */
    method CheckRound(now: int, q: Queries) returns (ret: int)
      requires Valid() && InStep() && s.checker.Sleeping?
      modifies this, store, store.data, store.tmp
      ensures Valid() && InStep() && store.OwnMaps() && s.checker.Sleeping?
      ensures ret == 1 <==> s.version != old(s.version)
      ensures (ret == 1 || now - old(lastLoad) >= 10) && q.data ==> NewRoutes() && lastLoad == now
      ensures !((ret == 1 || now - old(lastLoad) >= 10) && q.data) ==> SameRoutes()
      ensures ret == 1 ==>
        CheckerPart(trace) == CheckerPart(old(trace)) + [LoadVersion(q.version), LoadData(q.data)] +
        (if q.data then [Swap] else []) + [LoadChanges(q.changes), Publish, Remove(q.remove)]
      ensures ret != 1 && now - old(lastLoad) >= 10 ==>
        CheckerPart(trace) == CheckerPart(old(trace)) + [LoadVersion(q.version), LoadData(q.data)] +
        if q.data then [Swap] else []
      ensures ret != 1 && now - old(lastLoad) < 10 ==>
        CheckerPart(trace) == CheckerPart(old(trace)) + [LoadVersion(q.version), SkipReload]
      ensures forall c | Reached(s, c) && (strict || c.at.time < s.queried) ::
        c in s.published || c in s.missed || c in s.removed
      ensures ret != 1 || q.changes ==> s.missed == old(s.missed)
    {
      hide Valid, InStep, CheckerPart, Reached, Eligible;
      ghost var parts := CheckerPart(trace);
      ret := DoLoadVersion(q.version);
      FinishRound(now, q);
      HandedOver();
      assert parts + [LoadVersion(q.version)] + [SkipReload] == parts + [LoadVersion(q.version), SkipReload];
      assert parts + [LoadVersion(q.version)] + [LoadData(q.data)] ==
        parts + [LoadVersion(q.version), LoadData(q.data)];
    }

    /** What is left of a round once the version is known. */
    method FinishRound(now: int, q: Queries)
      requires Valid() && InStep() && (s.checker.Changed? || s.checker.Unchanged?)
      modifies this, store, store.data, store.tmp
      ensures Valid() && InStep() && store.OwnMaps() && s.checker.Sleeping? && s.version == old(s.version)
      ensures var loads := old(s.checker).Changed? || now - old(lastLoad) >= 10;
        && (if loads && q.data then NewRoutes() && lastLoad == now else SameRoutes())
        && CheckerPart(trace) ==
           if !loads then CheckerPart(old(trace)) + [SkipReload] else
             CheckerPart(old(trace)) + [LoadData(q.data)] + (if q.data then [Swap] else []) +
             if old(s.checker).Changed? then [LoadChanges(q.changes), Publish, Remove(q.remove)] else []
      ensures old(s.checker).Unchanged? || q.changes ==> s.missed == old(s.missed)
    {
      hide Valid, InStep, CheckerPart, Step;
      var changed := s.checker.Changed?;
      if changed || now - lastLoad >= 10 {
        Reload(q.data, now);
      } else {
        Proceed(SkipReload);
      }
      if changed {
        Announce(q);
      }
    }

    /** The load of the table, and the swap if it succeeds. */
    method Reload(ok: bool, now: int)
      requires Valid() && InStep() && (s.checker.Changed? || s.checker.Unchanged?)
      modifies this, store, store.data, store.tmp
      ensures Valid() && InStep() && store.OwnMaps() && s.version == old(s.version) && s.missed == old(s.missed)
      ensures CheckerPart(trace) == CheckerPart(old(trace)) + [LoadData(ok)] + if ok then [Swap] else []
      ensures if old(s.checker).Changed? then s.checker.Installed? else s.checker.Sleeping?
      ensures if ok then NewRoutes() && lastLoad == now else SameRoutes()
      ensures s.clock >= old(s.clock)
    {
      hide Valid, InStep, CheckerPart, Step;
      Proceed(LoadData(ok));
      if ok {
        Proceed(Swap);
        lastLoad := now;
      }
    }

    /** The rest of a round for a new version. */
    method Announce(q: Queries)
      requires Valid() && InStep() && s.checker.Installed?
      modifies this, store, store.data, store.tmp
      ensures Valid() && InStep() && store.OwnMaps() && s.checker.Sleeping? && s.version == old(s.version)
      ensures CheckerPart(trace) == CheckerPart(old(trace)) + [LoadChanges(q.changes), Publish, Remove(q.remove)]
      ensures SameRoutes() && (q.changes ==> s.missed == old(s.missed))
    {
      hide Valid, InStep, CheckerPart, Step;
      Proceed(LoadChanges(q.changes));
      Proceed(Publish);
      Proceed(Remove(q.remove));
    }

    /** A step of the round, after any steps of the others. */
    method Proceed(l: Label)
      requires Valid() && InStep() && IsChecker(l) && Fits(s.checker, l)
      modifies this, store, store.data, store.tmp
      ensures Valid() && InStep() && store.OwnMaps() && CheckerPart(trace) == CheckerPart(old(trace)) + [l]
      ensures Follows(old(s.checker), l, s.checker) && s.version == old(s.version)
      ensures l != LoadChanges(false) ==> s.missed == old(s.missed)
      ensures lastLoad == old(lastLoad) && s.clock >= old(s.clock) && (!l.Swap? ==> SameRoutes())
      ensures l == LoadData(true) ==> s.checker.snapshot.time >= old(s.clock)
      ensures l.Swap? ==> s.current == old(s.checker).snapshot && |store.installed| == |old(store.installed)| + 1
    {
      hide Valid, InStep, CheckerPart, Step;
      Meanwhile();
      InRound(strict, s, l);
      Perform(l);
    }

    lemma HandedOver()
      requires Valid() && s.checker.Sleeping?
      ensures forall c | Reached(s, c) && (strict || c.at.time < s.queried) ::
        c in s.published || c in s.missed || c in s.removed
    {
      hide Initial, Run;
      assert Reachable(strict, s);
      ReachableHolds(strict, s);
      if strict {
        ReachedAreHanded(s);
      }
      hide ChangeLog.Rows;
    }

    /** What the subscribers are told, end to end: each response has the hosts of the service it names in the
        table as it was after some number of its edits; if the round's load succeeded, after all those made
        before the version was observed, and with a disciplined administrator, before the change was recorded. */
    lemma Tells(i: nat, modid: int32, cmdid: int32)
      requires Valid() && InStep() && i < |s.pushes| && s.pushes[i].change.service == Key(modid, cmdid)
      ensures var p := s.pushes[i];
        && |told| == |s.pushes|
        && told[i] == HostsOf(table(p.snapshot.edits), AsInt32(if cmdid >= 0 then modid else modid - 1), cmdid)
        && (p.loaded ==> p.seen.edits <= p.snapshot.edits)
        && (p.loaded && strict && p.change !in s.early ==> p.change.at.edits <= p.snapshot.edits)
    {
      hide Initial, Run, RouteStore.Valid, NamedHosts;
      NamedHostsAre(table(s.pushes[i].snapshot.edits), modid, cmdid);
      assert Reachable(strict, s);
      var p := s.pushes[i];
      if p.loaded {
        PushesAreFresh(strict, s, p);
        if strict && p.change !in s.early {
          PushesReflect(s, p);
        }
      }
    }
  }

  /** The order of a round: before a step, and after it. */
  predicate Fits(c: Checker, l: Label) {
    match l
    case LoadData(_) => c.Changed? || c.Unchanged?
    case Swap => c.Loaded? || c.Timed?
    case SkipReload => c.Unchanged?
    case LoadChanges(_) => c.Installed?
    case Publish => c.Listed?
    case Remove(_) => c.Published?
    case _ => false
  }

  predicate Follows(c: Checker, l: Label, c': Checker) {
    match l
    case LoadData(true) => if c.Changed? then c'.Loaded? else c'.Timed?
    case LoadData(false) => if c.Changed? then c'.Installed? else c'.Sleeping?
    case Swap => if c.Loaded? then c'.Installed? else c'.Sleeping?
    case LoadChanges(_) => c'.Listed?
    case Publish => c'.Published?
    case _ => c'.Sleeping?
  }

  lemma CurrentAfter(strict: bool, s: State, l: Label)
    ensures var s' := Step(strict, s, l);
      && s'.clock >= s.clock && (!l.Swap? ==> s'.current == s.current)
      && (l.Swap? && (s.checker.Loaded? || s.checker.Timed?) ==> s'.current == s.checker.snapshot)
  {
  }

  lemma InRound(strict: bool, s: State, l: Label)
    requires Fits(s.checker, l)
    ensures var s' := Step(strict, s, l);
      Follows(s.checker, l, s'.checker) && s'.version == s.version
      && (l == LoadData(true) ==> s'.checker.snapshot.time == s.clock)
      && (l != LoadChanges(false) ==> s'.missed == s.missed)
  {
  }

  lemma OthersKeep(strict: bool, s: State, l: Label)
    requires !IsChecker(l)
    ensures var s' := Step(strict, s, l); s'.checker == s.checker && s'.version == s.version && s'.missed == s.missed
  {
  }
}
