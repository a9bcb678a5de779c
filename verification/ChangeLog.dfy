/**
 The publication of changes: an administrator edits the route table, records which services changed
 under a coming version, and then raises the version; the checker sees the new version, reloads the
 table, hands the recorded changes to the loops and deletes the records. All steps interleave freely.
 */
module ChangeLog {
  import opened Bytes

  /** A moment of a run: how many steps, and how many edits of the route table, came before it. */
  datatype Moment = Moment(time: nat, edits: nat)

  /** A row of RouteChange, and when it was recorded. */
  datatype Change = Change(id: nat, service: uint64, version: int, at: Moment)

  /** A publish task: the changes, when the version was observed, and whether the table was reloaded after that. */
  datatype Batch = Batch(changes: set<Change>, seen: Moment, loaded: bool)

  /** A change of a batch that is kept for a subscriber who is not online. */
  datatype Due = Due(change: Change, seen: Moment, loaded: bool)

  /** One response sent to a subscriber, answered from the table as a query found it at `snapshot`. */
  datatype Push = Push(change: Change, snapshot: Moment, seen: Moment, loaded: bool)

  /** Where the checker is in its round. */
  datatype Checker =
    | Starting
    | Sleeping
    | Unchanged
    | Timed(snapshot: Moment)
    | Changed(seen: Moment)
    | Loaded(seen: Moment, snapshot: Moment)
    | Installed(seen: Moment, loaded: bool)
    | Listed(seen: Moment, loaded: bool, list: set<Change>, ok: bool)
    | Published(list: set<Change>, ok: bool)

  datatype Worker = Waiting | Working(batch: Batch, left: set<Change>)

  /** `current` is when the current route map was queried. The loop followed here is any one of those to
      which a publish task is sent; `tasks` are its waiting tasks, `deferred` what it keeps for subscribers
      who are not online. `clock` counts steps, `editTimes` are those at which the table was edited, and
      `queried` is the one at which the rows were last queried. The sets from `added` on are histories; `early`
      are the rows that were there when the checker purged the table at its start. */
  datatype State = State(
    dbVersion: int, changes: set<Change>, edits: nat, next: nat,
    version: int, checker: Checker, current: Moment,
    tasks: seq<Batch>, worker: Worker, deferred: multiset<Due>, pushes: seq<Push>,
    clock: nat, editTimes: set<nat>, queried: nat,
    added: set<Change>, early: set<Change>, published: set<Change>, missed: set<Change>, removed: set<Change>)

  function Now(s: State): Moment {
    Moment(s.clock, s.edits)
  }

  datatype Label =
    | Edit
    | Add(service: uint64, version: int)
    | Bump(version: int)
    | Purge(ok: bool)
    | LoadVersion(ok: bool)
    | LoadData(ok: bool)
    | Swap
    | SkipReload
    | LoadChanges(ok: bool)
    | Publish
    | Remove(ok: bool)
    | Take
    | PushOne(change: Change)
    | Defer(change: Change)
    | PushDeferred(due: Due)
    | Finish

  /** The rows `WHERE version <= v`. */
  function Eligible(changes: set<Change>, v: int): set<Change> {
    set c | c in changes && c.version <= v
  }

  /** A disciplined administrator records changes under versions above the current one, and raises it. */
  predicate Allowed(strict: bool, s: State, l: Label) {
    match l
    case Add(_, v) => strict ==> v > s.dbVersion
    case Bump(v) => strict ==> v > s.dbVersion
    case Edit => true
    case Purge(_) => s.checker.Starting?
    case LoadVersion(_) => s.checker.Sleeping?
    case LoadData(_) => s.checker.Changed? || s.checker.Unchanged?
    case Swap => s.checker.Loaded? || s.checker.Timed?
    case SkipReload => s.checker.Unchanged?
    case LoadChanges(_) => s.checker.Installed?
    case Publish => s.checker.Listed?
    case Remove(_) => s.checker.Published?
    case Take => s.worker.Waiting? && s.tasks != []
    case PushOne(c) => s.worker.Working? && c in s.worker.left
    case Defer(c) => s.worker.Working? && c in s.worker.left
    case PushDeferred(d) => s.worker.Working? && d in s.deferred
    case Finish => s.worker.Working? && s.worker.left == {}
  }

  predicate IsChecker(l: Label) {
    l.Purge? || l.LoadVersion? || l.LoadData? || l.Swap? || l.SkipReload? || l.LoadChanges? || l.Publish? || l.Remove?
  }

  function AfterAdd(s: State, service: uint64, version: int): State {
    var c := Change(s.next, service, version, Now(s));
    s.(changes := s.changes + {c}, added := s.added + {c}, next := s.next + 1)
  }

  function AfterPurge(s: State, ok: bool): State {
    s.(checker := Sleeping, early := s.added, changes := if ok then {} else s.changes)
  }

  function AfterLoadVersion(s: State, ok: bool): State {
    if !ok || s.dbVersion == s.version then s.(checker := Unchanged)
    else s.(version := s.dbVersion, checker := Changed(Now(s)))
  }

  /** A failed load leaves the current map; in a round for a new version the round goes on. */
  function AfterLoadData(s: State, ok: bool): State
    requires s.checker.Changed? || s.checker.Unchanged?
  {
    if s.checker.Changed? then
      s.(checker := if ok then Loaded(s.checker.seen, Now(s)) else Installed(s.checker.seen, false))
    else
      s.(checker := if ok then Timed(Now(s)) else Sleeping)
  }

  function AfterSwap(s: State): State
    requires s.checker.Loaded? || s.checker.Timed?
  {
    s.(current := s.checker.snapshot,
       checker := if s.checker.Loaded? then Installed(s.checker.seen, true) else Sleeping)
  }

  /** A failed query leaves the list empty, and the round goes on. */
  function AfterLoadChanges(s: State, ok: bool): State
    requires s.checker.Installed?
  {
    var rows := Eligible(s.changes, s.version);
    s.(checker := Listed(s.checker.seen, s.checker.loaded, if ok then rows else {}, ok),
       missed := if ok then s.missed else s.missed + rows, queried := s.clock)
  }

  function AfterPublish(s: State): State
    requires s.checker.Listed?
  {
    var k := s.checker;
    s.(tasks := s.tasks + [Batch(k.list, k.seen, k.loaded)], published := s.published + k.list,
       checker := Published(k.list, k.ok))
  }

  function AfterRemove(s: State, ok: bool): State {
    var rows := if ok then Eligible(s.changes, s.version) else {};
    s.(changes := s.changes - rows, removed := s.removed + rows, checker := Sleeping)
  }

  function AfterTake(s: State): State
    requires s.tasks != []
  {
    s.(tasks := s.tasks[1..], worker := Working(s.tasks[0], s.tasks[0].changes))
  }

  function AfterPush(s: State, c: Change): State
    requires s.worker.Working?
  {
    var b := s.worker.batch;
    s.(pushes := s.pushes + [Push(c, s.current, b.seen, b.loaded)], worker := Working(b, s.worker.left - {c}))
  }

  function AfterDefer(s: State, c: Change): State
    requires s.worker.Working?
  {
    var b := s.worker.batch;
    s.(deferred := s.deferred + multiset{Due(c, b.seen, b.loaded)}, worker := Working(b, s.worker.left - {c}))
  }

  /** A subscriber who has come online is sent, in a later task, what was kept for him. */
  function AfterPushDeferred(s: State, d: Due): State {
    s.(pushes := s.pushes + [Push(d.change, s.current, d.seen, d.loaded)], deferred := s.deferred - multiset{d})
  }

  function AfterEdit(s: State): State {
    s.(edits := s.edits + 1, editTimes := s.editTimes + {s.clock})
  }

  function After(s: State, l: Label): State
    requires Allowed(false, s, l)
  {
    match l
    case Edit => AfterEdit(s)
    case Add(service, v) => AfterAdd(s, service, v)
    case Bump(v) => s.(dbVersion := v)
    case Purge(ok) => AfterPurge(s, ok)
    case LoadVersion(ok) => AfterLoadVersion(s, ok)
    case LoadData(ok) => AfterLoadData(s, ok)
    case Swap => AfterSwap(s)
    case SkipReload => s.(checker := Sleeping)
    case LoadChanges(ok) => AfterLoadChanges(s, ok)
    case Publish => AfterPublish(s)
    case Remove(ok) => AfterRemove(s, ok)
    case Take => AfterTake(s)
    case PushOne(c) => AfterPush(s, c)
    case Defer(c) => AfterDefer(s, c)
    case PushDeferred(d) => AfterPushDeferred(s, d)
    case Finish => s.(worker := Waiting)
  }

  function Tick(s: State): State {
    s.(clock := s.clock + 1)
  }

  function Step(strict: bool, s: State, l: Label): State {
    if !Allowed(strict, s, l) then s else Tick(After(s, l))
  }

  function Run(strict: bool, s: State, labels: seq<Label>): State
    decreases |labels|
  {
    if labels == [] then s else Run(strict, Step(strict, s, labels[0]), labels[1..])
  }

  /** How many of the edits came before a step. */
  ghost function Before(editTimes: set<nat>, time: nat): nat {
    |set t | t in editTimes && t < time|
  }

  /** A moment that has been, with its number of edits. */
  ghost predicate Timely(s: State, m: Moment) {
    m.time <= s.clock && m.edits == Before(s.editTimes, m.time)
  }

  ghost predicate Clocked(s: State) {
    s.edits == |s.editTimes| && forall t | t in s.editTimes :: t < s.clock
  }

  /** After the start-up load of the table and the version; a failed load of the version leaves it at its
      default, which is not above the database's. */
  ghost predicate Initial(s: State) {
    && s.checker.Starting? && s.version <= s.dbVersion && Clocked(s) && Timely(s, s.current) && s.queried == 0
    && s.tasks == [] && s.worker.Waiting? && s.deferred == multiset{} && s.pushes == []
    && s.added == s.changes && s.early == s.published == s.missed == s.removed == {}
    && forall c | c in s.changes :: c.id < s.next && c.at.time < s.clock && Timely(s, c.at)
  }

  // ---- Times, whatever the administrator does ----

  /** What is to be pushed: after a reload the current table is the later one. */
  ghost predicate InTime(s: State, seen: Moment, loaded: bool) {
    Timely(s, seen) && (loaded ==> seen.time <= s.current.time)
  }

  /** What the checker holds between its steps. */
  ghost predicate Round(s: State) {
    match s.checker
    case Timed(snapshot) => Timely(s, snapshot) && s.current.time <= snapshot.time
    case Changed(seen) => Timely(s, seen) && s.current.time <= seen.time
    case Loaded(seen, snapshot) =>
      Timely(s, seen) && Timely(s, snapshot) && s.current.time <= seen.time <= snapshot.time
    case Installed(seen, loaded) => InTime(s, seen, loaded)
    case Listed(seen, loaded, list, ok) => InTime(s, seen, loaded) && list <= s.added
    case _ => true
  }

  ghost predicate Batches(s: State) {
    && (forall b | b in s.tasks :: InTime(s, b.seen, b.loaded) && b.changes <= s.added)
    && (s.worker.Working? ==>
        var b := s.worker.batch; InTime(s, b.seen, b.loaded) && b.changes <= s.added && s.worker.left <= b.changes)
    && (forall d | d in s.deferred :: InTime(s, d.seen, d.loaded) && d.change in s.added)
  }

  ghost predicate Pushes(s: State) {
    forall p | p in s.pushes ::
      && Timely(s, p.seen) && Timely(s, p.snapshot) && (p.loaded ==> p.seen.time <= p.snapshot.time)
      && p.change in s.added
  }

  ghost predicate Timing(s: State) {
    && Clocked(s) && Timely(s, s.current) && s.changes <= s.added
    && (forall c | c in s.added :: Timely(s, c.at))
    && Round(s) && Batches(s) && Pushes(s)
  }

  lemma BeforeSplit(editTimes: set<nat>, a: nat, b: nat)
    requires a <= b
    ensures Before(editTimes, b) == Before(editTimes, a) + |set t | t in editTimes && a <= t < b|
  {
    var early, later := set t | t in editTimes && t < a, set t | t in editTimes && a <= t < b;
    assert (set t | t in editTimes && t < b) == early + later;
  }

  lemma NowTimely(s: State)
    requires Clocked(s)
    ensures Timely(s, Now(s))
  {
    assert (set t | t in s.editTimes && t < s.clock) == s.editTimes;
  }

  /** A further edit does not change how many came before a moment that has been. */
  lemma TimelyStays(s: State, m: Moment)
    requires Timely(s, m)
    ensures Timely(Tick(AfterEdit(s)), m)
  {
    assert (set t | t in s.editTimes + {s.clock} && t < m.time) == (set t | t in s.editTimes && t < m.time);
  }

  lemma EditTiming(s: State)
    requires Timing(s)
    ensures Timing(Tick(AfterEdit(s)))
  {
    forall m | Timely(s, m)
      ensures Timely(Tick(AfterEdit(s)), m)
    {
      TimelyStays(s, m);
    }
    hide Timely;
  }

  lemma TickTiming(s: State)
    requires Timing(s)
    ensures Timing(Tick(s))
  {
    hide Before;
  }

  /** Steps of the administrator and of the loop. */
  lemma OutsideTiming(s: State, l: Label)
    requires Timing(s) && Allowed(false, s, l) && !l.Edit? && !IsChecker(l)
    ensures Timing(After(s, l))
  {
    NowTimely(s);
    OutsideRest(s, l);
    OutsideBatches(s, l);
    OutsidePushes(s, l);
    hide Before, Round, Batches, Pushes, After;
  }

  lemma OutsideRest(s: State, l: Label)
    requires Timing(s) && Allowed(false, s, l) && !l.Edit? && !IsChecker(l) && Timely(s, Now(s))
    ensures var s' := After(s, l);
      && Clocked(s') && Timely(s', s'.current) && s'.changes <= s'.added && Round(s')
      && forall c | c in s'.added :: Timely(s', c.at)
  {
    hide Before, Batches, Pushes;
  }

  lemma OutsideBatches(s: State, l: Label)
    requires Timing(s) && Allowed(false, s, l) && !l.Edit? && !IsChecker(l)
    ensures Batches(After(s, l))
  {
    hide Before, Pushes, Round;
    InTimeStays(s, After(s, l));
    hide InTime, Timely;
    if l.Take? {
      assert s.tasks[0] in s.tasks && forall b | b in s.tasks[1..] :: b in s.tasks;
    }
  }

  lemma OutsidePushes(s: State, l: Label)
    requires Timing(s) && Allowed(false, s, l) && !l.Edit? && !IsChecker(l)
    ensures Pushes(After(s, l))
  {
    hide Before, Round;
  }

  /** Steps of the checker. */
  lemma CheckerTiming(s: State, l: Label)
    requires Timing(s) && Allowed(false, s, l) && IsChecker(l)
    ensures Timing(After(s, l))
  {
    NowTimely(s);
    CheckerRound(s, l);
    CheckerBatches(s, l);
    CheckerPushes(s, l);
    hide Before, Round, Batches, Pushes;
  }

  lemma CheckerRound(s: State, l: Label)
    requires Timing(s) && Allowed(false, s, l) && IsChecker(l) && Timely(s, Now(s))
    ensures var s' := After(s, l); Round(s') && Timely(s', s'.current) && s.current.time <= s'.current.time
  {
    hide Before, Batches, Pushes;
  }

  lemma CheckerBatches(s: State, l: Label)
    requires Timing(s) && Allowed(false, s, l) && IsChecker(l)
    requires s.current.time <= After(s, l).current.time
    ensures Batches(After(s, l))
  {
    var s' := After(s, l);
    var more := if l.Publish? then [Batch(s.checker.list, s.checker.seen, s.checker.loaded)] else [];
    assert s.tasks + [] == s.tasks;
    assert s'.tasks == s.tasks + more;
    hide Timely, Pushes, Clocked, Before;
    BatchesStay(s, s', more);
  }

  lemma BatchesStay(s: State, s': State, more: seq<Batch>)
    requires Batches(s) && s'.tasks == s.tasks + more && s'.worker == s.worker && s'.deferred == s.deferred
    requires s'.added == s.added && forall b | b in more :: InTime(s, b.seen, b.loaded) && b.changes <= s.added
    requires s'.clock == s.clock && s'.editTimes == s.editTimes && s.current.time <= s'.current.time
    ensures Batches(s')
  {
    InTimeStays(s, s');
    hide InTime;
  }

  lemma InTimeStays(s: State, s': State)
    requires s'.clock == s.clock && s'.editTimes == s.editTimes && s.current.time <= s'.current.time
    ensures forall seen, loaded | InTime(s, seen, loaded) :: InTime(s', seen, loaded)
  {
  }

  lemma CheckerPushes(s: State, l: Label)
    requires Timing(s) && Allowed(false, s, l) && IsChecker(l)
    ensures Pushes(After(s, l))
  {
    hide Before, Batches, Round;
  }

  lemma {:induction false} RunTiming(strict: bool, s: State, labels: seq<Label>)
    requires Timing(s)
    ensures Timing(Run(strict, s, labels))
    decreases |labels|
  {
    hide Timing, After;
    if labels != [] {
      var l := labels[0];
      if Allowed(strict, s, l) {
        if l.Edit? {
          EditTiming(s);
          assert After(s, l) == AfterEdit(s) by { EditIs(s); }
        } else {
          StepTiming(s, l);
        }
      }
      RunTiming(strict, Step(strict, s, l), labels[1..]);
    }
  }

  lemma EditIs(s: State)
    ensures After(s, Edit) == AfterEdit(s)
  {
  }

  lemma StepTiming(s: State, l: Label)
    requires Timing(s) && Allowed(false, s, l) && !l.Edit?
    ensures Timing(Tick(After(s, l)))
  {
    hide Timing, After;
    if IsChecker(l) {
      CheckerTiming(s, l);
    } else {
      OutsideTiming(s, l);
    }
    TickTiming(After(s, l));
  }

  // ---- Rows, whatever the administrator does ----

  /** The checker has reached the version of a change that was recorded after the purge. */
  ghost predicate Reached(s: State, c: Change) {
    c in s.added && c !in s.early && c.version <= s.version
  }

  /** What the last query of the round found, or failed to find. */
  ghost predicate Listing(s: State, list: set<Change>, ok: bool) {
    && list <= s.changes && (!ok ==> list == {})
    && (forall c | c in list :: c.at.time < s.queried && c.version <= s.version)
    && forall c | c in Eligible(s.changes, s.version) && c.at.time < s.queried ::
        if ok then c in list else c in s.missed
  }

  ghost predicate Rows(s: State) {
    && s.queried <= s.clock
    && (forall c | c in s.added :: c.id < s.next && c.at.time < s.clock)
    && s.changes <= s.added && s.removed <= s.added && s.published <= s.added && s.missed <= s.added
    && s.changes !! s.removed && s.added <= s.changes + s.removed + s.early
    && (forall c | c in s.published + s.missed :: c.at.time < s.queried)
    && (s.checker.Starting? ==> s.published == s.missed == s.removed == s.early == {})
    && (s.checker.Listed? ==> Listing(s, s.checker.list, s.checker.ok))
    && (s.checker.Published? ==> Listing(s, s.checker.list, s.checker.ok) && s.checker.list <= s.published)
  }

  /** The checker is not between the observation of a version and the query for its changes. */
  predicate Settled(k: Checker) {
    !k.Starting? && !k.Changed? && !k.Loaded? && !k.Installed?
  }

  /** A change that had been recorded when the rows were last queried was found, or missed. */
  ghost predicate Handed(s: State) {
    Settled(s.checker) ==>
      forall c | Reached(s, c) && c.at.time < s.queried ::
        c in s.published || c in s.missed || c in s.removed || (s.checker.Listed? && c in s.checker.list)
  }

  ghost predicate Books(s: State) {
    Rows(s) && Handed(s)
  }

  lemma OutsideBooks(s: State, l: Label)
    requires Books(s) && Allowed(false, s, l) && !IsChecker(l)
    ensures Books(Tick(After(s, l)))
  {
  }

  lemma CheckerBooks(s: State, l: Label)
    requires Books(s) && Allowed(false, s, l) && IsChecker(l)
    ensures Books(Tick(After(s, l)))
  {
  }

  lemma StepBooks(strict: bool, s: State, l: Label)
    requires Books(s)
    ensures Books(Step(strict, s, l))
  {
    hide Books, After;
    if Allowed(strict, s, l) {
      if IsChecker(l) {
        CheckerBooks(s, l);
      } else {
        OutsideBooks(s, l);
      }
    }
  }

  lemma {:induction false} RunBooks(strict: bool, s: State, labels: seq<Label>)
    requires Books(s)
    ensures Books(Run(strict, s, labels))
    decreases |labels|
  {
    hide Books, Step;
    if labels != [] {
      StepBooks(strict, s, labels[0]);
      RunBooks(strict, Step(strict, s, labels[0]), labels[1..]);
    }
  }

  lemma InitialHolds(s: State)
    requires Initial(s)
    ensures Timing(s) && Books(s)
  {
  }

  // ---- A disciplined administrator ----

  /** The versions of what is recorded are ahead: a change that has been reached was recorded before its
      version was observed, and before the rows were queried. */
  ghost predicate Ahead(s: State) {
    && s.version <= s.dbVersion
    && ((s.checker.Changed? || s.checker.Loaded? || s.checker.Installed? || s.checker.Listed?) ==>
        s.checker.seen.time <= s.clock && forall c | Reached(s, c) :: c.at.time < s.checker.seen.time)
    && (s.checker.Listed? ==> s.checker.seen.time <= s.queried)
    && (Settled(s.checker) ==> forall c | Reached(s, c) :: c.at.time < s.queried)
  }

  /** So is what is to be pushed, and what has been. */
  ghost predicate AheadPushes(s: State) {
    && (forall b | b in s.tasks :: forall c | c in b.changes && c !in s.early :: c.at.time < b.seen.time)
    && (s.worker.Working? ==>
        var b := s.worker.batch;
        s.worker.left <= b.changes && forall c | c in b.changes && c !in s.early :: c.at.time < b.seen.time)
    && (forall d | d in s.deferred && d.change !in s.early :: d.change.at.time < d.seen.time)
    && (forall p | p in s.pushes && p.change !in s.early :: p.change.at.time < p.seen.time)
    && (s.checker.Starting? ==>
        s.tasks == [] && s.worker.Waiting? && s.deferred == multiset{} && s.pushes == [])
  }

  ghost predicate Discipline(s: State) {
    Books(s) && Ahead(s) && AheadPushes(s)
  }

  lemma StepAhead(s: State, l: Label)
    requires Books(s) && Ahead(s) && Allowed(true, s, l)
    ensures Ahead(Tick(After(s, l)))
  {
    hide Handed;
  }

  lemma StepAheadPushes(s: State, l: Label)
    requires Discipline(s) && Allowed(true, s, l)
    ensures AheadPushes(Tick(After(s, l)))
  {
    if IsChecker(l) {
      CheckerAheadPushes(s, l);
    } else {
      OutsideAheadPushes(s, l);
    }
    hide Discipline, After, AheadPushes;
  }

  lemma CheckerAheadPushes(s: State, l: Label)
    requires Discipline(s) && Allowed(true, s, l) && IsChecker(l)
    ensures AheadPushes(Tick(After(s, l)))
  {
    hide Handed;
  }

  lemma OutsideAheadPushes(s: State, l: Label)
    requires AheadPushes(s) && Allowed(true, s, l) && !IsChecker(l)
    ensures AheadPushes(Tick(After(s, l)))
  {
    if l.Take? {
      assert s.tasks[0] in s.tasks && forall b | b in s.tasks[1..] :: b in s.tasks;
    }
  }

  lemma {:induction false} RunDiscipline(s: State, labels: seq<Label>)
    requires Discipline(s)
    ensures Discipline(Run(true, s, labels))
    decreases |labels|
  {
    hide Books, Ahead, AheadPushes, After;
    if labels != [] {
      var l := labels[0];
      StepBooks(true, s, l);
      if Allowed(true, s, l) {
        StepAhead(s, l);
        StepAheadPushes(s, l);
      }
      RunDiscipline(Step(true, s, l), labels[1..]);
    }
  }

  // ---- What holds in every run ----

  /** `strict` tells whether the administrator is disciplined. */
  ghost predicate Reachable(strict: bool, s: State) {
    exists start, labels :: Initial(start) && s == Run(strict, start, labels)
  }

  lemma ReachableHolds(strict: bool, s: State)
    requires Reachable(strict, s)
    ensures Timing(s) && Books(s)
  {
    hide Timing, Books, Run, Initial;
    var start, labels :| Initial(start) && s == Run(strict, start, labels);
    InitialHolds(start);
    RunTiming(strict, start, labels);
    RunBooks(strict, start, labels);
  }

  lemma ReachableAhead(s: State)
    requires Reachable(true, s)
    ensures Discipline(s)
  {
    hide Discipline, Run, Initial;
    var start, labels :| Initial(start) && s == Run(true, start, labels);
    InitialAhead(start);
    RunDiscipline(start, labels);
  }

  lemma InitialAhead(s: State)
    requires Initial(s)
    ensures Discipline(s)
  {
  }

  /** Between two rounds, a change whose version has been reached has been handed to the loops only if it
      had been recorded when the rows were last queried; and if it had, it has, unless the query failed or
      its row has been deleted. */
  lemma HandedExactly(strict: bool, s: State, c: Change)
    requires Reachable(strict, s) && Settled(s.checker) && !s.checker.Listed? && Reached(s, c)
    ensures c in s.published ==> c.at.time < s.queried
    ensures c.at.time < s.queried ==> c in s.published || c in s.missed || c in s.removed
    ensures c !in s.published && c !in s.removed ==> c in s.changes
  {
    ReachableHolds(strict, s);
  }

  /** With a disciplined administrator all of them had. */
  lemma ReachedAreHanded(s: State)
    requires Reachable(true, s) && Settled(s.checker) && !s.checker.Listed?
    ensures forall c | Reached(s, c) :: c.at.time < s.queried && (c in s.published || c in s.missed || c in s.removed)
  {
    ReachableAhead(s);
  }

  /** Freshness, whatever the administrator does: what is pushed in a round whose load succeeded comes from
      a table queried after the version was observed; also when it was kept for a subscriber. */
  lemma PushesAreFresh(strict: bool, s: State, p: Push)
    requires Reachable(strict, s) && p in s.pushes && p.loaded
    ensures p.seen.time <= p.snapshot.time && p.seen.edits <= p.snapshot.edits
  {
    ReachableHolds(strict, s);
    BeforeSplit(s.editTimes, p.seen.time, p.snapshot.time);
    hide Before;
  }

  /** With a disciplined administrator it reflects every edit made before the change was recorded. */
  lemma PushesReflect(s: State, p: Push)
    requires Reachable(true, s) && p in s.pushes && p.loaded && p.change !in s.early
    ensures p.change.at.edits <= p.snapshot.edits
  {
    ReachableHolds(true, s);
    ReachableAhead(s);
    BeforeSplit(s.editTimes, p.change.at.time, p.snapshot.time);
    hide Before;
  }

  /** Edits are ordered as moments are: one has at most as many before it as another if and only if it does
      not come later, or nothing was edited between them. */
  lemma EditsOrdered(s: State, m: Moment, m': Moment)
    requires Timely(s, m) && Timely(s, m')
    ensures m.edits <= m'.edits <==> m.time <= m'.time || forall t | t in s.editTimes :: !(m'.time <= t < m.time)
  {
    if m.time <= m'.time {
      BeforeSplit(s.editTimes, m.time, m'.time);
    } else {
      BeforeSplit(s.editTimes, m'.time, m.time);
      var between := set t | t in s.editTimes && m'.time <= t < m.time;
      if exists t | t in s.editTimes :: m'.time <= t < m.time {
        var t :| t in s.editTimes && m'.time <= t < m.time;
        assert t in between && |between| > 0;
      } else {
        assert between == {};
      }
    }
    hide Before;
  }

  /** Any push reflects all edits that preceded the observation of its version, or the recording of its
      change, if and only if the table it is answered from was queried no earlier than that, or was not
      edited between that query and that moment. */
  lemma FreshExactly(strict: bool, s: State, p: Push)
    requires Reachable(strict, s) && p in s.pushes
    ensures p.seen.edits <= p.snapshot.edits <==>
      p.seen.time <= p.snapshot.time || forall t | t in s.editTimes :: !(p.snapshot.time <= t < p.seen.time)
    ensures p.change.at.edits <= p.snapshot.edits <==>
      p.change.at.time <= p.snapshot.time || forall t | t in s.editTimes :: !(p.snapshot.time <= t < p.change.at.time)
  {
    ReachableHolds(strict, s);
    EditsOrdered(s, p.seen, p.snapshot);
    EditsOrdered(s, p.change.at, p.snapshot);
  }

  // ---- Where the conditions are needed ----

  const EMPTY := State(
    0, {}, 0, 0, 0, Starting, Moment(0, 0), [], Waiting, multiset{}, [], 0, {}, 0, {}, {}, {}, {}, {})

  lemma {:induction false} RunAppend(strict: bool, s: State, a: seq<Label>, b: seq<Label>)
    ensures Run(strict, s, a + b) == Run(strict, Run(strict, s, a), b)
    decreases |a|
  {
    hide Step;
    if a == [] {
      assert a + b == b;
    } else {
      assert (a + b)[1..] == a[1..] + b;
      RunAppend(strict, Step(strict, s, a[0]), a[1..], b);
    }
  }

  lemma RunOne(strict: bool, s: State, l: Label)
    ensures Run(strict, s, [l]) == Step(strict, s, l)
  {
    hide Step;
    assert [l][1..] == [] && Run(strict, Step(strict, s, l), []) == Step(strict, s, l);
  }

  /** Two more steps. */
  lemma Two(strict: bool, labels: seq<Label>, s: State, l: Label, l': Label, s': State)
    requires s == Run(strict, EMPTY, labels) && s' == Step(strict, Step(strict, s, l), l')
    ensures s' == Run(strict, EMPTY, labels + [l, l'])
  {
    hide Step;
    RunOne(strict, s, l);
    RunOne(strict, Step(strict, s, l), l');
    RunAppend(strict, s, [l], [l']);
    assert [l, l'] == [l] + [l'];
    RunAppend(strict, EMPTY, labels, [l, l']);
  }

  lemma EmptyInitial()
    ensures Initial(EMPTY) && Run(true, EMPTY, []) == EMPTY && Run(false, EMPTY, []) == EMPTY
  {
    assert (set t | t in EMPTY.editTimes && t < 0) == {};
  }

  /** A change that is recorded and announced after an edit, and what the checker makes of it. */
  lemma Announced(c: Change) returns (s: State)
    requires c == Change(0, 7, 1, Moment(2, 1))
    ensures s == Run(true, EMPTY, [] + [Purge(true), Edit] + [Add(7, 1), Bump(1)])
    ensures s == EMPTY.(checker := Sleeping, edits := 1, editTimes := {1}, clock := 4,
                        changes := {c}, added := {c}, next := 1, dbVersion := 1)
  {
    hide Run;
    EmptyInitial();
    var s0 := EMPTY.(checker := Sleeping, edits := 1, editTimes := {1}, clock := 2);
    Two(true, [], EMPTY, Purge(true), Edit, s0);
    s := s0.(changes := {c}, added := {c}, next := 1, dbVersion := 1, clock := 4);
    Two(true, [] + [Purge(true), Edit], s0, Add(7, 1), Bump(1), s);
  }

  /** A failed load of the table in a round for a new version: the subscriber is told the old hosts. */
  lemma StaleExample()
    ensures Initial(EMPTY)
    ensures var c := Change(0, 7, 1, Moment(2, 1));
      var s := Run(true, EMPTY,
        [] + [Purge(true), Edit] + [Add(7, 1), Bump(1)] + [LoadVersion(true), LoadData(false)]
        + [LoadChanges(true), Publish] + [Take, PushOne(c)]);
      s.pushes == [Push(c, Moment(0, 0), Moment(4, 1), false)] && c in s.published
  {
    hide Run;
    EmptyInitial();
    var c := Change(0, 7, 1, Moment(2, 1));
    var s0 := Announced(c);
    var labels := [] + [Purge(true), Edit] + [Add(7, 1), Bump(1)];
    var seen, b := Moment(4, 1), Batch({c}, Moment(4, 1), false);
    var s1 := s0.(version := 1, checker := Installed(seen, false), clock := 6);
    Two(true, labels, s0, LoadVersion(true), LoadData(false), s1);
    assert Eligible({c}, 1) == {c};
    var s2 := s1.(checker := Published({c}, true), tasks := [b], published := {c}, queried := 6, clock := 8);
    Two(true, labels + [LoadVersion(true), LoadData(false)], s1, LoadChanges(true), Publish, s2);
    var s3 := s2.(tasks := [], worker := Working(b, {}), pushes := [Push(c, Moment(0, 0), seen, false)], clock := 10);
    Two(true, labels + [LoadVersion(true), LoadData(false)] + [LoadChanges(true), Publish], s2, Take, PushOne(c), s3);
  }
}
