/** Whether changes are lost: deleted from the table of changes without having been handed to the loops. */
module LostChanges {
  import opened ChangeLog

  function Lost(s: State): set<Change> {
    s.removed - s.published
  }

  /** The checker is between the query for changes and the delete of its round. */
  predicate InWindow(k: Checker) {
    k.Listed? || k.Published?
  }

  /** A change is recorded under a version already reached, after the query and before the delete. */
  predicate RecordsLate(strict: bool, s: State, l: Label) {
    l.Add? && Allowed(strict, s, l) && l.version <= s.version && InWindow(s.checker)
  }

  /** Whether that has happened in the present round. */
  predicate LateAfter(strict: bool, s: State, l: Label, late: bool) {
    if l.LoadChanges? && s.checker.Installed? then false else late || RecordsLate(strict, s, l)
  }

  predicate Deletes(s: State, l: Label) {
    l == Remove(true) && s.checker.Published?
  }

  /** A delete that loses a change: one was recorded late in its round, or the query of its round failed
      and a row that it deletes was not published in an earlier round. */
  predicate Loses(s: State, l: Label, late: bool) {
    Deletes(s, l) && (late || (!s.checker.ok && !(Eligible(s.changes, s.version) <= s.published)))
  }

  /** Which rows of the delete were recorded late. */
  ghost predicate LateRow(s: State, c: Change) {
    c in Eligible(s.changes, s.version) && c.at.time >= s.queried
  }

  ghost predicate Tracks(s: State, late: bool) {
    InWindow(s.checker) ==> (late <==> exists c :: LateRow(s, c))
  }

  lemma TracksStep(strict: bool, s: State, l: Label, late: bool)
    requires Books(s) && Tracks(s, late)
    ensures Tracks(Step(strict, s, l), LateAfter(strict, s, l, late))
  {
    hide Handed;
    var s' := Step(strict, s, l);
    if RecordsLate(strict, s, l) {
      assert LateRow(s', Change(s.next, l.service, l.version, Now(s)));
    } else if InWindow(s'.checker) && !l.LoadChanges? {
      SameLateRows(strict, s, l);
    }
  }

  lemma SameLateRows(strict: bool, s: State, l: Label)
    requires InWindow(Step(strict, s, l).checker) && !l.LoadChanges? && !RecordsLate(strict, s, l)
    ensures forall c :: LateRow(Step(strict, s, l), c) <==> LateRow(s, c)
  {
  }

  lemma PublishLost(s: State)
    requires Rows(s) && s.checker.Listed?
    ensures Lost(AfterPublish(s)) == Lost(s)
  {
    assert s.checker.list !! s.removed;
  }

  lemma RemoveLost(s: State, ok: bool, late: bool)
    requires Rows(s) && s.checker.Published? && Tracks(s, late)
    ensures Lost(s) <= Lost(AfterRemove(s, ok))
    ensures Lost(AfterRemove(s, ok)) == Lost(s) <==> !Loses(s, Remove(ok), late)
  {
    var s' := AfterRemove(s, ok);
    if ok && late {
      var c :| LateRow(s, c);
      assert c in Lost(s') && c !in Lost(s);
    } else if Loses(s, Remove(ok), late) {
      var c :| c in Eligible(s.changes, s.version) && c !in s.published;
      assert c in Lost(s') && c !in Lost(s);
    } else if ok && s.checker.ok {
      assert forall c | c in Eligible(s.changes, s.version) :: !LateRow(s, c) && c in s.checker.list;
    }
  }

  lemma OthersLoseNothing(strict: bool, s: State, l: Label)
    requires !l.Publish? && !l.Remove?
    ensures Lost(Step(strict, s, l)) == Lost(s)
  {
  }

  /** Step by step, for every administrator: a change is lost by such a delete and by nothing else. */
  lemma LostStep(strict: bool, s: State, l: Label, late: bool)
    requires Books(s) && Tracks(s, late)
    ensures Lost(s) <= Lost(Step(strict, s, l))
    ensures Lost(Step(strict, s, l)) == Lost(s) <==> !Loses(s, l, late)
  {
    hide Rows, Handed, Tracks, AfterPublish, AfterRemove, Eligible;
    if l.Publish? && s.checker.Listed? {
      PublishLost(s);
    } else if l.Remove? && s.checker.Published? {
      RemoveLost(s, l.ok, late);
    } else if !l.Publish? && !l.Remove? {
      OthersLoseNothing(strict, s, l);
      hide Step;
    }
  }

  ghost predicate NeverLoses(strict: bool, s: State, labels: seq<Label>, late: bool)
    decreases |labels|
  {
    labels != [] ==>
      && !Loses(s, labels[0], late)
      && NeverLoses(strict, Step(strict, s, labels[0]), labels[1..], LateAfter(strict, s, labels[0], late))
  }

  lemma {:induction false} LostGrows(strict: bool, s: State, labels: seq<Label>, late: bool)
    requires Books(s) && Tracks(s, late)
    ensures Lost(s) <= Lost(Run(strict, s, labels))
    ensures Lost(Run(strict, s, labels)) == Lost(s) <==> NeverLoses(strict, s, labels, late)
    decreases |labels|
  {
    hide Books, Tracks, Step, Lost, Loses, LateAfter;
    if labels != [] {
      var l := labels[0];
      StepBooks(strict, s, l);
      TracksStep(strict, s, l, late);
      LostStep(strict, s, l, late);
      LostGrows(strict, Step(strict, s, l), labels[1..], LateAfter(strict, s, l, late));
    }
  }

  /** A run loses no change if and only if it contains no such delete, whatever the administrator does and
      whichever queries fail. */
  lemma LostExactly(strict: bool, start: State, labels: seq<Label>)
    requires Initial(start)
    ensures Lost(Run(strict, start, labels)) == {} <==> NeverLoses(strict, start, labels, false)
  {
    InitialHolds(start);
    LostGrows(strict, start, labels, false);
  }

  // ---- When the queries succeed ----

  /** No delete follows, in its round, on a change that was recorded late. */
  ghost predicate NeverDeletesLate(strict: bool, s: State, labels: seq<Label>, late: bool)
    decreases |labels|
  {
    labels != [] ==>
      && !(Deletes(s, labels[0]) && late)
      && NeverDeletesLate(strict, Step(strict, s, labels[0]), labels[1..], LateAfter(strict, s, labels[0], late))
  }

  ghost predicate QueriesSucceed(labels: seq<Label>) {
    forall l | l in labels :: l != LoadChanges(false)
  }

  ghost predicate Succeeded(s: State) {
    s.missed == {} && (s.checker.Listed? || s.checker.Published? ==> s.checker.ok)
  }

  lemma SucceededStep(strict: bool, s: State, l: Label)
    requires Succeeded(s) && l != LoadChanges(false)
    ensures Succeeded(Step(strict, s, l))
  {
  }

  lemma {:induction false} OnlyLate(strict: bool, s: State, labels: seq<Label>, late: bool)
    requires Succeeded(s) && QueriesSucceed(labels)
    ensures NeverLoses(strict, s, labels, late) <==> NeverDeletesLate(strict, s, labels, late)
    ensures Succeeded(Run(strict, s, labels))
    decreases |labels|
  {
    hide Step, LateAfter, Eligible;
    if labels != [] {
      assert labels[0] in labels && forall l | l in labels[1..] :: l in labels;
      SucceededStep(strict, s, labels[0]);
      OnlyLate(strict, Step(strict, s, labels[0]), labels[1..], LateAfter(strict, s, labels[0], late));
    }
  }

  /** No lost change, whatever the administrator does: if the queries succeed, every row is published before
      it is deleted if and only if no delete follows, in its round, on a change recorded under a version
      already reached after the rows had been queried. Then every change recorded after the purge has been
      published or waits for the next round. */
  lemma NoLostChange(strict: bool, start: State, labels: seq<Label>)
    requires Initial(start) && QueriesSucceed(labels)
    ensures var s := Run(strict, start, labels);
      && (s.removed <= s.published <==> NeverDeletesLate(strict, start, labels, false))
      && (NeverDeletesLate(strict, start, labels, false) ==>
          forall c | c in s.added && c !in s.early :: c in s.published || c in s.changes)
  {
    LostExactly(strict, start, labels);
    OnlyLate(strict, start, labels, false);
    InitialHolds(start);
    RunBooks(strict, start, labels);
    var s := Run(strict, start, labels);
    assert Lost(s) == {} <==> s.removed <= s.published;
    hide NeverLoses, NeverDeletesLate, Run;
  }

  /** A change whose version has been reached has then been published if and only if it had been recorded
      when the rows were last queried. */
  lemma PublishedExactly(strict: bool, start: State, labels: seq<Label>, c: Change)
    requires Initial(start) && QueriesSucceed(labels) && NeverDeletesLate(strict, start, labels, false)
    requires var s := Run(strict, start, labels); Settled(s.checker) && !s.checker.Listed? && Reached(s, c)
    ensures var s := Run(strict, start, labels); c in s.published <==> c.at.time < s.queried
  {
    NoLostChange(strict, start, labels);
    OnlyLate(strict, start, labels, false);
    var s := Run(strict, start, labels);
    assert Reachable(strict, s);
    HandedExactly(strict, s, c);
  }

  /** A delete removes exactly the rows that the query of its round found if and only if none of them was
      recorded after it. */
  lemma RemovesWhatWasLoaded(strict: bool, s: State)
    requires Reachable(strict, s) && s.checker.Published? && s.checker.ok
    ensures var s' := Step(strict, s, Remove(true));
      s'.removed == s.removed + s.checker.list <==> !exists c :: LateRow(s, c)
    ensures s.checker.list <= s.published
  {
    ReachableHolds(strict, s);
    hide Handed;
    var rows := Eligible(s.changes, s.version);
    if c :| LateRow(s, c) {
      assert c in rows && c !in s.removed && c !in s.checker.list;
    } else {
      assert forall c | c in rows :: !LateRow(s, c);
      assert rows == s.checker.list;
    }
  }

  // ---- A disciplined administrator ----

  /** He never records a change late. */
  lemma {:induction false} NeverLate(s: State, labels: seq<Label>)
    requires Discipline(s)
    ensures NeverDeletesLate(true, s, labels, false)
    decreases |labels|
  {
    if labels != [] {
      var l := labels[0];
      assert !RecordsLate(true, s, l);
      hide Discipline, Step;
      RunDiscipline(s, [l]);
      RunOne(true, s, l);
      NeverLate(Step(true, s, l), labels[1..]);
    }
  }

  /** So with him nothing is lost when the queries succeed, and between rounds everything reached has been
      handed to the loops. */
  lemma DisciplineLosesNothing(start: State, labels: seq<Label>)
    requires Initial(start) && QueriesSucceed(labels)
    ensures var s := Run(true, start, labels);
      && s.removed <= s.published
      && (Settled(s.checker) && !s.checker.Listed? ==> forall c | Reached(s, c) :: c in s.published)
  {
    InitialAhead(start);
    NeverLate(start, labels);
    NoLostChange(true, start, labels);
    OnlyLate(true, start, labels, false);
    var s := Run(true, start, labels);
    assert Reachable(true, s);
    if Settled(s.checker) && !s.checker.Listed? {
      ReachedAreHanded(s);
    }
  }

  // ---- Examples ----

  /** A failed query for the changes: the delete that follows loses one. */
  lemma LostExample()
    ensures var s := Run(true, EMPTY,
        [] + [Purge(true), Edit] + [Add(7, 1), Bump(1)] + [LoadVersion(true), LoadData(true)]
        + [Swap, LoadChanges(false)] + [Publish, Remove(true)]);
      Lost(s) == {Change(0, 7, 1, Moment(2, 1))}
  {
    hide Run;
    var c := Change(0, 7, 1, Moment(2, 1));
    var s0 := Announced(c);
    var labels := [] + [Purge(true), Edit] + [Add(7, 1), Bump(1)];
    var seen, loaded := Moment(4, 1), Moment(5, 1);
    var s1 := s0.(version := 1, checker := Loaded(seen, loaded), clock := 6);
    Two(true, labels, s0, LoadVersion(true), LoadData(true), s1);
    assert Eligible({c}, 1) == {c};
    var s2 := s1.(current := loaded, checker := Listed(seen, true, {}, false), missed := {c}, queried := 7, clock := 8);
    Two(true, labels + [LoadVersion(true), LoadData(true)], s1, Swap, LoadChanges(false), s2);
    var s3 := s2.(checker := Sleeping, tasks := [Batch({}, seen, true)], changes := {}, removed := {c}, clock := 10);
    Two(true, labels + [LoadVersion(true), LoadData(true)] + [Swap, LoadChanges(false)], s2, Publish, Remove(true), s3);
  }

  /** A version raised without a change, seen by the checker, whose queries all succeed. */
  lemma Observed() returns (s: State)
    ensures s == Run(false, EMPTY,
      [] + [Purge(true), Bump(1)] + [LoadVersion(true), LoadData(true)] + [Swap, LoadChanges(true)])
    ensures s == EMPTY.(checker := Listed(Moment(2, 0), true, {}, true), dbVersion := 1, version := 1,
                        current := Moment(3, 0), queried := 5, clock := 6)
  {
    hide Run;
    var s1 := Reloaded();
    assert Eligible({}, 1) == {};
    s := s1.(current := Moment(3, 0), checker := Listed(Moment(2, 0), true, {}, true), queried := 5, clock := 6);
    Two(false, [] + [Purge(true), Bump(1)] + [LoadVersion(true), LoadData(true)], s1, Swap, LoadChanges(true), s);
  }

  lemma Reloaded() returns (s: State)
    ensures s == Run(false, EMPTY, [] + [Purge(true), Bump(1)] + [LoadVersion(true), LoadData(true)])
    ensures s == EMPTY.(checker := Loaded(Moment(2, 0), Moment(3, 0)), dbVersion := 1, version := 1, clock := 4)
  {
    hide Run;
    EmptyInitial();
    hide Initial;
    var s0 := EMPTY.(checker := Sleeping, dbVersion := 1, clock := 2);
    Two(false, [], EMPTY, Purge(true), Bump(1), s0);
    s := s0.(version := 1, checker := Loaded(Moment(2, 0), Moment(3, 0)), clock := 4);
    Two(false, [] + [Purge(true), Bump(1)], s0, LoadVersion(true), LoadData(true), s);
  }

  /** An administrator who records a change under the current version: lost, although every query succeeds. */
  lemma UndisciplinedExample()
    ensures var s := Run(false, EMPTY,
        [] + [Purge(true), Bump(1)] + [LoadVersion(true), LoadData(true)] + [Swap, LoadChanges(true)]
        + [Publish, Add(7, 1)] + [Remove(true), SkipReload]);
      Lost(s) == {Change(0, 7, 1, Moment(7, 0))}
  {
    hide Run;
    var c := Change(0, 7, 1, Moment(7, 0));
    var s0 := Observed();
    var labels := [] + [Purge(true), Bump(1)] + [LoadVersion(true), LoadData(true)] + [Swap, LoadChanges(true)];
    var s1 := s0.(checker := Published({}, true), tasks := [Batch({}, Moment(2, 0), true)],
                  changes := {c}, added := {c}, next := 1, clock := 8);
    Two(false, labels, s0, Publish, Add(7, 1), s1);
    assert Eligible({c}, 1) == {c};
    var s2 := s1.(checker := Sleeping, changes := {}, removed := {c}, clock := 9);
    Two(false, labels + [Publish, Add(7, 1)], s1, Remove(true), SkipReload, s2);
  }
}
