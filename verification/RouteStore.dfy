/**
 The route store: readers take the current map by a shared pointer, the refresh thread fills a second
 map row by row and swaps the two, copying first when a reader still holds the current one.
 */
module RouteStores {
  import opened Bytes
  import opened RouteKeys

  /** A row of RouteData. */
  datatype Row = Row(modid: int32, cmdid: int32, ip: uint32, port: int32)

  type Routes = map<uint64, set<uint64>>

  function RowKey(row: Row): uint64 {
    Key(row.modid, row.cmdid)
  }

  function RowValue(row: Row): uint64 {
    HostValue(row.ip, row.port)
  }

  function Lookup(routes: Routes, key: uint64): set<uint64> {
    if key in routes then routes[key] else {}
  }

  /** `routes[key].insert(value)` */
  function Inserted(routes: Routes, row: Row): Routes {
    routes[RowKey(row) := Lookup(routes, RowKey(row)) + {RowValue(row)}]
  }

  /** The map that a complete result leads to. */
  ghost function Grouped(rows: seq<Row>): Routes {
    if rows == [] then map[] else Inserted(Grouped(rows[..|rows| - 1]), rows[|rows| - 1])
  }

  /** The hosts of a service, by the table's columns. */
  ghost function HostsOf(rows: seq<Row>, modid: int32, cmdid: int32): set<uint64> {
    set i | 0 <= i < |rows| && rows[i].modid == modid && rows[i].cmdid == cmdid :: HostValue(rows[i].ip, rows[i].port)
  }

  lemma GroupedStep(rows: seq<Row>, n: nat)
    requires n < |rows|
    ensures Grouped(rows[..n + 1]) == Inserted(Grouped(rows[..n]), rows[n])
  {
    assert rows[..n + 1][..n] == rows[..n];
  }

  /** Grouping by the packed key is grouping by module and command, whatever their signs: a key is in the
      map exactly if the table has a row of its service, with exactly the hosts of these rows. */
  lemma {:induction false} GroupedByService(rows: seq<Row>, modid: int32, cmdid: int32)
    ensures Lookup(Grouped(rows), Key(modid, cmdid)) == HostsOf(rows, modid, cmdid)
    ensures Key(modid, cmdid) in Grouped(rows) <==> HostsOf(rows, modid, cmdid) != {}
    decreases |rows|
  {
    hide Key, HostValue;
    if rows != [] {
      var n := |rows| - 1;
      var row := rows[n];
      GroupedByService(rows[..n], modid, cmdid);
      HostsStep(rows, modid, cmdid);
      if RowKey(row) == Key(modid, cmdid) {
        KeyInjective(row.modid, row.cmdid, modid, cmdid);
      }
    }
  }

  lemma HostsStep(rows: seq<Row>, modid: int32, cmdid: int32)
    requires rows != []
    ensures var n := |rows| - 1;
      HostsOf(rows, modid, cmdid) == HostsOf(rows[..n], modid, cmdid)
        + if rows[n].modid == modid && rows[n].cmdid == cmdid then {RowValue(rows[n])} else {}
  {
    hide HostValue;
    var n := |rows| - 1;
    forall i | 0 <= i < n
      ensures rows[..n][i] == rows[i]
    {
    }
    var before, now := HostsOf(rows[..n], modid, cmdid), HostsOf(rows, modid, cmdid);
    forall v | v in before
      ensures v in now
    {
      var i :| 0 <= i < n && rows[..n][i].modid == modid && rows[..n][i].cmdid == cmdid && v == RowValue(rows[..n][i]);
      assert rows[i].modid == modid && rows[i].cmdid == cmdid && v == RowValue(rows[i]);
    }
    forall v | v in now
      ensures v in before || (rows[n].modid == modid && rows[n].cmdid == cmdid && v == RowValue(rows[n]))
    {
      var i :| 0 <= i < |rows| && rows[i].modid == modid && rows[i].cmdid == cmdid && v == RowValue(rows[i]);
      if i < n {
        assert rows[..n][i].modid == modid && rows[..n][i].cmdid == cmdid && v == RowValue(rows[..n][i]);
      }
    }
  }

  class RouteMap {
    var routes: Routes

    constructor (r: Routes)
      ensures routes == r
    {
      routes := r;
    }
  }

  /** What a query answers. */
  datatype Answer = Rows(rows: seq<Row>) | Failed

  /** Where the refresh thread is with the map it fills. */
  datatype Refresh = Resting | Cleared | Filling(rows: seq<Row>, done: nat) | Filled(rows: seq<Row>)

  class RouteStore {
    var data: RouteMap
    var tmp: RouteMap
    var readers: map<int, RouteMap>      // the pointers readers hold
    var refresh: Refresh
    ghost var installed: seq<seq<Row>>   // the results that became current, in order
    ghost var taken: map<int, nat>       // for each reader, which of them it holds

    /** The current map is the grouping of the last complete result, and what a reader holds is still the
        grouping of the complete result that was current when it took the pointer. */
    ghost predicate Valid()
      reads this, data, tmp, readers.Values
    {
      && data != tmp && tmp !in readers.Values
      && installed != [] && data.routes == Grouped(installed[|installed| - 1])
      && readers.Keys == taken.Keys
      && (forall r | r in readers :: taken[r] < |installed| && readers[r].routes == Grouped(installed[taken[r]]))
      && FilledSoFar(tmp.routes, refresh)
    }

    /** The two maps are those of before, or new ones. */
    twostate predicate OwnMaps()
      reads this
    {
      && (fresh(data) || data == old(data) || data == old(tmp))
      && (fresh(tmp) || tmp == old(data) || tmp == old(tmp))
    }

    constructor (rows: seq<Row>)
      ensures Valid() && installed == [rows] && readers == map[] && refresh == Resting
      ensures fresh(data) && fresh(tmp)
    {
      data := new RouteMap(map[]);
      tmp := new RouteMap(map[]);
      readers, taken, refresh, installed := map[], map[], Resting, [rows];
      new;
      BuildMaps(rows);
    }

    /** The initial load fills the current map directly; no reader exists yet. */
    method BuildMaps(rows: seq<Row>)
      requires data.routes == map[]
      modifies data
      ensures data.routes == Grouped(rows)
    {
      for i := 0 to |rows|
        invariant data.routes == Grouped(rows[..i])
      {
        GroupedStep(rows, i);
        data.routes := Inserted(data.routes, rows[i]);
      }
      assert rows[..|rows|] == rows;
    }

    // ---- Steps of readers ----

    method GetDataPointer(r: int) returns (p: RouteMap)
      requires Valid() && r !in readers
      modifies this`readers, this`taken
      ensures Valid() && p == data && readers == old(readers)[r := p]
      ensures taken == old(taken)[r := |installed| - 1]
    {
      p := data;
      readers := readers[r := p];
      taken := taken[r := |installed| - 1];
    }

    method Release(r: int)
      requires Valid()
      modifies this`readers, this`taken
      ensures Valid() && readers == old(readers) - {r} && taken == old(taken) - {r}
    {
      readers := readers - {r};
      taken := taken - {r};
    }

    // ---- Steps of the refresh thread ----

    method ClearTmp()
      requires Valid()
      modifies tmp, this`refresh
      ensures Valid() && refresh == Cleared
    {
      tmp.routes := map[];
      refresh := Cleared;
    }

    method Query(answer: Answer)
      requires Valid() && refresh.Cleared?
      modifies this`refresh
      ensures Valid() && refresh == if answer.Failed? then Resting else Filling(answer.rows, 0)
    {
      refresh := if answer.Failed? then Resting else Filling(answer.rows, 0);
    }

    method InsertRow(row: Row)
      requires Valid() && refresh.Filling? && refresh.done < |refresh.rows| && row == refresh.rows[refresh.done]
      modifies tmp, this`refresh
      ensures Valid() && refresh == Filling(old(refresh).rows, old(refresh).done + 1)
    {
      GroupedStep(refresh.rows, refresh.done);
      tmp.routes := Inserted(tmp.routes, row);
      refresh := Filling(refresh.rows, refresh.done + 1);
    }

    method FinishLoad()
      requires Valid() && refresh.Filling? && refresh.done == |refresh.rows|
      modifies this`refresh
      ensures Valid() && refresh == Filled(old(refresh).rows)
    {
      assert refresh.rows[..|refresh.rows|] == refresh.rows;
      refresh := Filled(refresh.rows);
    }

    /** The whole swap runs under the lock. */
    method Swap()
      requires Valid() && refresh.Filled?
      modifies this`data, this`tmp, this`refresh, this`installed
      ensures Valid() && refresh == Resting && installed == old(installed) + [old(refresh).rows]
      ensures (fresh(tmp) || tmp == old(data)) && data == old(tmp)
    {
      var unique := data !in readers.Values;
      if !unique {
        var copyData := new RouteMap(data.routes);
        data := copyData;
      }
      data, tmp := tmp, data;
      installed := installed + [refresh.rows];
      refresh := Resting;
    }

    // ---- Whole operations, with steps of the other threads in between ----

    method RefreshStep(answer: Answer)
      requires Valid()
      modifies this`data, this`tmp, this`refresh, this`installed, tmp
      ensures Valid() && old(installed) <= installed
      ensures OwnMaps()
    {
      match refresh
      case Resting => ClearTmp();
      case Cleared => Query(answer);
      case Filling(rows, done) =>
        if done < |rows| {
          InsertRow(rows[done]);
        } else {
          FinishLoad();
        }
      case Filled(_) => Swap();
    }

    /** Any number of steps of others: of readers other than `me`, and of the refresh thread if `me` is one. */
    method Meanwhile(me: int, refreshing: bool)
      requires Valid()
      modifies this, data, tmp
      ensures Valid() && Undisturbed(me, refreshing) && OwnMaps()
    {
      hide Valid;
      var steps: nat :| true;
      for i := 0 to steps
        invariant Valid() && Undisturbed(me, refreshing) && OwnMaps()
      {
        OtherStep(me, refreshing);
      }
    }

    /** What the others leave to `me`: the refresh thread's state, or the pointer that a reader holds. */
    twostate predicate Undisturbed(me: int, refreshing: bool)
      reads this
    {
      && old(installed) <= installed
      && (refreshing ==>
          && (me in readers <==> me in old(readers)) && (me in readers ==> readers[me] == old(readers)[me])
          && (me in taken <==> me in old(taken)) && (me in taken ==> taken[me] == old(taken)[me]))
      && (!refreshing ==>
          refresh == old(refresh) && data == old(data) && tmp == old(tmp) && installed == old(installed))
    }

    method OtherStep(me: int, refreshing: bool)
      requires Valid()
      modifies this, data, tmp
      ensures Valid() && Undisturbed(me, refreshing) && OwnMaps()
    {
      var r: int := *;
      if refreshing && r == me {
        var rows: seq<Row> := *;
        var fails: bool := *;
        RefreshStep(if fails then Failed else Rows(rows));
      } else if r in readers {
        Release(r);
      } else {
        var p := GetDataPointer(r);
      }
    }

    /** A reader gets the hosts of one complete result that was current at some moment of the call. */
    method GetHosts(me: int, modid: int32, cmdid: int32) returns (hosts: set<uint64>, ghost at: nat)
      requires Valid() && me !in readers
      modifies this, data, tmp
      ensures Valid() && me !in readers && old(installed) <= installed && OwnMaps()
      ensures |old(installed)| - 1 <= at < |installed| && hosts == HostsOf(installed[at], modid, cmdid)
    {
      hide Key, Grouped, HostsOf, FilledSoFar;
      Meanwhile(me, true);
      var p := GetDataPointer(me);
      at := taken[me];
      Meanwhile(me, true);
      hosts := Lookup(p.routes, Key(modid, cmdid));
      GroupedByService(installed[at], modid, cmdid);
      GiveBack(me);
    }

    /** With no refresh in between it is the current one. */
    method HostsNow(me: int, modid: int32, cmdid: int32) returns (hosts: set<uint64>)
      requires Valid() && me !in readers
      modifies this`readers, this`taken
      ensures Valid() && readers == old(readers) && hosts == HostsOf(installed[|installed| - 1], modid, cmdid)
    {
      hide Key, Grouped, HostsOf, FilledSoFar;
      GroupedByService(installed[|installed| - 1], modid, cmdid);
      var p := GetDataPointer(me);
      hosts := Lookup(p.routes, Key(modid, cmdid));
      Release(me);
    }

    method GiveBack(me: int)
      requires Valid() && me in readers
      modifies this, data, tmp
      ensures Valid() && me !in readers && old(installed) <= installed && OwnMaps()
    {
      hide FilledSoFar, Grouped;
      Meanwhile(me, true);
      Release(me);
    }

    /** The load fills the second map row by row while readers come and go. */
    method LoadRouteData(answer: Answer) returns (ok: bool)
      requires Valid()
      modifies this, data, tmp
      ensures Valid() && data == old(data) && tmp == old(tmp) && installed == old(installed)
      ensures ok <==> answer.Rows?
      ensures refresh == if ok then Filled(answer.rows) else Resting
    {
      ClearTmp();
      Meanwhile(0, false);
      Query(answer);
      if answer.Failed? {
        return false;
      }
      for i := 0 to |answer.rows|
        invariant Valid() && data == old(data) && tmp == old(tmp) && installed == old(installed)
        invariant refresh == Filling(answer.rows, i)
      {
        Meanwhile(0, false);
        InsertRow(answer.rows[i]);
      }
      FinishLoad();
      return true;
    }

    /** A refresh makes the loaded result current; after a failed load everything is as before. */
    method Reload(answer: Answer) returns (ok: bool)
      requires Valid()
      modifies this, data, tmp
      ensures Valid() && refresh.Resting? && (ok <==> answer.Rows?)
      ensures installed == old(installed) + if ok then [answer.rows] else []
    {
      ok := LoadRouteData(answer);
      if ok {
        Meanwhile(0, false);
        Swap();
      }
    }
  }

  ghost predicate FilledSoFar(routes: Routes, refresh: Refresh) {
    match refresh
    case Resting => true
    case Cleared => routes == map[]
    case Filling(rows, done) => done <= |rows| && routes == Grouped(rows[..done])
    case Filled(rows) => routes == Grouped(rows)
  }
}
