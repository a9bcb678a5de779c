/**
 The life of the server's connections: the main thread accepts them and, at the end, erases them
 from its table; worker threads listen, serve and close them; the last reference destroys them.
 Steps of different threads interleave freely.
 */
module ConnLifecycle {
  import opened EventLoops

  /** A connection is made, waits as a task of its loop, and then listens. */
  datatype Phase = Made | Queued | Listening

  /** A connection object. `closing` is the stretch of `close` after the state change, up to the posting of
      the delete task; `dispatched` says that its loop is inside one of its callbacks; `holders` counts
      references the application keeps. */
  datatype Conn = Conn(
    fd: int, loop: int, phase: Phase, connected: bool, closing: bool, dispatched: bool, holders: nat)

  /** Tables of a loop are keyed by descriptor; a worker's loop is named by its index. */
  datatype Key = Key(loop: int, fd: int)

  /** The task posted by the close callback carries the descriptor only; `poster` records who posted it. */
  datatype DeleteTask = DeleteTask(fd: int, poster: int)

  /** Where the main thread is; `Deleting` has looked the entry up and not yet erased it. */
  datatype Main =
    | Waiting
    | Accepted(fd: int)
    | Admitted(fd: int)
    | Created(id: int)
    | Handed(id: int)
    | Deleting(task: DeleteTask, got: Option<int>)

  /** `conns` are the objects alive. `posts` and `erased` record who posted a delete task and whose task
      has run; `misses` counts the tasks that did not find the connection that posted them. */
  datatype State = State(
    main: Main, open: set<int>, conns: map<int, Conn>, next: int, nums: int,
    table: map<int, int>, deletes: seq<DeleteTask>,
    watch: map<Key, int>, listed: map<Key, int>,
    posts: seq<int>, erased: seq<int>, misses: nat)

  const START := State(Waiting, {}, map[], 0, 0, map[], [], map[], map[], [], [], 0)

  datatype Label =
    | Accept(fd: int)
    | Check
    | Create(loop: int)
    | Enqueue
    | Store
    | TakeDelete
    | Erase
    | Listen(id: int)
    | Dispatch(id: int)
    | Shut(id: int)
    | PostDelete(id: int)
    | Leave(id: int)
    | Rearm(id: int)
    | Unwatch(id: int)
    | Hold(id: int)
    | Drop(id: int)
    | Destroy(id: int)

  predicate MainHolds(s: State, id: int) {
    match s.main
    case Created(m) => m == id
    case Handed(m) => m == id
    case Deleting(_, got) => got == Some(id)
    case _ => false
  }

  /** Some shared pointer to the connection exists. */
  predicate Referenced(s: State, id: int)
    requires id in s.conns
  {
    var c := s.conns[id];
    || MainHolds(s, id) || c.phase.Queued? || c.dispatched || c.closing || c.holders > 0
    || id in s.table.Values || id in s.watch.Values || id in s.listed.Values
  }

  function KeyOf(c: Conn): Key {
    Key(c.loop, c.fd)
  }

  /** The loop calls the connection back. */
  predicate Watched(s: State, id: int)
    requires id in s.conns
  {
    var k := KeyOf(s.conns[id]);
    k in s.watch && s.watch[k] == id
  }

  /** The kernel returns a descriptor that is not open; a worker runs callbacks that are registered. */
  predicate Enabled(s: State, l: Label) {
    match l
    case Accept(fd) => s.main.Waiting? && fd !in s.open
    case Check => s.main.Accepted?
    case Create(_) => s.main.Admitted?
    case Enqueue => s.main.Created? && s.main.id in s.conns
    case Store => s.main.Handed? && s.main.id in s.conns
    case TakeDelete => s.main.Waiting? && s.deletes != []
    case Erase => s.main.Deleting?
    case Listen(id) => id in s.conns && s.conns[id].phase.Queued?
    case Dispatch(id) => id in s.conns && !s.conns[id].dispatched && Watched(s, id)
    case Shut(id) => id in s.conns && s.conns[id].dispatched && s.conns[id].connected
    case PostDelete(id) => id in s.conns && s.conns[id].closing
    case Leave(id) => id in s.conns && s.conns[id].dispatched && !s.conns[id].closing
    case Rearm(id) => id in s.conns && s.conns[id].phase.Listening? && Referenced(s, id)
    case Unwatch(id) => id in s.conns && s.conns[id].dispatched
    case Hold(id) => id in s.conns && Referenced(s, id)
    case Drop(id) => id in s.conns && s.conns[id].holders > 0
    case Destroy(id) => id in s.conns && !Referenced(s, id)
  }

  function With(s: State, id: int, c: Conn): State {
    s.(conns := s.conns[id := c])
  }

  function AfterAccept(s: State, fd: int): State {
    s.(main := Accepted(fd), open := s.open + {fd})
  }

  function AfterCheck(max: int, s: State): State
    requires s.main.Accepted?
  {
    if s.nums > max then s.(main := Waiting, open := s.open - {s.main.fd}) else s.(main := Admitted(s.main.fd))
  }

  function AfterCreate(s: State, loop: int): State
    requires s.main.Admitted?
  {
    var c := Conn(s.main.fd, loop, Made, true, false, false, 0);
    s.(conns := s.conns[s.next := c], main := Created(s.next), next := s.next + 1, nums := s.nums + 1)
  }

  function AfterEnqueue(s: State, id: int): State
    requires id in s.conns
  {
    With(s, id, s.conns[id].(phase := Phase.Queued)).(main := Handed(id))
  }

  function AfterStore(s: State, id: int): State
    requires id in s.conns
  {
    s.(main := Waiting, table := s.table[s.conns[id].fd := id])
  }

  function AfterTakeDelete(s: State): State
    requires s.deletes != []
  {
    var task := s.deletes[0];
    s.(main := Deleting(task, if task.fd in s.table then Some(s.table[task.fd]) else None), deletes := s.deletes[1..])
  }

  function AfterErase(s: State): State
    requires s.main.Deleting?
  {
    var task := s.main.task;
    s.(main := Waiting, table := s.table - {task.fd}, erased := s.erased + [task.poster],
       misses := if s.main.got == Some(task.poster) then s.misses else s.misses + 1)
  }

  function AfterListen(s: State, id: int): State
    requires id in s.conns
  {
    var c := s.conns[id];
    With(s, id, c.(phase := Listening)).(watch := s.watch[KeyOf(c) := id], listed := s.listed[KeyOf(c) := id])
  }

  function AfterShut(s: State, id: int): State
    requires id in s.conns
  {
    var c := s.conns[id];
    var shut := With(s, id, c.(connected := false, closing := true));
    shut.(watch := s.watch - {KeyOf(c)}, listed := s.listed - {KeyOf(c)})
  }

  function AfterPost(s: State, id: int): State
    requires id in s.conns
  {
    var c := s.conns[id];
    With(s, id, c.(closing := false)).(deletes := s.deletes + [DeleteTask(c.fd, id)], posts := s.posts + [id])
  }

  function AfterRearm(s: State, id: int): State
    requires id in s.conns
  {
    s.(watch := s.watch[KeyOf(s.conns[id]) := id])
  }

  function AfterUnwatch(s: State, id: int): State
    requires id in s.conns
  {
    s.(watch := s.watch - {KeyOf(s.conns[id])})
  }

  /** The destructor calls `close` again, which posts a task if the connection is still connected. */
  function AfterDestroy(s: State, id: int): State
    requires id in s.conns
  {
    var c := s.conns[id];
    var dead := s.(conns := s.conns - {id}, open := s.open - {c.fd}, nums := s.nums - 1);
    if c.connected then dead.(deletes := s.deletes + [DeleteTask(c.fd, id)], posts := s.posts + [id]) else dead
  }

  function Step(max: int, s: State, l: Label): State {
    if !Enabled(s, l) then s else
      match l
      case Accept(fd) => AfterAccept(s, fd)
      case Check => AfterCheck(max, s)
      case Create(loop) => AfterCreate(s, loop)
      case Enqueue => AfterEnqueue(s, s.main.id)
      case Store => AfterStore(s, s.main.id)
      case TakeDelete => AfterTakeDelete(s)
      case Erase => AfterErase(s)
      case Listen(id) => AfterListen(s, id)
      case Dispatch(id) => With(s, id, s.conns[id].(dispatched := true))
      case Shut(id) => AfterShut(s, id)
      case PostDelete(id) => AfterPost(s, id)
      case Leave(id) => With(s, id, s.conns[id].(dispatched := false))
      case Rearm(id) => AfterRearm(s, id)
      case Unwatch(id) => AfterUnwatch(s, id)
      case Hold(id) => With(s, id, s.conns[id].(holders := s.conns[id].holders + 1))
      case Drop(id) => With(s, id, s.conns[id].(holders := s.conns[id].holders - 1))
      case Destroy(id) => AfterDestroy(s, id)
  }

  function Run(max: int, s: State, labels: seq<Label>): State
    decreases |labels|
  {
    if labels == [] then s else Run(max, Step(max, s, labels[0]), labels[1..])
  }

  // ---- Invariant ----

  ghost predicate Distinct(s: seq<int>) {
    forall i, j | 0 <= i < j < |s| :: s[i] != s[j]
  }

  /** The descriptor the main thread has just accepted. */
  function Pending(m: Main): Option<int> {
    if m.Accepted? || m.Admitted? then Some(m.fd) else None
  }

  ghost predicate Descriptors(s: State) {
    && (forall id | id in s.conns ::
        s.conns[id].fd in s.open && 0 <= id < s.next && Pending(s.main) != Some(s.conns[id].fd))
    && (forall id, id' | id in s.conns && id' in s.conns && s.conns[id].fd == s.conns[id'].fd :: id == id')
    && (Pending(s.main).Some? ==> Pending(s.main).value in s.open)
    && s.next >= 0
  }

  /** Entries of the tables point to the connection that has the descriptor. */
  ghost predicate Tables(s: State) {
    && (forall fd | fd in s.table :: s.table[fd] in s.conns && s.conns[s.table[fd]].fd == fd)
    && (forall k | k in s.watch :: s.watch[k] in s.conns && KeyOf(s.conns[s.watch[k]]) == k)
    && (forall k | k in s.listed ::
        s.listed[k] in s.conns && KeyOf(s.conns[s.listed[k]]) == k && s.conns[s.listed[k]].connected)
  }

  /** The connection that the main thread is setting up; it is not in the table yet. */
  function Making(m: Main): Option<int> {
    if m.Created? || m.Handed? then Some(m.id) else None
  }

  /** Every connection alive is in the main thread's table until its own delete task has run. */
  ghost predicate InTable(s: State) {
    && (Making(s.main).Some? ==> Making(s.main).value in s.conns && Making(s.main).value !in s.erased)
    && (forall fd | fd in s.table :: s.table[fd] !in s.erased)
    && forall id | id in s.conns && id !in s.erased && Making(s.main) != Some(id) ::
      s.conns[id].fd in s.table && s.table[s.conns[id].fd] == id
  }

  /** Nothing happens to a connection before it listens. */
  ghost predicate Phases(s: State) {
    && (s.main.Created? ==> s.main.id in s.conns && s.conns[s.main.id].phase.Made?)
    && (forall id | id in s.conns && !s.conns[id].phase.Listening? :: s.conns[id].connected && !s.conns[id].dispatched)
    && (forall k | k in s.watch :: s.watch[k] in s.conns && s.conns[s.watch[k]].phase.Listening?)
    && (forall k | k in s.listed :: s.listed[k] in s.conns && s.conns[s.listed[k]].phase.Listening?)
  }

  /** Who has posted: exactly the connections alive that have left `close`, and the destroyed ones. */
  ghost predicate Posted(s: State) {
    && (forall id | id in s.conns :: id in s.posts <==> !s.conns[id].connected && !s.conns[id].closing)
    && (forall id | 0 <= id < s.next && id !in s.conns :: id in s.erased)
    && (forall id | id in s.conns && s.conns[id].closing :: !s.conns[id].connected && s.conns[id].dispatched)
    && (forall id | id in s.posts :: 0 <= id < s.next)
  }

  /** The delete tasks, in the order of their posting: run, running, waiting. */
  ghost predicate Tasks(s: State) {
    && Distinct(s.posts)
    && s.posts == s.erased + (if s.main.Deleting? then [s.main.task.poster] else []) + Posters(s.deletes)
    && (forall t | t in s.deletes :: t.poster in s.conns && s.conns[t.poster].fd == t.fd)
    && (s.main.Deleting? ==>
        var task := s.main.task;
        task.poster in s.conns && s.conns[task.poster].fd == task.fd && s.main.got == Some(task.poster))
    && s.misses == 0
  }

  function Posters(tasks: seq<DeleteTask>): (ids: seq<int>)
    ensures |ids| == |tasks| && forall i | 0 <= i < |ids| :: ids[i] == tasks[i].poster
  {
    seq(|tasks|, i requires 0 <= i < |tasks| => tasks[i].poster)
  }

  ghost predicate Counted(max: int, s: State) {
    && s.nums == |s.conns|
    && (s.nums == 0 || s.nums <= max + 1)
    && (s.main.Admitted? ==> s.nums <= max)
  }

  ghost predicate Inv(max: int, s: State) {
    Descriptors(s) && Tables(s) && InTable(s) && Phases(s) && Posted(s) && Tasks(s) && Counted(max, s)
  }

  lemma ErasedBefore(s: State)
    requires Tasks(s)
    ensures forall id | id in s.erased :: id in s.posts
    ensures forall t | t in s.deletes :: t.poster !in s.erased && t.poster in s.posts
    ensures s.main.Deleting? ==> s.main.task.poster !in s.erased && s.main.task.poster in s.posts
  {
    var busy := if s.main.Deleting? then [s.main.task.poster] else [];
    var n, m := |s.erased|, |busy|;
    forall t | t in s.deletes
      ensures t.poster !in s.erased && t.poster in s.posts
    {
      var j :| 0 <= j < |s.deletes| && s.deletes[j] == t;
      assert s.posts[n + m + j] == t.poster;
      assert forall i | 0 <= i < n :: s.posts[i] == s.erased[i];
    }
    assert forall i | 0 <= i < n :: s.posts[i] == s.erased[i];
    if s.main.Deleting? {
      assert s.posts[n] == busy[0];
    }
  }

  /** A connection without any reference has been closed, and its delete task has run. */
  lemma UnreferencedIsDone(s: State, id: int)
    requires InTable(s) && Posted(s) && Tasks(s) && id in s.conns && !Referenced(s, id)
    ensures !s.conns[id].connected && id in s.erased && id in s.posts
  {
  }

  lemma SameTasks(s: State, s': State)
    requires Tasks(s) && s'.posts == s.posts && s'.erased == s.erased && s'.deletes == s.deletes
    requires s'.misses == s.misses
    requires s'.main == s.main || (!s.main.Deleting? && !s'.main.Deleting?)
    requires forall id | id in s.conns :: id in s'.conns && s'.conns[id].fd == s.conns[id].fd
    ensures Tasks(s')
  {
  }

  lemma PostTasks(s: State, id: int)
    requires Tasks(s) && Posted(s) && id in s.conns && s.conns[id].closing
    ensures Tasks(AfterPost(s, id))
  {
    assert Posters(s.deletes + [DeleteTask(s.conns[id].fd, id)]) == Posters(s.deletes) + [id];
  }

  lemma FirstPoster(erased: seq<int>, tasks: seq<DeleteTask>)
    requires tasks != []
    ensures erased + [] + Posters(tasks) == erased + [tasks[0].poster] + Posters(tasks[1..])
  {
  }

  lemma TakeDeleteTasks(s: State)
    requires Tasks(s) && InTable(s) && s.main.Waiting? && s.deletes != []
    ensures Tasks(AfterTakeDelete(s))
  {
    ErasedBefore(s);
    hide Distinct, Posters;
    FirstPoster(s.erased, s.deletes);
    assert s.deletes[0] in s.deletes;
  }

  lemma MainMoves(s: State, s': State)
    requires Tables(s) && InTable(s) && Phases(s) && Posted(s)
    requires s' == s.(main := s'.main, open := s'.open, deletes := s'.deletes)
    requires Making(s.main) == Making(s'.main) == None
    ensures Tables(s') && InTable(s') && Phases(s') && Posted(s')
  {
  }

  lemma CreateTables(s: State, loop: int)
    requires Descriptors(s) && Tables(s) && Phases(s) && Tasks(s) && s.main.Admitted?
    ensures var s' := AfterCreate(s, loop);
      Tables(s') && Phases(s') && Tasks(s')
  {
    hide Tasks;
    SameTasks(s, AfterCreate(s, loop));
  }

  lemma CreateOwner(s: State, loop: int)
    requires Descriptors(s) && InTable(s) && Posted(s) && Tasks(s) && s.main.Admitted?
    ensures var s' := AfterCreate(s, loop);
      InTable(s') && Posted(s')
  {
    ErasedBefore(s);
    hide Tasks;
  }

  lemma AcceptInv(max: int, s: State, fd: int)
    requires Inv(max, s) && s.main.Waiting? && fd !in s.open
    ensures Inv(max, AfterAccept(s, fd))
  {
    hide Tasks, Tables, InTable, Phases, Posted;
    MainMoves(s, AfterAccept(s, fd));
    SameTasks(s, AfterAccept(s, fd));
  }

  lemma CheckInv(max: int, s: State)
    requires Inv(max, s) && s.main.Accepted?
    ensures Inv(max, AfterCheck(max, s))
  {
    hide Tasks, Tables, InTable, Phases, Posted;
    MainMoves(s, AfterCheck(max, s));
    SameTasks(s, AfterCheck(max, s));
  }

  lemma CreateInv(max: int, s: State, loop: int)
    requires Inv(max, s) && s.main.Admitted?
    ensures Inv(max, AfterCreate(s, loop))
  {
    hide Tasks, Tables, InTable, Phases, Posted;
    CreateTables(s, loop);
    CreateOwner(s, loop);
  }

  /** Steps that leave the set of connections, their descriptors and the count alone. */
  lemma SameConns(max: int, s: State, s': State)
    requires Descriptors(s) && Counted(max, s)
    requires s'.conns.Keys == s.conns.Keys && forall id | id in s.conns :: s'.conns[id].fd == s.conns[id].fd
    requires s'.open == s.open && s'.next == s.next && s'.nums == s.nums
    requires Pending(s'.main) == Pending(s.main) && (s'.main.Admitted? ==> s.main.Admitted?)
    ensures Descriptors(s') && Counted(max, s')
  {
    assert |s'.conns| == |s'.conns.Keys| == |s.conns|;
  }

  lemma TakeDeleteInv(max: int, s: State)
    requires Inv(max, s) && s.main.Waiting? && s.deletes != []
    ensures Inv(max, AfterTakeDelete(s))
  {
    hide Tasks, Tables, InTable, Phases, Posted;
    TakeDeleteTasks(s);
    MainMoves(s, AfterTakeDelete(s));
  }

  lemma EraseInv(max: int, s: State)
    requires Inv(max, s) && s.main.Deleting?
    ensures Inv(max, AfterErase(s))
  {
    hide InTable, Posted, Phases, Tables, Tasks, Descriptors, Counted;
    EraseOwner(s);
    EraseTables(s);
    SameConns(max, s, AfterErase(s));
  }

  lemma EraseTables(s: State)
    requires Tables(s) && Phases(s) && Tasks(s) && s.main.Deleting?
    ensures Tables(AfterErase(s)) && Phases(AfterErase(s)) && Tasks(AfterErase(s))
  {
    hide Distinct;
    var task := s.main.task;
    assert s.erased + [task.poster] + Posters(s.deletes) == s.erased + [task.poster] + [] + Posters(s.deletes);
  }

  lemma EraseOwner(s: State)
    requires Descriptors(s) && InTable(s) && Tables(s) && Posted(s) && Tasks(s) && s.main.Deleting?
    ensures InTable(AfterErase(s)) && Posted(AfterErase(s))
  {
    ErasedBefore(s);
  }

  /** What a callback in progress and the application's references may change about a connection. */
  predicate Touched(c: Conn, c': Conn) {
    && c' == c.(dispatched := c'.dispatched, holders := c'.holders)
    && (c'.dispatched ==> c'.phase.Listening?) && (c'.closing ==> c'.dispatched)
  }

  lemma EnqueueTables(s: State, id: int)
    requires Descriptors(s) && Tables(s) && Phases(s) && InTable(s) && s.main == Created(id) && id in s.conns
    ensures Tables(AfterEnqueue(s, id)) && Phases(AfterEnqueue(s, id))
  {
    hide InTable;
  }

  lemma EnqueueOwner(s: State, id: int)
    requires Descriptors(s) && Tables(s) && Phases(s) && InTable(s) && Posted(s) && s.main == Created(id)
    requires id in s.conns
    ensures InTable(AfterEnqueue(s, id)) && Posted(AfterEnqueue(s, id))
  {
  }

  lemma EnqueueInv(max: int, s: State, id: int)
    requires Inv(max, s) && s.main == Created(id) && id in s.conns
    ensures Inv(max, AfterEnqueue(s, id))
  {
    hide Tasks, Tables, InTable, Phases, Posted, Descriptors, Counted;
    EnqueueTables(s, id);
    EnqueueOwner(s, id);
    SameConns(max, s, AfterEnqueue(s, id));
    SameTasks(s, AfterEnqueue(s, id));
  }

  lemma StoreTables(s: State, id: int)
    requires Descriptors(s) && Tables(s) && Phases(s) && InTable(s) && s.main == Handed(id) && id in s.conns
    ensures Tables(AfterStore(s, id)) && Phases(AfterStore(s, id))
  {
    hide InTable;
  }

  lemma StoreOwner(s: State, id: int)
    requires Descriptors(s) && Tables(s) && Phases(s) && InTable(s) && Posted(s) && s.main == Handed(id)
    requires id in s.conns
    ensures InTable(AfterStore(s, id)) && Posted(AfterStore(s, id))
  {
  }

  lemma StoreInv(max: int, s: State, id: int)
    requires Inv(max, s) && s.main == Handed(id) && id in s.conns
    ensures Inv(max, AfterStore(s, id))
  {
    hide Tasks, Tables, InTable, Phases, Posted, Descriptors, Counted;
    StoreTables(s, id);
    StoreOwner(s, id);
    SameConns(max, s, AfterStore(s, id));
    SameTasks(s, AfterStore(s, id));
  }

  lemma ListenTables(s: State, id: int)
    requires Descriptors(s) && Tables(s) && Phases(s) && InTable(s) && id in s.conns && s.conns[id].phase.Queued?
    ensures Tables(AfterListen(s, id)) && Phases(AfterListen(s, id))
  {
    ListenTable(s, id);
    ListenPhases(s, id);
    hide Tables, Phases, AfterListen;
  }

  lemma ListenTable(s: State, id: int)
    requires Descriptors(s) && Tables(s) && id in s.conns && s.conns[id].connected
    ensures Tables(AfterListen(s, id))
  {
  }

  lemma ListenPhases(s: State, id: int)
    requires Phases(s) && id in s.conns && s.conns[id].phase.Queued?
    ensures Phases(AfterListen(s, id))
  {
  }

  lemma ListenOwner(s: State, id: int)
    requires Descriptors(s) && Tables(s) && Phases(s) && InTable(s) && Posted(s) && id in s.conns
    requires s.conns[id].phase.Queued?
    ensures InTable(AfterListen(s, id)) && Posted(AfterListen(s, id))
  {
  }

  lemma ListenInv(max: int, s: State, id: int)
    requires Inv(max, s) && id in s.conns && s.conns[id].phase.Queued?
    ensures Inv(max, AfterListen(s, id))
  {
    hide Tasks, Tables, InTable, Phases, Posted, Descriptors, Counted;
    ListenTables(s, id);
    ListenOwner(s, id);
    SameConns(max, s, AfterListen(s, id));
    SameTasks(s, AfterListen(s, id));
  }

  lemma ShutTables(s: State, id: int)
    requires Descriptors(s) && Tables(s) && Phases(s) && InTable(s) && id in s.conns && s.conns[id].dispatched
    requires s.conns[id].connected
    ensures Tables(AfterShut(s, id)) && Phases(AfterShut(s, id))
  {
    hide InTable;
  }

  lemma ShutOwner(s: State, id: int)
    requires Descriptors(s) && Tables(s) && Phases(s) && InTable(s) && Posted(s) && id in s.conns
    requires s.conns[id].dispatched && s.conns[id].connected
    ensures InTable(AfterShut(s, id)) && Posted(AfterShut(s, id))
  {
  }

  lemma ShutInv(max: int, s: State, id: int)
    requires Inv(max, s) && id in s.conns && s.conns[id].dispatched && s.conns[id].connected
    ensures Inv(max, AfterShut(s, id))
  {
    hide Tasks, Tables, InTable, Phases, Posted, Descriptors, Counted;
    ShutTables(s, id);
    ShutOwner(s, id);
    SameConns(max, s, AfterShut(s, id));
    SameTasks(s, AfterShut(s, id));
  }

  lemma PostTables(s: State, id: int)
    requires Descriptors(s) && Tables(s) && Phases(s) && InTable(s) && id in s.conns && s.conns[id].closing
    ensures Tables(AfterPost(s, id)) && Phases(AfterPost(s, id))
  {
    hide InTable;
  }

  lemma PostOwner(s: State, id: int)
    requires Descriptors(s) && Tables(s) && Phases(s) && InTable(s) && Posted(s) && id in s.conns && s.conns[id].closing
    ensures InTable(AfterPost(s, id)) && Posted(AfterPost(s, id))
  {
  }

  lemma PostInv(max: int, s: State, id: int)
    requires Inv(max, s) && id in s.conns && s.conns[id].closing
    ensures Inv(max, AfterPost(s, id))
  {
    hide Tasks, Tables, InTable, Phases, Posted, Descriptors, Counted;
    PostTables(s, id);
    PostOwner(s, id);
    SameConns(max, s, AfterPost(s, id));
    PostTasks(s, id);
  }

  lemma RearmTables(s: State, id: int)
    requires Descriptors(s) && Tables(s) && Phases(s) && InTable(s) && id in s.conns && s.conns[id].phase.Listening?
    ensures Tables(AfterRearm(s, id)) && Phases(AfterRearm(s, id))
  {
    hide InTable;
  }

  lemma RearmOwner(s: State, id: int)
    requires Descriptors(s) && Tables(s) && Phases(s) && InTable(s) && Posted(s) && id in s.conns
    requires s.conns[id].phase.Listening?
    ensures InTable(AfterRearm(s, id)) && Posted(AfterRearm(s, id))
  {
  }

  lemma RearmInv(max: int, s: State, id: int)
    requires Inv(max, s) && id in s.conns && s.conns[id].phase.Listening?
    ensures Inv(max, AfterRearm(s, id))
  {
    hide Tasks, Tables, InTable, Phases, Posted, Descriptors, Counted;
    RearmTables(s, id);
    RearmOwner(s, id);
    SameConns(max, s, AfterRearm(s, id));
    SameTasks(s, AfterRearm(s, id));
  }

  lemma UnwatchTables(s: State, id: int)
    requires Descriptors(s) && Tables(s) && Phases(s) && InTable(s) && id in s.conns
    ensures Tables(AfterUnwatch(s, id)) && Phases(AfterUnwatch(s, id))
  {
    hide InTable;
  }

  lemma UnwatchOwner(s: State, id: int)
    requires Descriptors(s) && Tables(s) && Phases(s) && InTable(s) && Posted(s) && id in s.conns
    ensures InTable(AfterUnwatch(s, id)) && Posted(AfterUnwatch(s, id))
  {
  }

  lemma UnwatchInv(max: int, s: State, id: int)
    requires Inv(max, s) && id in s.conns
    ensures Inv(max, AfterUnwatch(s, id))
  {
    hide Tasks, Tables, InTable, Phases, Posted, Descriptors, Counted;
    UnwatchTables(s, id);
    UnwatchOwner(s, id);
    SameConns(max, s, AfterUnwatch(s, id));
    SameTasks(s, AfterUnwatch(s, id));
  }

  lemma TouchTables(s: State, id: int, c: Conn)
    requires Descriptors(s) && Tables(s) && Phases(s) && InTable(s) && id in s.conns && Touched(s.conns[id], c)
    ensures Tables(With(s, id, c)) && Phases(With(s, id, c))
  {
    hide InTable;
  }

  lemma TouchOwner(s: State, id: int, c: Conn)
    requires Descriptors(s) && Tables(s) && Phases(s) && InTable(s) && Posted(s) && id in s.conns
    requires Touched(s.conns[id], c)
    ensures InTable(With(s, id, c)) && Posted(With(s, id, c))
  {
  }

  lemma TouchInv(max: int, s: State, id: int, c: Conn)
    requires Inv(max, s) && id in s.conns && Touched(s.conns[id], c)
    ensures Inv(max, With(s, id, c))
  {
    hide Tasks, Tables, InTable, Phases, Posted, Descriptors, Counted;
    TouchTables(s, id, c);
    TouchOwner(s, id, c);
    SameConns(max, s, With(s, id, c));
    SameTasks(s, With(s, id, c));
  }

  lemma DestroyInv(max: int, s: State, id: int)
    requires Inv(max, s) && id in s.conns && !Referenced(s, id)
    ensures Inv(max, AfterDestroy(s, id))
  {
    UnreferencedIsDone(s, id);
    ErasedBefore(s);
  }

  lemma StepInv(max: int, s: State, l: Label)
    requires Inv(max, s)
    ensures Inv(max, Step(max, s, l))
  {
    hide Descriptors, Tables, InTable, Tasks, Counted, Referenced;
    if Enabled(s, l) {
      match l
      case Accept(fd) => AcceptInv(max, s, fd);
      case Check => CheckInv(max, s);
      case Create(loop) => CreateInv(max, s, loop);
      case Enqueue => EnqueueInv(max, s, s.main.id);
      case Store => StoreInv(max, s, s.main.id);
      case TakeDelete => TakeDeleteInv(max, s);
      case Erase => EraseInv(max, s);
      case Listen(id) => ListenInv(max, s, id);
      case Dispatch(id) => TouchInv(max, s, id, s.conns[id].(dispatched := true));
      case Shut(id) => ShutInv(max, s, id);
      case PostDelete(id) => PostInv(max, s, id);
      case Leave(id) => TouchInv(max, s, id, s.conns[id].(dispatched := false));
      case Rearm(id) => RearmInv(max, s, id);
      case Unwatch(id) => UnwatchInv(max, s, id);
      case Hold(id) => TouchInv(max, s, id, s.conns[id].(holders := s.conns[id].holders + 1));
      case Drop(id) => TouchInv(max, s, id, s.conns[id].(holders := s.conns[id].holders - 1));
      case Destroy(id) => DestroyInv(max, s, id);
    }
  }

  lemma StartInv(max: int)
    ensures Inv(max, START)
  {
  }

  lemma {:induction false} RunInv(max: int, s: State, labels: seq<Label>)
    requires Inv(max, s)
    ensures Inv(max, Run(max, s, labels))
    decreases |labels|
  {
    hide Inv, Step;
    if labels != [] {
      StepInv(max, s, labels[0]);
      RunInv(max, Step(max, s, labels[0]), labels[1..]);
    }
  }

  ghost predicate Reachable(max: int, s: State) {
    exists labels :: s == Run(max, START, labels)
  }

  lemma ReachableInv(max: int, s: State)
    requires Reachable(max, s)
    ensures Inv(max, s)
  {
    hide Inv, Run;
    var labels :| s == Run(max, START, labels);
    StartInv(max);
    RunInv(max, START, labels);
  }

  // ---- What holds in every run ----

  /** A descriptor in the main thread's table is open, so the kernel does not hand it out again, and no
      two connections alive ever have the same one. */
  lemma DescriptorsNotReused(max: int, s: State)
    requires Reachable(max, s)
    ensures forall fd | fd in s.table ::
      s.table[fd] in s.conns && s.conns[s.table[fd]].fd == fd && !Enabled(s, Accept(fd))
    ensures forall id, id' | id in s.conns && id' in s.conns && s.conns[id].fd == s.conns[id'].fd :: id == id'
  {
    ReachableInv(max, s);
    hide InTable, Phases, Posted, Tasks, Counted;
    forall fd | fd in s.table
      ensures s.table[fd] in s.conns && s.conns[s.table[fd]].fd == fd && !Enabled(s, Accept(fd))
    {
      assert Descriptors(s) && Tables(s);
      var id := s.table[fd];
      assert id in s.conns && s.conns[id].fd in s.open;
    }
  }

  /** Delete tasks run in the order of their posting, no connection posts two, and each finds the entry of
      the connection that posted it. A connection alive has posted exactly if its `close` is through; one
      that has been destroyed has posted and its task has run. */
  lemma OneDeleteEach(max: int, s: State)
    requires Reachable(max, s)
    ensures Distinct(s.posts) && s.misses == 0
    ensures s.posts == s.erased + (if s.main.Deleting? then [s.main.task.poster] else []) + Posters(s.deletes)
    ensures forall id | id in s.conns :: id in s.posts <==> !s.conns[id].connected && !s.conns[id].closing
    ensures forall id | 0 <= id < s.next && id !in s.conns :: id in s.erased && id in s.posts
  {
    ReachableInv(max, s);
    hide Descriptors, Tables, InTable, Phases, Counted;
    ErasedBefore(s);
  }

  /** While a delete task runs, the table still has the connection that posted it under its descriptor. */
  lemma DeletesOwnEntry(max: int, s: State)
    requires Reachable(max, s) && s.main.Deleting?
    ensures var task := s.main.task;
      task.fd in s.table && s.main.got == Some(task.poster) && s.table[task.fd] == task.poster
  {
    ReachableInv(max, s);
    hide Descriptors, Tables, Phases, Counted;
    ErasedBefore(s);
  }

  /** The destructor never finds a connection that is still connected. */
  lemma DestroyedWereClosed(max: int, s: State, id: int)
    requires Reachable(max, s) && Enabled(s, Destroy(id))
    ensures !s.conns[id].connected && id in s.erased
  {
    ReachableInv(max, s);
    hide Reachable;
    UnreferencedIsDone(s, id);
  }

  /** The admission check lets one connection more through than the configured maximum, and never two. */
  lemma ConnectionBound(max: int, s: State)
    requires Reachable(max, s)
    ensures s.nums == |s.conns| && (s.nums == 0 || s.nums <= max + 1)
  {
    ReachableInv(max, s);
  }

  /** A connection goes exactly when its delete task has run and no callback in progress, no reference of the
      application and no registration is left. */
  lemma DestroyExactly(max: int, s: State, id: int)
    requires Reachable(max, s) && id in s.conns
    ensures Enabled(s, Destroy(id)) <==>
      id in s.erased && !s.conns[id].dispatched && s.conns[id].holders == 0 && id !in s.watch.Values
  {
    ReachableInv(max, s);
    hide Descriptors, Counted, Reachable;
    if !Referenced(s, id) {
      UnreferencedIsDone(s, id);
    }
    if id in s.erased {
      ErasedBefore(s);
      assert InTable(s) && Posted(s) && Tables(s);
      assert forall fd | fd in s.table :: s.table[fd] != id;
      assert !s.conns[id].connected;
      assert forall k | k in s.listed :: s.listed[k] != id;
      assert !MainHolds(s, id);
    }
  }
}
