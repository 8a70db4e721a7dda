/** The injection's undo log and its copy on disk (scripts/gauntlet-gs033/tn.py:180-363). */
module UndoLog {
  import opened Wrappers

  type Node = nat
  type Content = int

  /** Files of a data directory: `rest` is what follows "peers.cache.scratch-gs033-". */
  datatype File = Cache | Backup(tag: string) | Scratch(rest: string) | Other(name: string)

  datatype Path = Path(node: Node, file: File)

  type Disk = map<Path, Content>

  type Moves = map<Node, Option<File>>

  /** state.json: the log, or a file whose writing was cut short. */
  datatype Saved = Saved(moved: Moves, stopped: seq<Node>) | Torn

  /** `ST` as far as it is saved, state.json, the nodes' data directories, and the jobs the run left stopped. */
  datatype State = State(moved: Moves, stopped: seq<Node>, saved: Option<Saved>, disk: Disk, down: set<Node>)

  function Look(d: Disk, p: Path): Option<Content> { if p in d then Some(d[p]) else None }

  function Rename(d: Disk, a: Path, b: Path): (r: Disk)
    requires a in d
    ensures Look(r, b) == Some(d[a])
    ensures forall q :: q != b ==> Look(r, q) == if q == a then None else Look(d, q)
  {
    (d - {a})[b := d[a]]
  }

  function Save(s: State): State { s.(saved := Some(Saved(s.moved, s.stopped))) }

  predicate IsPrefix(a: string, b: string) { |a| <= |b| && b[..|a|] == a }

  /** A scratch file that the run's clean-up takes for its own. */
  predicate OfRun(tag: string, f: File) { f.Scratch? && IsPrefix(tag + "-", f.rest) }

  // ----- the operations -----

  function Moved(tag: string, s: State, i: Node, stamp: string): State {
    var p := Path(i, Cache);
    if i in s.moved then
      if p in s.disk then s.(disk := Rename(s.disk, p, Path(i, Scratch(tag + "-" + stamp)))) else s
    else if p in s.disk then
      Save(s.(disk := Rename(s.disk, p, Path(i, Backup(tag))), moved := s.moved[i := Some(Backup(tag))]))
    else
      Save(s.(moved := s.moved[i := None]))
  }

  function Cleared(tag: string, d: Disk, i: Node): (r: Disk)
    ensures forall q :: Look(r, q) == if q.node == i && (q.file.Cache? || OfRun(tag, q.file)) then None else Look(d, q)
  {
    map q | q in d && !(q.node == i && (q.file.Cache? || OfRun(tag, q.file))) :: d[q]
  }

  function PutBack(tag: string, d: Disk, i: Node, bak: Option<File>): Disk {
    var c := Cleared(tag, d, i);
    if bak.Some? && Path(i, bak.value) in c then Rename(c, Path(i, bak.value), Path(i, Cache)) else c
  }

  function Restored(tag: string, s: State, i: Node): State {
    var bak := if i in s.moved then s.moved[i] else None;
    Save(s.(moved := s.moved - {i})).(disk := PutBack(tag, s.disk, i, bak))
  }

  function Stopped(s: State, i: Node): State {
    Save(s.(stopped := if i in s.stopped then s.stopped else s.stopped + [i], down := s.down + {i}))
  }

  function Without(xs: seq<Node>, i: Node): seq<Node> {
    if xs == [] then [] else if xs[0] == i then xs[1..] else [xs[0]] + Without(xs[1..], i)
  }

  function Started(s: State, i: Node, busy: bool): State {
    if busy then s else Save(s.(stopped := Without(s.stopped, i), down := s.down - {i}))
  }

  /** A running node writes its cache, or deletes it. */
  function Written(s: State, i: Node, content: Option<Content>): State {
    s.(disk := if content.Some? then s.disk[Path(i, Cache) := content.value] else s.disk - {Path(i, Cache)})
  }

  // ----- what is kept -----

  /** The saved log is the log in memory; a run that has saved nothing has nothing to undo. */
  predicate InStep(s: State) {
    match s.saved
    case None => s.moved == map[] && s.stopped == []
    case Some(v) => v == Saved(s.moved, s.stopped)
  }

  /** Every backup named in the log is on disk. */
  predicate Backups(tag: string, s: State) {
    forall i :: i in s.moved && s.moved[i].Some? ==>
      s.moved[i].value == Backup(tag) && Path(i, Backup(tag)) in s.disk
  }

  /** What the recovery needs: the saved log is the log, and its backups are there. */
  predicate Restorable(tag: string, s: State) { InStep(s) && Backups(tag, s) && Distinct(s.stopped) }

  /** Only logged nodes hold scratch files of the run, and only logged jobs are down. */
  predicate Tidy(tag: string, s: State) {
    && (forall q :: q in s.disk && OfRun(tag, q.file) ==> q.node in s.moved)
    && (forall i :: i in s.down ==> i in s.stopped)
  }

  predicate Valid(tag: string, s: State) { Restorable(tag, s) && Tidy(tag, s) }

  datatype Event =
    | Move(i: Node, stamp: string)
    | Write(i: Node, content: Option<Content>)
    | Stop(i: Node)
    | Start(i: Node, busy: bool)
    | Restore(i: Node)

  /** Whole operations and node writes, in any order; only logged nodes are restored. */
  function Step(tag: string, s: State, e: Event): State {
    match e
    case Move(i, stamp) => Moved(tag, s, i, stamp)
    case Write(i, content) => Written(s, i, content)
    case Stop(i) => Stopped(s, i)
    case Start(i, busy) => Started(s, i, busy)
    case Restore(i) => if i in s.moved then Restored(tag, s, i) else s
  }

  function Run(tag: string, s: State, es: seq<Event>): State
    decreases |es|
  {
    if es == [] then s else Run(tag, Step(tag, s, es[0]), es[1..])
  }

  lemma {:induction false} WithoutExact(xs: seq<Node>, i: Node)
    requires Distinct(xs)
    ensures Distinct(Without(xs, i)) && forall x :: x in Without(xs, i) <==> x in xs && x != i
  {
    if xs != [] {
      WithoutExact(xs[1..], i);
      assert forall x :: x in xs <==> x == xs[0] || x in xs[1..];
      if xs[0] != i {
        var rest := Without(xs[1..], i);
        assert xs[0] !in xs[1..];
        assert xs[0] !in rest;
      }
    }
  }

  /**
   * After a move the node has no cache: its bytes are the backup, logged and saved, at the first move, and later a
   * scratch file the run's clean-up knows; no other file, node or job is touched.
   */
  lemma MovedExact(tag: string, s: State, i: Node, stamp: string)
    ensures var t := Moved(tag, s, i, stamp);
            var had := Look(s.disk, Path(i, Cache));
            var aside := Path(i, if i in s.moved then Scratch(tag + "-" + stamp) else Backup(tag));
            && Look(t.disk, Path(i, Cache)) == None
            && (had.Some? ==> Look(t.disk, aside) == had)
            && (forall q :: q != Path(i, Cache) && (q != aside || had.None?) ==> Look(t.disk, q) == Look(s.disk, q))
            && t.moved == (if i in s.moved then s.moved
                           else s.moved[i := if had.Some? then Some(Backup(tag)) else None])
            && t.saved == (if i in s.moved then s.saved else Some(Saved(t.moved, t.stopped)))
            && t.stopped == s.stopped && t.down == s.down
  {
  }

  /** A clean-up knows the scratch files by the run's name and a dash. */
  lemma OfRunExact(tag: string, rest: string)
    ensures OfRun(tag, Scratch(rest)) <==> exists stamp :: rest == tag + "-" + stamp
    ensures !OfRun(tag, Cache) && !OfRun(tag, Backup(tag)) && forall name :: !OfRun(tag, Other(name))
  {
    if OfRun(tag, Scratch(rest)) { assert rest == tag + "-" + rest[|tag| + 1..]; }
  }

  lemma MovedKeeps(tag: string, s: State, i: Node, stamp: string)
    requires Valid(tag, s)
    ensures Valid(tag, Moved(tag, s, i, stamp))
  {
    hide OfRun;
    var t := Moved(tag, s, i, stamp);
    forall q | q in t.disk && OfRun(tag, q.file) ensures q.node in t.moved {
      assert Look(t.disk, q).Some?;
    }
  }

  /** What restoring the file's node leaves at its path: the backup as the cache, no backup, no scratch of the run. */
  function After(tag: string, d: Disk, bak: Option<File>, q: Path): Option<Content> {
    if q.file.Cache? then if bak.Some? then Look(d, Path(q.node, bak.value)) else None
    else if OfRun(tag, q.file) || Some(q.file) == bak then None
    else Look(d, q)
  }

  lemma RestoredExact(tag: string, s: State, i: Node)
    requires Backups(tag, s) && i in s.moved
    ensures forall q :: Look(Restored(tag, s, i).disk, q)
                        == if q.node == i then After(tag, s.disk, s.moved[i], q) else Look(s.disk, q)
  {
    var c := Cleared(tag, s.disk, i);
    if s.moved[i].Some? { assert Look(c, Path(i, Backup(tag))).Some?; }
  }

  /** The cache is the backup again, or gone; the backup and the run's scratch files are gone; nothing else is. */
  lemma RestoredPlain(tag: string, s: State, i: Node, q: Path)
    requires Backups(tag, s) && i in s.moved
    ensures var t := Restored(tag, s, i);
            var after, before := Look(t.disk, q), Look(s.disk, q);
            && (q == Path(i, Cache) ==>
                  after == if s.moved[i].Some? then Look(s.disk, Path(i, Backup(tag))) else None)
            && (q == Path(i, Backup(tag)) ==> after == if s.moved[i].Some? then None else before)
            && (q.node == i && OfRun(tag, q.file) ==> after == None)
            && (q.node != i || (q.file != Cache && q.file != Backup(tag) && !OfRun(tag, q.file)) ==> after == before)
            && t.moved == s.moved - {i} && t.stopped == s.stopped && t.down == s.down
            && t.saved == Some(Saved(t.moved, t.stopped))
  {
    RestoredExact(tag, s, i);
  }

  lemma RestoredKeeps(tag: string, s: State, i: Node)
    requires Restorable(tag, s) && i in s.moved
    ensures Restorable(tag, Restored(tag, s, i)) && (Tidy(tag, s) ==> Tidy(tag, Restored(tag, s, i)))
  {
    RestoredExact(tag, s, i);
    var t := Restored(tag, s, i);
    hide PutBack, OfRun;
    forall j | j in t.moved && t.moved[j].Some?
      ensures t.moved[j].value == Backup(tag) && Path(j, Backup(tag)) in t.disk
    {
      assert Look(t.disk, Path(j, Backup(tag))).Some?;
    }
    if Tidy(tag, s) {
      forall q | q in t.disk && OfRun(tag, q.file) ensures q.node in t.moved { assert Look(t.disk, q).Some?; }
    }
  }

  lemma StartedKeeps(tag: string, s: State, i: Node, busy: bool)
    requires Restorable(tag, s)
    ensures Restorable(tag, Started(s, i, busy)) && (Tidy(tag, s) ==> Tidy(tag, Started(s, i, busy)))
  {
    WithoutExact(s.stopped, i);
    hide OfRun, Distinct, Without;
  }

  lemma StepKeeps(tag: string, s: State, e: Event)
    requires Valid(tag, s)
    ensures Valid(tag, Step(tag, s, e))
  {
    match e {
      case Move(i, stamp) => MovedKeeps(tag, s, i, stamp);
      case Restore(i) => if i in s.moved { RestoredKeeps(tag, s, i); }
      case Start(i, busy) => StartedKeeps(tag, s, i, busy);
      case _ =>
    }
  }

  lemma {:induction false} RunKeeps(tag: string, s: State, es: seq<Event>)
    requires Valid(tag, s)
    ensures Valid(tag, Run(tag, s, es))
    decreases |es|
  {
    if es != [] {
      hide Valid, Step;
      StepKeeps(tag, s, es[0]);
      RunKeeps(tag, Step(tag, s, es[0]), es[1..]);
    }
  }

  // ----- undoing -----

  function RestoreEach(tag: string, s: State, nodes: seq<Node>): State
    decreases |nodes|
  {
    if nodes == [] then s else RestoreEach(tag, Restored(tag, s, nodes[0]), nodes[1..])
  }

  predicate Among(nodes: seq<Node>, m: Moves) { Distinct(nodes) && forall i :: i in nodes ==> i in m }

  /** Restored in any order, each node's files are what restoring it alone would leave, and no others change. */
  lemma {:induction false} RestoreEachExact(tag: string, s: State, nodes: seq<Node>)
    requires Restorable(tag, s) && Among(nodes, s.moved)
    ensures var t := RestoreEach(tag, s, nodes);
            && Restorable(tag, t) && (Tidy(tag, s) ==> Tidy(tag, t))
            && t.stopped == s.stopped && t.down == s.down && (forall i :: i in t.moved <==> i in s.moved && i !in nodes)
            && forall q :: Look(t.disk, q)
                           == if q.node in nodes then After(tag, s.disk, s.moved[q.node], q) else Look(s.disk, q)
    decreases |nodes|
  {
    if nodes != [] {
      var i, rest := nodes[0], nodes[1..];
      assert i in nodes && forall j :: j in nodes <==> j == i || j in rest;
      var r := Restored(tag, s, i);
      assert r.stopped == s.stopped && r.down == s.down && r.moved == s.moved - {i};
      RestoredExact(tag, s, i);
      RestoredKeeps(tag, s, i);
      AfterOther(tag, s, i);
      hide Restorable, Tidy, Restored, OfRun, After;
      RestoreEachExact(tag, r, rest);
    }
  }

  /** Restoring one node leaves what restoring another will do as it was. */
  lemma AfterOther(tag: string, s: State, i: Node)
    requires Backups(tag, s) && i in s.moved
    ensures forall q: Path :: q.node != i && q.node in s.moved ==>
              After(tag, Restored(tag, s, i).disk, s.moved[q.node], q) == After(tag, s.disk, s.moved[q.node], q)
  {
    RestoredExact(tag, s, i);
    hide Restored, OfRun;
  }

  /** The log is undone: nothing is moved, each logged node's files are restored, every other file is untouched. */
  ghost predicate Undone(tag: string, s: State, t: State) {
    && t.moved == map[]
    && forall q :: Look(t.disk, q)
                   == if q.node in s.moved then After(tag, s.disk, s.moved[q.node], q) else Look(s.disk, q)
  }

  lemma UndoneInAnyOrder(tag: string, s: State, nodes: seq<Node>)
    requires Restorable(tag, s) && Among(nodes, s.moved) && forall i :: i in s.moved ==> i in nodes
    ensures Undone(tag, s, RestoreEach(tag, s, nodes))
  {
    RestoreEachExact(tag, s, nodes);
    hide Restorable, Tidy, RestoreEach, After;
    assert RestoreEach(tag, s, nodes).moved.Keys == {};
  }

  /** An undone run leaves no scratch file of its own anywhere. */
  lemma NoScratchLeft(tag: string, s: State, t: State)
    requires Valid(tag, s) && Undone(tag, s, t)
    ensures forall q :: q in t.disk ==> !OfRun(tag, q.file)
  {
    forall q | q in t.disk ensures !OfRun(tag, q.file) { assert Look(t.disk, q).Some?; }
  }

  /** A node's backup stays as it was until the node is restored. */
  lemma BackupKept(tag: string, s: State, e: Event, i: Node)
    requires Valid(tag, s) && i in s.moved && e != Restore(i)
    ensures var t := Step(tag, s, e);
            && i in t.moved && t.moved[i] == s.moved[i]
            && Look(t.disk, Path(i, Backup(tag))) == Look(s.disk, Path(i, Backup(tag)))
  {
    if e.Restore? && e.i in s.moved { RestoredExact(tag, s, e.i); }
  }

  lemma {:induction false} BackupKeptRun(tag: string, s: State, es: seq<Event>, i: Node)
    requires Valid(tag, s) && i in s.moved && Restore(i) !in es
    ensures var t := Run(tag, s, es);
            && i in t.moved && t.moved[i] == s.moved[i]
            && Look(t.disk, Path(i, Backup(tag))) == Look(s.disk, Path(i, Backup(tag)))
    decreases |es|
  {
    if es != [] {
      hide Valid, Step;
      BackupKept(tag, s, es[0], i);
      StepKeeps(tag, s, es[0]);
      BackupKeptRun(tag, Step(tag, s, es[0]), es[1..], i);
    }
  }

  /**
   * Whatever is moved, written, stopped, started or restored after a node's first move, undoing gives it the
   * cache it had before.
   */
  lemma CacheComesBack(tag: string, s: State, i: Node, stamp: string, es: seq<Event>, t: State)
    requires Valid(tag, s) && i !in s.moved && Restore(i) !in es
    requires Undone(tag, Run(tag, Moved(tag, s, i, stamp), es), t)
    ensures Look(t.disk, Path(i, Cache)) == Look(s.disk, Path(i, Cache))
  {
    MovedKeeps(tag, s, i, stamp);
    var m := Moved(tag, s, i, stamp);
    BackupKeptRun(tag, m, es, i);
    hide Valid, Run;
    assert Look(t.disk, Path(i, Cache)) == After(tag, Run(tag, m, es).disk, m.moved[i], Path(i, Cache));
  }

  // ----- death and manual restore -----

  /** A new process knows nothing of the log. */
  function Died(s: State): State { s.(moved := map[], stopped := []) }

  /** `manual_restore` reads the saved log back; a torn one it cannot read, and it stops there. */
  function Loaded(s: State): State {
    match s.saved
    case Some(Saved(moved, stopped)) => s.(moved := moved, stopped := stopped)
    case _ => s
  }

  /**
   * After a death between operations, whatever the nodes write meanwhile, the manual restore starts from the
   * log as it was.
   */
  lemma {:induction false} DeathLosesNothing(tag: string, s: State, es: seq<Event>)
    requires Valid(tag, s) && forall e :: e in es ==> e.Write?
    ensures Loaded(Run(tag, Died(s), es)) == Run(tag, s, es)
    decreases |es|
  {
    if es != [] {
      var e := es[0];
      assert e in es && forall x :: x in es[1..] ==> x in es;
      assert Step(tag, Died(s), e) == Died(Step(tag, s, e));
      StepKeeps(tag, s, e);
      DeathLosesNothing(tag, Step(tag, s, e), es[1..]);
    }
  }

  // ----- death inside an operation -----

  /** What the log owes a node: the backup's bytes, no cache, or for a node not moved the cache it has. */
  function Owed(s: State, i: Node): Option<Content> {
    if i !in s.moved then Look(s.disk, Path(i, Cache))
    else if s.moved[i].Some? then Look(s.disk, Path(i, s.moved[i].value))
    else None
  }

  /** The node's cache is what it is owed, whether or not the log is undone. */
  predicate HasOwed(s: State, i: Node) { Look(s.disk, Path(i, Cache)) == Owed(s, i) }

  /** What an operation on a node had done before its log was saved. */
  datatype Done = Nothing | Renamed(stamp: string) | JobStopped | JobStarted

  /**
   * The last thing a dying operation did: work its log does not know of yet; that work, and the truncation of
   * state.json to write it anew; a `restore_cache` saved the log without the node and removed some of the
   * run's scratch files; it removed all of them and the cache.
   */
  datatype Point = Unsaved(done: Done) | LogTorn(done: Done) | LogSaved(removed: set<Path>) | CacheRemoved

  predicate Renames(at: Point) { (at.Unsaved? || at.LogTorn?) && at.done.Renamed? }

  function ScratchOf(tag: string, d: Disk, i: Node): set<Path> { set q | q in d && q.node == i && OfRun(tag, q.file) }

  /** Which points an operation on node i passes. */
  predicate Passes(tag: string, s: State, i: Node, at: Point) {
    match at
    case Unsaved(done) => done.Renamed? ==> Path(i, Cache) in s.disk
    case LogTorn(done) => done.Renamed? ==> i !in s.moved && Path(i, Cache) in s.disk
    case LogSaved(removed) => i in s.moved && forall q :: q in removed ==> q.node == i && OfRun(tag, q.file)
    case CacheRemoved => i in s.moved
  }

  /** Directories and jobs after the work, the log as before. */
  function Worked(tag: string, s: State, i: Node, done: Done): State
    requires done.Renamed? ==> Path(i, Cache) in s.disk
  {
    match done
    case Nothing => s
    case Renamed(stamp) =>
      s.(disk := Rename(s.disk, Path(i, Cache),
                        Path(i, if i in s.moved then Scratch(tag + "-" + stamp) else Backup(tag))))
    case JobStopped => s.(down := s.down + {i})
    case JobStarted => s.(down := s.down - {i})
  }

  /** state.json, the directories and the jobs at that point. */
  function AtDeath(tag: string, s: State, i: Node, at: Point): State
    requires Passes(tag, s, i, at)
  {
    match at
    case Unsaved(done) => Worked(tag, s, i, done)
    case LogTorn(done) => Worked(tag, s, i, done).(saved := Some(Torn))
    case LogSaved(removed) => Save(s.(moved := s.moved - {i})).(disk := s.disk - removed)
    case CacheRemoved => Save(s.(moved := s.moved - {i})).(disk := Cleared(tag, s.disk, i))
  }

  /** What a new process finds and reads back. */
  function Found(tag: string, s: State, i: Node, at: Point): State
    requires Passes(tag, s, i, at)
  {
    Loaded(Died(AtDeath(tag, s, i, at)))
  }

  /** The node's cache and backup at the point. */
  lemma DiskAtDeath(tag: string, s: State, i: Node, at: Point, j: Node)
    requires Passes(tag, s, i, at)
    ensures var d := Found(tag, s, i, at).disk;
            var first := i !in s.moved && Renames(at);
            && Look(d, Path(j, Backup(tag))) == (if first && j == i then Look(s.disk, Path(i, Cache))
                                                 else Look(s.disk, Path(j, Backup(tag))))
            && Look(d, Path(j, Cache)) == (if j == i && (Renames(at) || at.CacheRemoved?) then None
                                           else Look(s.disk, Path(j, Cache)))
  {
  }

  /** The log as the recovery reads it back. */
  lemma LogAtDeath(tag: string, s: State, i: Node, at: Point)
    requires Restorable(tag, s) && Passes(tag, s, i, at)
    ensures var r := Found(tag, s, i, at);
            && r.moved == (if at.Unsaved? then s.moved else if at.LogTorn? then map[] else s.moved - {i})
            && r.stopped == (if at.LogTorn? then [] else s.stopped)
            && (at.LogTorn? ==> r.saved == Some(Torn)) && (!at.LogTorn? ==> InStep(r))
  {
  }

  /** Unless it is torn the log read back can be undone, whatever the point left lying about. */
  lemma FoundRestorable(tag: string, s: State, i: Node, at: Point)
    requires Restorable(tag, s) && Passes(tag, s, i, at) && !at.LogTorn?
    ensures Restorable(tag, Found(tag, s, i, at))
  {
    var r := Found(tag, s, i, at);
    LogAtDeath(tag, s, i, at);
    forall j | j in r.moved && r.moved[j].Some?
      ensures r.moved[j].value == Backup(tag) && Path(j, Backup(tag)) in r.disk
    {
      assert j in s.moved && r.moved[j] == s.moved[j];
      DiskAtDeath(tag, s, i, at, j);
      hide Found, OfRun;
      assert Look(r.disk, Path(j, Backup(tag))).Some?;
    }
  }

  /** A new process recovers from such a death: t is what it leaves. */
  ghost predicate RecoveredTo(tag: string, s: State, i: Node, at: Point, t: State) {
    Passes(tag, s, i, at) && Undone(tag, Found(tag, s, i, at), t)
  }

  lemma SomeNode(nodes: seq<Node>)
    ensures nodes == [] || exists i :: i in nodes
  {
    if nodes != [] { assert nodes[0] in nodes; }
  }

  /** At every point, restoring the nodes of the log it finds, in any order, is a recovery. */
  lemma RecoveryReaches(tag: string, s: State, i: Node, at: Point, nodes: seq<Node>)
    requires Restorable(tag, s) && Passes(tag, s, i, at)
    requires var m := Found(tag, s, i, at).moved; Among(nodes, m) && forall j :: j in m ==> j in nodes
    ensures RecoveredTo(tag, s, i, at, RestoreEach(tag, Found(tag, s, i, at), nodes))
  {
    if at.LogTorn? {
      LogAtDeath(tag, s, i, at);
      hide Found;
      SomeNode(nodes);
    } else {
      FoundRestorable(tag, s, i, at);
      hide Found, Undone;
      UndoneInAnyOrder(tag, Found(tag, s, i, at), nodes);
    }
  }

  /**
   * When the recovery still gives node j the cache it is owed. A rename is undone only for a node already
   * logged; behind a torn log, and for the node whose restore had left the log, the cache must already be
   * what is owed.
   */
  predicate Survives(s: State, i: Node, at: Point, j: Node) {
    match at
    case Unsaved(done) => done.Renamed? ==> j != i || i in s.moved
    case LogTorn(done) => HasOwed(s, j) && !(done.Renamed? && j == i)
    case LogSaved(_) => j != i || HasOwed(s, j)
    case CacheRemoved => j != i || (i in s.moved && s.moved[i].None?)
  }

  /** At every point inside an operation a node gets the cache it is owed exactly when the point survives. */
  lemma DeathExact(tag: string, s: State, i: Node, at: Point, t: State, j: Node)
    requires Restorable(tag, s) && RecoveredTo(tag, s, i, at, t)
    ensures Look(t.disk, Path(j, Cache)) == Owed(s, j) <==> Survives(s, i, at, j)
  {
    DiskAtDeath(tag, s, i, at, j);
    LogAtDeath(tag, s, i, at);
    hide Found, OfRun;
  }

  /** The bytes owed are never lost: where a node does not get them back they are in its backup. */
  lemma BytesKept(tag: string, s: State, i: Node, at: Point, t: State, j: Node)
    requires Restorable(tag, s) && RecoveredTo(tag, s, i, at, t) && Owed(s, j).Some?
    ensures Look(t.disk, Path(j, Cache)) == Owed(s, j) || Look(t.disk, Path(j, Backup(tag))) == Owed(s, j)
  {
    DeathExact(tag, s, i, at, t, j);
    DiskAtDeath(tag, s, i, at, j);
    LogAtDeath(tag, s, i, at);
    hide Found, OfRun;
  }

  /** A scratch file stays behind exactly when a torn log hid it, or its node's restore died before removing it. */
  lemma ScratchLeftExact(tag: string, s: State, i: Node, at: Point, t: State, q: Path)
    requires Valid(tag, s) && RecoveredTo(tag, s, i, at, t) && OfRun(tag, q.file)
    ensures q in t.disk <==> && q in s.disk
                             && (at.LogTorn? || (at.LogSaved? && q.node == i && q !in at.removed))
  {
    LogAtDeath(tag, s, i, at);
    ScratchAtDeath(tag, s, i, at, q);
    hide Found, OfRun;
    assert q in t.disk <==> Look(t.disk, q).Some?;
    assert q in s.disk ==> q.node in s.moved;
  }

  lemma ScratchAtDeath(tag: string, s: State, i: Node, at: Point, q: Path)
    requires Passes(tag, s, i, at) && OfRun(tag, q.file)
    ensures var d := Found(tag, s, i, at).disk;
            match at
            case Unsaved(_) => q in d && q !in s.disk ==> q.node == i && i in s.moved
            case LogTorn(_) => q in d <==> q in s.disk
            case LogSaved(removed) => q in d <==> q in s.disk && q !in removed
            case CacheRemoved => q in d <==> q in s.disk && q.node != i
  {
    var d := Found(tag, s, i, at).disk;
    assert q in d <==> Look(d, q).Some?;
    assert q in s.disk <==> Look(s.disk, q).Some?;
  }

  /** The jobs the log names are started again, all but the busy ones; no other job is. */
  ghost predicate Resumed(s: State, t: State, busy: set<Node>) {
    && (forall i :: i in t.stopped <==> i in s.stopped && i in busy)
    && (forall i :: i in t.down <==> i in s.down && (i in busy || i !in s.stopped))
  }

  /**
   * A job that is down at the point stays down exactly when it is busy, the log is torn, or it had just been
   * stopped and was in no log.
   */
  lemma JobsExact(tag: string, s: State, i: Node, at: Point, t: State, busy: set<Node>, j: Node)
    requires Valid(tag, s) && Passes(tag, s, i, at) && Resumed(Found(tag, s, i, at), t, busy)
    ensures j in t.down <==> && j in AtDeath(tag, s, i, at).down
                             && (j in busy || at.LogTorn? || (at == Unsaved(JobStopped) && j == i && i !in s.stopped))
  {
    LogAtDeath(tag, s, i, at);
    hide OfRun, Worked, Cleared;
    assert Found(tag, s, i, at).down == AtDeath(tag, s, i, at).down;
    if j in AtDeath(tag, s, i, at).down && j !in s.down {
      assert j == i && at.done == JobStopped by { DownAtDeath(tag, s, i, at, j); }
    }
  }

  lemma DownAtDeath(tag: string, s: State, i: Node, at: Point, j: Node)
    requires Passes(tag, s, i, at)
    ensures j in AtDeath(tag, s, i, at).down && j !in s.down ==>
              j == i && (at.Unsaved? || at.LogTorn?) && at.done == JobStopped
  {
  }

  /** Only moved nodes hold a backup of the run. */
  ghost predicate NoStray(tag: string, s: State) {
    forall i :: Path(i, Backup(tag)) in s.disk ==> i in s.moved && s.moved[i].Some?
  }

  lemma NoStrayKept(tag: string, s: State, e: Event)
    requires Valid(tag, s) && NoStray(tag, s)
    ensures NoStray(tag, Step(tag, s, e))
  {
    var t := Step(tag, s, e);
    if e.Restore? && e.i in s.moved { RestoredExact(tag, s, e.i); }
    hide Restored, OfRun, Tidy, Distinct, Without;
    forall i | Path(i, Backup(tag)) in t.disk ensures i in t.moved && t.moved[i].Some? {
      assert Look(t.disk, Path(i, Backup(tag))).Some?;
    }
  }

  lemma {:induction false} RunNoStray(tag: string, s: State, es: seq<Event>)
    requires Valid(tag, s) && NoStray(tag, s)
    ensures NoStray(tag, Run(tag, s, es))
    decreases |es|
  {
    if es != [] {
      hide Valid, NoStray, Step;
      StepKeeps(tag, s, es[0]);
      NoStrayKept(tag, s, es[0]);
      RunNoStray(tag, Step(tag, s, es[0]), es[1..]);
    }
  }

  /** A run that has changed nothing yet, on directories without files of the run. */
  function Begun(disk: Disk): State { State(map[], [], None, disk, {}) }

  /** From there every run stays valid, and only moved nodes hold a backup. */
  lemma BegunKeeps(tag: string, disk: Disk, es: seq<Event>)
    requires forall q :: q in disk ==> !OfRun(tag, q.file) && q.file != Backup(tag)
    ensures Valid(tag, Run(tag, Begun(disk), es)) && NoStray(tag, Run(tag, Begun(disk), es))
  {
    RunKeeps(tag, Begun(disk), es);
    RunNoStray(tag, Begun(disk), es);
    hide Run;
  }

  /** What a look at state.json and the node's directory tells before the recovery. */
  predicate Told(tag: string, d: State, i: Node) {
    || (d.saved.Some? && d.saved.value.Saved? && i in d.saved.value.moved)
    || Path(i, Backup(tag)) !in d.disk
    || Look(d.disk, Path(i, Cache)) == Look(d.disk, Path(i, Backup(tag)))
  }

  /** For a node that had a cache they tell exactly whether the recovery will give it back. */
  lemma DeathTold(tag: string, s: State, i: Node, at: Point, t: State, j: Node)
    requires Restorable(tag, s) && NoStray(tag, s) && RecoveredTo(tag, s, i, at, t) && Owed(s, j).Some?
    ensures Look(t.disk, Path(j, Cache)) == Owed(s, j) <==> Told(tag, AtDeath(tag, s, i, at), j)
  {
    DeathExact(tag, s, i, at, t, j);
    DiskAtDeath(tag, s, i, at, j);
    hide Undone, OfRun, RecoveredTo;
    assert Path(j, Backup(tag)) in s.disk <==> j in s.moved;
  }

  /** So it is in every run from the beginning, whichever operation dies at which point. */
  lemma RunTold(tag: string, disk: Disk, es: seq<Event>, i: Node, at: Point, t: State, j: Node)
    requires forall q :: q in disk ==> !OfRun(tag, q.file) && q.file != Backup(tag)
    requires var s := Run(tag, Begun(disk), es); RecoveredTo(tag, s, i, at, t) && Owed(s, j).Some?
    ensures var s := Run(tag, Begun(disk), es);
            Look(t.disk, Path(j, Cache)) == Owed(s, j) <==> Told(tag, AtDeath(tag, s, i, at), j)
  {
    BegunKeeps(tag, disk, es);
    hide Run, RecoveredTo, Restorable;
    DeathTold(tag, Run(tag, Begun(disk), es), i, at, t, j);
  }

  // ----- recoveries that die -----

  /** An operation of a recovery, whole or cut short by a death and taken up by a new process. */
  datatype Life = Whole(e: Event) | Dies(i: Node, at: Point)

  /** A recovery moves no cache; a torn log would end it. */
  predicate Recovers(tag: string, l: Life) {
    match l
    case Whole(e) => e.Write? || e.Start? || e.Restore?
    case Dies(i, at) =>
      match at
      case Unsaved(done) => !done.Renamed?
      case LogTorn(_) => false
      case LogSaved(removed) => forall q :: q in removed ==> q.node == i && OfRun(tag, q.file)
      case CacheRemoved => true
  }

  function Lived(tag: string, s: State, l: Life): State {
    match l
    case Whole(e) => Step(tag, s, e)
    case Dies(i, at) => if Passes(tag, s, i, at) then Found(tag, s, i, at) else s
  }

  function Lives(tag: string, s: State, ls: seq<Life>): State
    decreases |ls|
  {
    if ls == [] then s else Lives(tag, Lived(tag, s, ls[0]), ls[1..])
  }

  /** The death falls between the node's leaving the log and its backup's return. */
  predicate Hits(l: Life, j: Node) { l.Dies? && l.i == j && (l.at.LogSaved? || l.at.CacheRemoved?) }

  lemma LivedKeeps(tag: string, s: State, l: Life, j: Node)
    requires Restorable(tag, s) && Recovers(tag, l) && l != Whole(Restore(j))
    ensures var t := Lived(tag, s, l);
            && Restorable(tag, t) && (j in t.moved <==> j in s.moved && !Hits(l, j))
            && (j in t.moved ==> t.moved[j] == s.moved[j])
            && Look(t.disk, Path(j, Backup(tag))) == Look(s.disk, Path(j, Backup(tag)))
  {
    match l {
      case Whole(e) => WholeKeeps(tag, s, e, j);
      case Dies(i, at) =>
        if Passes(tag, s, i, at) {
          FoundRestorable(tag, s, i, at);
          LogAtDeath(tag, s, i, at);
          DiskAtDeath(tag, s, i, at, j);
          hide Found, OfRun, Restorable;
        }
    }
  }

  lemma WholeKeeps(tag: string, s: State, e: Event, j: Node)
    requires Restorable(tag, s) && (e.Write? || e.Start? || e.Restore?) && e != Restore(j)
    ensures var t := Step(tag, s, e);
            && Restorable(tag, t) && (j in t.moved <==> j in s.moved) && (j in t.moved ==> t.moved[j] == s.moved[j])
            && Look(t.disk, Path(j, Backup(tag))) == Look(s.disk, Path(j, Backup(tag)))
  {
    match e {
      case Restore(i) => if i in s.moved { RestoredKeeps(tag, s, i); RestoredExact(tag, s, i); }
      case Start(i, busy) => StartedKeeps(tag, s, i, busy);
      case _ =>
    }
    hide PutBack, OfRun, Without, Tidy;
  }

  lemma {:induction false} LivesKeep(tag: string, s: State, ls: seq<Life>, j: Node)
    requires Restorable(tag, s) && (forall l :: l in ls ==> Recovers(tag, l)) && Whole(Restore(j)) !in ls
    ensures var t := Lives(tag, s, ls);
            && Restorable(tag, t) && (j in t.moved <==> j in s.moved && forall l :: l in ls ==> !Hits(l, j))
            && (j in t.moved ==> t.moved[j] == s.moved[j])
            && Look(t.disk, Path(j, Backup(tag))) == Look(s.disk, Path(j, Backup(tag)))
    decreases |ls|
  {
    if ls != [] {
      assert ls[0] in ls && forall l :: l in ls <==> l == ls[0] || l in ls[1..];
      LivedKeeps(tag, s, ls[0], j);
      hide Restorable, Lived, Hits, Recovers;
      LivesKeep(tag, Lived(tag, s, ls[0]), ls[1..], j);
    }
  }

  /**
   * However often the recovery dies and is taken up again, a node not yet restored gets its cache back in the
   * end unless a death hit its own restore; then its bytes are still in the backup and its cache is left alone.
   */
  lemma RecoveriesExact(tag: string, s: State, ls: seq<Life>, t: State, j: Node)
    requires Restorable(tag, s) && (forall l :: l in ls ==> Recovers(tag, l)) && Whole(Restore(j)) !in ls
    requires j in s.moved && s.moved[j].Some? && Undone(tag, Lives(tag, s, ls), t)
    ensures if exists l :: l in ls && Hits(l, j)
            then Look(t.disk, Path(j, Backup(tag))) == Owed(s, j)
                 && Look(t.disk, Path(j, Cache)) == Look(Lives(tag, s, ls).disk, Path(j, Cache))
            else Look(t.disk, Path(j, Cache)) == Owed(s, j)
  {
    LivesKeep(tag, s, ls, j);
    hide Lives, OfRun, Hits, Recovers;
  }

  /** A logged backup stands behind the clean-up. */
  lemma BackupStands(tag: string, s: State, i: Node)
    requires Backups(tag, s) && i in s.moved && s.moved[i].Some?
    ensures s.moved[i].value == Backup(tag) && Path(i, Backup(tag)) in Cleared(tag, s.disk, i)
  {
    assert Look(Cleared(tag, s.disk, i), Path(i, Backup(tag))).Some?;
  }

  // ----- the process -----

  class Harness {
    const tag: string
    var moved: Moves
    var stopped: seq<Node>
    var saved: Option<Saved>
    var disk: Disk
    var down: set<Node>

    ghost function Value(): State
      reads this
    {
      State(moved, stopped, saved, disk, down)
    }

    /** A process over whatever state.json, data directories and jobs it finds. */
    constructor (tag: string, saved: Option<Saved>, disk: Disk, down: set<Node>)
      ensures Value() == State(map[], [], saved, disk, down) && this.tag == tag
      ensures Value() == Begun(disk) && (forall q :: q in disk ==> !OfRun(tag, q.file)) ==> Valid(tag, Value())
    {
      this.tag, this.saved, this.disk, this.down := tag, saved, disk, down;
      moved, stopped := map[], [];
    }

    method SaveState()
      modifies this`saved
      ensures Value() == Save(old(Value())) && saved == Some(Saved(moved, stopped))
    {
      saved := Some(Saved(moved, stopped));
    }

    method MoveCache(i: Node, stamp: string)
      requires Valid(tag, Value())
      modifies this
      ensures Value() == Moved(tag, old(Value()), i, stamp) == Step(tag, old(Value()), Move(i, stamp))
      ensures Valid(tag, Value())
    {
      MovedKeeps(tag, Value(), i, stamp);
      var p := Path(i, Cache);
      if i in moved {
        if p in disk {
          disk := Rename(disk, p, Path(i, Scratch(tag + "-" + stamp)));
          assert Value() == AtDeath(tag, old(Value()), i, Unsaved(Renamed(stamp)));
        }
        return;
      }
      var bak := Backup(tag);
      if p in disk {
        disk := Rename(disk, p, Path(i, bak));
        assert Value() == AtDeath(tag, old(Value()), i, Unsaved(Renamed(stamp)));
        moved := moved[i := Some(bak)];
      } else {
        moved := moved[i := None];
      }
      SaveState();
    }

    method RestoreCache(i: Node)
      requires Restorable(tag, Value()) && i in moved
      modifies this
      ensures Value() == Restored(tag, old(Value()), i) == Step(tag, old(Value()), Restore(i))
      ensures Restorable(tag, Value()) && (old(Valid(tag, Value())) ==> Valid(tag, Value()))
    {
      ghost var was := Value();
      RestoredKeeps(tag, was, i);
      hide OfRun, Restorable, Tidy;
      var bak := moved[i];
      moved := moved - {i};
      SaveState();
      RemoveScratch(was, i);
      disk := disk - {Path(i, Cache)};
      assert disk == Cleared(tag, was.disk, i);
      assert Value() == AtDeath(tag, was, i, CacheRemoved);
      if bak.None? { return; }
      assert Backups(tag, was) by { RestorableBacked(tag, was); }
      BackupStands(tag, was, i);
      disk := Rename(disk, Path(i, bak.value), Path(i, Cache));
    }

    /** The run's scratch files of one node, one by one. */
    method RemoveScratch(ghost was: State, i: Node)
      requires i in was.moved && Value() == AtDeath(tag, was, i, LogSaved({}))
      modifies this`disk
      ensures Value() == AtDeath(tag, was, i, LogSaved(ScratchOf(tag, was.disk, i)))
      ensures forall q :: q in disk <==> q in old(disk) && !(q.node == i && OfRun(tag, q.file))
      ensures forall q :: q in disk ==> disk[q] == old(disk)[q]
    {
      hide OfRun;
      var left := ScratchOf(tag, disk, i);
      ghost var removed: set<Path> := {};
      while left != {}
        invariant removed + left == ScratchOf(tag, was.disk, i)
        invariant Value() == AtDeath(tag, was, i, LogSaved(removed))
      {
        var q :| q in left;
        disk := disk - {q};
        left := left - {q};
        removed := removed + {q};
      }
      assert removed == ScratchOf(tag, was.disk, i);
    }

    method StopLaunchd(i: Node, refused: bool) returns (ok: bool)
      requires Valid(tag, Value())
      modifies this
      ensures ok == !refused && Valid(tag, Value())
      ensures Value() == if refused then old(Value()) else Stopped(old(Value()), i)
      ensures ok ==> Value() == Step(tag, old(Value()), Stop(i))
      ensures ok ==>
                && stopped == old(stopped) + (if i in old(stopped) then [] else [i]) && down == old(down) + {i}
                && saved == Some(Saved(moved, stopped)) && moved == old(moved) && disk == old(disk)
    {
      if refused { return false; }
      down := down + {i};
      assert Value() == AtDeath(tag, old(Value()), i, Unsaved(JobStopped));
      if i !in stopped { stopped := stopped + [i]; }
      SaveState();
      return true;
    }

    method StartLaunchd(i: Node, busy: bool)
      requires Restorable(tag, Value())
      modifies this
      ensures Value() == Started(old(Value()), i, busy) == Step(tag, old(Value()), Start(i, busy))
      ensures moved == old(moved) && disk == old(disk) && down == old(down) - (if busy then {} else {i})
      ensures forall j :: j in stopped <==> j in old(stopped) && (j != i || busy)
      ensures !busy ==> saved == Some(Saved(moved, stopped))
      ensures Restorable(tag, Value()) && (old(Valid(tag, Value())) ==> Valid(tag, Value()))
    {
      StartedKeeps(tag, Value(), i, busy);
      WithoutExact(stopped, i);
      if busy { return; }
      down := down - {i};
      assert Value() == AtDeath(tag, old(Value()), i, Unsaved(JobStarted));
      stopped := Without(stopped, i);
      SaveState();
    }

    /** The logged nodes restored in any order, then the stopped jobs started, all but the busy ones. */
    method RestoreAll(busy: set<Node>)
      requires Restorable(tag, Value())
      modifies this
      ensures Undone(tag, old(Value()), Value()) && Resumed(old(Value()), Value(), busy)
      ensures Restorable(tag, Value()) && (old(Valid(tag, Value())) ==> Valid(tag, Value()))
    {
      RestoreCaches();
      StartJobs(busy);
    }

    method RestoreCaches()
      requires Restorable(tag, Value())
      modifies this
      ensures Undone(tag, old(Value()), Value()) && stopped == old(stopped) && down == old(down)
      ensures Restorable(tag, Value()) && (old(Valid(tag, Value())) ==> Valid(tag, Value()))
    {
      var left := moved.Keys;
      ghost var nodes: seq<Node> := [];
      while left != {}
        invariant Restorable(tag, Value()) && (old(Valid(tag, Value())) ==> Valid(tag, Value()))
        invariant moved.Keys == left && stopped == old(stopped) && down == old(down)
        invariant Among(nodes, old(moved)) && forall i :: i in old(moved) <==> i in left || i in nodes
        invariant forall i :: i in nodes ==> i !in left
        invariant Value() == RestoreEach(tag, old(Value()), nodes)
      {
        var i :| i in left;
        RestoreEachSnoc(tag, old(Value()), nodes, i);
        RestoreCache(i);
        nodes := nodes + [i];
        left := left - {i};
      }
      UndoneInAnyOrder(tag, old(Value()), nodes);
    }

    method StartJobs(busy: set<Node>)
      requires Restorable(tag, Value())
      modifies this
      ensures moved == old(moved) && disk == old(disk) && Resumed(old(Value()), Value(), busy)
      ensures Restorable(tag, Value()) && (old(Valid(tag, Value())) ==> Valid(tag, Value()))
    {
      var jobs := stopped;
      for k := 0 to |jobs|
        invariant Restorable(tag, Value()) && (old(Valid(tag, Value())) ==> Valid(tag, Value()))
        invariant moved == old(moved) && disk == old(disk)
        invariant forall i :: i in stopped <==> i in jobs && (i in busy || i in jobs[k..])
        invariant forall i :: i in down <==> i in old(down) && (i !in jobs || i in busy || i in jobs[k..])
      {
        WithoutExact(stopped, jobs[k]);
        assert jobs[k..] == [jobs[k]] + jobs[k + 1..];
        StartLaunchd(jobs[k], jobs[k] in busy);
      }
    }

    /** Recovery by a new process: the saved log is read and undone; a torn one stops it, nothing being undone. */
    method ManualRestore(busy: set<Node>) returns (ok: bool)
      requires moved == map[] && stopped == [] && (saved == Some(Torn) || Restorable(tag, Loaded(Value())))
      modifies this
      ensures ok <==> old(saved) != Some(Torn)
      ensures Undone(tag, Loaded(old(Value())), Value()) && Resumed(Loaded(old(Value())), Value(), busy)
    {
      if saved.None? { return true; }
      if saved.value.Torn? { return false; }
      moved := saved.value.moved;
      stopped := saved.value.stopped;
      RestoreAll(busy);
      return true;
    }
  }

  lemma RestorableBacked(tag: string, s: State)
    requires Restorable(tag, s)
    ensures Backups(tag, s)
  {
  }

  lemma {:induction false} RestoreEachSnoc(tag: string, s: State, nodes: seq<Node>, i: Node)
    ensures RestoreEach(tag, s, nodes + [i]) == Restored(tag, RestoreEach(tag, s, nodes), i)
    decreases |nodes|
  {
    hide Restored;
    if nodes != [] {
      RestoreEachSnoc(tag, Restored(tag, s, nodes[0]), nodes[1..], i);
      assert (nodes + [i])[1..] == nodes[1..] + [i];
    }
  }
}
