/** Generating an agent's files: everything is decided and validated before the first
    write, and a failure in the write loop replays an undo log backwards. */
module Generate {
  import opened Wrappers

  type Bytes = string

  /** A generated file. A shared one belongs to every agent: it is only ever created. */
  datatype File = File(path: string, data: Bytes, mode: nat, shared: bool)

  datatype Node = Node(data: Bytes, mode: nat)

  type Disk = map<string, Node>

  // ----- What is generated -----

  datatype Contents = Contents(harness: Bytes, agent: Bytes, schema: Bytes, script: Bytes, policy: Bytes,
    validator: Bytes)

  const PLAIN := 0x1a4 // rw-r--r--
  const EXEC := 0x1ed // rwxr-xr-x

  function Owned(name: string, c: Contents): seq<File> {
    [ File("harness/" + name + ".yaml", c.harness, PLAIN, false),
      File("agents/" + name + ".md", c.agent, PLAIN, false),
      File("schemas/" + name + "-result.schema.json", c.schema, PLAIN, false),
      File("scripts/post-" + name + ".sh", c.script, EXEC, false) ]
  }

  function Shared(validationLoop: bool, c: Contents): seq<File> {
    [File("policies/base.yaml", c.policy, PLAIN, true)]
    + (if validationLoop then [File("scripts/validate-output-schema.sh", c.validator, EXEC, true)] else [])
  }

  function Render(name: string, validationLoop: bool, c: Contents): seq<File> {
    Owned(name, c) + Shared(validationLoop, c)
  }

  ghost predicate Distinct(files: seq<File>) {
    forall i, j :: 0 <= i < j < |files| ==> files[i].path != files[j].path
  }

  /** The first letters of the path shapes, whatever the agent is called. */
  lemma OwnedHeads(name: string, c: Contents)
    ensures var files := Owned(name, c);
            && files[0].path[0] == 'h' && files[1].path[0] == 'a'
            && |files[2].path| > 8 && files[2].path[0] == 's' && files[2].path[2] == 'h'
            && |files[3].path| > 8 && files[3].path[0] == 's' && files[3].path[2] == 'r' && files[3].path[8] == 'p'
  {
  }

  lemma SharedHeads(validationLoop: bool, c: Contents)
    ensures var files := Shared(validationLoop, c);
            && files[0].path[0] == 'p'
            && (|files| > 1 ==> |files[1].path| > 8 && files[1].path[0] == 's' && files[1].path[2] == 'r'
                                && files[1].path[8] == 'v')
  {
  }

  /** Whatever the agent is called, no two of its files fall together. */
  lemma RenderIsDistinct(name: string, validationLoop: bool, c: Contents)
    ensures Distinct(Render(name, validationLoop, c))
  {
    OwnedHeads(name, c);
    SharedHeads(validationLoop, c);
    HeadsApart(Owned(name, c), Shared(validationLoop, c));
  }

  lemma HeadsApart(owned: seq<File>, shared: seq<File>)
    requires |owned| == 4 && 1 <= |shared| <= 2
    requires forall f :: f in owned + shared ==> f.path != ""
    requires owned[0].path[0] == 'h' && owned[1].path[0] == 'a'
    requires |owned[2].path| > 8 && owned[2].path[0] == 's' && owned[2].path[2] == 'h'
    requires |owned[3].path| > 8 && owned[3].path[0] == 's' && owned[3].path[2] == 'r' && owned[3].path[8] == 'p'
    requires shared[0].path[0] == 'p'
    requires |shared| > 1 ==> |shared[1].path| > 8 && shared[1].path[0] == 's' && shared[1].path[2] == 'r'
                              && shared[1].path[8] == 'v'
    ensures Distinct(owned + shared)
  {
    assert forall i :: 0 <= i < |shared| ==> (owned + shared)[4 + i] == shared[i];
  }

  // ----- Files on disk -----

  /** `os.WriteFile`: a new file gets the mode, an existing one keeps its own. */
  function Put(d: Disk, path: string, data: Bytes, mode: nat): Disk {
    d[path := Node(data, if path in d then d[path].mode else mode)]
  }

  function SetMode(d: Disk, path: string, mode: nat): Disk {
    if path in d then d[path := d[path].(mode := mode)] else d
  }

  /** Same bytes at a path, or absent from both. */
  ghost predicate SameBytes(d: Disk, e: Disk, path: string) {
    (path in d <==> path in e) && (path in d ==> d[path].data == e[path].data)
  }

  ghost predicate SameNode(d: Disk, e: Disk, path: string) {
    (path in d <==> path in e) && (path in d ==> d[path] == e[path])
  }

  // ----- The write loop and the undo log -----

  /** What goes wrong at one file. A failed write may leave anything in the file. */
  datatype Fault = NoFault | MkdirFails | ReadFails | WriteFails(left: Option<Bytes>) | ChmodFails

  datatype Undo = Undo(path: string, existed: bool, original: Bytes, mode: nat)

  datatype Run = Run(disk: Disk, log: seq<Undo>, failed: bool)

  function UndoFor(d: Disk, f: File): Undo {
    if f.path in d then Undo(f.path, true, d[f.path].data, d[f.path].mode) else Undo(f.path, false, "", f.mode)
  }

  /** One file; it is logged last. */
  function WriteOne(r: Run, f: File, fault: Fault): Run {
    match fault
    case MkdirFails => r.(failed := true)
    case WriteFails(left) =>
      r.(disk := if left.None? then r.disk else Put(r.disk, f.path, left.value, f.mode), failed := true)
    case ChmodFails => r.(disk := Put(r.disk, f.path, f.data, f.mode), failed := true)
    case _ =>
      if fault.ReadFails? && f.path in r.disk then r.(failed := true)
      else Run(SetMode(Put(r.disk, f.path, f.data, f.mode), f.path, f.mode), r.log + [UndoFor(r.disk, f)], false)
  }

  function WriteAll(d: Disk, files: seq<File>, faults: nat -> Fault): Run {
    if files == [] then Run(d, [], false)
    else
      var n := |files| - 1;
      var r := WriteAll(d, files[..n], faults);
      if r.failed then r else WriteOne(r, files[n], faults(n))
  }

  function Undone(d: Disk, u: Undo): Disk {
    if u.existed then Put(d, u.path, u.original, u.mode) else d - {u.path}
  }

  /** The log, last entry first. */
  function Rollback(d: Disk, log: seq<Undo>): Disk
    decreases |log|
  {
    if log == [] then d else Rollback(Undone(d, log[|log| - 1]), log[..|log| - 1])
  }

  function Written(d: Disk, files: seq<File>, faults: nat -> Fault): Disk {
    var r := WriteAll(d, files, faults);
    if r.failed then Rollback(r.disk, r.log) else r.disk
  }

  // ----- Rolling back -----

  ghost predicate InLog(log: seq<Undo>, path: string) {
    exists i :: 0 <= i < |log| && log[i].path == path
  }

  lemma UndoneAgree(d: Disk, e: Disk, u: Undo, away: string)
    requires forall p :: p != away ==> SameBytes(d, e, p)
    ensures forall p :: p != away ==> SameBytes(Undone(d, u), Undone(e, u), p)
    ensures SameBytes(d, e, away) || u.path == away ==> SameBytes(Undone(d, u), Undone(e, u), away)
  {
    forall p | p != away ensures SameBytes(Undone(d, u), Undone(e, u), p) {
      assert SameBytes(d, e, p);
    }
  }

  /** Replaying the log on disks that agree away from one path gives disks that agree
      away from that path, and everywhere when the log holds it. */
  lemma {:induction false} RollbackIsLocal(d: Disk, e: Disk, log: seq<Undo>, away: string)
    requires forall p :: p != away ==> SameBytes(d, e, p)
    requires SameBytes(d, e, away) || InLog(log, away)
    ensures forall p :: SameBytes(Rollback(d, log), Rollback(e, log), p)
    decreases |log|
  {
    if log != [] {
      var u, rest := log[|log| - 1], log[..|log| - 1];
      if !SameBytes(d, e, away) && u.path != away {
        var i :| 0 <= i < |log| && log[i].path == away;
        assert rest[i].path == away;
      }
      UndoneAgree(d, e, u, away);
      RollbackIsLocal(Undone(d, u), Undone(e, u), rest, away);
    } else {
      assert SameBytes(d, e, away);
    }
  }

  lemma {:induction false} RollbackElsewhere(d: Disk, e: Disk, log: seq<Undo>, away: string)
    requires forall p :: p != away ==> SameBytes(d, e, p)
    requires !InLog(log, away)
    ensures forall p :: p != away ==> SameBytes(Rollback(d, log), Rollback(e, log), p)
    ensures SameNode(Rollback(d, log), d, away)
    decreases |log|
  {
    if log != [] {
      var u, rest := log[|log| - 1], log[..|log| - 1];
      assert u.path != away;
      assert forall i :: 0 <= i < |rest| ==> rest[i] == log[i];
      UndoneAgree(d, e, u, away);
      RollbackElsewhere(Undone(d, u), Undone(e, u), rest, away);
    }
  }

  /** The files before the failing one are logged in order. */
  lemma {:induction false} LogFollowsFiles(d: Disk, files: seq<File>, faults: nat -> Fault)
    ensures var r := WriteAll(d, files, faults);
            && |r.log| <= |files| && (r.failed <==> |r.log| < |files|)
            && forall i :: 0 <= i < |r.log| ==> r.log[i].path == files[i].path
  {
    if files != [] {
      var n := |files| - 1;
      LogFollowsFiles(d, files[..n], faults);
      assert forall i :: 0 <= i < n ==> files[..n][i] == files[i];
    }
  }

  /** The disk before the failing file, had its write not begun. */
  function BeforeFailure(d: Disk, files: seq<File>, faults: nat -> Fault): Disk {
    var k := |WriteAll(d, files, faults).log|;
    if k <= |files| then WriteAll(d, files[..k], faults).disk else d
  }

  lemma PrefixSucceeds(d: Disk, files: seq<File>, faults: nat -> Fault)
    ensures var r := WriteAll(d, files, faults);
            var k := |r.log|;
            && k <= |files|
            && WriteAll(d, files[..k], faults) == Run(BeforeFailure(d, files, faults), r.log, false)
            && (r.failed ==> k < |files| && r == WriteOne(WriteAll(d, files[..k], faults), files[k], faults(k)))
  {
    LogFollowsFiles(d, files, faults);
    if WriteAll(d, files, faults).failed {
      FailsAt(d, files, faults);
    } else {
      assert files[..|files|] == files;
    }
  }

  /** The file at which a failing loop stops is the first that is not logged. */
  lemma {:induction false} FailsAt(d: Disk, files: seq<File>, faults: nat -> Fault)
    requires WriteAll(d, files, faults).failed
    ensures var r := WriteAll(d, files, faults);
            var k := |r.log|;
            && k < |files|
            && !WriteAll(d, files[..k], faults).failed && WriteAll(d, files[..k], faults).log == r.log
            && r == WriteOne(WriteAll(d, files[..k], faults), files[k], faults(k))
  {
    var n := |files| - 1;
    var before := WriteAll(d, files[..n], faults);
    if before.failed {
      FailsAt(d, files[..n], faults);
      var k := |before.log|;
      assert files[..n][..k] == files[..k] && files[..n][k] == files[k];
    } else {
      LogFollowsFiles(d, files[..n], faults);
      FailureIsNotLogged(before, files[n], faults(n));
    }
  }

  lemma FailureIsNotLogged(r: Run, f: File, fault: Fault)
    requires WriteOne(r, f, fault).failed
    ensures WriteOne(r, f, fault).log == r.log
  {
  }

  /** Undoing what has been written brings every byte back. */
  lemma {:induction false} UndoAllRestores(d: Disk, files: seq<File>, faults: nat -> Fault)
    requires !WriteAll(d, files, faults).failed
    ensures var r := WriteAll(d, files, faults);
            forall p :: SameBytes(Rollback(r.disk, r.log), d, p)
  {
    if files != [] {
      var n := |files| - 1;
      var before, r := WriteAll(d, files[..n], faults), WriteAll(d, files, faults);
      UndoAllRestores(d, files[..n], faults);
      assert r.log[..|r.log| - 1] == before.log;
      var last := r.log[|r.log| - 1];
      RollbackIsLocal(Undone(r.disk, last), before.disk, before.log, last.path);
      forall p ensures SameBytes(Rollback(r.disk, r.log), d, p) {
        assert SameBytes(Rollback(Undone(r.disk, last), before.log), Rollback(before.disk, before.log), p);
        assert SameBytes(Rollback(before.disk, before.log), d, p);
      }
    }
  }

  /** What the failing file holds when the rollback starts. */
  function LeftBehind(d: Disk, f: File, fault: Fault): Option<Bytes> {
    match fault
    case WriteFails(Some(left)) => Some(left)
    case ChmodFails => Some(f.data)
    case _ => BytesAt(d, f.path)
  }

  function BytesAt(d: Disk, path: string): Option<Bytes> {
    if path in d then Some(d[path].data) else None
  }

  /** A failing write loop puts back every path but the failing file's own, which is
      logged only once it is complete. */
  lemma FailureRestores(d: Disk, files: seq<File>, faults: nat -> Fault)
    requires WriteAll(d, files, faults).failed
    ensures var k := |WriteAll(d, files, faults).log|;
            k < |files| && forall p :: p != files[k].path ==> SameBytes(Written(d, files, faults), d, p)
  {
    var r := WriteAll(d, files, faults);
    PrefixSucceeds(d, files, faults);
    var k := |r.log|;
    UndoAllRestores(d, files[..k], faults);
    var before := BeforeFailure(d, files, faults);
    var away := files[k].path;
    RestoredBut(r.disk, before, d, r.log, away);
  }

  lemma RestoredBut(d: Disk, before: Disk, original: Disk, log: seq<Undo>, away: string)
    requires forall p :: p != away ==> SameBytes(d, before, p)
    requires forall p :: SameBytes(Rollback(before, log), original, p)
    ensures forall p :: p != away ==> SameBytes(Rollback(d, log), original, p)
  {
    if InLog(log, away) {
      RollbackIsLocal(d, before, log, away);
    } else {
      RollbackElsewhere(d, before, log, away);
    }
    forall p | p != away ensures SameBytes(Rollback(d, log), original, p) {
      assert SameBytes(Rollback(d, log), Rollback(before, log), p);
      assert SameBytes(Rollback(before, log), original, p);
    }
  }

  lemma LeftInPlace(r: Run, f: File, fault: Fault)
    requires !r.failed && WriteOne(r, f, fault).failed
    ensures BytesAt(WriteOne(r, f, fault).disk, f.path) == LeftBehind(r.disk, f, fault)
  {
  }

  /** The bytes the failing file ends up with: it is not in the undo log. */
  lemma FailingFileHolds(d: Disk, files: seq<File>, faults: nat -> Fault)
    requires Distinct(files) && WriteAll(d, files, faults).failed
    ensures var k := |WriteAll(d, files, faults).log|;
            && k < |files|
            && BytesAt(Written(d, files, faults), files[k].path) == LeftBehind(d, files[k], faults(k))
  {
    var r := WriteAll(d, files, faults);
    PrefixSucceeds(d, files, faults);
    LogFollowsFiles(d, files, faults);
    var k := |r.log|;
    var before := BeforeFailure(d, files, faults);
    var away := files[k].path;
    assert !InLog(r.log, away);
    LeftInPlace(WriteAll(d, files[..k], faults), files[k], faults(k));
    RollbackElsewhere(r.disk, r.disk, r.log, away);
    OthersUntouched(d, files[..k], faults, away);
    assert BytesAt(before, away) == BytesAt(d, away);
  }

  /** Exactly when the failing file has its bytes back: always after a directory that
      could not be made or a file that could not be read; after a failed write when it
      left the file alone or with its old bytes; after a failed change of mode when the
      file already held the new bytes. */
  lemma FailingFileRestored(d: Disk, files: seq<File>, faults: nat -> Fault)
    requires Distinct(files) && WriteAll(d, files, faults).failed
    ensures var k := |WriteAll(d, files, faults).log|;
            && k < |files|
            && (SameBytes(Written(d, files, faults), d, files[k].path)
                <==> match faults(k)
                     case WriteFails(left) => left.None? || (files[k].path in d && left.value == d[files[k].path].data)
                     case ChmodFails => files[k].path in d && d[files[k].path].data == files[k].data
                     case _ => true)
  {
    FailingFileHolds(d, files, faults);
  }

  // ----- What is never touched -----

  ghost predicate Names(files: seq<File>, path: string) {
    exists i :: 0 <= i < |files| && files[i].path == path
  }

  /** A path that no file names keeps its bytes and its mode, however the loop ends. */
  lemma OthersUntouched(d: Disk, files: seq<File>, faults: nat -> Fault, path: string)
    requires !Names(files, path)
    ensures SameNode(WriteAll(d, files, faults).disk, d, path)
    ensures SameNode(Written(d, files, faults), d, path)
  {
    LoopLeaves(d, files, faults, path);
    LogFollowsFiles(d, files, faults);
    var r := WriteAll(d, files, faults);
    assert !InLog(r.log, path);
    RollbackElsewhere(r.disk, r.disk, r.log, path);
  }

  lemma {:induction false} LoopLeaves(d: Disk, files: seq<File>, faults: nat -> Fault, path: string)
    requires !Names(files, path)
    ensures SameNode(WriteAll(d, files, faults).disk, d, path)
  {
    if files != [] {
      var n := |files| - 1;
      assert forall i :: 0 <= i < n ==> files[..n][i] == files[i];
      LoopLeaves(d, files[..n], faults, path);
      assert files[n].path != path;
    }
  }

  // ----- Modes -----

  /** A written file has its bytes and its mode. */
  lemma {:induction false} WrittenHolds(d: Disk, files: seq<File>, faults: nat -> Fault, i: nat)
    requires Distinct(files) && i < |WriteAll(d, files, faults).log| && i < |files|
    requires !WriteAll(d, files, faults).failed
    ensures var r := WriteAll(d, files, faults);
            files[i].path in r.disk && r.disk[files[i].path] == Node(files[i].data, files[i].mode)
            && r.log[i] == UndoFor(d, files[i])
    decreases |files|
  {
    var n := |files| - 1;
    var before := files[..n];
    DistinctPrefix(files);
    LogFollowsFiles(d, before, faults);
    OneHolds(WriteAll(d, before, faults), files[n], faults(n));
    if i < n {
      WrittenHolds(d, before, faults, i);
      assert before[i] == files[i];
    } else {
      LoopLeaves(d, before, faults, files[n].path);
    }
  }

  lemma DistinctPrefix(files: seq<File>)
    requires Distinct(files) && files != []
    ensures var n := |files| - 1;
            Distinct(files[..n]) && !Names(files[..n], files[n].path)
            && forall i :: 0 <= i < n ==> files[..n][i].path != files[n].path
  {
    assert forall i :: 0 <= i < |files| - 1 ==> files[..|files| - 1][i] == files[i];
  }

  /** Writing one file touches no other, and logs what was there. */
  lemma OneHolds(r: Run, f: File, fault: Fault)
    requires !WriteOne(r, f, fault).failed
    ensures var next := WriteOne(r, f, fault);
            && f.path in next.disk && next.disk[f.path] == Node(f.data, f.mode)
            && (forall p :: p != f.path ==> SameNode(next.disk, r.disk, p))
            && next.log == r.log + [UndoFor(r.disk, f)]
  {
  }

  /** Undoing a file that was there writes its bytes back but leaves the mode the loop
      gave it: writing an existing file does not set its mode. */
  lemma {:induction false} UndoKeepsMode(d: Disk, log: seq<Undo>, i: nat)
    requires i < |log| && log[i].existed && log[i].path in d
    requires forall j, l :: 0 <= j < l < |log| ==> log[j].path != log[l].path
    ensures log[i].path in Rollback(d, log)
    ensures Rollback(d, log)[log[i].path] == Node(log[i].original, d[log[i].path].mode)
    decreases |log|
  {
    var u, rest := log[|log| - 1], log[..|log| - 1];
    if i < |rest| {
      assert log[i].path != u.path;
      UndoKeepsMode(Undone(d, u), rest, i);
    } else {
      assert !InLog(rest, u.path);
      RollbackElsewhere(Undone(d, u), Undone(d, u), rest, u.path);
    }
  }

  /** A file overwritten before the failure is back, mode and all, exactly when it had
      the mode of the file that overwrote it. */
  lemma OverwrittenModeRestored(d: Disk, files: seq<File>, faults: nat -> Fault, i: nat)
    requires Distinct(files) && WriteAll(d, files, faults).failed
    requires i < |WriteAll(d, files, faults).log| && i < |files| && files[i].path in d
    ensures SameNode(Written(d, files, faults), d, files[i].path) <==> d[files[i].path].mode == files[i].mode
  {
    OverwrittenHolds(d, files, faults, i);
  }

  /** An overwritten file ends up with its old bytes and its new mode. */
  lemma OverwrittenHolds(d: Disk, files: seq<File>, faults: nat -> Fault, i: nat)
    requires Distinct(files) && WriteAll(d, files, faults).failed
    requires i < |WriteAll(d, files, faults).log| && i < |files| && files[i].path in d
    ensures files[i].path in Written(d, files, faults)
    ensures Written(d, files, faults)[files[i].path] == Node(d[files[i].path].data, files[i].mode)
  {
    var r := WriteAll(d, files, faults);
    LogIsDistinct(d, files, faults);
    LoggedHolds(d, files, faults, i);
    UndoKeepsMode(r.disk, r.log, i);
  }

  lemma LogIsDistinct(d: Disk, files: seq<File>, faults: nat -> Fault)
    requires Distinct(files)
    ensures var log := WriteAll(d, files, faults).log;
            forall j, l :: 0 <= j < l < |log| ==> log[j].path != log[l].path
  {
    LogFollowsFiles(d, files, faults);
  }

  /** A file written before the failure holds its new bytes until the rollback. */
  lemma LoggedHolds(d: Disk, files: seq<File>, faults: nat -> Fault, i: nat)
    requires Distinct(files) && WriteAll(d, files, faults).failed
    requires i < |WriteAll(d, files, faults).log| && i < |files|
    ensures var r := WriteAll(d, files, faults);
            && files[i].path in r.disk && r.disk[files[i].path] == Node(files[i].data, files[i].mode)
            && r.log[i] == UndoFor(d, files[i])
  {
    var k := |WriteAll(d, files, faults).log|;
    PrefixSucceeds(d, files, faults);
    WrittenHolds(d, files[..k], faults, i);
    assert files[..k][i] == files[i] && files[k].path != files[i].path;
  }

  // ----- Deciding what to write -----

  /** What the file system says of a destination (a symlink or something that is not a
      regular file; a file that cannot be read) and whether a tree of generated files
      loads as a valid harness. */
  datatype Env = Env(refuses: string -> bool, unreadable: string -> bool, accepts: map<string, Bytes> -> bool)

  datatype Classes = Classes(skipped: seq<string>, collisions: seq<string>, writable: seq<File>)

  function Classify(d: Disk, force: bool, files: seq<File>): Classes {
    if files == [] then Classes([], [], [])
    else
      var f := files[|files| - 1];
      var c := Classify(d, force, files[..|files| - 1]);
      if f.path in d && f.shared then c.(skipped := c.skipped + [f.path])
      else if f.path in d && !force then c.(collisions := c.collisions + [f.path])
      else c.(writable := c.writable + [f])
  }

  /** The scratch tree: a shared asset that is there already is taken from the disk. */
  function Tree(d: Disk, files: seq<File>): map<string, Bytes> {
    if files == [] then map[]
    else
      var f := files[|files| - 1];
      Tree(d, files[..|files| - 1])[f.path := if f.shared && f.path in d then d[f.path].data else f.data]
  }

  predicate Validates(env: Env, d: Disk, files: seq<File>) {
    && (forall f :: f in files && f.shared && f.path in d ==> !env.unreadable(f.path))
    && env.accepts(Tree(d, files))
  }

  function Paths(files: seq<File>): seq<string> {
    seq(|files|, i requires 0 <= i < |files| => files[i].path)
  }

  datatype Outcome = Refused | Collides(paths: seq<string>) | Invalid | Failed
    | Done(written: seq<string>, skipped: seq<string>)

  function Decide(env: Env, d: Disk, files: seq<File>, force: bool): Outcome {
    if exists f :: f in files && env.refuses(f.path) then Refused
    else
      var c := Classify(d, force, files);
      if c.collisions != [] then Collides(c.collisions)
      else if !Validates(env, d, files) then Invalid
      else Done(Paths(c.writable), c.skipped)
  }

  function Outcomes(env: Env, d: Disk, files: seq<File>, force: bool, dryRun: bool, faults: nat -> Fault)
    : (Outcome, Disk)
  {
    var o := Decide(env, d, files, force);
    if !o.Done? || dryRun then (o, d)
    else
      var writable := Classify(d, force, files).writable;
      (if WriteAll(d, writable, faults).failed then Failed else o, Written(d, writable, faults))
  }

  // ----- The program -----

  class FileSystem {
    var files: Disk

    constructor (files: Disk)
      ensures this.files == files
    {
      this.files := files;
    }

    method WriteFile(path: string, data: Bytes, mode: nat)
      modifies this
      ensures files == Put(old(files), path, data, mode)
    {
      files := files[path := Node(data, if path in files then files[path].mode else mode)];
    }

    method Chmod(path: string, mode: nat)
      requires path in files
      modifies this
      ensures files == SetMode(old(files), path, mode)
    {
      files := files[path := Node(files[path].data, mode)];
    }

    method Remove(path: string)
      modifies this
      ensures files == old(files) - {path}
    {
      files := files - {path};
    }
  }

  /** Replays the undo log backwards. */
  method Undoing(fs: FileSystem, log: seq<Undo>)
    modifies fs
    ensures fs.files == Rollback(old(fs.files), log)
  {
    var i := |log|;
    assert log[..i] == log;
    while i > 0
      invariant 0 <= i <= |log|
      invariant Rollback(fs.files, log[..i]) == Rollback(old(fs.files), log)
    {
      assert log[..i][..i - 1] == log[..i - 1];
      i := i - 1;
      var u := log[i];
      if u.existed {
        fs.WriteFile(u.path, u.original, u.mode);
      } else {
        fs.Remove(u.path);
      }
    }
  }

  /** One turn of the write loop: the steps up to the first that fails. */
  method WriteStep(fs: FileSystem, f: File, fault: Fault, ghost log: seq<Undo>) returns (entry: Undo, ok: bool)
    modifies fs
    ensures WriteOne(Run(old(fs.files), log, false), f, fault) == Run(fs.files, log + (if ok then [entry] else []), !ok)
  {
    entry, ok := Undo(f.path, false, "", f.mode), false;
    if fault.MkdirFails? {
      return;
    }
    if f.path in fs.files {
      if fault.ReadFails? {
        return;
      }
      entry := Undo(f.path, true, fs.files[f.path].data, fs.files[f.path].mode);
    }
    if fault.WriteFails? {
      if fault.left.Some? {
        fs.WriteFile(f.path, fault.left.value, f.mode);
      }
      return;
    }
    fs.WriteFile(f.path, f.data, f.mode);
    if fault.ChmodFails? {
      return;
    }
    fs.Chmod(f.path, f.mode);
    ok := true;
  }

  lemma {:induction false} WriteStops(d: Disk, files: seq<File>, faults: nat -> Fault, n: nat)
    requires n <= |files| && WriteAll(d, files[..n], faults).failed
    ensures WriteAll(d, files, faults) == WriteAll(d, files[..n], faults)
    decreases |files|
  {
    if n < |files| {
      assert files[..|files| - 1][..n] == files[..n];
      WriteStops(d, files[..|files| - 1], faults, n);
    } else {
      assert files[..n] == files;
    }
  }

  lemma WriteNext(d: Disk, files: seq<File>, faults: nat -> Fault, i: nat)
    requires i < |files| && !WriteAll(d, files[..i], faults).failed
    ensures var r := WriteOne(WriteAll(d, files[..i], faults), files[i], faults(i));
            WriteAll(d, files[..i + 1], faults) == r && (r.failed ==> WriteAll(d, files, faults) == r)
  {
    assert files[..i + 1][..i] == files[..i];
    if WriteAll(d, files[..i + 1], faults).failed {
      WriteStops(d, files, faults, i + 1);
    }
  }

  /** The write loop and its rollback. */
  method WriteFiles(fs: FileSystem, files: seq<File>, faults: nat -> Fault) returns (ok: bool)
    modifies fs
    ensures fs.files == Written(old(fs.files), files, faults)
    ensures ok <==> !WriteAll(old(fs.files), files, faults).failed
  {
    var log: seq<Undo> := [];
    for i := 0 to |files|
      invariant WriteAll(old(fs.files), files[..i], faults) == Run(fs.files, log, false)
    {
      var entry, done := WriteStep(fs, files[i], faults(i), log);
      WriteNext(old(fs.files), files, faults, i);
      if !done {
        Undoing(fs, log);
        return false;
      }
      log := log + [entry];
    }
    assert files[..|files|] == files;
    return true;
  }

  /** The classification loop. */
  method Sort(fs: FileSystem, env: Env, files: seq<File>, force: bool) returns (refused: bool, c: Classes)
    ensures refused <==> exists f :: f in files && env.refuses(f.path)
    ensures !refused ==> c == Classify(fs.files, force, files)
  {
    c := Classes([], [], []);
    for i := 0 to |files|
      invariant c == Classify(fs.files, force, files[..i])
      invariant forall f :: f in files[..i] ==> !env.refuses(f.path)
    {
      assert files[..i + 1][..i] == files[..i];
      var f := files[i];
      if env.refuses(f.path) {
        assert f in files;
        return true, c;
      }
      if f.path in fs.files && f.shared {
        c := c.(skipped := c.skipped + [f.path]);
      } else if f.path in fs.files && !force {
        c := c.(collisions := c.collisions + [f.path]);
      } else {
        c := c.(writable := c.writable + [f]);
      }
    }
    assert files[..|files|] == files;
    return false, c;
  }

  /** The scratch tree is filled from the rendered files and the shared assets in place. */
  method ValidateInTempTree(fs: FileSystem, env: Env, files: seq<File>) returns (ok: bool)
    ensures ok <==> Validates(env, fs.files, files)
  {
    var tree: map<string, Bytes> := map[];
    for i := 0 to |files|
      invariant tree == Tree(fs.files, files[..i])
      invariant forall f :: f in files[..i] && f.shared && f.path in fs.files ==> !env.unreadable(f.path)
    {
      assert files[..i + 1][..i] == files[..i];
      var f := files[i];
      var data := f.data;
      if f.shared && f.path in fs.files {
        if env.unreadable(f.path) {
          assert f in files;
          return false;
        }
        data := fs.files[f.path].data;
      }
      tree := tree[f.path := data];
    }
    assert files[..|files|] == files;
    return env.accepts(tree);
  }

  method Generate(fs: FileSystem, env: Env, name: string, validationLoop: bool, contents: Contents,
                  force: bool, dryRun: bool, faults: nat -> Fault) returns (r: Outcome)
    modifies fs
    ensures (r, fs.files) == Outcomes(env, old(fs.files), Render(name, validationLoop, contents), force, dryRun, faults)
  {
    var files := Render(name, validationLoop, contents);
    var refused, c := Sort(fs, env, files, force);
    if refused {
      return Refused;
    }
    if c.collisions != [] {
      return Collides(c.collisions);
    }
    var valid := ValidateInTempTree(fs, env, files);
    if !valid {
      return Invalid;
    }
    if !dryRun {
      var ok := WriteFiles(fs, c.writable, faults);
      if !ok {
        return Failed;
      }
    }
    return Done(Paths(c.writable), c.skipped);
  }

  // ----- What a run guarantees -----

  lemma {:induction false} WritableAre(d: Disk, force: bool, files: seq<File>)
    ensures forall f :: f in Classify(d, force, files).writable <==>
            f in files && (f.path !in d || (!f.shared && force))
    ensures Classify(d, force, files).collisions == [] <==>
            (force || forall f :: f in files && !f.shared ==> f.path !in d)
  {
    if files != [] {
      var before, f := files[..|files| - 1], files[|files| - 1];
      WritableAre(d, force, before);
      assert files == before + [f];
      assert forall g :: g in files <==> g in before || g == f;
    }
  }

  lemma {:induction false} WritableIsDistinct(d: Disk, force: bool, files: seq<File>)
    requires Distinct(files)
    ensures Distinct(Classify(d, force, files).writable)
  {
    if files != [] {
      var before, f := files[..|files| - 1], files[|files| - 1];
      WritableIsDistinct(d, force, before);
      WritableAre(d, force, before);
      var w := Classify(d, force, before).writable;
      forall i | 0 <= i < |w| ensures w[i].path != f.path {
        assert w[i] in before;
      }
    }
  }

  /** A shared asset that is there is never written, forced or not, whatever happens. */
  lemma SharedIsNeverWritten(
      env: Env, d: Disk, files: seq<File>, force: bool, dryRun: bool, faults: nat -> Fault, f: File)
    requires Distinct(files) && f in files && f.shared && f.path in d
    ensures SameNode(Outcomes(env, d, files, force, dryRun, faults).1, d, f.path)
  {
    WritableAre(d, force, files);
    var w := Classify(d, force, files).writable;
    forall i | 0 <= i < |w| ensures w[i].path != f.path {
      assert w[i] in w;
      if w[i].path == f.path {
        SamePathSameFile(files, w[i], f);
      }
    }
    OthersUntouched(d, w, faults, f.path);
  }

  lemma SamePathSameFile(files: seq<File>, f: File, g: File)
    requires Distinct(files) && f in files && g in files && f.path == g.path
    ensures f == g
  {
    var i :| 0 <= i < |files| && files[i] == f;
    var j :| 0 <= j < |files| && files[j] == g;
    assert i == j;
  }

  /** A run that fails for any reason before the write loop, and a dry run, changes
      nothing; a failing write loop changes at most the bytes of one file. */
  lemma FailureIsContained(
      env: Env, d: Disk, files: seq<File>, force: bool, dryRun: bool, faults: nat -> Fault)
    ensures var (o, after) := Outcomes(env, d, files, force, dryRun, faults);
            && (dryRun || (!o.Failed? && !o.Done?) ==> after == d)
            && (o.Failed? ==> exists f :: f in files && !(f.shared && f.path in d)
                                          && forall p :: p != f.path ==> SameBytes(after, d, p))
  {
    var w := Classify(d, force, files).writable;
    if WriteAll(d, w, faults).failed {
      FailureRestores(d, w, faults);
      WritableAre(d, force, files);
      assert w[|WriteAll(d, w, faults).log|] in w;
    }
  }

  lemma {:induction false} TreeHolds(d: Disk, files: seq<File>, f: File)
    requires Distinct(files) && f in files
    ensures f.path in Tree(d, files)
    ensures Tree(d, files)[f.path] == if f.shared && f.path in d then d[f.path].data else f.data
  {
    var before, last := files[..|files| - 1], files[|files| - 1];
    if f != last {
      assert files == before + [last];
      TreeHolds(d, before, f);
      if f.path == last.path {
        SamePathSameFile(files, f, last);
      }
    }
  }

  /** After a success every generated file is on disk with exactly the bytes that were
      validated, and no other path has changed. */
  lemma ValidatedIsOnDisk(
      env: Env, d: Disk, files: seq<File>, force: bool, faults: nat -> Fault, f: File)
    requires Distinct(files) && f in files && Outcomes(env, d, files, force, false, faults).0.Done?
    ensures var after := Outcomes(env, d, files, force, false, faults).1;
            && f.path in after && f.path in Tree(d, files) && after[f.path].data == Tree(d, files)[f.path]
            && ((f.shared && f.path in d) || after[f.path].mode == f.mode)
            && forall p :: !Names(files, p) ==> SameNode(after, d, p)
  {
    var w := Classify(d, force, files).writable;
    WritableAre(d, force, files);
    TreeHolds(d, files, f);
    if f.shared && f.path in d {
      SharedIsNeverWritten(env, d, files, force, false, faults, f);
    } else {
      LogFollowsFiles(d, w, faults);
      WritableIsDistinct(d, force, files);
      assert f in w;
      var i :| 0 <= i < |w| && w[i] == f;
      WrittenHolds(d, w, faults, i);
    }
    forall p | !Names(files, p) ensures SameNode(Written(d, w, faults), d, p) {
      forall i | 0 <= i < |w| ensures w[i].path != p {
        assert w[i] in files;
      }
      OthersUntouched(d, w, faults, p);
    }
  }

  // ----- What a failed write leaves, on an agent's own files -----

  /** The harness of an earlier agent of that name, and nothing else. */
  function OldHarness(name: string, n: Node): Disk {
    map["harness/" + name + ".yaml" := n]
  }

  lemma {:induction false} AllWritable(d: Disk, files: seq<File>)
    requires forall f :: f in files && f.path in d ==> !f.shared
    ensures Classify(d, true, files) == Classes([], [], files)
  {
    if files != [] {
      var n := |files| - 1;
      AllWritable(d, files[..n]);
      assert files[n] in files && files == files[..n] + [files[n]];
    }
  }

  /** Forced over the old harness, all generated files are written. */
  lemma ForcedWritesAll(env: Env, name: string, validationLoop: bool, c: Contents, n: Node, faults: nat -> Fault)
    requires var d, files := OldHarness(name, n), Render(name, validationLoop, c);
             Validates(env, d, files) && forall f :: f in files ==> !env.refuses(f.path)
    ensures var d, files := OldHarness(name, n), Render(name, validationLoop, c);
            WriteAll(d, files, faults).failed ==>
              Outcomes(env, d, files, true, false, faults) == (Failed, Written(d, files, faults))
  {
    var d, files := OldHarness(name, n), Render(name, validationLoop, c);
    RenderIsDistinct(name, validationLoop, c);
    forall f | f in files && f.path in d ensures !f.shared {
      var i :| 0 <= i < |files| && files[i] == f;
      assert files[0].path == f.path;
      assert i == 0;
    }
    AllWritable(d, files);
  }

  /** A failed change of mode leaves the new harness in place of the old one. */
  lemma ChmodFailureKeepsNewBytes(env: Env, name: string, validationLoop: bool, c: Contents, was: Bytes)
    requires was != c.harness
    requires var d, files := OldHarness(name, Node(was, PLAIN)), Render(name, validationLoop, c);
             Validates(env, d, files) && forall f :: f in files ==> !env.refuses(f.path)
    ensures var d, files := OldHarness(name, Node(was, PLAIN)), Render(name, validationLoop, c);
            var (o, after) := Outcomes(env, d, files, true, false, (i: nat) => ChmodFails);
            && o == Failed && !SameBytes(after, d, files[0].path)
            && BytesAt(after, files[0].path) == Some(c.harness)
  {
    var d, files := OldHarness(name, Node(was, PLAIN)), Render(name, validationLoop, c);
    var faults := (i: nat) => ChmodFails;
    FirstFails(d, files, faults);
    RenderIsDistinct(name, validationLoop, c);
    ForcedWritesAll(env, name, validationLoop, c, Node(was, PLAIN), faults);
    FailingFileHolds(d, files, faults);
  }

  lemma FirstFails(d: Disk, files: seq<File>, faults: nat -> Fault)
    requires files != [] && WriteOne(Run(d, [], false), files[0], faults(0)).failed
    ensures WriteAll(d, files, faults).failed && WriteAll(d, files, faults).log == []
  {
    assert WriteAll(d, files[..0], faults) == Run(d, [], false);
    WriteNext(d, files, faults, 0);
    FailureIsNotLogged(Run(d, [], false), files[0], faults(0));
  }

  lemma SecondFails(d: Disk, files: seq<File>, faults: nat -> Fault)
    requires |files| > 1
    requires !WriteOne(Run(d, [], false), files[0], faults(0)).failed && faults(1) == MkdirFails
    ensures WriteAll(d, files, faults).failed && |WriteAll(d, files, faults).log| == 1
  {
    assert WriteAll(d, files[..0], faults) == Run(d, [], false);
    WriteNext(d, files, faults, 0);
    WriteNext(d, files, faults, 1);
  }

  /** An old harness that was executable has its bytes back after a failure at the next
      file, but is no longer executable. */
  lemma OverwrittenModeIsLost(env: Env, name: string, validationLoop: bool, c: Contents, was: Bytes)
    requires var d, files := OldHarness(name, Node(was, EXEC)), Render(name, validationLoop, c);
             Validates(env, d, files) && forall f :: f in files ==> !env.refuses(f.path)
    ensures var d, files := OldHarness(name, Node(was, EXEC)), Render(name, validationLoop, c);
            var (o, after) := Outcomes(env, d, files, true, false, (i: nat) => if i == 1 then MkdirFails else NoFault);
            o == Failed && files[0].path in after && after[files[0].path] == Node(was, PLAIN)
  {
    var d, files := OldHarness(name, Node(was, EXEC)), Render(name, validationLoop, c);
    var faults := (i: nat) => if i == 1 then MkdirFails else NoFault;
    SecondFails(d, files, faults);
    RenderIsDistinct(name, validationLoop, c);
    ForcedWritesAll(env, name, validationLoop, c, Node(was, EXEC), faults);
    OverwrittenHolds(d, files, faults, 0);
  }

  /** A dry run lists exactly what the run without it writes, unless that fails. */
  lemma DryRunForetells(env: Env, d: Disk, files: seq<File>, force: bool, faults: nat -> Fault)
    ensures var dry := Outcomes(env, d, files, force, true, faults).0;
            var actual := Outcomes(env, d, files, force, false, faults).0;
            dry == actual || (dry.Done? && actual.Failed?)
  {
  }

  /** Generating the same agent again without force is refused and changes nothing. */
  lemma AgainIsRefused(
      env: Env, d: Disk, files: seq<File>, force: bool, faults: nat -> Fault, dryRun: bool,
      faults2: nat -> Fault, f: File)
    requires Distinct(files) && f in files && !f.shared && Outcomes(env, d, files, force, false, faults).0.Done?
    ensures var after := Outcomes(env, d, files, force, false, faults).1;
            var again := Outcomes(env, after, files, false, dryRun, faults2);
            again.0.Collides? && again.1 == after
  {
    var after := Outcomes(env, d, files, force, false, faults).1;
    ValidatedIsOnDisk(env, d, files, force, faults, f);
    WritableAre(after, false, files);
  }
}
