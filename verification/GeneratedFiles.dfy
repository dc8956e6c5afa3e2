/** What `agent new` does to the files it names, path by path. */
module GeneratedFiles {
  import opened Generate
  import opened Wrappers

  function HarnessPath(name: string): string { "harness/" + name + ".yaml" }
  function AgentPath(name: string): string { "agents/" + name + ".md" }
  function SchemaPath(name: string): string { "schemas/" + name + "-result.schema.json" }
  function ScriptPath(name: string): string { "scripts/post-" + name + ".sh" }

  const POLICY_PATH := "policies/base.yaml"
  const VALIDATOR_PATH := "scripts/validate-output-schema.sh"

  predicate OwnPath(name: string, path: string) {
    path == HarnessPath(name) || path == AgentPath(name) || path == SchemaPath(name) || path == ScriptPath(name)
  }

  predicate SharedPath(validationLoop: bool, path: string) {
    path == POLICY_PATH || (validationLoop && path == VALIDATOR_PATH)
  }

  /** What a generated file holds: rw-r--r--, but rwxr-xr-x for the two scripts. */
  function Expected(name: string, validationLoop: bool, c: Contents, path: string): Option<Node> {
    if path == HarnessPath(name) then Some(Node(c.harness, 420))
    else if path == AgentPath(name) then Some(Node(c.agent, 420))
    else if path == SchemaPath(name) then Some(Node(c.schema, 420))
    else if path == ScriptPath(name) then Some(Node(c.script, 493))
    else if path == POLICY_PATH then Some(Node(c.policy, 420))
    else if validationLoop && path == VALIDATOR_PATH then Some(Node(c.validator, 493))
    else None
  }

  /** The files are those, and the shared ones are marked. */
  lemma FilesAre(name: string, validationLoop: bool, c: Contents, f: File)
    ensures f in Render(name, validationLoop, c) <==>
              && (OwnPath(name, f.path) || SharedPath(validationLoop, f.path))
              && Expected(name, validationLoop, c, f.path) == Some(Node(f.data, f.mode))
              && (f.shared <==> SharedPath(validationLoop, f.path))
  {
    var files := Render(name, validationLoop, c);
    RenderIsDistinct(name, validationLoop, c);
    PathsApart(name, validationLoop, c);
    RenderLists(name, validationLoop, c, f);
  }

  lemma RenderLists(name: string, validationLoop: bool, c: Contents, f: File)
    ensures f in Render(name, validationLoop, c) <==>
              || f == File(HarnessPath(name), c.harness, 420, false)
              || f == File(AgentPath(name), c.agent, 420, false)
              || f == File(SchemaPath(name), c.schema, 420, false)
              || f == File(ScriptPath(name), c.script, 493, false)
              || f == File(POLICY_PATH, c.policy, 420, true)
              || (validationLoop && f == File(VALIDATOR_PATH, c.validator, 493, true))
  {
    var own, shared := Owned(name, c), Shared(validationLoop, c);
    assert f in Render(name, validationLoop, c) <==> f in own || f in shared;
    assert own[0] in own && own[1] in own && own[2] in own && own[3] in own;
    assert shared[0] in shared && (validationLoop ==> shared[1] in shared);
  }

  /** No two of the paths are the same. */
  lemma PathsApart(name: string, validationLoop: bool, c: Contents)
    ensures HarnessPath(name) != AgentPath(name) && HarnessPath(name) != SchemaPath(name)
    ensures HarnessPath(name) != ScriptPath(name) && AgentPath(name) != SchemaPath(name)
    ensures AgentPath(name) != ScriptPath(name) && SchemaPath(name) != ScriptPath(name)
    ensures !OwnPath(name, POLICY_PATH) && !OwnPath(name, VALIDATOR_PATH) && POLICY_PATH != VALIDATOR_PATH
  {
    var files := Render(name, true, c);
    RenderIsDistinct(name, true, c);
    assert files[0].path == HarnessPath(name) && files[1].path == AgentPath(name);
    assert files[2].path == SchemaPath(name) && files[3].path == ScriptPath(name);
    assert files[4].path == POLICY_PATH && files[5].path == VALIDATOR_PATH;
  }

  // ----- Classification -----

  lemma {:induction false} ClassifiedAre(d: Disk, force: bool, files: seq<File>)
    ensures forall p :: p in Classify(d, force, files).skipped <==>
              exists f :: f in files && f.path == p && f.shared && p in d
    ensures forall p :: p in Classify(d, force, files).collisions <==>
              exists f :: f in files && f.path == p && !f.shared && p in d && !force
  {
    if files != [] {
      var before, last := files[..|files| - 1], files[|files| - 1];
      ClassifiedAre(d, force, before);
      assert forall g :: g in files <==> g in before || g == last;
    }
  }

  lemma SharedIsSkipped(d: Disk, name: string, validationLoop: bool, c: Contents, force: bool, path: string)
    requires (path == POLICY_PATH || path == VALIDATOR_PATH) && path in d
    ensures var cl := Classify(d, force, Render(name, validationLoop, c));
            && path !in cl.collisions && !Names(cl.writable, path)
            && (path in cl.skipped <==> SharedPath(validationLoop, path))
  {
    var files := Render(name, validationLoop, c);
    var cl := Classify(d, force, files);
    ClassifiedAre(d, force, files);
    WritableAre(d, force, files);
    PathsApart(name, validationLoop, c);
    forall f | f in files && f.path == path ensures f.shared && SharedPath(validationLoop, path) {
      FilesAre(name, validationLoop, c, f);
    }
    forall i | 0 <= i < |cl.writable| ensures cl.writable[i].path != path {
      assert cl.writable[i] in cl.writable;
    }
    if SharedPath(validationLoop, path) {
      SharedIsThere(name, validationLoop, c, path);
    }
  }

  lemma NotAmongPaths(files: seq<File>, path: string)
    requires !Names(files, path)
    ensures path !in Paths(files)
  {
    assert forall i :: 0 <= i < |files| ==> Paths(files)[i] == files[i].path;
  }

  /** A shared file that is there stays as it is, forced or not, whatever happens, and is
      never in the way. */
  lemma SharedStays(
      env: Env, d: Disk, name: string, validationLoop: bool, c: Contents, force: bool, dryRun: bool,
      faults: nat -> Fault, path: string)
    requires (path == "policies/base.yaml" || path == "scripts/validate-output-schema.sh") && path in d
    ensures var (o, after) := Outcomes(env, d, Render(name, validationLoop, c), force, dryRun, faults);
            && path in after && after[path] == d[path]
            && (o.Collides? ==> path !in o.paths) && (o.Done? ==> path !in o.written)
            && (o.Done? ==> (path in o.skipped <==> SharedPath(validationLoop, path)))
  {
    var writable := Classify(d, force, Render(name, validationLoop, c)).writable;
    SharedIsSkipped(d, name, validationLoop, c, force, path);
    NotAmongPaths(writable, path);
    OthersUntouched(d, writable, faults, path);
  }

  lemma SharedIsThere(name: string, validationLoop: bool, c: Contents, path: string)
    requires SharedPath(validationLoop, path)
    ensures exists f :: f in Render(name, validationLoop, c) && f.path == path && f.shared
  {
    PathsApart(name, validationLoop, c);
    var n := Expected(name, validationLoop, c, path).value;
    var f := File(path, n.data, n.mode, true);
    FilesAre(name, validationLoop, c, f);
  }

  lemma OwnIsThere(name: string, validationLoop: bool, c: Contents, path: string)
    requires OwnPath(name, path)
    ensures exists f :: f in Render(name, validationLoop, c) && f.path == path && !f.shared
  {
    PathsApart(name, validationLoop, c);
    var n := Expected(name, validationLoop, c, path).value;
    var f := File(path, n.data, n.mode, false);
    FilesAre(name, validationLoop, c, f);
  }

  /** A run that collides changes nothing and names exactly the agent's own files that
      are there. */
  lemma CollidesOnOwn(
      env: Env, d: Disk, name: string, validationLoop: bool, c: Contents, force: bool, dryRun: bool,
      faults: nat -> Fault)
    ensures var (o, after) := Outcomes(env, d, Render(name, validationLoop, c), force, dryRun, faults);
            o.Collides? ==> after == d && forall path :: path in o.paths <==> OwnPath(name, path) && path in d
  {
    var (o, _) := Outcomes(env, d, Render(name, validationLoop, c), force, dryRun, faults);
    if o.Collides? {
      forall path ensures path in o.paths <==> OwnPath(name, path) && path in d && !force {
        CollisionIs(d, name, validationLoop, c, force, path);
      }
      CollisionsExactly(d, name, validationLoop, c, force);
    }
  }

  lemma CollisionIs(d: Disk, name: string, validationLoop: bool, c: Contents, force: bool, p: string)
    ensures p in Classify(d, force, Render(name, validationLoop, c)).collisions
            <==> OwnPath(name, p) && p in d && !force
  {
    var files := Render(name, validationLoop, c);
    ClassifiedAre(d, force, files);
    PathsApart(name, validationLoop, c);
    forall f | f in files && f.path == p && !f.shared ensures OwnPath(name, p) {
      FilesAre(name, validationLoop, c, f);
    }
    if OwnPath(name, p) {
      OwnIsThere(name, validationLoop, c, p);
    }
  }

  /** After a success the agent's own four files hold their contents and modes, and so do
      the shared ones unless they were there before; nothing else has changed. */
  lemma SuccessWrites(
      env: Env, d: Disk, name: string, validationLoop: bool, c: Contents, force: bool, faults: nat -> Fault,
      path: string)
    requires Outcomes(env, d, Render(name, validationLoop, c), force, false, faults).0.Done?
    ensures var (o, after) := Outcomes(env, d, Render(name, validationLoop, c), force, false, faults);
            && (OwnPath(name, path) || (SharedPath(validationLoop, path) && path !in d) ==>
                  path in after && Some(after[path]) == Expected(name, validationLoop, c, path))
            && (!OwnPath(name, path) && (!SharedPath(validationLoop, path) || path in d) ==> SameNode(after, d, path))
  {
    var files := Render(name, validationLoop, c);
    RenderIsDistinct(name, validationLoop, c);
    PathsApart(name, validationLoop, c);
    if OwnPath(name, path) || (SharedPath(validationLoop, path) && path !in d) {
      var n := Expected(name, validationLoop, c, path).value;
      var f := File(path, n.data, n.mode, SharedPath(validationLoop, path));
      FilesAre(name, validationLoop, c, f);
      TreeHolds(d, files, f);
      ValidatedIsOnDisk(env, d, files, force, faults, f);
    } else if SharedPath(validationLoop, path) {
      SharedStays(env, d, name, validationLoop, c, force, false, faults, path);
    } else {
      NotNamed(name, validationLoop, c, path);
      var f := File(HarnessPath(name), c.harness, 420, false);
      FilesAre(name, validationLoop, c, f);
      ValidatedIsOnDisk(env, d, files, force, faults, f);
    }
  }

  lemma NotNamed(name: string, validationLoop: bool, c: Contents, path: string)
    requires !OwnPath(name, path) && !SharedPath(validationLoop, path)
    ensures !Names(Render(name, validationLoop, c), path)
  {
    var files := Render(name, validationLoop, c);
    forall i | 0 <= i < |files| ensures files[i].path != path {
      FilesAre(name, validationLoop, c, files[i]);
    }
  }

  /** What is validated: every generated file, and a shared one that is there as it is. */
  ghost predicate ValidatedTree(
      d: Disk, name: string, validationLoop: bool, c: Contents, tree: map<string, Bytes>)
  {
    && (forall path :: path in tree <==> OwnPath(name, path) || SharedPath(validationLoop, path))
    && forall path :: path in tree ==>
         tree[path] == if SharedPath(validationLoop, path) && path in d then d[path].data
                       else Expected(name, validationLoop, c, path).value.data
  }

  lemma {:induction false} TreeKeys(d: Disk, files: seq<File>)
    ensures forall path :: path in Tree(d, files) <==> exists f :: f in files && f.path == path
  {
    if files != [] {
      var before, last := files[..|files| - 1], files[|files| - 1];
      TreeKeys(d, before);
      assert forall g :: g in files <==> g in before || g == last;
    }
  }

  lemma TreeIsValidated(d: Disk, name: string, validationLoop: bool, c: Contents)
    ensures ValidatedTree(d, name, validationLoop, c, Tree(d, Render(name, validationLoop, c)))
  {
    var files := Render(name, validationLoop, c);
    RenderIsDistinct(name, validationLoop, c);
    TreeKeys(d, files);
    PathsApart(name, validationLoop, c);
    forall path | OwnPath(name, path) || SharedPath(validationLoop, path)
      ensures path in Tree(d, files)
      ensures Tree(d, files)[path]
              == if SharedPath(validationLoop, path) && path in d then d[path].data
                 else Expected(name, validationLoop, c, path).value.data
    {
      var n := Expected(name, validationLoop, c, path).value;
      var f := File(path, n.data, n.mode, SharedPath(validationLoop, path));
      FilesAre(name, validationLoop, c, f);
      TreeHolds(d, files, f);
    }
    forall path | path in Tree(d, files) ensures OwnPath(name, path) || SharedPath(validationLoop, path) {
      var f :| f in files && f.path == path;
      FilesAre(name, validationLoop, c, f);
    }
  }

  ghost predicate SomeRefused(env: Env, name: string, validationLoop: bool) {
    exists path :: (OwnPath(name, path) || SharedPath(validationLoop, path)) && env.refuses(path)
  }

  ghost predicate OwnInTheWay(d: Disk, name: string) {
    exists path :: OwnPath(name, path) && path in d
  }

  ghost predicate SharedReadable(env: Env, d: Disk, validationLoop: bool) {
    forall path :: SharedPath(validationLoop, path) && path in d ==> !env.unreadable(path)
  }

  lemma RefusedExactly(env: Env, name: string, validationLoop: bool, c: Contents)
    ensures (exists f :: f in Render(name, validationLoop, c) && env.refuses(f.path))
            <==> SomeRefused(env, name, validationLoop)
  {
    var files := Render(name, validationLoop, c);
    if f :| f in files && env.refuses(f.path) {
      FilesAre(name, validationLoop, c, f);
    }
    if path :| (OwnPath(name, path) || SharedPath(validationLoop, path)) && env.refuses(path) {
      if OwnPath(name, path) {
        OwnIsThere(name, validationLoop, c, path);
      } else {
        SharedIsThere(name, validationLoop, c, path);
      }
    }
  }

  lemma ReadableExactly(env: Env, d: Disk, name: string, validationLoop: bool, c: Contents)
    ensures (forall f :: f in Render(name, validationLoop, c) && f.shared && f.path in d ==> !env.unreadable(f.path))
            <==> SharedReadable(env, d, validationLoop)
  {
    forall f | f in Render(name, validationLoop, c) && f.shared ensures SharedPath(validationLoop, f.path) {
      FilesAre(name, validationLoop, c, f);
    }
    forall path | SharedPath(validationLoop, path)
      ensures exists f :: f in Render(name, validationLoop, c) && f.path == path && f.shared
    {
      SharedIsThere(name, validationLoop, c, path);
    }
  }

  lemma CollisionsExactly(d: Disk, name: string, validationLoop: bool, c: Contents, force: bool)
    ensures Classify(d, force, Render(name, validationLoop, c)).collisions != [] <==> !force && OwnInTheWay(d, name)
  {
    var collisions := Classify(d, force, Render(name, validationLoop, c)).collisions;
    if collisions != [] {
      CollisionIs(d, name, validationLoop, c, force, collisions[0]);
    }
    if !force && OwnInTheWay(d, name) {
      var path :| OwnPath(name, path) && path in d;
      CollisionIs(d, name, validationLoop, c, force, path);
    }
  }

  /** What stops a run before its first write: a destination that is refused; then files
      of its own in the way; then a tree that cannot be read or is no valid harness. */
  lemma StopsExactly(
      env: Env, d: Disk, name: string, validationLoop: bool, c: Contents, force: bool, dryRun: bool,
      faults: nat -> Fault)
    returns (tree: map<string, Bytes>)
    ensures ValidatedTree(d, name, validationLoop, c, tree)
    ensures var o := Outcomes(env, d, Render(name, validationLoop, c), force, dryRun, faults).0;
            var refused, collides := SomeRefused(env, name, validationLoop), !force && OwnInTheWay(d, name);
            var valid := SharedReadable(env, d, validationLoop) && env.accepts(tree);
            && (o.Refused? <==> refused) && (o.Collides? <==> !refused && collides)
            && (o.Invalid? <==> !refused && !collides && !valid)
            && (o.Done? || o.Failed? <==> !refused && !collides && valid)
  {
    tree := Tree(d, Render(name, validationLoop, c));
    TreeIsValidated(d, name, validationLoop, c);
    RefusedExactly(env, name, validationLoop, c);
    ReadableExactly(env, d, name, validationLoop, c);
    CollisionsExactly(d, name, validationLoop, c, force);
    Decided(env, d, Render(name, validationLoop, c), force, dryRun, faults);
  }

  lemma Decided(env: Env, d: Disk, files: seq<File>, force: bool, dryRun: bool, faults: nat -> Fault)
    ensures var o := Outcomes(env, d, files, force, dryRun, faults).0;
            var refused := exists f :: f in files && env.refuses(f.path);
            var collides := Classify(d, force, files).collisions != [];
            && (o.Refused? <==> refused) && (o.Collides? <==> !refused && collides)
            && (o.Invalid? <==> !refused && !collides && !Validates(env, d, files))
            && (o.Done? || o.Failed? <==> !refused && !collides && Validates(env, d, files))
  {
  }

  /** An agent is generated beside another one: the policy of the first is skipped. */
  lemma SecondAgentIsGenerated(env: Env, d: Disk, name: string, c: Contents, faults: nat -> Fault)
    requires POLICY_PATH in d && forall path :: OwnPath(name, path) ==> path !in d
    requires forall path :: !env.refuses(path)
    requires Validates(env, d, Render(name, false, c)) && forall i :: faults(i) == NoFault
    ensures var (o, after) := Outcomes(env, d, Render(name, false, c), false, false, faults);
            o.Done? && POLICY_PATH in after && after[POLICY_PATH] == d[POLICY_PATH]
  {
    var files := Render(name, false, c);
    var tree := StopsExactly(env, d, name, false, c, false, false, faults);
    Decided(env, d, Render(name, false, c), false, false, faults);
    SharedStays(env, d, name, false, c, false, false, faults, POLICY_PATH);
    NoFaultSucceeds(d, Classify(d, false, files).writable, faults);
  }

  lemma {:induction false} NoFaultSucceeds(d: Disk, files: seq<File>, faults: nat -> Fault)
    requires forall i :: faults(i) == NoFault
    ensures !WriteAll(d, files, faults).failed
  {
    if files != [] {
      NoFaultSucceeds(d, files[..|files| - 1], faults);
    }
  }
}
