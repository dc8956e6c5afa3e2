/** `lock --all`: one pass over all known agents that re-locks what is stale, drops what
    has nothing left to lock and entries of agents that are gone, and saves once; a
    failure on the way saves what was done so far. */
module LockAll {
  import opened Wrappers

  datatype Dep = Dep(field: string, url: string, sha: string)

  datatype Entry = Entry(sha: string, deps: seq<Dep>)

  type Locks = map<string, Entry>

  // ----- The union of dependencies by URL -----

  function URLs(deps: seq<Dep>): set<string> {
    set d | d in deps :: d.url
  }

  /** The first dependency on each URL. */
  function Union(deps: seq<Dep>): seq<Dep> {
    if deps == [] then []
    else
      var last := deps[|deps| - 1];
      var before := Union(deps[..|deps| - 1]);
      if last.url in URLs(before) then before else before + [last]
  }

  /** What one forge variant resolves to: its base's dependencies, then its own. */
  datatype Variant = Fails | Resolves(base: seq<Dep>, own: seq<Dep>)

  predicate AllResolve(variants: seq<Variant>) {
    forall i :: 0 <= i < |variants| ==> variants[i].Resolves?
  }

  function Flat(source: seq<Dep>, variants: seq<Variant>): seq<Dep>
    requires AllResolve(variants)
  {
    if variants == [] then source
    else
      var v := variants[|variants| - 1];
      Flat(source, variants[..|variants| - 1]) + v.base + v.own
  }

  /** What is locked for a harness: the union over its variants, unless one fails. */
  function Resolve(source: seq<Dep>, variants: seq<Variant>): Result<seq<Dep>> {
    if AllResolve(variants) then Ok(Union(Flat(source, variants))) else Err
  }

  /** No URL twice, no URL lost. */
  lemma {:induction false} UnionIsExact(deps: seq<Dep>)
    ensures URLs(Union(deps)) == URLs(deps)
    ensures forall i, j :: 0 <= i < j < |Union(deps)| ==> Union(deps)[i].url != Union(deps)[j].url
    ensures forall d :: d in Union(deps) ==> d in deps
  {
    if deps != [] {
      var before, last := deps[..|deps| - 1], deps[|deps| - 1];
      UnionIsExact(before);
      assert deps == before + [last];
      assert URLs(deps) == URLs(before) + {last.url};
      var u := Union(before);
      if last.url !in URLs(u) {
        assert URLs(u + [last]) == URLs(u) + {last.url};
        forall i | 0 <= i < |u| ensures u[i].url != last.url {
          assert u[i] in u;
        }
      }
    }
  }

  /** A URL keeps the dependency it was first seen with. */
  lemma {:induction false} UnionKeepsFirst(deps: seq<Dep>, i: nat)
    requires i < |deps| && forall j :: 0 <= j < i ==> deps[j].url != deps[i].url
    ensures deps[i] in Union(deps)
    decreases |deps|
  {
    var before, last := deps[..|deps| - 1], deps[|deps| - 1];
    if i < |deps| - 1 {
      UnionKeepsFirst(before, i);
    } else {
      UnionIsExact(before);
      forall d | d in before ensures d.url != last.url {
        var j :| 0 <= j < |before| && before[j] == d;
        assert deps[j] == d;
      }
    }
  }

  /** The union of `flat` and the URLs in it. */
  ghost predicate UnionSoFar(all: seq<Dep>, seen: set<string>, flat: seq<Dep>) {
    all == Union(flat) && seen == URLs(all)
  }

  lemma UnionNext(all: seq<Dep>, seen: set<string>, flat: seq<Dep>, d: Dep)
    requires UnionSoFar(all, seen, flat)
    ensures if d.url in seen then UnionSoFar(all, seen, flat + [d])
            else UnionSoFar(all + [d], seen + {d.url}, flat + [d])
  {
    assert (flat + [d])[..|flat|] == flat;
    assert URLs(all + [d]) == URLs(all) + {d.url};
  }

  /** Appends the dependencies with URLs not seen before. */
  method AddUnseen(all: seq<Dep>, seen: set<string>, more: seq<Dep>, ghost flat: seq<Dep>)
    returns (all': seq<Dep>, seen': set<string>)
    requires UnionSoFar(all, seen, flat)
    ensures UnionSoFar(all', seen', flat + more)
  {
    all', seen' := all, seen;
    assert flat + more[..0] == flat;
    for i := 0 to |more|
      invariant UnionSoFar(all', seen', flat + more[..i])
    {
      var d := more[i];
      UnionNext(all', seen', flat + more[..i], d);
      assert flat + more[..i + 1] == flat + more[..i] + [d];
      if d.url !in seen' {
        seen' := seen' + {d.url};
        all' := all' + [d];
      }
    }
    assert more[..|more|] == more;
  }

  lemma OneIsUnion(source: seq<Dep>)
    requires |source| <= 1
    ensures UnionSoFar(source, URLs(source), source)
  {
    if source != [] {
      assert source[..0] == [] && source == [source[0]];
    }
  }

  lemma FlatNext(source: seq<Dep>, variants: seq<Variant>, i: nat)
    requires i < |variants| && AllResolve(variants[..i]) && variants[i].Resolves?
    ensures AllResolve(variants[..i + 1])
    ensures Flat(source, variants[..i + 1]) == Flat(source, variants[..i]) + variants[i].base + variants[i].own
  {
    assert variants[..i + 1] == variants[..i] + [variants[i]];
    assert variants[..i + 1][..i] == variants[..i];
  }

  /** The loop over forge variants. A URL-sourced harness starts with the one
      dependency on its own source. */
  method ResolveVariants(source: seq<Dep>, variants: seq<Variant>) returns (r: Result<seq<Dep>>)
    requires |source| <= 1
    ensures r == Resolve(source, variants)
  {
    var all, seen := source, URLs(source);
    OneIsUnion(source);
    for i := 0 to |variants|
      invariant AllResolve(variants[..i])
      invariant UnionSoFar(all, seen, Flat(source, variants[..i]))
    {
      if variants[i].Fails? {
        return Err;
      }
      ghost var flat := Flat(source, variants[..i]);
      FlatNext(source, variants, i);
      all, seen := AddUnseen(all, seen, variants[i].base, flat);
      all, seen := AddUnseen(all, seen, variants[i].own, flat + variants[i].base);
    }
    assert variants[..|variants|] == variants;
    return Ok(all);
  }

  // ----- One agent -----

  /** An agent's harness file in the harness directory. */
  datatype Local = Found(hash: string) | Absent | Broken

  /** What the file system, the configuration and the network answer for each agent.
      `config` is the hash of a harness resolved through the configuration; `source`
      its dependency on its own source when that is a URL. */
  datatype Env = Env(
    local: string -> Local,
    config: string -> Option<string>,
    source: string -> Option<Dep>,
    variants: string -> seq<Variant>)

  /** The harness is looked up locally first, then through the configuration. */
  function HarnessHash(env: Env, name: string): Option<string> {
    match env.local(name)
    case Found(hash) => Some(hash)
    case Absent => env.config(name)
    case Broken => None
  }

  function SourceDeps(env: Env, name: string): seq<Dep> {
    if env.local(name).Absent? && env.source(name).Some? then [env.source(name).value] else []
  }

  /** `lockOneAgent`: a new entry, nothing, or a failure. */
  function LockOne(env: Env, update: bool, lf: Locks, name: string): Result<Option<Entry>> {
    match HarnessHash(env, name)
    case None => Err
    case Some(hash) =>
      if !update && name in lf && lf[name].sha == hash then Ok(None)
      else
        match Resolve(SourceDeps(env, name), env.variants(name))
        case Err => Err
        case Ok(deps) => Ok(if deps == [] then None else Some(Entry(hash, deps)))
  }

  method LockOneAgent(env: Env, update: bool, lf: Locks, name: string) returns (r: Result<Option<Entry>>)
    ensures r == LockOne(env, update, lf, name)
  {
    var hash := HarnessHash(env, name);
    if hash.None? {
      return Err;
    }
    if !update && name in lf && lf[name].sha == hash.value {
      return Ok(None);
    }
    var deps := ResolveVariants(SourceDeps(env, name), env.variants(name));
    if deps.Err? {
      return Err;
    }
    return Ok(if deps.value == [] then None else Some(Entry(hash.value, deps.value)));
  }

  /** `isHarnessUpToDate`: only the local file counts, and an entry whose harness cannot
      be read is kept. */
  predicate UpToDate(env: Env, name: string, e: Entry) {
    env.local(name).Found? ==> env.local(name).hash == e.sha
  }

  // ----- The pass -----

  /** Where the pass is: the lock, the agents it locked or pruned, how many agents it is
      done with, and whether one failed. */
  datatype Pass = Pass(lf: Locks, locked: seq<string>, pruned: seq<string>, done: nat, failed: bool)

  function Visit(env: Env, update: bool, p: Pass, name: string): Pass {
    match LockOne(env, update, p.lf, name)
    case Err => p.(failed := true)
    case Ok(Some(e)) => p.(lf := p.lf[name := e], locked := p.locked + [name], done := p.done + 1)
    case Ok(None) =>
      if name in p.lf && !UpToDate(env, name, p.lf[name]) then
        p.(lf := p.lf - {name}, pruned := p.pruned + [name], done := p.done + 1)
      else p.(done := p.done + 1)
  }

  function VisitAll(env: Env, update: bool, lf: Locks, names: seq<string>): Pass {
    if names == [] then Pass(lf, [], [], 0, false)
    else
      var p := VisitAll(env, update, lf, names[..|names| - 1]);
      if p.failed then p else Visit(env, update, p, names[|names| - 1])
  }

  function OnlyKnown(lf: Locks, names: seq<string>, locked: seq<string>): Locks {
    map n | n in lf && (n in names || n in locked) :: lf[n]
  }

  /** What a run leaves on disk, whether it wrote, and whether it succeeded. */
  datatype Done = Done(disk: Option<Locks>, wrote: bool, ok: bool)

  function Loaded(disk: Option<Locks>): Locks {
    if disk.Some? then disk.value else map[]
  }

  function RunAll(env: Env, update: bool, disk: Option<Locks>, names: seq<string>, saves: bool): Done {
    if names == [] then Done(disk, false, true)
    else
      var p := VisitAll(env, update, Loaded(disk), names);
      if p.failed then
        if p.locked != [] && saves then Done(Some(p.lf), true, false) else Done(disk, false, false)
      else
        var lf := OnlyKnown(p.lf, names, p.locked);
        if p.locked == [] && p.pruned == [] && lf == p.lf then Done(disk, false, true)
        else if saves then Done(Some(lf), true, true)
        else Done(disk, false, false)
  }

  /** `lock.yaml`, written whole by a rename. */
  class LockStore {
    var disk: Option<Locks>
    var writes: nat

    constructor (disk: Option<Locks>)
      ensures this.disk == disk && writes == 0
    {
      this.disk, writes := disk, 0;
    }

    method Save(lf: Locks, saves: bool) returns (ok: bool)
      modifies this
      ensures ok == saves
      ensures disk == (if saves then Some(lf) else old(disk)) && writes == old(writes) + (if saves then 1 else 0)
    {
      ok := saves;
      if saves {
        disk, writes := Some(lf), writes + 1;
      }
    }
  }

  /** The lock file in memory. */
  class LockFile {
    var harnesses: Locks

    constructor (harnesses: Locks)
      ensures this.harnesses == harnesses
    {
      this.harnesses := harnesses;
    }
  }

  /** One turn of the agent loop. */
  method VisitAgent(lf: LockFile, env: Env, update: bool, name: string, ghost p: Pass)
    returns (locked: bool, pruned: bool, failed: bool)
    requires lf.harnesses == p.lf && !p.failed
    modifies lf
    ensures Visit(env, update, p, name) ==
            Pass(lf.harnesses, p.locked + (if locked then [name] else []), p.pruned + (if pruned then [name] else []),
                 p.done + (if failed then 0 else 1), failed)
    ensures failed ==> !locked && !pruned
  {
    locked, pruned, failed := false, false, false;
    var r := LockOneAgent(env, update, lf.harnesses, name);
    match r {
      case Err => failed := true;
      case Ok(Some(e)) =>
        lf.harnesses := lf.harnesses[name := e];
        locked := true;
      case Ok(None) =>
        if name in lf.harnesses && !UpToDate(env, name, lf.harnesses[name]) {
          lf.harnesses := lf.harnesses - {name};
          pruned := true;
        }
    }
  }

  lemma {:induction false} VisitStops(env: Env, update: bool, lf: Locks, names: seq<string>, n: nat)
    requires n <= |names| && VisitAll(env, update, lf, names[..n]).failed
    ensures VisitAll(env, update, lf, names) == VisitAll(env, update, lf, names[..n])
    decreases |names|
  {
    if n < |names| {
      assert names[..|names| - 1][..n] == names[..n];
      VisitStops(env, update, lf, names[..|names| - 1], n);
    } else {
      assert names[..n] == names;
    }
  }

  /** The loop over agents; it stops at the first failure. */
  method VisitAgents(lf: LockFile, env: Env, update: bool, names: seq<string>)
    returns (locked: seq<string>, pruned: seq<string>, ghost done: nat, failed: bool)
    modifies lf
    ensures VisitAll(env, update, old(lf.harnesses), names) == Pass(lf.harnesses, locked, pruned, done, failed)
  {
    locked, pruned, done, failed := [], [], 0, false;
    for i := 0 to |names|
      invariant VisitAll(env, update, old(lf.harnesses), names[..i]) == Pass(lf.harnesses, locked, pruned, done, false)
    {
      assert names[..i + 1][..i] == names[..i];
      ghost var p := Pass(lf.harnesses, locked, pruned, done, false);
      var isLocked, isPruned;
      isLocked, isPruned, failed := VisitAgent(lf, env, update, names[i], p);
      if failed {
        VisitStops(env, update, old(lf.harnesses), names, i + 1);
        return;
      }
      locked := locked + if isLocked then [names[i]] else [];
      pruned := pruned + if isPruned then [names[i]] else [];
      done := done + 1;
    }
    assert names[..|names|] == names;
  }

  /** Prunes entries of agents that are gone. */
  method PruneRemoved(lf: LockFile, names: seq<string>, locked: seq<string>) returns (any: bool)
    modifies lf
    ensures lf.harnesses == OnlyKnown(old(lf.harnesses), names, locked)
    ensures any <==> lf.harnesses != old(lf.harnesses)
  {
    any := false;
    var todo := lf.harnesses.Keys;
    ghost var was := lf.harnesses;
    while todo != {}
      invariant todo <= was.Keys
      invariant lf.harnesses == map n | n in was && (n in todo || n in names || n in locked) :: was[n]
      invariant any <==> lf.harnesses != was
      decreases |todo|
    {
      var name :| name in todo;
      todo := todo - {name};
      if name !in names && name !in locked {
        assert name in lf.harnesses;
        lf.harnesses := lf.harnesses - {name};
        any := true;
        assert name in was && name !in lf.harnesses;
      }
    }
  }

  /** `runLockAll`, from the loaded lock file on. */
  method RunLockAll(store: LockStore, env: Env, update: bool, names: seq<string>, saves: bool) returns (ok: bool)
    modifies store
    ensures RunAll(env, update, old(store.disk), names, saves) == Done(store.disk, store.writes > old(store.writes), ok)
    ensures store.writes <= old(store.writes) + 1
  {
    if names == [] {
      return true;
    }
    var lf := new LockFile(if store.disk.Some? then store.disk.value else map[]);
    ghost var was := lf.harnesses;
    var locked, pruned, done, failed := VisitAgents(lf, env, update, names);
    if failed {
      if locked != [] {
        var saved := store.Save(lf.harnesses, saves);
      }
      return false;
    }
    var removed := PruneRemoved(lf, names, locked);
    if locked == [] && pruned == [] && !removed {
      return true;
    }
    ok := store.Save(lf.harnesses, saves);
  }

  // ----- What a pass guarantees -----

  /** The entry was made in this pass from the harness as it is, or it is an old one
      that the up-to-date check let stay. */
  ghost predicate Accounted(env: Env, was: Locks, p: Pass, n: string)
    requires n in p.lf
  {
    || (n in p.locked && HarnessHash(env, n) == Some(p.lf[n].sha) && p.lf[n].deps != []
        && Resolve(SourceDeps(env, n), env.variants(n)) == Ok(p.lf[n].deps))
    || (n in was && was[n] == p.lf[n] && UpToDate(env, n, was[n]))
  }

  /** Another pass would do nothing about this agent. */
  ghost predicate Settled(env: Env, lf: Locks, n: string) {
    LockOne(env, false, lf, n) == Ok(None) && (n in lf ==> UpToDate(env, n, lf[n]))
  }

  ghost predicate SameAt(lf: Locks, was: Locks, n: string) {
    (n in lf <==> n in was) && (n in lf ==> lf[n] == was[n])
  }

  ghost predicate KeepsUnvisited(was: Locks, p: Pass, done: seq<string>) {
    && (forall n :: n in p.locked ==> n in done)
    && (forall n :: n !in done ==> SameAt(p.lf, was, n))
  }

  ghost predicate AccountsForVisited(env: Env, was: Locks, p: Pass, done: seq<string>) {
    forall n :: n in p.lf && n in done ==> Accounted(env, was, p, n)
  }

  ghost predicate SettlesVisited(env: Env, lf: Locks, done: seq<string>) {
    forall n :: n in done ==> Settled(env, lf, n)
  }

  ghost predicate PassOk(env: Env, was: Locks, p: Pass, names: seq<string>) {
    && p.done <= |names| && (!p.failed ==> p.done == |names|)
    && KeepsUnvisited(was, p, names[..p.done])
    && AccountsForVisited(env, was, p, names[..p.done])
    && SettlesVisited(env, p.lf, names[..p.done])
  }

  lemma VisitSettles(env: Env, update: bool, p: Pass, name: string)
    requires !Visit(env, update, p, name).failed
    ensures Settled(env, Visit(env, update, p, name).lf, name)
    ensures forall n :: n != name ==> SameAt(Visit(env, update, p, name).lf, p.lf, n)
  {
  }

  lemma VisitAccounts(env: Env, update: bool, was: Locks, p: Pass, name: string)
    requires !Visit(env, update, p, name).failed && name in Visit(env, update, p, name).lf
    requires name in p.lf ==> Accounted(env, was, p, name) || SameAt(p.lf, was, name)
    ensures Accounted(env, was, Visit(env, update, p, name), name)
  {
  }

  lemma {:induction false} PassIsOk(env: Env, update: bool, was: Locks, names: seq<string>)
    ensures PassOk(env, was, VisitAll(env, update, was, names), names)
  {
    if names != [] {
      var before, name := names[..|names| - 1], names[|names| - 1];
      PassIsOk(env, update, was, before);
      var p := VisitAll(env, update, was, before);
      assert names == before + [name];
      if p.failed || Visit(env, update, p, name).failed {
        FailedIsOk(env, was, p, before, name);
      } else {
        StepIsOk(env, update, was, p, before, name);
      }
    }
  }

  lemma FailedIsOk(env: Env, was: Locks, p: Pass, before: seq<string>, name: string)
    requires PassOk(env, was, p, before)
    ensures PassOk(env, was, p.(failed := true), before + [name])
  {
    assert (before + [name])[..p.done] == before[..p.done];
  }

  lemma StepKeepsUnvisited(env: Env, update: bool, was: Locks, p: Pass, done: seq<string>, name: string)
    requires KeepsUnvisited(was, p, done) && !Visit(env, update, p, name).failed
    ensures KeepsUnvisited(was, Visit(env, update, p, name), done + [name])
  {
    VisitSettles(env, update, p, name);
    var q := Visit(env, update, p, name);
    forall n | n !in done + [name] ensures SameAt(q.lf, was, n) {
      assert SameAt(p.lf, was, n) && SameAt(q.lf, p.lf, n);
    }
  }

  lemma StepAccounts(env: Env, update: bool, was: Locks, p: Pass, done: seq<string>, name: string)
    requires KeepsUnvisited(was, p, done) && AccountsForVisited(env, was, p, done)
             && !Visit(env, update, p, name).failed
    ensures AccountsForVisited(env, was, Visit(env, update, p, name), done + [name])
  {
    VisitSettles(env, update, p, name);
    var q := Visit(env, update, p, name);
    forall n | n in q.lf && n in done + [name] ensures Accounted(env, was, q, n) {
      if n == name {
        if name in p.lf && name in done {
          assert Accounted(env, was, p, name);
        }
        VisitAccounts(env, update, was, p, name);
      } else {
        assert SameAt(q.lf, p.lf, n) && Accounted(env, was, p, n);
      }
    }
  }

  lemma StepSettles(env: Env, update: bool, p: Pass, done: seq<string>, name: string)
    requires SettlesVisited(env, p.lf, done) && !Visit(env, update, p, name).failed
    ensures SettlesVisited(env, Visit(env, update, p, name).lf, done + [name])
  {
    VisitSettles(env, update, p, name);
    var q := Visit(env, update, p, name);
    forall n | n in done + [name] ensures Settled(env, q.lf, n) {
      if n != name {
        assert Settled(env, p.lf, n) && SameAt(q.lf, p.lf, n);
      }
    }
  }

  lemma StepIsOk(env: Env, update: bool, was: Locks, p: Pass, before: seq<string>, name: string)
    requires PassOk(env, was, p, before) && !p.failed && !Visit(env, update, p, name).failed
    ensures PassOk(env, was, Visit(env, update, p, name), before + [name])
  {
    var names := before + [name];
    assert names[..|names|] == names && before[..p.done] == before;
    StepKeepsUnvisited(env, update, was, p, before, name);
    StepAccounts(env, update, was, p, before, name);
    StepSettles(env, update, p, before, name);
  }

  /** After a run that succeeded over at least one agent, every entry left names a known
      agent, and was locked in this run or kept by the up-to-date check. */
  lemma SuccessAccountsForAll(env: Env, update: bool, disk: Option<Locks>, names: seq<string>, saves: bool)
    requires names != [] && RunAll(env, update, disk, names, saves).ok
    ensures var left := Loaded(RunAll(env, update, disk, names, saves).disk);
            var p := VisitAll(env, update, Loaded(disk), names);
            forall n :: n in left ==>
              n in names && n in p.lf && left[n] == p.lf[n] && Accounted(env, Loaded(disk), p, n)
  {
    PassIsOk(env, update, Loaded(disk), names);
    assert names[..|names|] == names;
    IdlePassKeepsAll(env, update, Loaded(disk), names);
  }

  lemma {:induction false} IdlePassKeepsAll(env: Env, update: bool, was: Locks, names: seq<string>)
    ensures var p := VisitAll(env, update, was, names);
            p.locked == [] && p.pruned == [] ==> p.lf == was
  {
    if names != [] {
      IdlePassKeepsAll(env, update, was, names[..|names| - 1]);
    }
  }

  /** A success prunes what is unknown exactly when there is an agent at all or there was
      nothing to prune: with no agent the run returns before the pruning. */
  lemma OnlyKnownLeft(env: Env, update: bool, disk: Option<Locks>, names: seq<string>, saves: bool)
    requires RunAll(env, update, disk, names, saves).ok
    ensures (forall n :: n in Loaded(RunAll(env, update, disk, names, saves).disk) ==> n in names)
            <==> (names != [] || Loaded(disk) == map[])
  {
    if names == [] {
      assert Loaded(disk) != map[] ==> exists n :: n in Loaded(disk);
    } else {
      SuccessAccountsForAll(env, update, disk, names, saves);
    }
  }

  /** Removing the last agent leaves its entry in the lock. */
  lemma LastEntryIsNeverPruned(env: Env, update: bool, e: Entry, saves: bool)
    ensures RunAll(env, update, Some(map["gone" := e]), [], saves) == Done(Some(map["gone" := e]), false, true)
    ensures "gone" in Loaded(RunAll(env, update, Some(map["gone" := e]), [], saves).disk) && "gone" !in []
  {
  }

  /** An entry left by a success carries the hash of the agent's harness, except exactly
      when the agent comes from the configuration, has nothing to lock, and had an entry
      with another hash: the up-to-date check looks at local files only. */
  lemma EntriesMatchTheirHarness(
      env: Env, update: bool, disk: Option<Locks>, names: seq<string>, saves: bool, n: string)
    requires RunAll(env, update, disk, names, saves).ok
    requires n in names && n in Loaded(RunAll(env, update, disk, names, saves).disk)
    ensures HarnessHash(env, n) == Some(Loaded(RunAll(env, update, disk, names, saves).disk)[n].sha)
            <==> !(env.local(n).Absent? && n in Loaded(disk) && env.config(n) != Some(Loaded(disk)[n].sha)
                   && Resolve(SourceDeps(env, n), env.variants(n)) == Ok([]))
  {
    PassIsOk(env, update, Loaded(disk), names);
    assert names[..|names|] == names;
    SuccessAccountsForAll(env, update, disk, names, saves);
    var p := VisitAll(env, update, Loaded(disk), names);
    assert Settled(env, p.lf, n);
  }

  /** The input: an agent that the configuration defines has a new harness with one
      variant and nothing to lock, and keeps the entry of its old one. */
  lemma OldEntryIsKept(env: Env, deps: seq<Dep>, saves: bool)
    requires env.local("a").Absent? && env.config("a") == Some("new") && env.source("a").None?
             && env.variants("a") == [Resolves([], [])]
    ensures var disk := Some(map["a" := Entry("old", deps)]);
            RunAll(env, false, disk, ["a"], saves) == Done(disk, false, true)
            && HarnessHash(env, "a") != Some(disk.value["a"].sha)
  {
    var lf: Locks := map["a" := Entry("old", deps)];
    assert [Resolves([], [])][..0] == [];
    assert Flat([], [Resolves([], [])]) == [];
    assert LockOne(env, false, lf, "a") == Ok(None);
    assert ["a"][..0] == [];
    assert Visit(env, false, Pass(lf, [], [], 0, false), "a") == Pass(lf, [], [], 1, false);
    assert VisitAll(env, false, lf, ["a"]) == Pass(lf, [], [], 1, false);
    assert OnlyKnown(lf, ["a"], []) == lf;
  }

  /** A failure on the way loses no entry of an agent it did not get to; the entries of
      the agents it got to are accounted for. */
  lemma FailureKeepsUnvisited(env: Env, update: bool, disk: Option<Locks>, names: seq<string>, saves: bool)
    requires !RunAll(env, update, disk, names, saves).ok
    ensures var d := RunAll(env, update, disk, names, saves);
            var p := VisitAll(env, update, Loaded(disk), names);
            && p.done <= |names|
            && (!d.wrote ==> d.disk == disk)
            && (forall n :: n !in names[..p.done] ==> SameAt(Loaded(d.disk), Loaded(disk), n))
            && (d.wrote ==> forall n :: n in Loaded(d.disk) && n in names[..p.done] ==>
                              Loaded(d.disk) == p.lf && Accounted(env, Loaded(disk), p, n))
            && (d.wrote ==> p.failed && p.done < |names| && LockOne(env, update, p.lf, names[p.done]).Err?)
  {
    PassIsOk(env, update, Loaded(disk), names);
    if VisitAll(env, update, Loaded(disk), names).failed {
      FailsAtNext(env, update, Loaded(disk), names);
    }
  }

  lemma {:induction false} FailsAtNext(env: Env, update: bool, was: Locks, names: seq<string>)
    requires VisitAll(env, update, was, names).failed
    ensures var p := VisitAll(env, update, was, names);
            p.done < |names| && LockOne(env, update, p.lf, names[p.done]).Err?
  {
    var before := names[..|names| - 1];
    var p := VisitAll(env, update, was, before);
    if p.failed {
      FailsAtNext(env, update, was, before);
      assert before[p.done] == names[p.done];
    } else {
      PassIsOk(env, update, was, before);
    }
  }

  lemma SuccessSettlesAll(env: Env, update: bool, disk: Option<Locks>, names: seq<string>, saves: bool)
    requires names != [] && RunAll(env, update, disk, names, saves).ok
    ensures forall n :: n in names ==> Settled(env, Loaded(RunAll(env, update, disk, names, saves).disk), n)
  {
    var p := VisitAll(env, update, Loaded(disk), names);
    PassIsOk(env, update, Loaded(disk), names);
    IdlePassKeepsAll(env, update, Loaded(disk), names);
    assert names[..|names|] == names;
    forall n | n in names ensures Settled(env, Loaded(RunAll(env, update, disk, names, saves).disk), n) {
      assert Settled(env, p.lf, n);
    }
  }

  /** Running again on unchanged harnesses changes nothing and writes nothing. */
  lemma SecondRunIsIdle(
      env: Env, update: bool, disk: Option<Locks>, names: seq<string>, saves: bool, savesAgain: bool)
    requires RunAll(env, update, disk, names, saves).ok
    ensures var left := RunAll(env, update, disk, names, saves).disk;
            RunAll(env, false, left, names, savesAgain) == Done(left, false, true)
  {
    if names != [] {
      var left := RunAll(env, update, disk, names, saves).disk;
      SuccessSettlesAll(env, update, disk, names, saves);
      SuccessAccountsForAll(env, update, disk, names, saves);
      SettledPassIsIdle(env, Loaded(left), names);
      assert OnlyKnown(Loaded(left), names, []) == Loaded(left);
    }
  }

  lemma {:induction false} SettledPassIsIdle(env: Env, lf: Locks, names: seq<string>)
    requires forall n :: n in names ==> Settled(env, lf, n)
    ensures VisitAll(env, false, lf, names) == Pass(lf, [], [], |names|, false)
  {
    if names != [] {
      SettledPassIsIdle(env, lf, names[..|names| - 1]);
      assert Settled(env, lf, names[|names| - 1]);
    }
  }
}
