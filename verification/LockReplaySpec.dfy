/** What a lock replay makes of a harness, on values: which dependencies stop it, which
    fields it rewrites and which list entries it drops. */
module LockReplaySpec {
  import opened LockFields
  import opened Text
  import opened Wrappers

  datatype LockDep = LockDep(field: string, url: string, typ: string)

  /** The cache's answer for a pinned dependency: the path its content is replayed
      from and the path consumers are told (a profile is renamed in between). */
  datatype Lookup = Missing | Cached(localPath: string, finalPath: string)

  datatype SkillValue = SkillValue(source: string, overrides: map<string, Option<string>>)

  datatype PluginSpec = PluginSpec(path: string, options: string)

  datatype LoopValue = LoopValue(script: string, schema: string, rest: string)

  datatype HarnessValue = HarnessValue(
    agent: string, policy: string, preScript: string, postScript: string,
    skills: seq<SkillValue>, plugins: seq<PluginSpec>, providers: seq<string>,
    profiles: Option<seq<string>>, loop: Option<LoopValue>, rest: string)

  /** What the replay asks of its surroundings: URL parsing, scanning and printing an
      integer (for the names of list entries), the allowlists, the cache, the parsing of
      a cached profile and of a cached provider definition, permissions on cached files,
      and the merge of overrides of duplicate skills. */
  datatype Env = Env(
    isURL: string -> bool,
    clean: string -> string,
    scan: (string, string) -> Option<int>,
    decimal: int -> string,
    allowed: LockDep -> bool,
    lookup: LockDep -> Lookup,
    profileID: LockDep -> Option<string>,
    provider: LockDep -> Option<string>,
    badBasename: string -> bool,
    chmodFails: string -> bool,
    chmodTreeFails: string -> bool,
    merge: (seq<SkillValue>, map<int, string>) -> Result<seq<SkillValue>>)

  /** The field that a recorded name stands for. */
  function SlotIn(env: Env, field: string): Slot {
    SlotOf(env.scan, env.decimal, field)
  }

  /** What the content of a cached file is, besides a path. */
  datatype Role = Plain | Profile(id: string) | Provider(def: string)

  datatype Resolved = Resolved(
    field: string, url: string, typ: string, localPath: string, finalPath: string, role: Role)

  /** What a replay returns: the dependencies, and among them the profiles and providers. */
  datatype ListedProfile = ListedProfile(id: string, path: string)
  datatype ListedProvider = ListedProvider(def: string, path: string)
  datatype Reply = Reply(deps: seq<Resolved>, profiles: seq<ListedProfile>, providers: seq<ListedProvider>)

  // ----- Collecting -----

  /** One dependency: still allowed, in the cache, a plugin index in range, content
      that parses. */
  function Collect(env: Env, plugins: nat, dep: LockDep): Result<Resolved> {
    if dep.field != "agent_source" && !env.allowed(dep) then Err
    else
      match env.lookup(dep)
      case Missing => Err
      case Cached(localPath, finalPath) =>
        if HasPrefix(dep.field, "plugins[") && !PluginIndexOk(env, plugins, dep) then Err
        else
          match RoleOf(env, dep)
          case None => Err
          case Some(role) =>
            Ok(Resolved(dep.field, dep.url, if dep.typ == "" then "file" else dep.typ, localPath, finalPath, role))
  }

  /** Profiles and providers are files, and their content must parse. */
  function RoleOf(env: Env, dep: LockDep): Option<Role> {
    if dep.typ == "directory" then Some(Plain)
    else if ProfileField(dep.field) then
      match env.profileID(dep)
      case None => None
      case Some(id) => Some(Profile(id))
    else if ProviderField(dep.field) then
      match env.provider(dep)
      case None => None
      case Some(def) => Some(Provider(def))
    else Some(Plain)
  }

  predicate PluginIndexOk(env: Env, plugins: nat, dep: LockDep) {
    match env.scan("plugins[%d]", dep.field)
    case None => false
    case Some(i) => 0 <= i < plugins && dep.typ == "directory"
  }

  function CollectAll(env: Env, plugins: nat, deps: seq<LockDep>): Result<seq<Resolved>> {
    if deps == [] then Ok([])
    else
      match CollectAll(env, plugins, deps[..|deps| - 1])
      case Err => Err
      case Ok(rs) =>
        match Collect(env, plugins, deps[|deps| - 1])
        case Err => Err
        case Ok(r) => Ok(rs + [r])
  }

  function ProfilesOf(rs: seq<Resolved>): seq<ListedProfile> {
    if rs == [] then []
    else
      var r := rs[|rs| - 1];
      ProfilesOf(rs[..|rs| - 1]) + if r.role.Profile? then [ListedProfile(r.role.id, r.finalPath)] else []
  }

  function ProvidersOf(rs: seq<Resolved>): seq<ListedProvider> {
    if rs == [] then []
    else
      var r := rs[|rs| - 1];
      ProvidersOf(rs[..|rs| - 1]) + if r.role.Provider? then [ListedProvider(r.role.def, r.finalPath)] else []
  }

  function ReplyOf(rs: seq<Resolved>): Reply {
    Reply(rs, ProfilesOf(rs), ProvidersOf(rs))
  }

  function ResolvedURLs(rs: seq<Resolved>): map<string, string> {
    if rs == [] then map[] else ResolvedURLs(rs[..|rs| - 1])[rs[|rs| - 1].url := rs[|rs| - 1].finalPath]
  }

  /** Cached files by URL, for skill file overrides. */
  function FilesByURL(env: Env, rs: seq<Resolved>): map<string, string> {
    if rs == [] then map[]
    else
      var r := rs[|rs| - 1];
      var m := FilesByURL(env, rs[..|rs| - 1]);
      if r.typ == "directory" then m else m[env.clean(r.url) := r.finalPath]
  }

  function Get(m: map<string, string>, k: string): string {
    if k in m then m[k] else ""
  }

  predicate PluginsCovered(env: Env, urls: map<string, string>, plugins: seq<PluginSpec>) {
    forall p :: p in plugins && env.isURL(p.path) ==> env.clean(p.path) in urls && !env.badBasename(env.clean(p.path))
  }

  predicate NamesURL(env: Env, val: Option<string>) {
    val.Some? && val.value != "" && env.isURL(val.value)
  }

  predicate OverridesCovered(env: Env, files: map<string, string>, overrides: map<string, Option<string>>) {
    forall k :: k in overrides && NamesURL(env, overrides[k]) ==> env.clean(overrides[k].value) in files
  }

  /** The values a skill's overrides are set to. */
  function PlannedOverrides(env: Env, files: map<string, string>, overrides: map<string, Option<string>>)
    : map<string, string>
    requires OverridesCovered(env, files, overrides)
  {
    map k | k in overrides && NamesURL(env, overrides[k]) :: files[env.clean(overrides[k].value)]
  }

  function Overridden(overrides: map<string, Option<string>>, plan: map<string, string>): map<string, Option<string>> {
    overrides + (map k | k in plan :: Some(plan[k]))
  }

  // ----- Applying -----

  /** The harness while mutations are applied, and the plugin paths set so far. */
  datatype Work = Work(v: HarnessValue, urlPlugins: set<string>)

  function Replaced(current: string, r: Resolved): string {
    if FieldHolds(current, r.url) then r.localPath else current
  }

  function ApplyOne(env: Env, w: Work, r: Resolved): Result<Work> {
    ApplyTo(env, SlotIn(env, r.field), w, r)
  }

  function ApplyTo(env: Env, slot: Slot, w: Work, r: Resolved): Result<Work> {
    var v := w.v;
    match slot
    case Agent => Ok(w.(v := v.(agent := Replaced(v.agent, r))))
    case Policy => Ok(w.(v := v.(policy := Replaced(v.policy, r))))
    case PreScript =>
      if FieldHolds(v.preScript, r.url) && env.chmodFails(r.localPath) then Err
      else Ok(w.(v := v.(preScript := Replaced(v.preScript, r))))
    case PostScript =>
      if FieldHolds(v.postScript, r.url) && env.chmodFails(r.localPath) then Err
      else Ok(w.(v := v.(postScript := Replaced(v.postScript, r))))
    case LoopScript =>
      if v.loop.None? then Ok(w)
      else if FieldHolds(v.loop.value.script, r.url) && env.chmodFails(r.localPath) then Err
      else Ok(w.(v := v.(loop := Some(v.loop.value.(script := Replaced(v.loop.value.script, r))))))
    case LoopSchema =>
      if v.loop.None? then Ok(w)
      else Ok(w.(v := v.(loop := Some(v.loop.value.(schema := Replaced(v.loop.value.schema, r))))))
    case Plugin(i) =>
      if 0 <= i < |v.plugins| && FieldHolds(v.plugins[i].path, r.url) then
        Ok(Work(v.(plugins := v.plugins[i := v.plugins[i].(path := r.localPath)]), w.urlPlugins + {r.localPath}))
      else Ok(w)
    case Skill(i) =>
      if 0 <= i < |v.skills| && FieldHolds(v.skills[i].source, r.url) then
        Ok(w.(v := v.(skills := v.skills[i := v.skills[i].(source := r.localPath)])))
      else Ok(w)
    case TransitiveSkill => Ok(w.(v := v.(skills := v.skills + [SkillValue(r.localPath, map[])])))
    case NoSlot => Ok(w)
  }

  function ApplyAll(env: Env, v: HarnessValue, rs: seq<Resolved>): Result<Work> {
    if rs == [] then Ok(Work(v, {}))
    else
      match ApplyAll(env, v, rs[..|rs| - 1])
      case Err => Err
      case Ok(w) => ApplyOne(env, w, rs[|rs| - 1])
  }

  function OverrideSkill(env: Env, files: map<string, string>, s: SkillValue): SkillValue {
    if OverridesCovered(env, files, s.overrides) then
      s.(overrides := Overridden(s.overrides, PlannedOverrides(env, files, s.overrides)))
    else s
  }

  function OverrideSkills(env: Env, files: map<string, string>, skills: seq<SkillValue>): seq<SkillValue> {
    seq(|skills|, i requires 0 <= i < |skills| => OverrideSkill(env, files, skills[i]))
  }

  /** The resolved path of every skill entry that still holds a URL. */
  function DuplicatePaths(env: Env, urls: map<string, string>, skills: seq<SkillValue>): map<int, string> {
    map i | 0 <= i < |skills| && env.isURL(skills[i].source) :: Get(urls, env.clean(skills[i].source))
  }

  function Filter<T>(s: seq<T>, keep: T -> bool): seq<T> {
    if s == [] then []
    else
      var before := Filter(s[..|s| - 1], keep);
      if keep(s[|s| - 1]) then before + [s[|s| - 1]] else before
  }

  function ResolvePlugin(env: Env, urls: map<string, string>, p: PluginSpec): PluginSpec {
    if env.isURL(p.path) then p.(path := Get(urls, env.clean(p.path))) else p
  }

  function ResolvePlugins(env: Env, urls: map<string, string>, plugins: seq<PluginSpec>): seq<PluginSpec> {
    seq(|plugins|, i requires 0 <= i < |plugins| => ResolvePlugin(env, urls, plugins[i]))
  }

  /** The paths plugins got because they still held a URL. */
  function LatePlugins(env: Env, urls: map<string, string>, plugins: seq<PluginSpec>): set<string> {
    set p | p in plugins && env.isURL(p.path) :: Get(urls, env.clean(p.path))
  }

  function Paths(plugins: seq<PluginSpec>): set<string> {
    set p | p in plugins :: p.path
  }

  /** The first plugin on each path. */
  function Deduped(plugins: seq<PluginSpec>): seq<PluginSpec> {
    if plugins == [] then []
    else
      var last := plugins[|plugins| - 1];
      var before := Deduped(plugins[..|plugins| - 1]);
      if last.path in Paths(before) then before else before + [last]
  }

  // ----- The replay -----

  function FinishPlugins(env: Env, urls: map<string, string>, plugins: seq<PluginSpec>): seq<PluginSpec> {
    Deduped(Filter(ResolvePlugins(env, urls, plugins), (p: PluginSpec) => !env.isURL(p.path)))
  }

  predicate TreesFail(env: Env, plugins: seq<PluginSpec>, urlPlugins: set<string>) {
    exists p :: p in plugins && p.path in urlPlugins && env.chmodTreeFails(p.path)
  }

  /** Overrides of entries that still hold a URL move to the entry kept for the skill,
      and the former go. */
  function MergeSkills(env: Env, urls: map<string, string>, skills: seq<SkillValue>): Result<seq<SkillValue>> {
    match env.merge(skills, DuplicatePaths(env, urls, skills))
    case Err => Err
    case Ok(merged) => Ok(Filter(merged, (s: SkillValue) => !env.isURL(s.source)))
  }

  function DropURLs(env: Env, names: seq<string>): seq<string> {
    Filter(names, p => !env.isURL(p))
  }

  /** What is left to do once skill overrides are set: merge and drop duplicate skills,
      resolve and de-duplicate plugins, strip URL entries. */
  function Strip(env: Env, urls: map<string, string>, v: HarnessValue, urlPlugins: set<string>): Result<HarnessValue> {
    match MergeSkills(env, urls, v.skills)
    case Err => Err
    case Ok(skills) =>
      var plugins := FinishPlugins(env, urls, v.plugins);
      if TreesFail(env, plugins, urlPlugins + LatePlugins(env, urls, v.plugins)) then Err
      else
        Ok(v.(
          skills := skills,
          plugins := plugins,
          providers := DropURLs(env, v.providers),
          profiles := if v.profiles.None? then None else Some(DropURLs(env, v.profiles.value))))
  }

  /** Everything after the mutations. */
  function Finish(env: Env, rs: seq<Resolved>, w: Work): Result<HarnessValue> {
    Strip(env, ResolvedURLs(rs), w.v.(skills := OverrideSkills(env, FilesByURL(env, rs), w.v.skills)), w.urlPlugins)
  }

  predicate AllOverridesCovered(env: Env, files: map<string, string>, skills: seq<SkillValue>) {
    forall s :: s in skills ==> OverridesCovered(env, files, s.overrides)
  }

  /** The dependencies, once all that can be checked before the first write holds. */
  function Checked(env: Env, v: HarnessValue, deps: seq<LockDep>): Result<seq<Resolved>> {
    match CollectAll(env, |v.plugins|, deps)
    case Err => Err
    case Ok(rs) =>
      if PluginsCovered(env, ResolvedURLs(rs), v.plugins) && AllOverridesCovered(env, FilesByURL(env, rs), v.skills)
      then Ok(rs)
      else Err
  }

  function Rewritten(env: Env, v: HarnessValue, rs: seq<Resolved>): Result<HarnessValue> {
    match ApplyAll(env, v, rs)
    case Err => Err
    case Ok(w) => Finish(env, rs, w)
  }

  function Replay(env: Env, v: HarnessValue, deps: seq<LockDep>): Result<HarnessValue> {
    match Checked(env, v, deps)
    case Err => Err
    case Ok(rs) => Rewritten(env, v, rs)
  }

  // ----- What a successful replay guarantees -----

  /** Cached paths are not URLs. */
  ghost predicate CacheIsLocal(env: Env) {
    forall d :: env.lookup(d).Cached? ==> !env.isURL(env.lookup(d).finalPath)
  }

  /** The merge keeps the entries and their sources and makes up no override value. */
  ghost predicate MovesOnly(skills: seq<SkillValue>, merged: seq<SkillValue>) {
    && |merged| == |skills|
    && (forall i :: 0 <= i < |skills| ==> merged[i].source == skills[i].source)
    && forall s, k :: s in merged && k in s.overrides ==>
         exists t :: t in skills && k in t.overrides && t.overrides[k] == s.overrides[k]
  }

  ghost predicate MergeMovesOnly(env: Env) {
    forall skills: seq<SkillValue>, dups: map<int, string> ::
      env.merge(skills, dups).Ok? ==> MovesOnly(skills, env.merge(skills, dups).value)
  }

  lemma {:induction false} FilterMembers<T>(s: seq<T>, keep: T -> bool)
    ensures forall x :: x in Filter(s, keep) <==> x in s && keep(x)
  {
    if s != [] {
      FilterMembers(s[..|s| - 1], keep);
      assert forall x :: x in s <==> x in s[..|s| - 1] || x == s[|s| - 1];
    }
  }

  lemma {:induction false} DedupedMembers(plugins: seq<PluginSpec>)
    ensures forall p :: p in Deduped(plugins) ==> p in plugins
    ensures Paths(Deduped(plugins)) == Paths(plugins)
  {
    if plugins != [] {
      var n := |plugins| - 1;
      DedupedMembers(plugins[..n]);
      assert plugins == plugins[..n] + [plugins[n]];
      assert Paths(plugins) == Paths(plugins[..n]) + {plugins[n].path};
      if plugins[n].path !in Paths(Deduped(plugins[..n])) {
        assert Paths(Deduped(plugins)) == Paths(Deduped(plugins[..n])) + {plugins[n].path};
      }
    }
  }

  /** The plugins kept are the first on their paths, in their order: `f` says which. */
  ghost predicate FirstOccurrences(kept: seq<PluginSpec>, plugins: seq<PluginSpec>, f: seq<nat>) {
    && |f| == |kept|
    && (forall k :: 0 <= k < |f| ==> f[k] < |plugins| && kept[k] == plugins[f[k]])
    && (forall k, l :: 0 <= k < l < |f| ==> f[k] < f[l])
    && (forall k, j :: 0 <= k < |f| && 0 <= j < f[k] ==> plugins[j].path != plugins[f[k]].path)
  }

  lemma FirstStays(kept: seq<PluginSpec>, plugins: seq<PluginSpec>, f: seq<nat>)
    requires plugins != [] && FirstOccurrences(kept, plugins[..|plugins| - 1], f)
    ensures FirstOccurrences(kept, plugins, f)
  {
    var before := plugins[..|plugins| - 1];
    assert forall j :: 0 <= j < |before| ==> plugins[j] == before[j];
  }

  lemma FirstAppends(kept: seq<PluginSpec>, plugins: seq<PluginSpec>, f: seq<nat>)
    requires plugins != [] && FirstOccurrences(kept, plugins, f)
    requires forall k :: 0 <= k < |f| ==> f[k] < |plugins| - 1
    requires forall j :: 0 <= j < |plugins| - 1 ==> plugins[j].path != plugins[|plugins| - 1].path
    ensures FirstOccurrences(kept + [plugins[|plugins| - 1]], plugins, f + [|plugins| - 1])
  {
  }

  lemma {:induction false} DedupedIsFirst(plugins: seq<PluginSpec>) returns (f: seq<nat>)
    ensures FirstOccurrences(Deduped(plugins), plugins, f)
  {
    f := [];
    if plugins != [] {
      var n := |plugins| - 1;
      var before := plugins[..n];
      f := DedupedIsFirst(before);
      FirstStays(Deduped(before), plugins, f);
      if plugins[n].path !in Paths(Deduped(before)) {
        DedupedMembers(before);
        forall j | 0 <= j < n ensures plugins[j].path != plugins[n].path {
          assert plugins[j] == before[j];
          assert plugins[j].path in Paths(before);
        }
        FirstAppends(Deduped(before), plugins, f);
        f := f + [n];
      }
    }
  }

  /** What is kept is on distinct paths, and every path is still there. */
  lemma {:induction false} DedupedIsDistinct(plugins: seq<PluginSpec>)
    ensures forall k, l :: 0 <= k < l < |Deduped(plugins)| ==> Deduped(plugins)[k].path != Deduped(plugins)[l].path
    ensures Paths(Deduped(plugins)) == Paths(plugins)
  {
    DedupedMembers(plugins);
    if plugins != [] {
      var before := plugins[..|plugins| - 1];
      DedupedIsDistinct(before);
      forall k | 0 <= k < |Deduped(before)| ensures Deduped(before)[k].path in Paths(Deduped(before)) {
        assert Deduped(before)[k] in Deduped(before);
      }
    }
  }

  // ----- The profiles and providers that are returned -----

  /** The dependencies are collected in order, one for one. */
  lemma {:induction false} CollectedInOrder(env: Env, plugins: nat, deps: seq<LockDep>, rs: seq<Resolved>)
    requires CollectAll(env, plugins, deps) == Ok(rs)
    ensures |rs| == |deps| && forall i :: 0 <= i < |deps| ==> Collect(env, plugins, deps[i]) == Ok(rs[i])
    decreases |deps|
  {
    if deps != [] {
      CollectedInOrder(env, plugins, deps[..|deps| - 1], rs[..|rs| - 1]);
    }
  }

  lemma {:induction false} ListedAreRoles(rs: seq<Resolved>)
    ensures forall p :: p in ProfilesOf(rs) <==>
              exists r :: r in rs && r.role == Profile(p.id) && r.finalPath == p.path
    ensures forall p :: p in ProvidersOf(rs) <==>
              exists r :: r in rs && r.role == Provider(p.def) && r.finalPath == p.path
  {
    if rs != [] {
      var n := |rs| - 1;
      ListedAreRoles(rs[..n]);
      assert forall r :: r in rs <==> r in rs[..n] || r == rs[n];
    }
  }

  ghost predicate ProfileDep(env: Env, dep: LockDep, p: ListedProfile) {
    && dep.typ != "directory" && ProfileField(dep.field) && env.profileID(dep) == Some(p.id)
    && env.lookup(dep).Cached? && env.lookup(dep).finalPath == p.path
  }

  ghost predicate ProviderDep(env: Env, dep: LockDep, p: ListedProvider) {
    && dep.typ != "directory" && !ProfileField(dep.field) && ProviderField(dep.field)
    && env.provider(dep) == Some(p.def)
    && env.lookup(dep).Cached? && env.lookup(dep).finalPath == p.path
  }

  /** A replay returns exactly the profiles and the providers among its dependencies. */
  lemma ListsAreExact(env: Env, plugins: nat, deps: seq<LockDep>)
    requires CollectAll(env, plugins, deps).Ok?
    ensures var reply := ReplyOf(CollectAll(env, plugins, deps).value);
            && (forall p :: p in reply.profiles <==> exists d :: d in deps && ProfileDep(env, d, p))
            && (forall p :: p in reply.providers <==> exists d :: d in deps && ProviderDep(env, d, p))
  {
    var rs := CollectAll(env, plugins, deps).value;
    CollectedInOrder(env, plugins, deps, rs);
    ListedAreRoles(rs);
    forall p ensures p in ProfilesOf(rs) <==> exists d :: d in deps && ProfileDep(env, d, p) {
      ProfileIsDep(env, plugins, deps, rs, p);
    }
    forall p ensures p in ProvidersOf(rs) <==> exists d :: d in deps && ProviderDep(env, d, p) {
      ProviderIsDep(env, plugins, deps, rs, p);
    }
  }

  lemma ProfileIsDep(env: Env, plugins: nat, deps: seq<LockDep>, rs: seq<Resolved>, p: ListedProfile)
    requires |rs| == |deps| && forall i :: 0 <= i < |deps| ==> Collect(env, plugins, deps[i]) == Ok(rs[i])
    ensures (exists r :: r in rs && r.role == Profile(p.id) && r.finalPath == p.path)
            <==> exists d :: d in deps && ProfileDep(env, d, p)
  {
    if r :| r in rs && r.role == Profile(p.id) && r.finalPath == p.path {
      var i :| 0 <= i < |rs| && rs[i] == r;
      assert deps[i] in deps && ProfileDep(env, deps[i], p);
    }
    if d :| d in deps && ProfileDep(env, d, p) {
      var i :| 0 <= i < |deps| && deps[i] == d;
      assert rs[i] in rs && Collect(env, plugins, d) == Ok(rs[i]);
    }
  }

  lemma ProviderIsDep(env: Env, plugins: nat, deps: seq<LockDep>, rs: seq<Resolved>, p: ListedProvider)
    requires |rs| == |deps| && forall i :: 0 <= i < |deps| ==> Collect(env, plugins, deps[i]) == Ok(rs[i])
    ensures (exists r :: r in rs && r.role == Provider(p.def) && r.finalPath == p.path)
            <==> exists d :: d in deps && ProviderDep(env, d, p)
  {
    if r :| r in rs && r.role == Provider(p.def) && r.finalPath == p.path {
      var i :| 0 <= i < |rs| && rs[i] == r;
      assert deps[i] in deps && ProviderDep(env, deps[i], p);
    }
    if d :| d in deps && ProviderDep(env, d, p) {
      var i :| 0 <= i < |deps| && deps[i] == d;
      assert rs[i] in rs && Collect(env, plugins, d) == Ok(rs[i]);
    }
  }

  // ----- No URL is left -----

  ghost predicate NoURLs(env: Env, v: HarnessValue) {
    && (forall s :: s in v.skills ==> !env.isURL(s.source))
    && (forall s, k :: s in v.skills && k in s.overrides ==> !NamesURL(env, s.overrides[k]))
    && (forall p :: p in v.plugins ==> !env.isURL(p.path))
    && (forall p :: p in v.providers ==> !env.isURL(p))
    && (v.profiles.Some? ==> forall p :: p in v.profiles.value ==> !env.isURL(p))
  }

  lemma {:induction false} FilesAreLocal(env: Env, plugins: nat, deps: seq<LockDep>, rs: seq<Resolved>)
    requires CacheIsLocal(env) && CollectAll(env, plugins, deps) == Ok(rs)
    ensures forall k :: k in FilesByURL(env, rs) ==> !env.isURL(FilesByURL(env, rs)[k])
    decreases |deps|
  {
    if deps != [] {
      FilesAreLocal(env, plugins, deps[..|deps| - 1], rs[..|rs| - 1]);
    }
  }

  lemma OverriddenNamesNoURL(env: Env, files: map<string, string>, skills: seq<SkillValue>)
    requires AllOverridesCovered(env, files, skills)
    requires forall k :: k in files ==> !env.isURL(files[k])
    ensures forall s, k :: s in OverrideSkills(env, files, skills) && k in s.overrides ==>
            !NamesURL(env, s.overrides[k])
  {
    var out := OverrideSkills(env, files, skills);
    forall s, k | s in out && k in s.overrides ensures !NamesURL(env, s.overrides[k]) {
      var i :| 0 <= i < |out| && out[i] == s;
      assert skills[i] in skills;
    }
  }

  /** Skills that are not replaced keep their overrides through the mutations; the
      appended ones have none. */
  lemma {:induction false} ApplyKeepsOverrides(env: Env, v: HarnessValue, rs: seq<Resolved>, files: map<string, string>)
    requires ApplyAll(env, v, rs).Ok? && AllOverridesCovered(env, files, v.skills)
    ensures AllOverridesCovered(env, files, ApplyAll(env, v, rs).value.v.skills)
  {
    if rs != [] {
      ApplyKeepsOverrides(env, v, rs[..|rs| - 1], files);
      var last := rs[|rs| - 1];
      OneKeepsOverrides(env, SlotIn(env, last.field), ApplyAll(env, v, rs[..|rs| - 1]).value, last, files);
    }
  }

  lemma OneKeepsOverrides(env: Env, slot: Slot, w: Work, r: Resolved, files: map<string, string>)
    requires ApplyTo(env, slot, w, r).Ok? && AllOverridesCovered(env, files, w.v.skills)
    ensures AllOverridesCovered(env, files, ApplyTo(env, slot, w, r).value.v.skills)
  {
    var next := ApplyTo(env, slot, w, r).value;
    forall s | s in next.v.skills ensures OverridesCovered(env, files, s.overrides) {
      if i :| 0 <= i < |w.v.skills| && w.v.skills[i].overrides == s.overrides {
        assert w.v.skills[i] in w.v.skills;
      }
    }
  }

  /** After a successful replay nothing holds a URL any more. */
  lemma ReplayLeavesNoURL(env: Env, v: HarnessValue, deps: seq<LockDep>)
    requires CacheIsLocal(env) && MergeMovesOnly(env)
    requires Replay(env, v, deps).Ok?
    ensures NoURLs(env, Replay(env, v, deps).value)
  {
    var rs := CollectAll(env, |v.plugins|, deps).value;
    var files := FilesByURL(env, rs);
    FilesAreLocal(env, |v.plugins|, deps, rs);
    ApplyKeepsOverrides(env, v, rs, files);
    var w := ApplyAll(env, v, rs).value;
    OverriddenNamesNoURL(env, files, w.v.skills);
    FinishLeavesNoURL(env, rs, w);
  }

  lemma FinishLeavesNoURL(env: Env, rs: seq<Resolved>, w: Work)
    requires MergeMovesOnly(env) && Finish(env, rs, w).Ok?
    requires forall s, k :: s in OverrideSkills(env, FilesByURL(env, rs), w.v.skills) && k in s.overrides ==>
               !NamesURL(env, s.overrides[k])
    ensures NoURLs(env, Finish(env, rs, w).value)
  {
    var urls := ResolvedURLs(rs);
    var skills := OverrideSkills(env, FilesByURL(env, rs), w.v.skills);
    var merged := env.merge(skills, DuplicatePaths(env, urls, skills)).value;
    assert MovesOnly(skills, merged);
    FilterMembers(merged, (s: SkillValue) => !env.isURL(s.source));
    var resolved := ResolvePlugins(env, urls, w.v.plugins);
    DedupedMembers(Filter(resolved, (p: PluginSpec) => !env.isURL(p.path)));
    FilterMembers(resolved, (p: PluginSpec) => !env.isURL(p.path));
    FilterMembers(w.v.providers, p => !env.isURL(p));
    if w.v.profiles.Some? {
      FilterMembers(w.v.profiles.value, p => !env.isURL(p));
    }
  }

  /** The plugins end up on pairwise distinct paths, the first of each path kept, in
      their order. */
  lemma ReplayPluginsDistinct(env: Env, v: HarnessValue, deps: seq<LockDep>) returns (f: seq<nat>)
    requires Replay(env, v, deps).Ok?
    ensures var rs := CollectAll(env, |v.plugins|, deps).value;
            var resolved := Filter(ResolvePlugins(env, ResolvedURLs(rs), ApplyAll(env, v, rs).value.v.plugins),
                                   (p: PluginSpec) => !env.isURL(p.path));
            FirstOccurrences(Replay(env, v, deps).value.plugins, resolved, f)
    ensures var kept := Replay(env, v, deps).value.plugins;
            forall k, l :: 0 <= k < l < |kept| ==> kept[k].path != kept[l].path
  {
    var rs := CollectAll(env, |v.plugins|, deps).value;
    var resolved := Filter(ResolvePlugins(env, ResolvedURLs(rs), ApplyAll(env, v, rs).value.v.plugins),
                           (p: PluginSpec) => !env.isURL(p.path));
    f := DedupedIsFirst(resolved);
    DedupedIsDistinct(resolved);
  }

  // ----- Scalars change exactly where they held a dependency's URL -----

  /** What dependencies recorded for one slot make of its value, one after the other. */
  function ScalarAfter(env: Env, slot: Slot, was: string, rs: seq<Resolved>): string {
    if rs == [] then was
    else
      var now := ScalarAfter(env, slot, was, rs[..|rs| - 1]);
      if SlotIn(env, rs[|rs| - 1].field) == slot then Replaced(now, rs[|rs| - 1]) else now
  }

  ghost predicate ScalarsFolded(env: Env, rs: seq<Resolved>, was: HarnessValue, now: HarnessValue) {
    && now.agent == ScalarAfter(env, Agent, was.agent, rs)
    && now.policy == ScalarAfter(env, Policy, was.policy, rs)
    && now.preScript == ScalarAfter(env, PreScript, was.preScript, rs)
    && now.postScript == ScalarAfter(env, PostScript, was.postScript, rs)
    && was.loop.Some? == now.loop.Some?
    && (was.loop.Some? ==> now.loop.value == LoopValue(
          ScalarAfter(env, LoopScript, was.loop.value.script, rs),
          ScalarAfter(env, LoopSchema, was.loop.value.schema, rs), was.loop.value.rest))
    && was.rest == now.rest
  }

  lemma {:induction false} ApplyFolds(env: Env, v: HarnessValue, rs: seq<Resolved>)
    requires ApplyAll(env, v, rs).Ok?
    ensures ScalarsFolded(env, rs, v, ApplyAll(env, v, rs).value.v)
  {
    if rs != [] {
      ApplyFolds(env, v, rs[..|rs| - 1]);
      FoldNext(env, rs, v, ApplyAll(env, v, rs[..|rs| - 1]).value);
    }
  }

  /** What applying one dependency does to the scalars. */
  lemma AppliedScalars(env: Env, slot: Slot, w: Work, r: Resolved)
    requires ApplyTo(env, slot, w, r).Ok?
    ensures var v, now := w.v, ApplyTo(env, slot, w, r).value.v;
            && now.agent == (if slot == Agent then Replaced(v.agent, r) else v.agent)
            && now.policy == (if slot == Policy then Replaced(v.policy, r) else v.policy)
            && now.preScript == (if slot == PreScript then Replaced(v.preScript, r) else v.preScript)
            && now.postScript == (if slot == PostScript then Replaced(v.postScript, r) else v.postScript)
            && now.rest == v.rest && now.loop.Some? == v.loop.Some?
            && (v.loop.Some? ==> now.loop.value == LoopValue(
                  if slot == LoopScript then Replaced(v.loop.value.script, r) else v.loop.value.script,
                  if slot == LoopSchema then Replaced(v.loop.value.schema, r) else v.loop.value.schema,
                  v.loop.value.rest))
  {
  }

  lemma FoldNext(env: Env, rs: seq<Resolved>, was: HarnessValue, w: Work)
    requires rs != [] && ScalarsFolded(env, rs[..|rs| - 1], was, w.v) && ApplyOne(env, w, rs[|rs| - 1]).Ok?
    ensures ScalarsFolded(env, rs, was, ApplyOne(env, w, rs[|rs| - 1]).value.v)
  {
    AppliedScalars(env, SlotIn(env, rs[|rs| - 1].field), w, rs[|rs| - 1]);
  }

  /** A dependency of this slot that was recorded for the URL the value holds. */
  ghost predicate Matches(env: Env, slot: Slot, was: string, r: Resolved) {
    SlotIn(env, r.field) == slot && FieldHolds(was, r.url)
  }

  /** A value changes only when a dependency of its slot matches it, and then to the
      path of some dependency of that slot. */
  lemma {:induction false} ChangesOnlyWhereHeld(env: Env, slot: Slot, was: string, rs: seq<Resolved>)
    ensures var now := ScalarAfter(env, slot, was, rs);
            now == was || ((exists r :: r in rs && Matches(env, slot, was, r))
                           && (exists r :: r in rs && SlotIn(env, r.field) == slot && now == r.localPath))
  {
    if rs != [] {
      var before, last := rs[..|rs| - 1], rs[|rs| - 1];
      ChangesOnlyWhereHeld(env, slot, was, before);
      assert last in rs && forall r :: r in before ==> r in rs;
    }
  }

  /** When replayed paths hold no dependency's URL, a value that is matched becomes the
      path of the first dependency that matches it. */
  lemma {:induction false} BecomesFirstMatch(env: Env, slot: Slot, was: string, rs: seq<Resolved>, first: nat)
    requires forall q, r :: q in rs && r in rs ==> !FieldHolds(q.localPath, r.url)
    requires first < |rs| && Matches(env, slot, was, rs[first])
    requires forall i :: 0 <= i < first ==> !Matches(env, slot, was, rs[i])
    ensures ScalarAfter(env, slot, was, rs) == rs[first].localPath
    decreases |rs|
  {
    var before, last := rs[..|rs| - 1], rs[|rs| - 1];
    assert forall r :: r in before ==> r in rs;
    if first < |rs| - 1 {
      BecomesFirstMatch(env, slot, was, before, first);
      assert rs[first] in rs && last in rs;
    } else {
      UnmatchedStays(env, slot, was, before);
    }
  }

  lemma {:induction false} UnmatchedStays(env: Env, slot: Slot, was: string, rs: seq<Resolved>)
    requires forall i :: 0 <= i < |rs| ==> !Matches(env, slot, was, rs[i])
    ensures ScalarAfter(env, slot, was, rs) == was
  {
    if rs != [] {
      UnmatchedStays(env, slot, was, rs[..|rs| - 1]);
      assert !Matches(env, slot, was, rs[|rs| - 1]);
    }
  }

  /** Each scalar field ends up as the dependencies of its own slot leave it; fields
      the replay knows nothing of do not change. */
  lemma ReplayScalars(env: Env, v: HarnessValue, deps: seq<LockDep>)
    requires Replay(env, v, deps).Ok?
    ensures ScalarsFolded(env, CollectAll(env, |v.plugins|, deps).value, v, Replay(env, v, deps).value)
  {
    ApplyFolds(env, v, CollectAll(env, |v.plugins|, deps).value);
  }
}
