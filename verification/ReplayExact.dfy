/** What a successful lock replay leaves in a harness, list by list, in terms of the
    recorded field names and the cache alone. */
module ReplayExact {
  import opened LockFields
  import opened LockReplaySpec
  import opened Text
  import opened Wrappers

  // ----- Which names stand for which list entries -----

  function SkillName(env: Env, i: nat): string {
    "skills[" + env.decimal(i) + "]"
  }

  /** Scanning reads back what printing an index gives, which is digits. */
  ghost predicate ReadsBack(env: Env) {
    forall i: nat :: env.scan("skills[%d]", SkillName(env, i)) == Some(i as int) && AllDigits(env.decimal(i))
  }

  /** The name of a skill found through another one. */
  ghost predicate AppendsSkill(field: string) {
    && !Contains(field, ".overrides[")
    && exists parent, number ::
         parent != "" && number != "" && AllDigits(number) && field == TransitiveName(parent, number)
  }

  predicate NamesPlugin(env: Env, field: string, i: int) {
    && HasPrefix(field, "plugins[") && env.scan("plugins[%d]", field) == Some(i)
    && !(Contains(field, "host_files[") && HasSuffix(field, "].src"))
  }

  /** A name that opens with "skills[" and ends with "]" stands for a skill or nothing. */
  lemma SkillLike(scan: (string, string) -> Option<int>, decimal: int -> string, field: string)
    requires HasPrefix(field, "skills[") && HasSuffix(field, "]")
    ensures SlotOf(scan, decimal, field) ==
            if Contains(field, ".overrides[") then NoSlot
            else
              match scan("skills[%d]", field)
              case Some(i) =>
                if i >= 0 && field == "skills[" + decimal(i) + "]" then Skill(i)
                else if TransitiveField(field) then TransitiveSkill else NoSlot
              case None => if TransitiveField(field) then TransitiveSkill else NoSlot
  {
    assert field[0] == 's' && field[|field| - 1] == ']';
  }

  lemma SkillNameHas(env: Env, i: nat)
    requires ReadsBack(env)
    ensures '.' !in SkillName(env, i) && ':' !in SkillName(env, i)
  {
    var name, digits := SkillName(env, i), env.decimal(i);
    assert env.scan("skills[%d]", name) == Some(i as int);
    forall k | 0 <= k < |name| ensures name[k] != '.' && name[k] != ':' {
      if 7 <= k < |name| - 1 {
        assert name[k] == digits[k - 7] && Digit(digits[k - 7]);
      }
    }
  }

  lemma NotWithin(s: string, t: string)
    requires t != "" && t[0] !in s
    ensures !Contains(s, t)
  {
    forall k | 0 <= k <= |s| ensures !OccursAt(s, t, k) {
      if k + |t| <= |s| {
        assert s[k..k + |t|][0] == s[k];
      }
    }
  }

  lemma SkillNameIsSlot(env: Env, i: nat)
    requires ReadsBack(env)
    ensures SlotIn(env, SkillName(env, i)) == Skill(i)
  {
    var name := SkillName(env, i);
    SkillNameHas(env, i);
    NotWithin(name, ".overrides[");
    SkillLike(env.scan, env.decimal, name);
  }

  lemma SlotIsSkillName(env: Env, field: string, i: int)
    requires SlotIn(env, field) == Skill(i)
    ensures i >= 0 && field == SkillName(env, i)
  {
  }

  lemma AppendingIsSlot(env: Env, field: string)
    requires ReadsBack(env) && AppendsSkill(field)
    ensures SlotIn(env, field) == TransitiveSkill
  {
    var parent, number :| parent != "" && number != "" && AllDigits(number) && field == TransitiveName(parent, number);
    TransitiveNameIsOne(parent, number);
    NotIndexed(env, parent, number);
    SkillLike(env.scan, env.decimal, field);
  }

  lemma NotIndexed(env: Env, parent: string, number: string)
    requires ReadsBack(env)
    ensures forall i: nat :: TransitiveName(parent, number) != SkillName(env, i)
  {
    var name := TransitiveName(parent, number);
    assert name[7 + |parent|] == ':';
    forall i: nat ensures name != SkillName(env, i) {
      SkillNameHas(env, i);
    }
  }

  lemma SlotIsAppending(env: Env, field: string)
    requires SlotIn(env, field) == TransitiveSkill
    ensures AppendsSkill(field)
  {
    OnlyTransitiveNamesAppend(env.scan, env.decimal, field);
  }

  lemma PluginNameIsSlot(env: Env, field: string, i: int)
    requires NamesPlugin(env, field, i)
    ensures SlotIn(env, field) == Plugin(i)
  {
    assert field[0] == 'p' && field[1] == 'l';
  }

  lemma SlotIsPluginName(env: Env, field: string, i: int)
    requires SlotIn(env, field) == Plugin(i) && env.scan("plugins[%d]", field).Some?
    ensures NamesPlugin(env, field, i)
  {
  }

  // ----- What the dependencies make of one entry -----

  /** The path a dependency is replayed from, and the one consumers are told. */
  function PathOf(env: Env, d: LockDep): string {
    if env.lookup(d).Cached? then env.lookup(d).localPath else ""
  }

  function FinalPathOf(env: Env, d: LockDep): string {
    if env.lookup(d).Cached? then env.lookup(d).finalPath else ""
  }

  /** The dependencies recorded under a name, one after the other, each where its URL is held. */
  function FieldAfter(env: Env, name: string, was: string, deps: seq<LockDep>): string {
    if deps == [] then was
    else
      var d, now := deps[|deps| - 1], FieldAfter(env, name, was, deps[..|deps| - 1]);
      if d.field == name && FieldHolds(now, d.url) then PathOf(env, d) else now
  }

  function PluginAfter(env: Env, i: int, was: string, deps: seq<LockDep>): string {
    if deps == [] then was
    else
      var d, now := deps[|deps| - 1], PluginAfter(env, i, was, deps[..|deps| - 1]);
      if NamesPlugin(env, d.field, i) && FieldHolds(now, d.url) then PathOf(env, d) else now
  }

  /** Which dependencies append a skill. */
  ghost function Appending(deps: seq<LockDep>): (ts: seq<nat>)
    ensures forall j :: 0 <= j < |ts| ==> ts[j] < |deps|
  {
    if deps == [] then []
    else Appending(deps[..|deps| - 1]) + if AppendsSkill(deps[|deps| - 1].field) then [|deps| - 1] else []
  }

  /** Entry `k` of the skills: of the harness, or appended by a dependency and open to
      the later ones. */
  ghost function SkillAfter(env: Env, v: HarnessValue, deps: seq<LockDep>, k: nat): SkillValue
    requires k < |v.skills| + |Appending(deps)|
  {
    if k < |v.skills| then
      v.skills[k].(source := FieldAfter(env, SkillName(env, k), v.skills[k].source, deps))
    else
      var t := Appending(deps)[k - |v.skills|];
      SkillValue(FieldAfter(env, SkillName(env, k), PathOf(env, deps[t]), deps[t + 1..]), map[])
  }

  predicate HeldBy(name: string, was: string, d: LockDep) {
    d.field == name && FieldHolds(was, d.url)
  }

  /** While no replayed path holds a URL, an entry ends at the path of the first dependency
      under its name that was recorded for the URL it holds. */
  lemma {:induction false} FieldBecomesFirst(env: Env, name: string, was: string, deps: seq<LockDep>, first: nat)
    requires forall c, d :: c in deps && d in deps ==> !FieldHolds(PathOf(env, c), d.url)
    requires first < |deps| && HeldBy(name, was, deps[first])
    requires forall i :: 0 <= i < first ==> !HeldBy(name, was, deps[i])
    ensures FieldAfter(env, name, was, deps) == PathOf(env, deps[first])
    decreases |deps|
  {
    var before, last := deps[..|deps| - 1], deps[|deps| - 1];
    assert forall d :: d in before ==> d in deps;
    if first < |deps| - 1 {
      FieldBecomesFirst(env, name, was, before, first);
      assert deps[first] in deps && last in deps;
    } else {
      FieldStays(env, name, was, before);
    }
  }

  /** And stays when there is none. */
  lemma {:induction false} FieldStays(env: Env, name: string, was: string, deps: seq<LockDep>)
    requires forall i :: 0 <= i < |deps| ==> !HeldBy(name, was, deps[i])
    ensures FieldAfter(env, name, was, deps) == was
  {
    if deps != [] {
      FieldStays(env, name, was, deps[..|deps| - 1]);
      assert !HeldBy(name, was, deps[|deps| - 1]);
    }
  }

  // ----- The lists after the mutations -----

  ghost predicate Corresponds(env: Env, deps: seq<LockDep>, rs: seq<Resolved>) {
    |rs| == |deps| && forall i :: 0 <= i < |deps| ==> IsFor(env, deps[i], rs[i])
  }

  ghost predicate IsFor(env: Env, d: LockDep, r: Resolved) {
    && r.field == d.field && r.url == d.url && (r.typ == "directory" <==> d.typ == "directory")
    && r.localPath == PathOf(env, d) && r.finalPath == FinalPathOf(env, d)
    && (HasPrefix(d.field, "plugins[") ==> env.scan("plugins[%d]", d.field).Some?)
  }

  lemma CollectedCorresponds(env: Env, plugins: nat, deps: seq<LockDep>)
    requires CollectAll(env, plugins, deps).Ok?
    ensures Corresponds(env, deps, CollectAll(env, plugins, deps).value)
  {
    var rs := CollectAll(env, plugins, deps).value;
    CollectedInOrder(env, plugins, deps, rs);
    forall i | 0 <= i < |deps| ensures IsFor(env, deps[i], rs[i]) {
      assert Collect(env, plugins, deps[i]) == Ok(rs[i]);
    }
  }

  ghost predicate SkillsFolded(env: Env, v: HarnessValue, deps: seq<LockDep>, skills: seq<SkillValue>) {
    && |skills| == |v.skills| + |Appending(deps)|
    && forall k :: 0 <= k < |skills| ==> skills[k] == SkillAfter(env, v, deps, k)
  }

  ghost predicate PluginsFolded(env: Env, v: HarnessValue, deps: seq<LockDep>, plugins: seq<PluginSpec>) {
    && |plugins| == |v.plugins|
    && forall i :: 0 <= i < |plugins| ==>
         plugins[i] == v.plugins[i].(path := PluginAfter(env, i, v.plugins[i].path, deps))
  }

  lemma SliceNext(deps: seq<LockDep>, t: nat)
    requires t < |deps| - 1
    ensures var n := |deps| - 1;
            && |deps[t + 1..]| == n - t && deps[t + 1..][n - t - 1] == deps[n]
            && deps[t + 1..][..n - t - 1] == deps[..n][t + 1..] && deps[..n][t] == deps[t]
  {
  }

  lemma FieldNext(env: Env, name: string, was: string, deps: seq<LockDep>, t: nat)
    requires t < |deps| - 1
    ensures var n := |deps| - 1;
            var now := FieldAfter(env, name, was, deps[..n][t + 1..]);
            FieldAfter(env, name, was, deps[t + 1..])
            == if HeldBy(name, now, deps[n]) then PathOf(env, deps[n]) else now
  {
    SliceNext(deps, t);
  }

  /** One dependency more, on an entry that is there. */
  lemma SkillNext(env: Env, v: HarnessValue, deps: seq<LockDep>, k: nat)
    requires deps != [] && k < |v.skills| + |Appending(deps[..|deps| - 1])|
    ensures k < |v.skills| + |Appending(deps)|
    ensures var d, was := deps[|deps| - 1], SkillAfter(env, v, deps[..|deps| - 1], k);
            SkillAfter(env, v, deps, k)
            == if HeldBy(SkillName(env, k), was.source, d) then was.(source := PathOf(env, d)) else was
  {
    var n := |deps| - 1;
    if k >= |v.skills| {
      var t := Appending(deps[..n])[k - |v.skills|];
      assert Appending(deps)[k - |v.skills|] == t;
      SliceNext(deps, t);
      FieldNext(env, SkillName(env, k), PathOf(env, deps[t]), deps, t);
    }
  }

  lemma SkillAppended(env: Env, v: HarnessValue, deps: seq<LockDep>)
    requires deps != [] && AppendsSkill(deps[|deps| - 1].field)
    ensures var k := |v.skills| + |Appending(deps[..|deps| - 1])|;
            k < |v.skills| + |Appending(deps)|
            && SkillAfter(env, v, deps, k) == SkillValue(PathOf(env, deps[|deps| - 1]), map[])
  {
    assert deps[|deps| - 1 + 1..] == [];
  }

  lemma SlotNames(env: Env, field: string)
    requires ReadsBack(env)
    ensures forall k: nat :: field == SkillName(env, k) <==> SlotIn(env, field) == Skill(k)
    ensures AppendsSkill(field) <==> SlotIn(env, field) == TransitiveSkill
  {
    forall k: nat ensures field == SkillName(env, k) <==> SlotIn(env, field) == Skill(k) {
      if field == SkillName(env, k) {
        SkillNameIsSlot(env, k);
      }
      if SlotIn(env, field) == Skill(k) {
        SlotIsSkillName(env, field, k);
      }
    }
    if AppendsSkill(field) {
      AppendingIsSlot(env, field);
    }
    if SlotIn(env, field) == TransitiveSkill {
      SlotIsAppending(env, field);
    }
  }

  lemma SkillsNext(env: Env, v: HarnessValue, deps: seq<LockDep>, slot: Slot, w: Work, r: Resolved)
    requires deps != [] && SkillsFolded(env, v, deps[..|deps| - 1], w.v.skills) && IsFor(env, deps[|deps| - 1], r)
    requires forall k: nat :: r.field == SkillName(env, k) <==> slot == Skill(k)
    requires AppendsSkill(r.field) <==> slot == TransitiveSkill
    requires slot.Skill? ==> slot.index >= 0
    requires ApplyTo(env, slot, w, r).Ok?
    ensures SkillsFolded(env, v, deps, ApplyTo(env, slot, w, r).value.v.skills)
  {
    var skills, next := w.v.skills, ApplyTo(env, slot, w, r).value.v.skills;
    forall k | 0 <= k < |skills| ensures next[k] == SkillAfter(env, v, deps, k) {
      SkillNext(env, v, deps, k);
      assert skills[k] == SkillAfter(env, v, deps[..|deps| - 1], k);
      assert r.field == SkillName(env, k) <==> slot == Skill(k);
    }
    if slot == TransitiveSkill {
      SkillAppended(env, v, deps);
    }
  }

  lemma PluginsNext(env: Env, v: HarnessValue, deps: seq<LockDep>, slot: Slot, w: Work, r: Resolved)
    requires deps != [] && PluginsFolded(env, v, deps[..|deps| - 1], w.v.plugins) && IsFor(env, deps[|deps| - 1], r)
    requires forall i: int :: NamesPlugin(env, r.field, i) <==> slot == Plugin(i)
    requires ApplyTo(env, slot, w, r).Ok?
    ensures PluginsFolded(env, v, deps, ApplyTo(env, slot, w, r).value.v.plugins)
  {
    var plugins, next := w.v.plugins, ApplyTo(env, slot, w, r).value.v.plugins;
    forall i | 0 <= i < |plugins|
      ensures next[i] == v.plugins[i].(path := PluginAfter(env, i, v.plugins[i].path, deps))
    {
      assert NamesPlugin(env, r.field, i) <==> slot == Plugin(i);
    }
  }

  lemma PluginSlotNames(env: Env, field: string)
    requires HasPrefix(field, "plugins[") ==> env.scan("plugins[%d]", field).Some?
    ensures forall i: int :: NamesPlugin(env, field, i) <==> SlotIn(env, field) == Plugin(i)
  {
    forall i: int ensures NamesPlugin(env, field, i) <==> SlotIn(env, field) == Plugin(i) {
      if NamesPlugin(env, field, i) {
        PluginNameIsSlot(env, field, i);
      }
      if SlotIn(env, field) == Plugin(i) {
        SlotIsPluginName(env, field, i);
      }
    }
  }

  /** The mutations leave the lists as the dependencies' names say, and all others alone. */
  lemma {:induction false} ListsFolded(env: Env, v: HarnessValue, deps: seq<LockDep>, rs: seq<Resolved>)
    requires ReadsBack(env) && Corresponds(env, deps, rs) && ApplyAll(env, v, rs).Ok?
    ensures var w := ApplyAll(env, v, rs).value.v;
            && SkillsFolded(env, v, deps, w.skills) && PluginsFolded(env, v, deps, w.plugins)
            && w.providers == v.providers && w.profiles == v.profiles
    decreases |rs|
  {
    if rs != [] {
      var n := |rs| - 1;
      var d, r := deps[n], rs[n];
      ListsFolded(env, v, deps[..n], rs[..n]);
      var w := ApplyAll(env, v, rs[..n]).value;
      var slot := SlotIn(env, r.field);
      assert IsFor(env, d, r);
      SlotNames(env, r.field);
      PluginSlotNames(env, r.field);
      if slot.Skill? {
        SlotIsSkillName(env, r.field, slot.index);
      }
      SkillsNext(env, v, deps, slot, w, r);
      PluginsNext(env, v, deps, slot, w, r);
      OthersStay(env, slot, w, r);
    }
  }

  lemma OthersStay(env: Env, slot: Slot, w: Work, r: Resolved)
    requires ApplyTo(env, slot, w, r).Ok?
    ensures var v := ApplyTo(env, slot, w, r).value.v; v.providers == w.v.providers && v.profiles == w.v.profiles
  {
  }

  // ----- Paths by URL -----

  /** The path of the last dependency on a URL. */
  function LastPath(env: Env, deps: seq<LockDep>, url: string): string {
    if deps == [] then ""
    else if deps[|deps| - 1].url == url then FinalPathOf(env, deps[|deps| - 1])
    else LastPath(env, deps[..|deps| - 1], url)
  }

  /** The path of the last file, no directory, on a URL. */
  function LastFile(env: Env, deps: seq<LockDep>, url: string): Option<string> {
    if deps == [] then None
    else
      var d := deps[|deps| - 1];
      if d.typ != "directory" && env.clean(d.url) == url then Some(FinalPathOf(env, d))
      else LastFile(env, deps[..|deps| - 1], url)
  }

  lemma {:induction false} URLsAreLast(env: Env, deps: seq<LockDep>, rs: seq<Resolved>, url: string)
    requires Corresponds(env, deps, rs)
    ensures Get(ResolvedURLs(rs), url) == LastPath(env, deps, url)
    decreases |rs|
  {
    if rs != [] {
      assert IsFor(env, deps[|deps| - 1], rs[|rs| - 1]);
      URLsAreLast(env, deps[..|deps| - 1], rs[..|rs| - 1], url);
    }
  }

  lemma {:induction false} FilesAreLast(env: Env, deps: seq<LockDep>, rs: seq<Resolved>, url: string)
    requires Corresponds(env, deps, rs)
    ensures url in FilesByURL(env, rs) <==> LastFile(env, deps, url).Some?
    ensures url in FilesByURL(env, rs) ==> LastFile(env, deps, url) == Some(FilesByURL(env, rs)[url])
    decreases |rs|
  {
    if rs != [] {
      assert IsFor(env, deps[|deps| - 1], rs[|rs| - 1]);
      FilesAreLast(env, deps[..|deps| - 1], rs[..|rs| - 1], url);
    }
  }

  // ----- What is picked from a list -----

  lemma {:induction false} FilterPicks<T>(s: seq<T>, keep: T -> bool) returns (f: seq<nat>)
    ensures Picks(Filter(s, keep), s, f)
    ensures forall j :: 0 <= j < |s| ==> (j in f <==> keep(s[j]))
  {
    f := [];
    if s != [] {
      var n := |s| - 1;
      var g := FilterPicks(s[..n], keep);
      assert forall j :: 0 <= j < n ==> s[..n][j] == s[j];
      f := if keep(s[n]) then g + [n] else g;
      PicksOneMore(Filter(s[..n], keep), s, g);
    }
  }

  // ----- The lists of a successful replay -----

  /** Override values that name a URL are the paths of its file, all others as before. */
  ghost predicate OverridesSet(
      env: Env, deps: seq<LockDep>, was: map<string, Option<string>>, now: map<string, Option<string>>)
  {
    && now.Keys == was.Keys
    && forall k :: k in was ==>
         if was[k].Some? && was[k].value != "" && env.isURL(was[k].value)
         then now[k] == LastFile(env, deps, env.clean(was[k].value)) && now[k].Some?
         else now[k] == was[k]
  }

  /** The skills before duplicates are merged, and the paths of those that still hold a URL. */
  ghost predicate BeforeMerge(
      env: Env, v: HarnessValue, deps: seq<LockDep>, skills: seq<SkillValue>, dups: map<int, string>)
  {
    && |skills| == |v.skills| + |Appending(deps)|
    && (forall k :: 0 <= k < |skills| ==>
          skills[k].source == SkillAfter(env, v, deps, k).source
          && OverridesSet(env, deps, SkillAfter(env, v, deps, k).overrides, skills[k].overrides))
    && (forall k :: k in dups <==> 0 <= k < |skills| && env.isURL(skills[k].source))
    && (forall k :: k in dups ==> dups[k] == LastPath(env, deps, env.clean(skills[k].source)))
  }

  lemma OverridesAreSet(env: Env, deps: seq<LockDep>, rs: seq<Resolved>, was: map<string, Option<string>>)
    requires Corresponds(env, deps, rs) && OverridesCovered(env, FilesByURL(env, rs), was)
    ensures OverridesSet(env, deps, was, Overridden(was, PlannedOverrides(env, FilesByURL(env, rs), was)))
  {
    forall k | k in was && NamesURL(env, was[k])
      ensures LastFile(env, deps, env.clean(was[k].value)) == Some(FilesByURL(env, rs)[env.clean(was[k].value)])
    {
      FilesAreLast(env, deps, rs, env.clean(was[k].value));
    }
  }

  lemma MergeInput(env: Env, v: HarnessValue, deps: seq<LockDep>, rs: seq<Resolved>, skills: seq<SkillValue>)
    requires Corresponds(env, deps, rs) && SkillsFolded(env, v, deps, skills)
    requires AllOverridesCovered(env, FilesByURL(env, rs), skills)
    ensures var before := OverrideSkills(env, FilesByURL(env, rs), skills);
            BeforeMerge(env, v, deps, before, DuplicatePaths(env, ResolvedURLs(rs), before))
  {
    var files, urls := FilesByURL(env, rs), ResolvedURLs(rs);
    var before := OverrideSkills(env, files, skills);
    forall k | 0 <= k < |skills|
      ensures before[k].source == SkillAfter(env, v, deps, k).source
      ensures OverridesSet(env, deps, SkillAfter(env, v, deps, k).overrides, before[k].overrides)
    {
      assert skills[k] in skills && skills[k] == SkillAfter(env, v, deps, k);
      OverridesAreSet(env, deps, rs, skills[k].overrides);
    }
    var dups := DuplicatePaths(env, urls, before);
    forall k | k in dups ensures dups[k] == LastPath(env, deps, env.clean(before[k].source)) {
      URLsAreLast(env, deps, rs, env.clean(before[k].source));
    }
  }

  /** The skills are the merged entries that hold no URL, in order. */
  lemma SkillsExact(env: Env, v: HarnessValue, deps: seq<LockDep>)
    returns (f: seq<nat>, before: seq<SkillValue>, dups: map<int, string>)
    requires ReadsBack(env) && MergeMovesOnly(env) && Replay(env, v, deps).Ok?
    ensures BeforeMerge(env, v, deps, before, dups) && env.merge(before, dups).Ok?
    ensures Picks(Replay(env, v, deps).value.skills, env.merge(before, dups).value, f)
    ensures forall k :: 0 <= k < |f| ==>
              Replay(env, v, deps).value.skills[k].source == SkillAfter(env, v, deps, f[k]).source
    ensures forall j: nat :: j in f <==> j < |before| && !env.isURL(SkillAfter(env, v, deps, j).source)
  {
    var rs := CollectAll(env, |v.plugins|, deps).value;
    CollectedCorresponds(env, |v.plugins|, deps);
    ListsFolded(env, v, deps, rs);
    var w := ApplyAll(env, v, rs).value;
    var files := FilesByURL(env, rs);
    ApplyKeepsOverrides(env, v, rs, files);
    before := OverrideSkills(env, files, w.v.skills);
    dups := DuplicatePaths(env, ResolvedURLs(rs), before);
    MergeInput(env, v, deps, rs, w.v.skills);
    var merged := env.merge(before, dups).value;
    assert MovesOnly(before, merged);
    f := FilterPicks(merged, (s: SkillValue) => !env.isURL(s.source));
  }

  /** Plugin `i` once all dependencies had their say: one that still holds a URL gets the
      path of the last dependency on it. */
  function PluginEnd(env: Env, v: HarnessValue, deps: seq<LockDep>, i: nat): PluginSpec
    requires i < |v.plugins|
  {
    var path := PluginAfter(env, i, v.plugins[i].path, deps);
    v.plugins[i].(path := if env.isURL(path) then LastPath(env, deps, env.clean(path)) else path)
  }

  lemma PluginsEnd(env: Env, v: HarnessValue, deps: seq<LockDep>, rs: seq<Resolved>, plugins: seq<PluginSpec>)
    requires Corresponds(env, deps, rs) && PluginsFolded(env, v, deps, plugins)
    ensures var resolved := ResolvePlugins(env, ResolvedURLs(rs), plugins);
            |resolved| == |v.plugins| && forall i :: 0 <= i < |resolved| ==> resolved[i] == PluginEnd(env, v, deps, i)
  {
    forall i | 0 <= i < |plugins|
      ensures ResolvePlugin(env, ResolvedURLs(rs), plugins[i]) == PluginEnd(env, v, deps, i)
    {
      URLsAreLast(env, deps, rs, env.clean(plugins[i].path));
    }
  }

  /** The first plugin on each path that is no URL is kept, in order. */
  ghost predicate FirstOnPath(env: Env, all: seq<PluginSpec>, i: nat) {
    i < |all| && !env.isURL(all[i].path) && forall j :: 0 <= j < i ==> all[j].path != all[i].path
  }

  lemma FirstsOfFirsts(
      env: Env, all: seq<PluginSpec>, some: seq<PluginSpec>, g: seq<nat>, kept: seq<PluginSpec>, h: seq<nat>)
    returns (f: seq<nat>)
    requires Picks(some, all, g) && (forall j :: 0 <= j < |all| ==> (j in g <==> !env.isURL(all[j].path)))
    requires FirstOccurrences(kept, some, h) && Paths(kept) == Paths(some)
    ensures Picks(kept, all, f) && forall i: nat :: i in f <==> FirstOnPath(env, all, i)
  {
    f := seq(|h|, k requires 0 <= k < |h| => g[h[k]]);
    forall i: nat | i in f ensures FirstOnPath(env, all, i) {
      var k :| 0 <= k < |f| && f[k] == i;
      assert g[h[k]] in g;
      forall j | 0 <= j < i ensures all[j].path != all[i].path {
        if !env.isURL(all[j].path) {
          var m :| 0 <= m < |g| && g[m] == j;
          assert m < h[k] && some[m].path != some[h[k]].path;
        }
      }
    }
    forall i: nat | FirstOnPath(env, all, i) ensures i in f {
      var m :| 0 <= m < |g| && g[m] == i;
      assert some[m] in some && some[m].path in Paths(kept);
      var p :| p in kept && p.path == some[m].path;
      var k :| 0 <= k < |kept| && kept[k] == p;
      assert some[h[k]].path == all[i].path;
      assert h[k] == m;
      assert f[k] == i;
    }
  }

  lemma FinishPicks(env: Env, all: seq<PluginSpec>) returns (f: seq<nat>)
    ensures Picks(Deduped(Filter(all, (p: PluginSpec) => !env.isURL(p.path))), all, f)
    ensures forall i: nat :: i in f <==> FirstOnPath(env, all, i)
  {
    var keep := (p: PluginSpec) => !env.isURL(p.path);
    var g := FilterPicks(all, keep);
    var h := DedupedIsFirst(Filter(all, keep));
    DedupedMembers(Filter(all, keep));
    f := FirstsOfFirsts(env, all, Filter(all, keep), g, Deduped(Filter(all, keep)), h);
  }

  function PluginEnds(env: Env, v: HarnessValue, deps: seq<LockDep>): seq<PluginSpec> {
    seq(|v.plugins|, i requires 0 <= i < |v.plugins| => PluginEnd(env, v, deps, i))
  }

  lemma PluginsAreFinished(env: Env, v: HarnessValue, deps: seq<LockDep>)
    requires ReadsBack(env) && Replay(env, v, deps).Ok?
    ensures Replay(env, v, deps).value.plugins
            == Deduped(Filter(PluginEnds(env, v, deps), (p: PluginSpec) => !env.isURL(p.path)))
  {
    var rs := CollectAll(env, |v.plugins|, deps).value;
    CollectedCorresponds(env, |v.plugins|, deps);
    ListsFolded(env, v, deps, rs);
    var plugins := ApplyAll(env, v, rs).value.v.plugins;
    PluginsEnd(env, v, deps, rs, plugins);
    assert ResolvePlugins(env, ResolvedURLs(rs), plugins) == PluginEnds(env, v, deps);
  }

  /** The plugins are the first on each path that is no URL, in order, with their options. */
  lemma PluginsExact(env: Env, v: HarnessValue, deps: seq<LockDep>) returns (f: seq<nat>)
    requires ReadsBack(env) && Replay(env, v, deps).Ok?
    ensures Picks(Replay(env, v, deps).value.plugins, PluginEnds(env, v, deps), f)
    ensures forall i: nat :: i in f <==> FirstOnPath(env, PluginEnds(env, v, deps), i)
  {
    PluginsAreFinished(env, v, deps);
    f := FinishPicks(env, PluginEnds(env, v, deps));
  }

  /** Providers and profiles are the former ones that are no URL, in order. */
  lemma NamesExact(env: Env, v: HarnessValue, deps: seq<LockDep>) returns (f: seq<nat>, g: seq<nat>)
    requires ReadsBack(env) && Replay(env, v, deps).Ok?
    ensures Picks(Replay(env, v, deps).value.providers, v.providers, f)
    ensures forall j: nat :: j in f <==> j < |v.providers| && !env.isURL(v.providers[j])
    ensures Replay(env, v, deps).value.profiles.Some? <==> v.profiles.Some?
    ensures v.profiles.Some? ==>
              && Picks(Replay(env, v, deps).value.profiles.value, v.profiles.value, g)
              && forall j: nat :: j in g <==> j < |v.profiles.value| && !env.isURL(v.profiles.value[j])
  {
    var rs := CollectAll(env, |v.plugins|, deps).value;
    CollectedCorresponds(env, |v.plugins|, deps);
    ListsFolded(env, v, deps, rs);
    f := FilterPicks(v.providers, p => !env.isURL(p));
    g := [];
    if v.profiles.Some? {
      g := FilterPicks(v.profiles.value, p => !env.isURL(p));
    }
  }

  // ----- The scalars, by name -----

  lemma {:induction false} ScalarIsField(
      env: Env, slot: Slot, name: string, was: string, deps: seq<LockDep>, rs: seq<Resolved>)
    requires Corresponds(env, deps, rs)
    requires forall field: string :: SlotIn(env, field) == slot <==> field == name
    ensures ScalarAfter(env, slot, was, rs) == FieldAfter(env, name, was, deps)
    decreases |rs|
  {
    if rs != [] {
      assert IsFor(env, deps[|deps| - 1], rs[|rs| - 1]);
      ScalarIsField(env, slot, name, was, deps[..|deps| - 1], rs[..|rs| - 1]);
    }
  }

  lemma SlotsByName(env: Env)
    ensures forall field: string {:trigger SlotIn(env, field)} ::
              && (SlotIn(env, field) == Agent <==> field == "agent")
              && (SlotIn(env, field) == Policy <==> field == "policy")
              && (SlotIn(env, field) == PreScript <==> field == "pre_script")
              && (SlotIn(env, field) == PostScript <==> field == "post_script")
              && (SlotIn(env, field) == LoopScript <==> field == "validation_loop.script")
              && (SlotIn(env, field) == LoopSchema <==> field == "validation_loop.schema")
  {
    forall field: string {:trigger SlotIn(env, field)}
      ensures (SlotIn(env, field) == Agent <==> field == "agent")
              && (SlotIn(env, field) == Policy <==> field == "policy")
              && (SlotIn(env, field) == PreScript <==> field == "pre_script")
              && (SlotIn(env, field) == PostScript <==> field == "post_script")
              && (SlotIn(env, field) == LoopScript <==> field == "validation_loop.script")
              && (SlotIn(env, field) == LoopSchema <==> field == "validation_loop.schema")
    {
      ScalarNames(env.scan, env.decimal, field);
    }
  }

  /** Each scalar field is what the dependencies recorded under its own name make of it. */
  lemma ScalarsExact(env: Env, v: HarnessValue, deps: seq<LockDep>)
    requires Replay(env, v, deps).Ok?
    ensures var out := Replay(env, v, deps).value;
            && out.agent == FieldAfter(env, "agent", v.agent, deps)
            && out.policy == FieldAfter(env, "policy", v.policy, deps)
            && out.preScript == FieldAfter(env, "pre_script", v.preScript, deps)
            && out.postScript == FieldAfter(env, "post_script", v.postScript, deps)
            && out.rest == v.rest && (out.loop.Some? <==> v.loop.Some?)
            && (v.loop.Some? ==>
                  && out.loop.value.script == FieldAfter(env, "validation_loop.script", v.loop.value.script, deps)
                  && out.loop.value.schema == FieldAfter(env, "validation_loop.schema", v.loop.value.schema, deps)
                  && out.loop.value.rest == v.loop.value.rest)
  {
    var rs := CollectAll(env, |v.plugins|, deps).value;
    CollectedCorresponds(env, |v.plugins|, deps);
    ReplayScalars(env, v, deps);
    SlotsByName(env);
    ScalarIsField(env, Agent, "agent", v.agent, deps, rs);
    ScalarIsField(env, Policy, "policy", v.policy, deps, rs);
    ScalarIsField(env, PreScript, "pre_script", v.preScript, deps, rs);
    ScalarIsField(env, PostScript, "post_script", v.postScript, deps, rs);
    if v.loop.Some? {
      ScalarIsField(env, LoopScript, "validation_loop.script", v.loop.value.script, deps, rs);
      ScalarIsField(env, LoopSchema, "validation_loop.schema", v.loop.value.schema, deps, rs);
    }
  }

  // ----- When a replay gets through -----

  ghost predicate DepOk(env: Env, plugins: nat, d: LockDep) {
    && (d.field == "agent_source" || env.allowed(d)) && env.lookup(d).Cached?
    && (HasPrefix(d.field, "plugins[") ==>
          && d.typ == "directory" && env.scan("plugins[%d]", d.field).Some?
          && 0 <= env.scan("plugins[%d]", d.field).value < plugins)
    && (d.typ != "directory" && ProfileField(d.field) ==> env.profileID(d).Some?)
    && (d.typ != "directory" && !ProfileField(d.field) && ProviderField(d.field) ==> env.provider(d).Some?)
  }

  lemma {:induction false} CollectsExactly(env: Env, plugins: nat, deps: seq<LockDep>)
    ensures CollectAll(env, plugins, deps).Ok? <==> forall d :: d in deps ==> DepOk(env, plugins, d)
  {
    if deps != [] {
      var n := |deps| - 1;
      CollectsExactly(env, plugins, deps[..n]);
      CollectsOne(env, plugins, deps[n]);
      assert forall d :: d in deps <==> d in deps[..n] || d == deps[n];
    }
  }

  lemma CollectsOne(env: Env, plugins: nat, d: LockDep)
    ensures Collect(env, plugins, d).Ok? <==> DepOk(env, plugins, d)
  {
  }

  /** Every URL in a plugin or an override has a dependency to stand for it. */
  ghost predicate URLsCovered(env: Env, v: HarnessValue, deps: seq<LockDep>) {
    && (forall p :: p in v.plugins && env.isURL(p.path) ==>
          && !env.badBasename(env.clean(p.path))
          && exists i :: 0 <= i < |deps| && deps[i].url == env.clean(p.path))
    && (forall s, k :: s in v.skills && k in s.overrides && NamesURL(env, s.overrides[k]) ==>
          LastFile(env, deps, env.clean(s.overrides[k].value)).Some?)
  }

  lemma {:induction false} URLsHaveDeps(env: Env, deps: seq<LockDep>, rs: seq<Resolved>, url: string)
    requires Corresponds(env, deps, rs)
    ensures url in ResolvedURLs(rs) <==> exists i :: 0 <= i < |deps| && deps[i].url == url
    decreases |rs|
  {
    if rs != [] {
      var n := |rs| - 1;
      assert IsFor(env, deps[n], rs[n]);
      URLsHaveDeps(env, deps[..n], rs[..n], url);
      if i :| 0 <= i < n && deps[..n][i].url == url {
        assert deps[i].url == url;
      }
      if i :| 0 <= i < n && deps[i].url == url {
        assert deps[..n][i].url == url;
      }
    }
  }

  lemma PluginsCoveredExactly(env: Env, deps: seq<LockDep>, rs: seq<Resolved>, plugins: seq<PluginSpec>)
    requires Corresponds(env, deps, rs)
    ensures PluginsCovered(env, ResolvedURLs(rs), plugins)
            <==> forall p :: p in plugins && env.isURL(p.path) ==>
                   && !env.badBasename(env.clean(p.path))
                   && exists i :: 0 <= i < |deps| && deps[i].url == env.clean(p.path)
  {
    forall p | p in plugins
      ensures env.clean(p.path) in ResolvedURLs(rs) <==> exists i :: 0 <= i < |deps| && deps[i].url == env.clean(p.path)
    {
      URLsHaveDeps(env, deps, rs, env.clean(p.path));
    }
  }

  lemma OverridesCoveredExactly(env: Env, deps: seq<LockDep>, rs: seq<Resolved>, skills: seq<SkillValue>)
    requires Corresponds(env, deps, rs)
    ensures AllOverridesCovered(env, FilesByURL(env, rs), skills)
            <==> forall s, k :: s in skills && k in s.overrides && NamesURL(env, s.overrides[k]) ==>
                   LastFile(env, deps, env.clean(s.overrides[k].value)).Some?
  {
    forall s, k | s in skills && k in s.overrides && NamesURL(env, s.overrides[k])
      ensures env.clean(s.overrides[k].value) in FilesByURL(env, rs)
              <==> LastFile(env, deps, env.clean(s.overrides[k].value)).Some?
    {
      FilesAreLast(env, deps, rs, env.clean(s.overrides[k].value));
    }
  }

  /** What is checked before the first write. */
  lemma ChecksExactly(env: Env, v: HarnessValue, deps: seq<LockDep>)
    ensures Checked(env, v, deps).Ok?
            <==> (forall d :: d in deps ==> DepOk(env, |v.plugins|, d)) && URLsCovered(env, v, deps)
  {
    CollectsExactly(env, |v.plugins|, deps);
    if CollectAll(env, |v.plugins|, deps).Ok? {
      var rs := CollectAll(env, |v.plugins|, deps).value;
      CollectedCorresponds(env, |v.plugins|, deps);
      PluginsCoveredExactly(env, deps, rs, v.plugins);
      OverridesCoveredExactly(env, deps, rs, v.skills);
    }
  }

  /** No file or tree refuses its permissions, and no merge fails. */
  ghost predicate NothingFails(env: Env) {
    && (forall path :: !env.chmodFails(path)) && (forall path :: !env.chmodTreeFails(path))
    && (forall skills: seq<SkillValue>, dups: map<int, string> :: env.merge(skills, dups).Ok?)
  }

  lemma {:induction false} AppliesAlways(env: Env, v: HarnessValue, rs: seq<Resolved>)
    requires NothingFails(env)
    ensures ApplyAll(env, v, rs).Ok?
  {
    if rs != [] {
      var last := rs[|rs| - 1];
      AppliesAlways(env, v, rs[..|rs| - 1]);
      AppliesOne(env, SlotIn(env, last.field), ApplyAll(env, v, rs[..|rs| - 1]).value, last);
    }
  }

  lemma AppliesOne(env: Env, slot: Slot, w: Work, r: Resolved)
    requires NothingFails(env)
    ensures ApplyTo(env, slot, w, r).Ok?
  {
  }

  /** A replay gets through only when the checks hold; and when they do, only permissions
      or a merge can stop it. */
  lemma SucceedsExactly(env: Env, v: HarnessValue, deps: seq<LockDep>)
    ensures Replay(env, v, deps).Ok? ==> Checked(env, v, deps).Ok?
    ensures NothingFails(env) ==>
              (Replay(env, v, deps).Ok?
               <==> (forall d :: d in deps ==> DepOk(env, |v.plugins|, d)) && URLsCovered(env, v, deps))
  {
    ChecksExactly(env, v, deps);
    if NothingFails(env) && Checked(env, v, deps).Ok? {
      AppliesAlways(env, v, Checked(env, v, deps).value);
    }
  }
}
