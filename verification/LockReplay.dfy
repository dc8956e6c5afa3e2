/** The lock replay on the heap: Go slices over shared arrays, maps and nested structs,
    a working copy, and in-place compaction. Every write goes to storage the copy
    made fresh, so an error leaves the caller's harness and all it reaches alone. */
module LockReplay {
  import opened LockFields
  import opened LockReplaySpec
  import opened Wrappers

  // ----- Slices -----

  /** A Go slice: the first `len` elements of a backing array. */
  datatype Slice<T> = Slice(arr: array<T>, len: nat)

  predicate SliceOk<T>(s: Slice<T>)
  {
    s.len <= s.arr.Length
  }

  function Elems<T>(s: Slice<T>): seq<T>
    requires SliceOk(s)
    reads s.arr
  {
    s.arr[..s.len]
  }

  /** `slices.Clone`. */
  method Clone<T>(s: Slice<T>) returns (r: Slice<T>)
    requires SliceOk(s)
    ensures fresh(r.arr) && SliceOk(r) && Elems(r) == Elems(s)
  {
    var a := new T[s.len](i requires 0 <= i < s.len <= s.arr.Length reads s.arr => s.arr[i]);
    r := Slice(a, s.len);
  }

  /** `append` of one element: in place while there is room, else into a new array. */
  method Append<T>(s: Slice<T>, x: T) returns (r: Slice<T>)
    requires SliceOk(s)
    modifies s.arr
    ensures SliceOk(r) && Elems(r) == old(Elems(s)) + [x]
    ensures r.arr == s.arr || fresh(r.arr)
  {
    if s.len < s.arr.Length {
      s.arr[s.len] := x;
      r := Slice(s.arr, s.len + 1);
    } else {
      var a := new T[s.len + 1](i requires 0 <= i <= s.len == s.arr.Length reads s.arr =>
                                  if i < s.len then s.arr[i] else x);
      r := Slice(a, s.len + 1);
    }
  }

  /** Compaction through `s[:0]`: the loop reads and writes the same array, and writes
      never get ahead of reads. */
  method Compact<T>(s: Slice<T>, keep: T -> bool) returns (r: Slice<T>)
    requires SliceOk(s)
    modifies s.arr
    ensures r.arr == s.arr && SliceOk(r) && Elems(r) == Filter(old(Elems(s)), keep)
  {
    ghost var was := Elems(s);
    var n := 0;
    for i := 0 to s.len
      invariant n <= i
      invariant s.arr[..n] == Filter(was[..i], keep)
      invariant forall k :: i <= k < s.len ==> s.arr[k] == was[k]
    {
      assert was[..i + 1][..i] == was[..i];
      var x := s.arr[i];
      if keep(x) {
        s.arr[n] := x;
        n := n + 1;
      }
    }
    assert was[..s.len] == was;
    r := Slice(s.arr, n);
  }

  /** The loop below has kept `n` of the first `i` plugins. */
  ghost predicate DedupedSoFar(arr: seq<PluginSpec>, was: seq<PluginSpec>, seen: set<string>, n: nat, i: nat) {
    && n <= i <= |was| <= |arr|
    && arr[..n] == Deduped(was[..i]) && seen == Paths(Deduped(was[..i]))
    && arr[i..|was|] == was[i..]
  }

  lemma DedupNext(arr: seq<PluginSpec>, was: seq<PluginSpec>, seen: set<string>, n: nat, i: nat)
    requires DedupedSoFar(arr, was, seen, n, i) && i < |was|
    ensures arr[i] == was[i]
    ensures if was[i].path in seen then DedupedSoFar(arr, was, seen, n, i + 1)
            else DedupedSoFar(arr[n := was[i]], was, seen + {was[i].path}, n + 1, i + 1)
  {
    assert arr[i] == arr[i..|was|][0] == was[i];
    assert was[..i + 1][..i] == was[..i];
    assert arr[i + 1..|was|] == arr[i..|was|][1..];
    var kept, p := arr[..n], was[i];
    if p.path !in seen {
      assert arr[n := p][..n + 1] == kept + [p];
      assert arr[n := p][i + 1..|was|] == arr[i + 1..|was|];
      assert Paths(kept + [p]) == Paths(kept) + {p.path};
    }
  }

  /** De-duplication through `s[:0]`: the first plugin on each path stays. */
  method Dedup(s: Slice<PluginSpec>) returns (r: Slice<PluginSpec>)
    requires SliceOk(s)
    modifies s.arr
    ensures r.arr == s.arr && SliceOk(r) && Elems(r) == Deduped(old(Elems(s)))
  {
    ghost var was := Elems(s);
    var seen: set<string> := {};
    var n := 0;
    for i := 0 to s.len
      invariant n <= i && DedupedSoFar(s.arr[..], was, seen, n, i)
    {
      DedupNext(s.arr[..], was, seen, n, i);
      var p := s.arr[i];
      if p.path !in seen {
        ghost var before := s.arr[..];
        seen := seen + {p.path};
        s.arr[n] := p;
        assert s.arr[..] == before[n := p];
        n := n + 1;
      }
    }
    assert was[..s.len] == was;
    r := Slice(s.arr, n);
    assert s.arr[..n] == s.arr[..][..n];
  }

  // ----- The harness -----

  /** A Go map: shared by whoever holds it. */
  class OverrideMap {
    var m: map<string, Option<string>>

    constructor (m: map<string, Option<string>>)
      ensures this.m == m
    {
      this.m := m;
    }
  }

  datatype SkillEntry = SkillEntry(source: string, overrides: OverrideMap?)

  class OpenShell {
    var profiles: Slice<string>

    constructor (profiles: Slice<string>)
      ensures this.profiles == profiles
    {
      this.profiles := profiles;
    }
  }

  class ValidationLoop {
    var v: LoopValue

    constructor (v: LoopValue)
      ensures this.v == v
    {
      this.v := v;
    }
  }

  function OverridesOf(e: SkillEntry): map<string, Option<string>>
    reads e.overrides
  {
    if e.overrides == null then map[] else e.overrides.m
  }

  function Maps(es: seq<SkillEntry>): set<OverrideMap> {
    set e | e in es && e.overrides != null :: e.overrides
  }

  function SkillValues(es: seq<SkillEntry>): (vs: seq<SkillValue>)
    reads Maps(es)
    ensures |vs| == |es|
    ensures forall i :: 0 <= i < |es| ==> vs[i] == SkillValue(es[i].source, OverridesOf(es[i]))
  {
    if es == [] then []
    else
      var n := |es| - 1;
      SkillValues(es[..n]) + [SkillValue(es[n].source, OverridesOf(es[n]))]
  }

  lemma SkillValuesIs(es: seq<SkillEntry>, vs: seq<SkillValue>)
    requires |es| == |vs|
    requires forall i :: 0 <= i < |es| ==> es[i].source == vs[i].source && OverridesOf(es[i]) == vs[i].overrides
    ensures SkillValues(es) == vs
  {
  }

  twostate lemma SkillValuesStay(es: seq<SkillEntry>)
    requires forall m :: m in Maps(es) ==> m.m == old(m.m)
    ensures SkillValues(es) == old(SkillValues(es))
  {
    forall i | 0 <= i < |es| && es[i].overrides != null ensures es[i].overrides.m == old(es[i].overrides.m) {
      assert es[i] in es;
    }
    SkillValuesIs(es, old(SkillValues(es)));
  }

  /** No two entries share a map. */
  ghost predicate SeparateMaps(es: seq<SkillEntry>) {
    forall i, j :: 0 <= i < j < |es| && es[i].overrides != null ==> es[i].overrides != es[j].overrides
  }

  /** The fields the replay knows of; `rest` stands for all others. */
  class Harness {
    var agent: string
    var policy: string
    var preScript: string
    var postScript: string
    var skills: Slice<SkillEntry>
    var plugins: Slice<PluginSpec>
    var providers: Slice<string>
    var openShell: OpenShell?
    var validationLoop: ValidationLoop?
    var rest: string

    constructor (agent: string, policy: string, preScript: string, postScript: string, skills: Slice<SkillEntry>,
                 plugins: Slice<PluginSpec>, providers: Slice<string>, openShell: OpenShell?,
                 validationLoop: ValidationLoop?, rest: string)
      ensures this.agent == agent && this.policy == policy && this.preScript == preScript
              && this.postScript == postScript
      ensures this.skills == skills && this.plugins == plugins && this.providers == providers
      ensures this.openShell == openShell && this.validationLoop == validationLoop && this.rest == rest
    {
      this.agent, this.policy, this.preScript, this.postScript := agent, policy, preScript, postScript;
      this.skills, this.plugins, this.providers := skills, plugins, providers;
      this.openShell, this.validationLoop, this.rest := openShell, validationLoop, rest;
    }

    ghost predicate Valid()
      reads `skills, `plugins, `providers, `openShell, openShell
    {
      && SliceOk(skills) && SliceOk(plugins) && SliceOk(providers)
      && (openShell != null ==> SliceOk(openShell.profiles))
    }

    /** The lists, which no write to a scalar field touches. */
    ghost function Lists(): (seq<SkillValue>, seq<PluginSpec>, seq<string>, Option<seq<string>>)
      requires Valid()
      reads `skills, `plugins, `providers, `openShell, openShell
      reads skills.arr, Maps(Elems(skills)), plugins.arr, providers.arr
      reads if openShell == null then {} else {openShell.profiles.arr}
    {
      (SkillValues(Elems(skills)), Elems(plugins), Elems(providers),
       if openShell == null then None else Some(Elems(openShell.profiles)))
    }

    ghost function Value(): HarnessValue
      requires Valid()
      reads this, openShell, skills.arr, Maps(Elems(skills)), plugins.arr, providers.arr, validationLoop
      reads if openShell == null then {} else {openShell.profiles.arr}
    {
      HarnessValue(
        agent, policy, preScript, postScript, Lists().0, Lists().1, Lists().2, Lists().3,
        if validationLoop == null then None else Some(validationLoop.v), rest)
    }

    /** The parts of the storage are apart from each other. */
    ghost predicate Apart()
      reads this, openShell, skills.arr
      requires Valid()
    {
      && SeparateMaps(Elems(skills))
      && (openShell != null ==> openShell.profiles.arr != providers.arr)
    }
  }

  /** Everything the replay may write through `c` was allocated since the old state. */
  twostate predicate HoldsFresh(new c: Harness)
    requires c.Valid()
    reads c, c.openShell, c.skills.arr
  {
    && fresh(c.skills.arr) && fresh(c.plugins.arr) && fresh(c.providers.arr)
    && (c.openShell != null ==> fresh(c.openShell) && fresh(c.openShell.profiles.arr))
    && (c.validationLoop != null ==> fresh(c.validationLoop))
    && forall m :: m in Maps(Elems(c.skills)) ==> fresh(m)
  }

  /** `c` still reaches what it reached in the old state, or newer storage. */
  twostate predicate StaysInside(c: Harness)
    requires old(c.Valid()) && c.Valid()
    reads c, c.openShell, c.skills.arr
  {
    && (c.skills.arr == old(c.skills.arr) || fresh(c.skills.arr))
    && c.plugins.arr == old(c.plugins.arr) && c.providers.arr == old(c.providers.arr)
    && c.openShell == old(c.openShell) && c.validationLoop == old(c.validationLoop)
    && (c.openShell != null ==> c.openShell.profiles.arr == old(c.openShell.profiles.arr))
    && forall m :: m in Maps(Elems(c.skills)) ==> m in old(Maps(Elems(c.skills))) || fresh(m)
  }

  /** The skills slice of the copy: each entry with its own copy of its map. */
  method CloneSkills(s: Slice<SkillEntry>) returns (r: Slice<SkillEntry>)
    requires SliceOk(s)
    ensures fresh(r.arr) && SliceOk(r) && fresh(Maps(Elems(r)))
    ensures SkillValues(Elems(r)) == old(SkillValues(Elems(s))) && SeparateMaps(Elems(r))
  {
    var out: seq<SkillEntry> := [];
    for i := 0 to s.len
      invariant |out| == i
      invariant forall k :: 0 <= k < i && out[k].overrides != null ==> fresh(out[k].overrides)
      invariant SeparateMaps(out)
      invariant forall k :: 0 <= k < i ==>
                  out[k].source == s.arr[k].source && OverridesOf(out[k]) == OverridesOf(s.arr[k])
    {
      var e := s.arr[i];
      var own: OverrideMap? := null;
      if e.overrides != null {
        own := new OverrideMap(e.overrides.m);
      }
      out := out + [SkillEntry(e.source, own)];
    }
    var a := new SkillEntry[s.len](i requires 0 <= i < |out| => out[i]);
    r := Slice(a, s.len);
    assert Elems(r) == out;
    SkillValuesStay(Elems(s));
    SkillValuesIs(Elems(r), SkillValues(Elems(s)));
  }

  method CloneOpenShell(o: OpenShell?) returns (r: OpenShell?)
    requires o != null ==> SliceOk(o.profiles)
    ensures (r == null) == (o == null)
    ensures r != null ==>
              fresh(r) && fresh(r.profiles.arr) && SliceOk(r.profiles) && Elems(r.profiles) == Elems(o.profiles)
  {
    r := null;
    if o != null {
      var profiles := Clone(o.profiles);
      r := new OpenShell(profiles);
    }
  }

  method CloneLoop(l: ValidationLoop?) returns (r: ValidationLoop?)
    ensures (r == null) == (l == null)
    ensures r != null ==> fresh(r) && r.v == l.v
  {
    r := null;
    if l != null {
      r := new ValidationLoop(l.v);
    }
  }

  method CloneNested(h: Harness) returns (openShell: OpenShell?, loop: ValidationLoop?)
    requires h.Valid()
    ensures (openShell == null) == (h.openShell == null) && (loop == null) == (h.validationLoop == null)
    ensures openShell != null ==> fresh(openShell) && fresh(openShell.profiles.arr) && SliceOk(openShell.profiles)
    ensures (if openShell == null then None else Some(Elems(openShell.profiles))) == old(h.Lists()).3
    ensures loop != null ==> fresh(loop) && loop.v == h.validationLoop.v
  {
    loop := CloneLoop(h.validationLoop);
    openShell := CloneOpenShell(h.openShell);
  }

  method CloneSlices(h: Harness)
    returns (skills: Slice<SkillEntry>, plugins: Slice<PluginSpec>, providers: Slice<string>)
    requires h.Valid()
    ensures SliceOk(skills) && SliceOk(plugins) && SliceOk(providers)
    ensures fresh(skills.arr) && fresh(plugins.arr) && fresh(providers.arr) && fresh(Maps(Elems(skills)))
    ensures SkillValues(Elems(skills)) == old(h.Lists()).0 && SeparateMaps(Elems(skills))
    ensures Elems(plugins) == old(h.Lists()).1 && Elems(providers) == old(h.Lists()).2
  {
    skills := CloneSkills(h.skills);
    label Cloned:
    ghost var es := Elems(skills);
    plugins := Clone(h.plugins);
    providers := Clone(h.providers);
    assert Elems(skills) == es;
    SkillValuesStay@Cloned(es);
  }

  method WithParts(h: Harness, skills: Slice<SkillEntry>, plugins: Slice<PluginSpec>, providers: Slice<string>,
                   openShell: OpenShell?, loop: ValidationLoop?) returns (c: Harness)
    requires SliceOk(skills) && SliceOk(plugins) && SliceOk(providers)
    requires openShell != null ==> SliceOk(openShell.profiles)
    ensures fresh(c) && c.skills == skills && c.plugins == plugins && c.providers == providers
    ensures c.openShell == openShell && c.validationLoop == loop && c.Valid()
    ensures c.Value() == HarnessValue(
              h.agent, h.policy, h.preScript, h.postScript, old(SkillValues(Elems(skills))),
              old(Elems(plugins)), old(Elems(providers)),
              if openShell == null then None else Some(old(Elems(openShell.profiles))),
              if loop == null then None else Some(old(loop.v)), h.rest)
  {
    c := new Harness(h.agent, h.policy, h.preScript, h.postScript, skills, plugins, providers, openShell, loop, h.rest);
    assert SkillValues(Elems(skills)) == old(SkillValues(Elems(skills)));
  }

  /** `lockReplayCopy`: a copy that shares nothing the replay writes. */
  method LockReplayCopy(h: Harness) returns (c: Harness)
    requires h.Valid()
    ensures c.Valid() && c.Apart() && c.Value() == old(h.Value())
    ensures fresh(c) && HoldsFresh(c)
  {
    var skills, plugins, providers := CloneSlices(h);
    label Cloned:
    ghost var es := Elems(skills);
    var openShell, loop := CloneNested(h);
    assert Elems(skills) == es;
    SkillValuesStay@Cloned(es);
    c := WithParts(h, skills, plugins, providers, openShell, loop);
  }

  // ----- Applying a dependency to the copy -----

  lemma {:induction false} SkillValuesUpdate(es: seq<SkillEntry>, i: nat, source: string)
    requires i < |es|
    ensures SkillValues(es[i := es[i].(source := source)])
            == SkillValues(es)[i := SkillValues(es)[i].(source := source)]
    ensures Maps(es[i := es[i].(source := source)]) == Maps(es)
    ensures SeparateMaps(es) ==> SeparateMaps(es[i := es[i].(source := source)])
  {
    var fs := es[i := es[i].(source := source)];
    forall m ensures m in Maps(fs) <==> m in Maps(es) {
      if m in Maps(fs) {
        var k :| 0 <= k < |fs| && fs[k].overrides == m;
        assert es[k] in es;
      }
      if m in Maps(es) {
        var k :| 0 <= k < |es| && es[k].overrides == m;
        assert fs[k] in fs;
      }
    }
  }

  lemma SkillValuesAppend(es: seq<SkillEntry>, source: string)
    ensures SkillValues(es + [SkillEntry(source, null)]) == SkillValues(es) + [SkillValue(source, map[])]
    ensures Maps(es + [SkillEntry(source, null)]) == Maps(es)
    ensures SeparateMaps(es) ==> SeparateMaps(es + [SkillEntry(source, null)])
  {
  }

  method SetSource(s: Slice<SkillEntry>, i: nat, source: string)
    requires SliceOk(s) && i < s.len
    modifies s.arr
    ensures SkillValues(Elems(s)) == old(SkillValues(Elems(s)))[i := old(SkillValues(Elems(s)))[i].(source := source)]
    ensures Maps(Elems(s)) == old(Maps(Elems(s)))
    ensures old(SeparateMaps(Elems(s))) ==> SeparateMaps(Elems(s))
  {
    ghost var es := Elems(s);
    SkillValuesUpdate(es, i, source);
    s.arr[i] := s.arr[i].(source := source);
    assert Elems(s) == es[i := es[i].(source := source)];
  }

  method AppendSource(s: Slice<SkillEntry>, source: string) returns (t: Slice<SkillEntry>)
    requires SliceOk(s)
    modifies s.arr
    ensures SliceOk(t) && (t.arr == s.arr || fresh(t.arr))
    ensures SkillValues(Elems(t)) == old(SkillValues(Elems(s))) + [SkillValue(source, map[])]
    ensures Maps(Elems(t)) == old(Maps(Elems(s)))
    ensures old(SeparateMaps(Elems(s))) ==> SeparateMaps(Elems(t))
  {
    ghost var es := Elems(s);
    SkillValuesAppend(es, source);
    t := Append(s, SkillEntry(source, null));
    assert Elems(t) == es + [SkillEntry(source, null)];
  }

  /** The skill cases of the switch. */
  method SetSkillSource(c: Harness, i: int, r: Resolved)
    requires c.Valid() && c.Apart()
    modifies c.skills.arr
    ensures c.Valid() && c.Apart() && StaysInside(c)
    ensures c.Value() ==
            if 0 <= i < |old(c.Value()).skills| && FieldHolds(old(c.Value()).skills[i].source, r.url) then
              old(c.Value()).(skills := old(c.Value()).skills[i := old(c.Value()).skills[i].(source := r.localPath)])
            else old(c.Value())
  {
    if 0 <= i < c.skills.len && FieldHolds(c.skills.arr[i].source, r.url) {
      SetSource(c.skills, i, r.localPath);
    }
  }

  method AppendSkill(c: Harness, r: Resolved)
    requires c.Valid() && c.Apart()
    modifies c, c.skills.arr
    ensures c.Valid() && c.Apart() && StaysInside(c)
    ensures c.Value() == old(c.Value()).(skills := old(c.Value()).skills + [SkillValue(r.localPath, map[])])
  {
    ghost var was := c.Value();
    var longer := AppendSource(c.skills, r.localPath);
    label Appended:
    c.skills := longer;
    SkillValuesStay@Appended(Elems(longer));
    assert c.Lists() == (was.skills + [SkillValue(r.localPath, map[])], was.plugins, was.providers, was.profiles);
  }

  method SetPluginPath(c: Harness, i: int, r: Resolved) returns (changed: bool)
    requires c.Valid() && c.Apart()
    modifies c.plugins.arr
    ensures c.Valid() && c.Apart()
    ensures StaysInside(c)
    ensures changed <==> 0 <= i < |old(c.Value()).plugins| && FieldHolds(old(c.Value()).plugins[i].path, r.url)
    ensures c.Value() ==
            if changed then
              old(c.Value()).(plugins := old(c.Value()).plugins[i := old(c.Value()).plugins[i].(path := r.localPath)])
            else old(c.Value())
  {
    changed := 0 <= i < c.plugins.len && FieldHolds(c.plugins.arr[i].path, r.url);
    if changed {
      ghost var ps := Elems(c.plugins);
      c.plugins.arr[i] := c.plugins.arr[i].(path := r.localPath);
      assert Elems(c.plugins) == ps[i := ps[i].(path := r.localPath)];
    }
  }

  /** The cases of the switch that write a name of the harness struct. */
  method SetName(c: Harness, env: Env, slot: Slot, r: Resolved, ghost urls: set<string>)
    requires c.Valid() && c.Apart()
    requires slot.Agent? || slot.Policy?
    modifies c`agent, c`policy
    ensures c.Valid() && c.Apart() && StaysInside(c)
    ensures ApplyTo(env, slot, Work(old(c.Value()), urls), r) == Ok(Work(c.Value(), urls))
  {
    if slot.Agent? {
      if FieldHolds(c.agent, r.url) { c.agent := r.localPath; }
    } else {
      if FieldHolds(c.policy, r.url) { c.policy := r.localPath; }
    }
    assert c.Lists() == old(c.Lists()) by {
      assert Elems(c.skills) == old(Elems(c.skills));
      SkillValuesStay(Elems(c.skills));
    }
  }

  /** The cases that write a script and make it executable. */
  method SetScript(c: Harness, env: Env, slot: Slot, r: Resolved, ghost urls: set<string>) returns (ok: bool)
    requires c.Valid() && c.Apart()
    requires slot.PreScript? || slot.PostScript?
    modifies c`preScript, c`postScript
    ensures c.Valid() && c.Apart() && StaysInside(c)
    ensures ApplyTo(env, slot, Work(old(c.Value()), urls), r) == if ok then Ok(Work(c.Value(), urls)) else Err
  {
    ok := true;
    if slot.PreScript? {
      if FieldHolds(c.preScript, r.url) {
        c.preScript := r.localPath;
        ok := !env.chmodFails(r.localPath);
      }
    } else {
      if FieldHolds(c.postScript, r.url) {
        c.postScript := r.localPath;
        ok := !env.chmodFails(r.localPath);
      }
    }
    assert c.Lists() == old(c.Lists()) by {
      assert Elems(c.skills) == old(Elems(c.skills));
      SkillValuesStay(Elems(c.skills));
    }
  }

  /** The cases that write the validation loop. */
  method SetLoopField(c: Harness, env: Env, slot: Slot, r: Resolved, ghost urls: set<string>) returns (ok: bool)
    requires c.Valid() && c.Apart()
    requires slot.LoopScript? || slot.LoopSchema?
    modifies c.validationLoop
    ensures c.Valid() && c.Apart() && StaysInside(c)
    ensures ApplyTo(env, slot, Work(old(c.Value()), urls), r) == if ok then Ok(Work(c.Value(), urls)) else Err
  {
    ok := true;
    match slot {
      case LoopScript =>
        if c.validationLoop != null && FieldHolds(c.validationLoop.v.script, r.url) {
          c.validationLoop.v := c.validationLoop.v.(script := r.localPath);
          ok := !env.chmodFails(r.localPath);
        }
      case LoopSchema =>
        if c.validationLoop != null && FieldHolds(c.validationLoop.v.schema, r.url) {
          c.validationLoop.v := c.validationLoop.v.(schema := r.localPath);
        }
    }
    assert c.Lists() == old(c.Lists()) by {
      assert Elems(c.skills) == old(Elems(c.skills));
      SkillValuesStay(Elems(c.skills));
    }
  }

  /** One turn of the apply loop. */
  method ApplyToCopy(c: Harness, env: Env, r: Resolved, urlPlugins: set<string>) returns (ok: bool, urls: set<string>)
    requires c.Valid() && c.Apart()
    modifies c, c.skills.arr, c.plugins.arr, c.validationLoop
    ensures c.Valid() && c.Apart() && StaysInside(c)
    ensures ApplyOne(env, Work(old(c.Value()), urlPlugins), r) == if ok then Ok(Work(c.Value(), urls)) else Err
  {
    ok, urls := true, urlPlugins;
    var slot := SlotIn(env, r.field);
    match slot
    case Plugin(i) =>
      var changed := SetPluginPath(c, i, r);
      if changed {
        urls := urls + {r.localPath};
      }
    case Skill(i) => SetSkillSource(c, i, r);
    case TransitiveSkill => AppendSkill(c, r);
    case NoSlot =>
    case LoopScript => ok := SetLoopField(c, env, slot, r, urls);
    case LoopSchema => ok := SetLoopField(c, env, slot, r, urls);
    case Agent => SetName(c, env, slot, r, urls);
    case Policy => SetName(c, env, slot, r, urls);
    case _ => ok := SetScript(c, env, slot, r, urls);
  }

  /** Sets the planned override values, through the copy's own maps. */
  method SetOverrides(c: Harness, env: Env, files: map<string, string>)
    requires c.Valid() && c.Apart() && AllOverridesCovered(env, files, c.Value().skills)
    modifies Maps(Elems(c.skills))
    ensures c.Valid() && c.Apart() && StaysInside(c)
    ensures c.Value() == old(c.Value()).(skills := OverrideSkills(env, files, old(c.Value()).skills))
  {
    OverrideMaps(Elems(c.skills), env, files);
  }

  method OverrideMaps(es: seq<SkillEntry>, env: Env, files: map<string, string>)
    requires SeparateMaps(es) && AllOverridesCovered(env, files, SkillValues(es))
    modifies Maps(es)
    ensures SkillValues(es) == OverrideSkills(env, files, old(SkillValues(es)))
  {
    ghost var was := SkillValues(es);
    for i := 0 to |es|
      invariant forall k :: 0 <= k < i ==> OverridesOf(es[k]) == OverrideSkill(env, files, was[k]).overrides
      invariant forall k :: i <= k < |es| ==> OverridesOf(es[k]) == was[k].overrides
    {
      var e := es[i];
      assert e in es && was[i] in was;
      if e.overrides != null {
        var plan := PlannedOverrides(env, files, e.overrides.m);
        OthersKeepMaps(es, i);
        e.overrides.m := Overridden(e.overrides.m, plan);
      }
    }
    SkillValuesIs(es, OverrideSkills(env, files, was));
  }

  lemma OthersKeepMaps(es: seq<SkillEntry>, i: nat)
    requires i < |es| && es[i].overrides != null && SeparateMaps(es)
    ensures forall k :: 0 <= k < |es| && k != i ==> es[k].overrides != es[i].overrides
  {
  }

  method FreshMaps(vs: seq<SkillValue>) returns (own: seq<OverrideMap>)
    ensures |own| == |vs|
    ensures forall k :: 0 <= k < |own| ==> fresh(own[k]) && own[k].m == vs[k].overrides
    ensures forall j, k :: 0 <= j < k < |own| ==> own[j] != own[k]
  {
    own := [];
    for i := 0 to |vs|
      invariant |own| == i
      invariant forall k :: 0 <= k < i ==> fresh(own[k]) && own[k].m == vs[k].overrides
      invariant forall j, k :: 0 <= j < k < i ==> own[j] != own[k]
    {
      var o := new OverrideMap(vs[i].overrides);
      own := own + [o];
    }
  }

  function WithMaps(es: seq<SkillEntry>, own: seq<OverrideMap>): (r: seq<SkillEntry>)
    requires |es| == |own|
  {
    seq(|es|, i requires 0 <= i < |es| => es[i].(overrides := own[i]))
  }

  /** Replaces each entry's map by the one the merge made for it. */
  method SetMerged(s: Slice<SkillEntry>, merged: seq<SkillValue>)
    requires SliceOk(s) && MovesOnly(SkillValues(Elems(s)), merged)
    modifies s.arr
    ensures SkillValues(Elems(s)) == merged && SeparateMaps(Elems(s)) && fresh(Maps(Elems(s)))
  {
    ghost var es := Elems(s);
    ghost var was := SkillValues(es);
    var own := FreshMaps(merged);
    for i := 0 to s.len
      invariant forall k :: 0 <= k < i ==> s.arr[k] == es[k].(overrides := own[k])
      invariant forall k :: i <= k < s.len ==> s.arr[k] == es[k]
      modifies s.arr
    {
      s.arr[i] := s.arr[i].(overrides := own[i]);
    }
    assert Elems(s) == WithMaps(es, own);
    assert forall k :: 0 <= k < |es| ==> was[k].source == es[k].source;
    SkillValuesIs(WithMaps(es, own), merged);
  }

  lemma {:induction false} FilterSkillValues(es: seq<SkillEntry>, isURL: string -> bool)
    ensures SkillValues(Filter(es, (e: SkillEntry) => !isURL(e.source)))
            == Filter(SkillValues(es), (s: SkillValue) => !isURL(s.source))
  {
    if es != [] {
      var n := |es| - 1;
      FilterSkillValues(es[..n], isURL);
      assert SkillValues(es)[..n] == SkillValues(es[..n]);
      SkillValuesSnoc(Filter(es[..n], (e: SkillEntry) => !isURL(e.source)), es[n]);
    }
  }

  lemma SkillValuesSnoc(es: seq<SkillEntry>, e: SkillEntry)
    ensures SkillValues(es + [e]) == SkillValues(es) + [SkillValue(e.source, OverridesOf(e))]
  {
  }

  lemma {:induction false} FilterKeepsSeparate(es: seq<SkillEntry>, isURL: string -> bool)
    requires SeparateMaps(es)
    ensures SeparateMaps(Filter(es, (e: SkillEntry) => !isURL(e.source)))
  {
    if es != [] {
      var n := |es| - 1;
      FilterKeepsSeparate(es[..n], isURL);
      FilterMembers(es[..n], (e: SkillEntry) => !isURL(e.source));
      assert forall e :: e in es[..n] && e.overrides != null ==> e.overrides != es[n].overrides;
    }
  }

  lemma FilterKeepsMaps(es: seq<SkillEntry>, keep: SkillEntry -> bool)
    ensures Maps(Filter(es, keep)) <= Maps(es)
  {
    FilterMembers(es, keep);
    forall m | m in Maps(Filter(es, keep)) ensures m in Maps(es) {
      var e :| e in Filter(es, keep) && e.overrides == m;
      assert e in es;
    }
  }

  // ----- After the mutations -----

  method DropURLSkills(s: Slice<SkillEntry>, isURL: string -> bool) returns (r: Slice<SkillEntry>)
    requires SliceOk(s) && SeparateMaps(Elems(s))
    modifies s.arr
    ensures r.arr == s.arr && SliceOk(r)
    ensures SkillValues(Elems(r)) == Filter(old(SkillValues(Elems(s))), (v: SkillValue) => !isURL(v.source))
    ensures SeparateMaps(Elems(r)) && Maps(Elems(r)) <= old(Maps(Elems(s)))
  {
    ghost var es := Elems(s);
    ghost var left := Filter(es, (e: SkillEntry) => !isURL(e.source));
    FilterSkillValues(es, isURL);
    FilterKeepsSeparate(es, isURL);
    FilterKeepsMaps(es, (e: SkillEntry) => !isURL(e.source));
    r := Compact(s, (e: SkillEntry) => !isURL(e.source));
    assert Elems(r) == left;
    SkillValuesStay(left);
  }

  /** Moves overrides of duplicate entries, then drops the entries that still hold a URL. */
  method FinishSkills(s: Slice<SkillEntry>, env: Env, urls: map<string, string>)
    returns (r: Slice<SkillEntry>, ok: bool)
    requires SliceOk(s) && MergeMovesOnly(env)
    modifies s.arr
    ensures r.arr == s.arr && SliceOk(r)
    ensures MergeSkills(env, urls, old(SkillValues(Elems(s)))) == if ok then Ok(SkillValues(Elems(r))) else Err
    ensures ok ==> SeparateMaps(Elems(r)) && fresh(Maps(Elems(r)))
    ensures !ok ==> r == s && Elems(s) == old(Elems(s))
  {
    r, ok := s, false;
    var skills := SkillValues(Elems(s));
    var m := env.merge(skills, DuplicatePaths(env, urls, skills));
    if m.Ok? {
      ok := true;
      SetMerged(s, m.value);
      r := DropURLSkills(s, env.isURL);
    }
  }

  /** The plugins that still hold a URL get the path of its dependency, in place. */
  method ResolveLate(s: Slice<PluginSpec>, env: Env, urls: map<string, string>) returns (late: set<string>)
    requires SliceOk(s)
    modifies s.arr
    ensures Elems(s) == ResolvePlugins(env, urls, old(Elems(s)))
    ensures late == LatePlugins(env, urls, old(Elems(s)))
  {
    ghost var was := Elems(s);
    late := {};
    for i := 0 to s.len
      invariant forall k :: 0 <= k < i ==> s.arr[k] == ResolvePlugin(env, urls, was[k])
      invariant forall k :: i <= k < s.len ==> s.arr[k] == was[k]
      invariant late == LatePlugins(env, urls, was[..i])
    {
      assert was[..i + 1] == was[..i] + [was[i]];
      var p := s.arr[i].path;
      if env.isURL(p) {
        s.arr[i] := s.arr[i].(path := Get(urls, env.clean(p)));
        late := late + {Get(urls, env.clean(p))};
      }
    }
    assert was[..s.len] == was;
  }

  method ChmodTrees(s: Slice<PluginSpec>, env: Env, urlPlugins: set<string>) returns (ok: bool)
    requires SliceOk(s)
    ensures ok <==> !TreesFail(env, Elems(s), urlPlugins)
  {
    for i := 0 to s.len
      invariant !TreesFail(env, s.arr[..i], urlPlugins)
    {
      var p := s.arr[i].path;
      if p in urlPlugins && env.chmodTreeFails(p) {
        assert s.arr[i] in Elems(s);
        return false;
      }
    }
    return true;
  }

  method FinishPluginSlice(s: Slice<PluginSpec>, env: Env, urls: map<string, string>, urlPlugins: set<string>)
    returns (r: Slice<PluginSpec>, ok: bool)
    requires SliceOk(s)
    modifies s.arr
    ensures r.arr == s.arr && SliceOk(r) && Elems(r) == FinishPlugins(env, urls, old(Elems(s)))
    ensures ok <==> !TreesFail(env, Elems(r), urlPlugins + LatePlugins(env, urls, old(Elems(s))))
  {
    var late := ResolveLate(s, env, urls);
    r := Compact(s, (p: PluginSpec) => !env.isURL(p.path));
    r := Dedup(r);
    ok := ChmodTrees(r, env, urlPlugins + late);
  }

  method StripProfiles(o: OpenShell?, env: Env)
    requires o != null ==> SliceOk(o.profiles)
    modifies o, if o == null then {} else {o.profiles.arr}
    ensures o != null ==> SliceOk(o.profiles) && o.profiles.arr == old(o.profiles.arr)
    ensures o != null ==> Elems(o.profiles) == DropURLs(env, old(Elems(o.profiles)))
  {
    if o != null {
      var left := Compact(o.profiles, p => !env.isURL(p));
      o.profiles := left;
    }
  }

  /** What becomes of the lists; `ok` says whether it all could be done. */
  ghost predicate Stripped(env: Env, urls: map<string, string>, urlPlugins: set<string>,
                           skills: seq<SkillValue>, plugins: seq<PluginSpec>, providers: seq<string>,
                           ok: bool, skills': seq<SkillValue>, plugins': seq<PluginSpec>, providers': seq<string>)
  {
    var merge, finished := MergeSkills(env, urls, skills), FinishPlugins(env, urls, plugins);
    && (ok <==> merge.Ok? && !TreesFail(env, finished, urlPlugins + LatePlugins(env, urls, plugins)))
    && (ok ==> merge == Ok(skills') && plugins' == finished && providers' == DropURLs(env, providers))
  }

  method StripLists(c: Harness, env: Env, urls: map<string, string>, urlPlugins: set<string>)
    returns (ok: bool, skills: Slice<SkillEntry>, plugins: Slice<PluginSpec>, providers: Slice<string>)
    requires c.Valid() && MergeMovesOnly(env)
    modifies c.skills.arr, c.plugins.arr, c.providers.arr
    ensures skills.arr == c.skills.arr && plugins.arr == c.plugins.arr && providers.arr == c.providers.arr
    ensures SliceOk(skills) && SliceOk(plugins) && SliceOk(providers)
    ensures ok ==> fresh(Maps(Elems(skills)))
    ensures Stripped(env, urls, urlPlugins, old(c.Lists().0), old(c.Lists().1), old(c.Lists().2),
                     ok, SkillValues(Elems(skills)), Elems(plugins), Elems(providers))
  {
    skills, plugins, providers := c.skills, c.plugins, c.providers;
    skills, ok := FinishSkills(c.skills, env, urls);
    if ok {
      label Merged:
      plugins, ok := FinishPluginSlice(c.plugins, env, urls, urlPlugins);
      if ok {
        providers := Compact(c.providers, p => !env.isURL(p));
      }
      assert Elems(skills) == old@Merged(Elems(skills));
      SkillValuesStay@Merged(Elems(skills));
    }
  }

  method StripStorage(c: Harness, env: Env, urls: map<string, string>, urlPlugins: set<string>)
    returns (ok: bool, skills: Slice<SkillEntry>, plugins: Slice<PluginSpec>, providers: Slice<string>)
    requires c.Valid() && c.Apart() && MergeMovesOnly(env)
    modifies c.skills.arr, c.plugins.arr, c.providers.arr
    modifies c.openShell, if c.openShell == null then {} else {c.openShell.profiles.arr}
    ensures skills.arr == c.skills.arr && plugins.arr == c.plugins.arr && providers.arr == c.providers.arr
    ensures SliceOk(skills) && SliceOk(plugins) && SliceOk(providers)
    ensures c.openShell != null ==>
              SliceOk(c.openShell.profiles) && c.openShell.profiles.arr == old(c.openShell.profiles.arr)
    ensures ok ==> fresh(Maps(Elems(skills)))
    ensures Stripped(env, urls, urlPlugins, old(c.Lists().0), old(c.Lists().1), old(c.Lists().2),
                     ok, SkillValues(Elems(skills)), Elems(plugins), Elems(providers))
    ensures ok && c.openShell != null ==> Elems(c.openShell.profiles) == DropURLs(env, old(Elems(c.openShell.profiles)))
  {
    var good, ss, ps, ns := StripLists(c, env, urls, urlPlugins);
    ok, skills, plugins, providers := good, ss, ps, ns;
    if ok {
      StripApart(c.openShell, env, skills, plugins, providers);
    }
  }

  /** Stripping the profiles leaves the other lists alone. */
  method StripApart(o: OpenShell?, env: Env, ghost skills: Slice<SkillEntry>, ghost plugins: Slice<PluginSpec>,
                    ghost providers: Slice<string>)
    requires SliceOk(skills) && SliceOk(plugins) && SliceOk(providers)
    requires o != null ==> SliceOk(o.profiles) && o.profiles.arr != providers.arr
    modifies o, if o == null then {} else {o.profiles.arr}
    ensures o != null ==> SliceOk(o.profiles) && o.profiles.arr == old(o.profiles.arr)
    ensures o != null ==> Elems(o.profiles) == DropURLs(env, old(Elems(o.profiles)))
    ensures Elems(skills) == old(Elems(skills)) && SkillValues(Elems(skills)) == old(SkillValues(Elems(skills)))
    ensures Elems(plugins) == old(Elems(plugins)) && Elems(providers) == old(Elems(providers))
  {
    StripProfiles(o, env);
    assert Elems(skills) == old(Elems(skills));
    SkillValuesStay(Elems(skills));
  }

  method SetLists(c: Harness, skills: Slice<SkillEntry>, plugins: Slice<PluginSpec>, providers: Slice<string>)
    requires c.Valid() && SliceOk(skills) && SliceOk(plugins) && SliceOk(providers)
    modifies c`skills, c`plugins, c`providers
    ensures c.Valid() && c.skills == skills && c.plugins == plugins && c.providers == providers
    ensures c.Value() == old(c.Value()).(
              skills := old(SkillValues(Elems(skills))), plugins := Elems(plugins), providers := Elems(providers))
  {
    c.skills, c.plugins, c.providers := skills, plugins, providers;
    SkillValuesStay(Elems(skills));
  }

  lemma StripIs(
      env: Env, urls: map<string, string>, was: HarnessValue, urlPlugins: set<string>, ok: bool, now: HarnessValue)
    requires Stripped(env, urls, urlPlugins, was.skills, was.plugins, was.providers,
                      ok, now.skills, now.plugins, now.providers)
    requires ok ==> now == was.(
               skills := now.skills, plugins := now.plugins, providers := now.providers,
               profiles := if was.profiles.None? then None else Some(DropURLs(env, was.profiles.value)))
    ensures LockReplaySpec.Strip(env, urls, was, urlPlugins) == if ok then Ok(now) else Err
  {
  }

  method Strip(c: Harness, env: Env, urls: map<string, string>, urlPlugins: set<string>) returns (ok: bool)
    requires c.Valid() && c.Apart() && MergeMovesOnly(env)
    modifies c, c.skills.arr, c.plugins.arr, c.providers.arr
    modifies c.openShell, if c.openShell == null then {} else {c.openShell.profiles.arr}
    ensures c.Valid() && (ok ==> StaysInside(c))
    ensures LockReplaySpec.Strip(env, urls, old(c.Value()), urlPlugins) == if ok then Ok(c.Value()) else Err
  {
    ghost var was := c.Value();
    var good, skills, plugins, providers := StripStorage(c, env, urls, urlPlugins);
    ok := good;
    SetLists(c, skills, plugins, providers);
    StripIs(env, urls, was, urlPlugins, ok, c.Value());
  }

  // ----- The loops and the replay -----

  lemma {:induction false} CollectStops(env: Env, plugins: nat, deps: seq<LockDep>, n: nat)
    requires n <= |deps| && CollectAll(env, plugins, deps[..n]).Err?
    ensures CollectAll(env, plugins, deps).Err?
    decreases |deps|
  {
    if n < |deps| {
      assert deps[..|deps| - 1][..n] == deps[..n];
      CollectStops(env, plugins, deps[..|deps| - 1], n);
    } else {
      assert deps[..n] == deps;
    }
  }

  /** The reply for the dependencies so far. */
  lemma ReplyNext(rs: seq<Resolved>, r: Resolved)
    ensures ReplyOf(rs + [r]) ==
            Reply(rs + [r],
                  ProfilesOf(rs) + (if r.role.Profile? then [ListedProfile(r.role.id, r.finalPath)] else []),
                  ProvidersOf(rs) + (if r.role.Provider? then [ListedProvider(r.role.def, r.finalPath)] else []))
  {
    assert (rs + [r])[..|rs|] == rs;
  }

  /** What a replay that got through returns. */
  function Replied(r: Result<seq<Resolved>>): Result<Reply> {
    match r
    case Err => Err
    case Ok(rs) => Ok(ReplyOf(rs))
  }

  /** A collected dependency joins the lists it belongs on. */
  method AddDep(reply: Reply, r: Resolved) returns (next: Reply)
    requires reply == ReplyOf(reply.deps)
    ensures next == ReplyOf(reply.deps + [r])
  {
    ReplyNext(reply.deps, r);
    var profiles, providers := reply.profiles, reply.providers;
    match r.role {
      case Profile(id) => profiles := profiles + [ListedProfile(id, r.finalPath)];
      case Provider(def) => providers := providers + [ListedProvider(def, r.finalPath)];
      case Plain =>
    }
    next := Reply(reply.deps + [r], profiles, providers);
  }

  lemma CollectNext(env: Env, plugins: nat, deps: seq<LockDep>, i: nat)
    requires i < |deps| && CollectAll(env, plugins, deps[..i]).Ok?
    ensures match Collect(env, plugins, deps[i])
            case Err => CollectAll(env, plugins, deps).Err?
            case Ok(r) => CollectAll(env, plugins, deps[..i + 1]) == Ok(CollectAll(env, plugins, deps[..i]).value + [r])
  {
    assert deps[..i + 1][..i] == deps[..i];
    if Collect(env, plugins, deps[i]).Err? {
      CollectStops(env, plugins, deps, i + 1);
    }
  }

  method CollectDeps(env: Env, plugins: nat, deps: seq<LockDep>) returns (r: Result<Reply>)
    ensures r == Replied(CollectAll(env, plugins, deps))
  {
    var reply := Reply([], [], []);
    for i := 0 to |deps|
      invariant CollectAll(env, plugins, deps[..i]) == Ok(reply.deps)
      invariant reply == ReplyOf(reply.deps)
    {
      CollectNext(env, plugins, deps, i);
      var one := Collect(env, plugins, deps[i]);
      if one.Err? {
        return Err;
      }
      reply := AddDep(reply, one.value);
    }
    assert deps[..|deps|] == deps;
    return Ok(reply);
  }

  lemma {:induction false} ApplyStops(env: Env, v: HarnessValue, rs: seq<Resolved>, n: nat)
    requires n <= |rs| && ApplyAll(env, v, rs[..n]).Err?
    ensures ApplyAll(env, v, rs).Err?
    decreases |rs|
  {
    if n < |rs| {
      assert rs[..|rs| - 1][..n] == rs[..n];
      ApplyStops(env, v, rs[..|rs| - 1], n);
    } else {
      assert rs[..n] == rs;
    }
  }

  /** The apply loop. */
  method ApplyMutations(c: Harness, env: Env, rs: seq<Resolved>) returns (ok: bool, urls: set<string>)
    requires c.Valid() && c.Apart()
    modifies c, c.skills.arr, c.plugins.arr, c.validationLoop
    ensures c.Valid() && c.Apart() && StaysInside(c)
    ensures ApplyAll(env, old(c.Value()), rs) == if ok then Ok(Work(c.Value(), urls)) else Err
  {
    ok, urls := true, {};
    for i := 0 to |rs|
      invariant c.Valid() && c.Apart() && StaysInside(c)
      invariant ApplyAll(env, old(c.Value()), rs[..i]) == Ok(Work(c.Value(), urls))
    {
      assert rs[..i + 1][..i] == rs[..i];
      ok, urls := ApplyToCopy(c, env, rs[i], urls);
      if !ok {
        ApplyStops(env, old(c.Value()), rs, i + 1);
        return;
      }
    }
    assert rs[..|rs|] == rs;
  }

  /** Everything after the checks, on the copy. */
  method Rewrite(c: Harness, env: Env, rs: seq<Resolved>) returns (ok: bool)
    requires c.Valid() && c.Apart() && MergeMovesOnly(env)
    requires AllOverridesCovered(env, FilesByURL(env, rs), c.Value().skills)
    modifies c, c.skills.arr, c.plugins.arr, c.providers.arr, c.validationLoop, Maps(Elems(c.skills))
    modifies c.openShell, if c.openShell == null then {} else {c.openShell.profiles.arr}
    ensures c.Valid() && (ok ==> StaysInside(c))
    ensures Rewritten(env, old(c.Value()), rs) == if ok then Ok(c.Value()) else Err
  {
    ghost var was := c.Value();
    var urlPlugins: set<string>;
    ok, urlPlugins := ApplyMutations(c, env, rs);
    if ok {
      ghost var w := Work(c.Value(), urlPlugins);
      var files := FilesByURL(env, rs);
      ApplyKeepsOverrides(env, was, rs, files);
      SetOverrides(c, env, files);
      ghost var overridden := w.v.(skills := OverrideSkills(env, files, w.v.skills));
      assert c.Value() == overridden;
      ok := Strip(c, env, ResolvedURLs(rs), urlPlugins);
    }
  }

  /** What is checked before the first write. */
  method Check(c: Harness, env: Env, deps: seq<LockDep>) returns (r: Result<Reply>)
    requires c.Valid()
    ensures r == Replied(Checked(env, c.Value(), deps))
  {
    r := CollectDeps(env, c.plugins.len, deps);
    if r.Ok? {
      var covered := PluginsCovered(env, ResolvedURLs(r.value.deps), Elems(c.plugins))
        && AllOverridesCovered(env, FilesByURL(env, r.value.deps), SkillValues(Elems(c.skills)));
      r := if covered then r else Err;
    }
  }

  lemma CheckedIs(env: Env, v: HarnessValue, deps: seq<LockDep>)
    requires Checked(env, v, deps).Ok?
    ensures var rs := Checked(env, v, deps).value;
            AllOverridesCovered(env, FilesByURL(env, rs), v.skills) && CollectAll(env, |v.plugins|, deps) == Ok(rs)
  {
  }

  /** The replay on a harness the caller hands over. */
  method ReplayOn(c: Harness, env: Env, deps: seq<LockDep>) returns (r: Result<Reply>)
    requires c.Valid() && c.Apart() && MergeMovesOnly(env)
    modifies c, c.skills.arr, c.plugins.arr, c.providers.arr, c.validationLoop, Maps(Elems(c.skills))
    modifies c.openShell, if c.openShell == null then {} else {c.openShell.profiles.arr}
    ensures c.Valid() && (r.Ok? ==> StaysInside(c))
    ensures Replay(env, old(c.Value()), deps) == if r.Ok? then Ok(c.Value()) else Err
    ensures r.Ok? ==> r == Replied(CollectAll(env, |old(c.Value()).plugins|, deps))
  {
    r := Check(c, env, deps);
    if r.Ok? {
      CheckedIs(env, c.Value(), deps);
      var ok := Rewrite(c, env, r.value.deps);
      r := if ok then r else Err;
    }
  }

  /** The replay on a copy of the caller's harness. */
  method ReplayOnCopy(target: Harness, env: Env, deps: seq<LockDep>) returns (r: Result<Reply>, c: Harness)
    requires target.Valid() && MergeMovesOnly(env)
    ensures fresh(c) && c.Valid() && (r.Ok? ==> HoldsFresh(c))
    ensures Replay(env, old(target.Value()), deps) == if r.Ok? then Ok(c.Value()) else Err
    ensures r.Ok? ==> r == Replied(CollectAll(env, |old(target.Value()).plugins|, deps))
  {
    c := LockReplayCopy(target);
    r := ReplayOn(c, env, deps);
  }

  /** `resolveFromLock`: all or nothing. The only storage of the caller's it writes is
      the harness struct itself, and only on success; what the struct then refers to was
      allocated here. */
  method ResolveFromLock(target: Harness, env: Env, deps: seq<LockDep>) returns (r: Result<Reply>)
    requires target.Valid() && MergeMovesOnly(env)
    modifies target
    ensures r.Err? ==> unchanged(target)
    ensures r.Ok? ==> target.Valid()
    ensures Replay(env, old(target.Value()), deps) == if r.Ok? then Ok(target.Value()) else Err
    ensures r.Ok? ==> r == Replied(CollectAll(env, |old(target.Value()).plugins|, deps))
    ensures r.Ok? ==> HoldsFresh(target)
  {
    var c;
    r, c := ReplayOnCopy(target, env, deps);
    if r.Ok? {
      Assign(target, c);
    }
  }

  /** `*target = *c`. */
  method Assign(target: Harness, c: Harness)
    requires c.Valid() && c != target
    modifies target
    ensures target.Valid() && target.Value() == c.Value() == old(c.Value())
    ensures target.skills == c.skills && target.plugins == c.plugins && target.providers == c.providers
    ensures target.openShell == c.openShell && target.validationLoop == c.validationLoop
  {
    target.agent, target.policy, target.preScript, target.postScript := c.agent, c.policy, c.preScript, c.postScript;
    target.skills, target.plugins, target.providers := c.skills, c.plugins, c.providers;
    target.openShell, target.validationLoop, target.rest := c.openShell, c.validationLoop, c.rest;
    assert Elems(c.skills) == old(Elems(c.skills));
    SkillValuesStay(Elems(c.skills));
  }
}
