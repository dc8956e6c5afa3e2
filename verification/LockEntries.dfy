/** What `lock --all` leaves in the lock for each agent, in terms of its harness files,
    its configuration and what its variants resolve to. */
module LockEntries {
  import opened LockAll
  import opened Wrappers

  // ----- Where dependencies come from -----

  /** A dependency of an agent: on its own source, or the `k`-th of the base or of the
      rest of variant `i`. */
  datatype Place = OfSource | OfBase(i: nat, k: nat) | OfRest(i: nat, k: nat)

  /** What is there; a source counts only when the harness is not a local file. */
  function DepAt(source: Option<Dep>, variants: seq<Variant>, p: Place): Option<Dep> {
    match p
    case OfSource => source
    case OfBase(i, k) =>
      if i < |variants| && variants[i].Resolves? && k < |variants[i].base| then Some(variants[i].base[k]) else None
    case OfRest(i, k) =>
      if i < |variants| && variants[i].Resolves? && k < |variants[i].own| then Some(variants[i].own[k]) else None
  }

  function SourceOf(env: Env, n: string): Option<Dep> {
    if env.local(n).Absent? then env.source(n) else None
  }

  /** The source first, then variant by variant, its base before the rest. */
  predicate Before(p: Place, q: Place) {
    match p
    case OfSource => !q.OfSource?
    case OfBase(i, k) => !q.OfSource? && (i < q.i || (i == q.i && (q.OfRest? || k < q.k)))
    case OfRest(i, k) => !q.OfSource? && (i < q.i || (i == q.i && q.OfRest? && k < q.k))
  }

  /** The places that are listed, in order. */
  ghost predicate Ordered(ps: seq<Place>) {
    forall k, l :: 0 <= k < l < |ps| ==> Before(ps[k], ps[l])
  }

  /** `deps` hold, in order, the first dependency on every URL there is. */
  ghost predicate FirstOfEach(source: Option<Dep>, variants: seq<Variant>, deps: seq<Dep>, ps: seq<Place>) {
    && |ps| == |deps| && Ordered(ps)
    && (forall k :: 0 <= k < |ps| ==> DepAt(source, variants, ps[k]) == Some(deps[k]))
    && (forall p :: p in ps <==> FirstPlace(source, variants, p))
  }

  ghost predicate FirstPlace(source: Option<Dep>, variants: seq<Variant>, p: Place) {
    && DepAt(source, variants, p).Some?
    && forall q :: Before(q, p) && DepAt(source, variants, q).Some? ==>
         DepAt(source, variants, q).value.url != DepAt(source, variants, p).value.url
  }

  // ----- The flat list and its places -----

  function Bases(i: nat, n: nat): seq<Place> {
    seq(n, k requires 0 <= k < n => OfBase(i, k))
  }

  function Rests(i: nat, n: nat): seq<Place> {
    seq(n, k requires 0 <= k < n => OfRest(i, k))
  }

  function Places(source: Option<Dep>, variants: seq<Variant>): seq<Place>
    requires AllResolve(variants)
  {
    if variants == [] then (if source.Some? then [OfSource] else [])
    else
      var n := |variants| - 1;
      Grown(Places(source, variants[..n]), n, variants[n])
  }

  function Listed(source: Option<Dep>): seq<Dep> {
    if source.Some? then [source.value] else []
  }

  /** The places are all there are, in order, and hold the flat list. */
  ghost predicate PlacesOk(source: Option<Dep>, variants: seq<Variant>, ps: seq<Place>, flat: seq<Dep>) {
    && |ps| == |flat| && Ordered(ps)
    && (forall k :: 0 <= k < |ps| ==> DepAt(source, variants, ps[k]) == Some(flat[k]))
    && (forall p :: DepAt(source, variants, p).Some? <==> p in ps)
    && (forall p :: p in ps && !p.OfSource? ==> p.i < |variants|)
  }

  lemma {:induction false} PlacesAreAll(source: Option<Dep>, variants: seq<Variant>)
    requires AllResolve(variants)
    ensures PlacesOk(source, variants, Places(source, variants), Flat(Listed(source), variants))
  {
    if variants != [] {
      var n := |variants| - 1;
      assert AllResolve(variants[..n]);
      PlacesAreAll(source, variants[..n]);
      PlacesGrow(source, variants, Places(source, variants[..n]), Flat(Listed(source), variants[..n]));
    }
  }

  /** The places of one more variant. */
  function Grown(ps: seq<Place>, n: nat, v: Variant): seq<Place>
    requires v.Resolves?
  {
    ps + Bases(n, |v.base|) + Rests(n, |v.own|)
  }

  lemma PlacesGrow(source: Option<Dep>, variants: seq<Variant>, ps: seq<Place>, flat: seq<Dep>)
    requires variants != [] && AllResolve(variants) && PlacesOk(source, variants[..|variants| - 1], ps, flat)
    ensures var n := |variants| - 1;
            var v := variants[n];
            PlacesOk(source, variants, Grown(ps, n, v), flat + v.base + v.own)
  {
    var n := |variants| - 1;
    var v := variants[n];
    var qs, all := Grown(ps, n, v), flat + v.base + v.own;
    forall k | 0 <= k < |qs| ensures DepAt(source, variants, qs[k]) == Some(all[k]) {
      if k < |ps| {
        assert qs[k] == ps[k] && ps[k] in ps && all[k] == flat[k];
      }
    }
    forall p ensures DepAt(source, variants, p).Some? <==> p in qs {
      GrownHas(ps, n, v, p);
      assert (!p.OfSource? && p.i == n) || DepAt(source, variants, p) == DepAt(source, variants[..n], p);
    }
    GrownIsOrdered(ps, n, v);
  }

  lemma GrownHas(ps: seq<Place>, n: nat, v: Variant, p: Place)
    requires v.Resolves?
    ensures p in Grown(ps, n, v) <==>
              p in ps || (p.OfBase? && p.i == n && p.k < |v.base|) || (p.OfRest? && p.i == n && p.k < |v.own|)
  {
    if p.OfBase? && p.i == n && p.k < |v.base| {
      assert Bases(n, |v.base|)[p.k] == p;
    }
    if p.OfRest? && p.i == n && p.k < |v.own| {
      assert Rests(n, |v.own|)[p.k] == p;
    }
  }

  lemma GrownIsOrdered(ps: seq<Place>, n: nat, v: Variant)
    requires v.Resolves? && Ordered(ps) && forall p :: p in ps && !p.OfSource? ==> p.i < n
    ensures Ordered(Grown(ps, n, v))
  {
    var qs := Grown(ps, n, v);
    forall k, l | 0 <= k < l < |qs| ensures Before(qs[k], qs[l]) {
      if k < |ps| {
        assert qs[k] == ps[k] && ps[k] in ps;
      }
    }
  }

  // ----- The union -----

  ghost predicate FirstURL(deps: seq<Dep>, i: nat) {
    i < |deps| && forall j :: 0 <= j < i ==> deps[j].url != deps[i].url
  }

  lemma {:induction false} UnionPicks(deps: seq<Dep>) returns (f: seq<nat>)
    ensures Picks(Union(deps), deps, f)
    ensures forall i: nat :: i in f <==> FirstURL(deps, i)
  {
    f := [];
    if deps != [] {
      var n := |deps| - 1;
      var g := UnionPicks(deps[..n]);
      PicksOneMore(Union(deps[..n]), deps, g);
      UnionIsExact(deps[..n]);
      LastIsFirst(deps);
      f := if deps[n].url in URLs(Union(deps[..n])) then g else g + [n];
      FirstsGrow(deps);
    }
  }

  lemma FirstsGrow(deps: seq<Dep>)
    requires deps != []
    ensures forall i: nat :: i < |deps| - 1 ==> (FirstURL(deps, i) <==> FirstURL(deps[..|deps| - 1], i))
  {
    assert forall i :: 0 <= i < |deps| - 1 ==> deps[..|deps| - 1][i] == deps[i];
  }

  lemma LastIsFirst(deps: seq<Dep>)
    requires deps != []
    ensures var n := |deps| - 1; FirstURL(deps, n) <==> deps[n].url !in URLs(deps[..n])
  {
    var n := |deps| - 1;
    if deps[n].url in URLs(deps[..n]) {
      var d :| d in deps[..n] && d.url == deps[n].url;
      var j :| 0 <= j < n && deps[..n][j] == d;
      assert deps[j].url == deps[n].url;
    }
    if j :| 0 <= j < n && deps[j].url == deps[n].url {
      assert deps[..n][j] in deps[..n];
    }
  }

  /** The union of all lists holds the first dependency on every URL, in order. */
  lemma UnionIsFirstOfEach(source: Option<Dep>, variants: seq<Variant>) returns (ps: seq<Place>)
    requires AllResolve(variants)
    ensures FirstOfEach(source, variants, Union(Flat(Listed(source), variants)), ps)
  {
    var all, flat := Places(source, variants), Flat(Listed(source), variants);
    PlacesAreAll(source, variants);
    var f := UnionPicks(flat);
    ps := PickPlaces(source, variants, all, flat, f, Union(flat));
  }

  lemma PickPlaces(
      source: Option<Dep>, variants: seq<Variant>, all: seq<Place>, flat: seq<Dep>, f: seq<nat>, deps: seq<Dep>)
    returns (ps: seq<Place>)
    requires PlacesOk(source, variants, all, flat) && Picks(deps, flat, f)
    requires forall i: nat :: i in f <==> FirstURL(flat, i)
    ensures FirstOfEach(source, variants, deps, ps)
  {
    ps := seq(|f|, k requires 0 <= k < |f| => all[f[k]]);
    forall p ensures p in ps <==> FirstPlace(source, variants, p) {
      if p in ps {
        var k :| 0 <= k < |ps| && ps[k] == p;
        assert f[k] in f;
        PlaceIsFirst(source, variants, all, flat, f[k]);
      }
      if FirstPlace(source, variants, p) {
        var i :| 0 <= i < |all| && all[i] == p;
        PlaceIsFirst(source, variants, all, flat, i);
        assert i in f;
        var k :| 0 <= k < |f| && f[k] == i;
        assert ps[k] == p;
      }
    }
  }

  lemma PlaceIsFirst(source: Option<Dep>, variants: seq<Variant>, all: seq<Place>, flat: seq<Dep>, i: nat)
    requires PlacesOk(source, variants, all, flat) && i < |all|
    ensures FirstPlace(source, variants, all[i]) <==> FirstURL(flat, i)
  {
    if FirstURL(flat, i) {
      forall q | Before(q, all[i]) && DepAt(source, variants, q).Some?
        ensures DepAt(source, variants, q).value.url != flat[i].url
      {
        var j :| 0 <= j < |all| && all[j] == q;
      }
    }
    if FirstPlace(source, variants, all[i]) {
      forall j | 0 <= j < i ensures flat[j].url != flat[i].url {
        assert Before(all[j], all[i]);
      }
    }
  }

  // ----- What a run leaves -----

  /** The hash of an agent's harness: of its local file, or else of the configured one; a
      local file that cannot be read stands in the way of both. */
  function HashOf(env: Env, n: string): Option<string> {
    if env.local(n).Found? then Some(env.local(n).hash) else if env.local(n).Absent? then env.config(n) else None
  }

  ghost predicate NothingToLock(env: Env, n: string) {
    forall p :: DepAt(SourceOf(env, n), env.variants(n), p).None?
  }

  /** The entry locks the harness as it is: the first dependency on every URL, in order. */
  ghost predicate LocksHarness(env: Env, n: string, e: Entry) {
    HashOf(env, n) == Some(e.sha) && exists ps :: FirstOfEach(SourceOf(env, n), env.variants(n), e.deps, ps)
  }

  predicate Unchanged(env: Env, update: bool, lf: Locks, n: string) {
    !update && n in lf && HashOf(env, n) == Some(lf[n].sha)
  }

  lemma UnionIsEmpty(env: Env, n: string)
    requires AllResolve(env.variants(n))
    ensures Union(Flat(Listed(SourceOf(env, n)), env.variants(n))) == [] <==> NothingToLock(env, n)
  {
    var source, variants := SourceOf(env, n), env.variants(n);
    var flat, all := Flat(Listed(source), variants), Places(source, variants);
    PlacesAreAll(source, variants);
    UnionIsExact(flat);
    if flat != [] {
      assert DepAt(source, variants, all[0]) == Some(flat[0]);
      assert flat[0] in flat && flat[0].url in URLs(Union(flat));
    } else {
      assert all == [];
    }
  }

  /** One agent: an unchanged hash skips; a harness that cannot be found, or a variant that
      fails, stops the run; nothing to lock gives no entry; else the entry locks it. */
  lemma LockOneExactly(env: Env, update: bool, lf: Locks, n: string)
    ensures var r := LockOne(env, update, lf, n);
            var failing := exists i :: 0 <= i < |env.variants(n)| && env.variants(n)[i].Fails?;
            && (r.Err? <==> HashOf(env, n).None? || (!Unchanged(env, update, lf, n) && failing))
            && (r.Ok? ==> (r.value.None? <==> Unchanged(env, update, lf, n) || NothingToLock(env, n)))
            && (r.Ok? && r.value.Some? ==> LocksHarness(env, n, r.value.value))
  {
    assert SourceDeps(env, n) == Listed(SourceOf(env, n));
    if AllResolve(env.variants(n)) {
      UnionIsEmpty(env, n);
      var ps := UnionIsFirstOfEach(SourceOf(env, n), env.variants(n));
    }
  }

  /** What a run that got past an agent leaves for it, given the lock it started with. */
  ghost predicate LeftFor(env: Env, update: bool, was: Locks, lf: Locks, n: string) {
    && HashOf(env, n).Some?
    && if Unchanged(env, update, was, n) then SameAt(lf, was, n)
       else if NothingToLock(env, n) then
         if n in was && (env.local(n).Found? ==> env.local(n).hash == was[n].sha) then SameAt(lf, was, n) else n !in lf
       else n in lf && LocksHarness(env, n, lf[n])
  }

  lemma VisitLeaves(env: Env, update: bool, was: Locks, p: Pass, n: string)
    requires SameAt(p.lf, was, n) || LeftFor(env, update, was, p.lf, n)
    requires !Visit(env, update, p, n).failed
    ensures LeftFor(env, update, was, Visit(env, update, p, n).lf, n)
  {
    LockOneExactly(env, update, p.lf, n);
  }

  ghost predicate LeavesFor(env: Env, update: bool, was: Locks, lf: Locks, done: seq<string>) {
    forall n :: n in done ==> LeftFor(env, update, was, lf, n)
  }

  lemma {:induction false} PassLeaves(env: Env, update: bool, was: Locks, names: seq<string>)
    ensures var p := VisitAll(env, update, was, names);
            p.done <= |names| && LeavesFor(env, update, was, p.lf, names[..p.done])
  {
    if names != [] {
      var before, name := names[..|names| - 1], names[|names| - 1];
      PassLeaves(env, update, was, before);
      PassIsOk(env, update, was, before);
      assert names == before + [name];
      OneMoreLeaves(env, update, was, VisitAll(env, update, was, before), before, name);
    }
  }

  lemma OneMoreLeaves(env: Env, update: bool, was: Locks, p: Pass, before: seq<string>, name: string)
    requires p.done <= |before| && LeavesFor(env, update, was, p.lf, before[..p.done])
    requires !p.failed ==> p.done == |before| && KeepsUnvisited(was, p, before)
    ensures var q := if p.failed then p else Visit(env, update, p, name);
            q.done <= |before| + 1 && LeavesFor(env, update, was, q.lf, (before + [name])[..q.done])
  {
    if p.failed || Visit(env, update, p, name).failed {
      SamePrefix(before, name, p.done);
    } else {
      WholePrefix(before, name, p.done);
      StepLeaves(env, update, was, p, before, name);
    }
  }

  lemma SamePrefix(before: seq<string>, name: string, done: nat)
    requires done <= |before|
    ensures (before + [name])[..done] == before[..done]
  {
  }

  lemma WholePrefix(before: seq<string>, name: string, done: nat)
    requires done == |before|
    ensures before[..done] == before && (before + [name])[..done + 1] == before + [name]
  {
  }

  lemma StepLeaves(env: Env, update: bool, was: Locks, p: Pass, before: seq<string>, name: string)
    requires LeavesFor(env, update, was, p.lf, before) && KeepsUnvisited(was, p, before)
    requires !Visit(env, update, p, name).failed
    ensures LeavesFor(env, update, was, Visit(env, update, p, name).lf, before + [name])
  {
    VisitSettles(env, update, p, name);
    var q := Visit(env, update, p, name);
    VisitLeaves(env, update, was, p, name);
    forall n | n in before && n != name ensures LeftFor(env, update, was, q.lf, n) {
      assert SameAt(q.lf, p.lf, n) && LeftFor(env, update, was, p.lf, n);
    }
  }

  /** A successful run over at least one agent leaves exactly this: for every known agent
      what its harness, its source and its variants call for, and nothing else. */
  lemma FinalLock(env: Env, update: bool, disk: Option<Locks>, names: seq<string>, saves: bool)
    requires names != [] && RunAll(env, update, disk, names, saves).ok
    ensures var left := Loaded(RunAll(env, update, disk, names, saves).disk);
            && (forall n :: n in names ==> LeftFor(env, update, Loaded(disk), left, n))
            && (forall n :: n !in names ==> n !in left)
  {
    var was, p := Loaded(disk), VisitAll(env, update, Loaded(disk), names);
    PassLeaves(env, update, was, names);
    PassIsOk(env, update, was, names);
    IdlePassKeepsAll(env, update, was, names);
    assert names[..|names|] == names;
    var left := Loaded(RunAll(env, update, disk, names, saves).disk);
    forall n | n in names ensures LeftFor(env, update, was, left, n) {
      assert SameAt(left, p.lf, n) && LeftFor(env, update, was, p.lf, n);
    }
  }

  /** So does one that failed on the way and saved what it had, for the agents it got past. */
  lemma PartialLock(env: Env, update: bool, disk: Option<Locks>, names: seq<string>, saves: bool)
    requires !RunAll(env, update, disk, names, saves).ok
    ensures var d, p := RunAll(env, update, disk, names, saves), VisitAll(env, update, Loaded(disk), names);
            && p.done <= |names|
            && (d.wrote ==> forall n :: n in names[..p.done] ==> LeftFor(env, update, Loaded(disk), Loaded(d.disk), n))
            && (d.wrote ==> forall n :: n !in names[..p.done] ==> SameAt(Loaded(d.disk), Loaded(disk), n))
            && (!d.wrote ==> d.disk == disk)
  {
    PassLeaves(env, update, Loaded(disk), names);
    FailureKeepsUnvisited(env, update, disk, names, saves);
  }

  lemma OnlySource(d: Dep)
    ensures Resolve([d], [Resolves([], [])]) == Ok([d])
  {
    var variants := [Resolves([], [])];
    assert variants[..0] == [] && Flat([d], variants) == [d];
    assert [d][..0] == [] && Union([d]) == [d];
  }

  /** The run: an agent that only the configuration defines, with a source that is a URL
      and nothing else to lock, gets that dependency locked. */
  lemma SourceIsLocked(env: Env, d: Dep, h: string)
    requires env.local("a").Absent? && env.config("a") == Some(h) && env.source("a") == Some(d)
    requires env.variants("a") == [Resolves([], [])]
    ensures RunAll(env, false, None, ["a"], true) == Done(Some(map["a" := Entry(h, [d])]), true, true)
  {
    OnlySource(d);
    assert LockOne(env, false, map[], "a") == Ok(Some(Entry(h, [d])));
    var lf: Locks := map["a" := Entry(h, [d])];
    assert ["a"][..0] == [];
    assert VisitAll(env, false, map[], ["a"]) == Pass(lf, ["a"], [], 1, false);
    assert OnlyKnown(lf, ["a"], ["a"]) == lf;
  }
}
