/** Selecting the latest patch of each minor among the documentation tags. */
module PatchSelect {
  /** A release: what cleaning a tag leaves when it is no prerelease. */
  datatype Version = Version(major: nat, minor: nat, patch: nat)

  /** A tag: not a version at all, a prerelease, or a release. */
  datatype Tag = NoVersion | Prerelease | Release(version: Version)

  /** The range the input had, or the selected versions, joined with "||"; or the
      complaint about the cap. */
  datatype Selection = InputRange | Exactly(versions: seq<Version>) | RangeError

  datatype Cap = NoCap | NotAnInteger | Cap(n: int)

  datatype Minor = Minor(major: nat, minor: nat)

  function MinorOf(v: Version): Minor {
    Minor(v.major, v.minor)
  }

  /** Precedence of releases (section 11 of Semantic Versioning 2.0.0). */
  predicate Precedes(a: Version, b: Version) {
    || a.major < b.major
    || (a.major == b.major && a.minor < b.minor)
    || (a.major == b.major && a.minor == b.minor && a.patch < b.patch)
  }

  predicate Older(a: Minor, b: Minor) {
    a.major < b.major || (a.major == b.major && a.minor < b.minor)
  }

  /** The releases among the tags that satisfy the range, in tag order. */
  function Qualifying(tags: seq<Tag>, satisfies: Version -> bool): seq<Version> {
    if tags == [] then []
    else
      (if tags[0].Release? && satisfies(tags[0].version) then [tags[0].version] else [])
          + Qualifying(tags[1..], satisfies)
  }

  /** `semver.sort`, as insertion. */
  function Insert(v: Version, sorted: seq<Version>): seq<Version> {
    if sorted == [] || !Precedes(sorted[0], v) then [v] + sorted else [sorted[0]] + Insert(v, sorted[1..])
  }

  function Sort(vs: seq<Version>): seq<Version> {
    if vs == [] then [] else Insert(vs[0], Sort(vs[1..]))
  }

  /** The distinct minors, in the order of first occurrence. */
  function Minors(vs: seq<Version>): seq<Minor> {
    if vs == [] then []
    else
      var n := |vs| - 1;
      var before := Minors(vs[..n]);
      if MinorOf(vs[n]) in before then before else before + [MinorOf(vs[n])]
  }

  /** `semver.maxSatisfying` on the range "~major.minor": the version of the minor with
      the highest patch; the first of equals. */
  function MaxOfMinor(vs: seq<Version>, m: Minor): (r: seq<Version>)
    ensures |r| <= 1
  {
    if vs == [] then []
    else
      var n := |vs| - 1;
      var best := MaxOfMinor(vs[..n], m);
      if MinorOf(vs[n]) == m && (best == [] || Precedes(best[0], vs[n])) then [vs[n]] else best
  }

  function Latest(vs: seq<Version>, minors: seq<Minor>): seq<Version> {
    if minors == [] then [] else MaxOfMinor(vs, minors[0]) + Latest(vs, minors[1..])
  }

  /** `latest.slice(Math.max(latest.length - maxMinors, 0))`. */
  function Newest(vs: seq<Version>, n: nat): seq<Version> {
    if |vs| <= n then vs else vs[|vs| - n..]
  }

  /** `getLatestPatchMatching`. `semver.sort` sorts the versions in place, so the
      later lookups see them sorted. */
  function GetLatestPatchMatching(tags: seq<Tag>, satisfies: Version -> bool, cap: Cap): Selection {
    if cap.NotAnInteger? || (cap.Cap? && cap.n < 1) then RangeError
    else
      var versions := Sort(Qualifying(tags, satisfies));
      var latest := Latest(versions, Minors(versions));
      var capped := if cap.Cap? then Newest(latest, cap.n) else latest;
      if capped == [] then InputRange else Exactly(capped)
  }

  // ----- What is selected -----

  /** `v` is a release among the tags that satisfies the range. */
  predicate Qualifies(tags: seq<Tag>, satisfies: Version -> bool, v: Version) {
    Release(v) in tags && satisfies(v)
  }

  /** No qualifying release of its minor has a higher patch. */
  ghost predicate HighestPatch(tags: seq<Tag>, satisfies: Version -> bool, v: Version) {
    Qualifies(tags, satisfies, v)
    && forall w :: Qualifies(tags, satisfies, w) && MinorOf(w) == MinorOf(v) ==> w.patch <= v.patch
  }

  predicate Ascending(vs: seq<Version>) {
    forall i, j :: 0 <= i < j < |vs| ==> Older(MinorOf(vs[i]), MinorOf(vs[j]))
  }

  predicate SortedVersions(vs: seq<Version>) {
    forall i, j :: 0 <= i < j < |vs| ==> !Precedes(vs[j], vs[i])
  }

  predicate AscendingMinors(ms: seq<Minor>) {
    forall i, j :: 0 <= i < j < |ms| ==> Older(ms[i], ms[j])
  }

  lemma {:induction false} QualifyingMembers(tags: seq<Tag>, satisfies: Version -> bool, v: Version)
    ensures v in Qualifying(tags, satisfies) <==> Qualifies(tags, satisfies, v)
  {
    if tags != [] {
      QualifyingMembers(tags[1..], satisfies, v);
      assert Release(v) in tags <==> tags[0] == Release(v) || Release(v) in tags[1..];
    }
  }

  lemma {:induction false} InsertSorts(v: Version, sorted: seq<Version>)
    requires SortedVersions(sorted)
    ensures SortedVersions(Insert(v, sorted))
    ensures forall w :: w in Insert(v, sorted) <==> w == v || w in sorted
  {
    if sorted != [] && Precedes(sorted[0], v) {
      InsertSorts(v, sorted[1..]);
      forall w | w in Insert(v, sorted[1..]) ensures !Precedes(w, sorted[0]) {
        assert w == v || w in sorted[1..];
      }
    }
  }

  lemma {:induction false} SortSorts(vs: seq<Version>)
    ensures SortedVersions(Sort(vs))
    ensures forall w :: w in Sort(vs) <==> w in vs
  {
    if vs != [] {
      SortSorts(vs[1..]);
      InsertSorts(vs[0], Sort(vs[1..]));
    }
  }

  lemma {:induction false} MinorsAscend(vs: seq<Version>)
    requires SortedVersions(vs)
    ensures AscendingMinors(Minors(vs))
    ensures forall m :: m in Minors(vs) <==> exists v :: v in vs && MinorOf(v) == m
  {
    if vs != [] {
      var n := |vs| - 1;
      MinorsAscend(vs[..n]);
      forall m ensures m in Minors(vs) <==> exists v :: v in vs && MinorOf(v) == m {
        if v :| v in vs && MinorOf(v) == m {
          assert v == vs[n] || v in vs[..n];
        }
        if m == MinorOf(vs[n]) { assert vs[n] in vs; }
      }
      if MinorOf(vs[n]) !in Minors(vs[..n]) {
        forall m | m in Minors(vs[..n]) ensures Older(m, MinorOf(vs[n])) {
          var v :| v in vs[..n] && MinorOf(v) == m;
        }
      }
    }
  }

  lemma {:induction false} MaxIsHighest(vs: seq<Version>, m: Minor)
    ensures forall v :: v in MaxOfMinor(vs, m) <==>
              (v in vs && MinorOf(v) == m && forall w :: w in vs && MinorOf(w) == m ==> w.patch <= v.patch)
    ensures (exists v :: v in vs && MinorOf(v) == m) ==> MaxOfMinor(vs, m) != []
  {
    if vs != [] {
      var n := |vs| - 1;
      MaxIsHighest(vs[..n], m);
      assert forall w :: w in vs <==> w in vs[..n] || w == vs[n];
    }
  }

  lemma {:induction false} LatestPerMinor(vs: seq<Version>, minors: seq<Minor>)
    requires forall m :: m in minors ==> exists v :: v in vs && MinorOf(v) == m
    ensures |Latest(vs, minors)| == |minors|
    ensures forall i :: 0 <= i < |minors| ==>
              MaxOfMinor(vs, minors[i]) == [Latest(vs, minors)[i]] && MinorOf(Latest(vs, minors)[i]) == minors[i]
  {
    if minors != [] {
      MaxIsHighest(vs, minors[0]);
      assert forall m :: m in minors[1..] ==> m in minors;
      LatestPerMinor(vs, minors[1..]);
      var r := MaxOfMinor(vs, minors[0]);
      assert minors[0] in minors;
      assert r != [];
      assert r[0] in r;
    }
  }

  /** Without a cap: the highest patch of every minor, in ascending precedence. */
  lemma LatestIsExact(tags: seq<Tag>, satisfies: Version -> bool)
    ensures var versions := Sort(Qualifying(tags, satisfies));
            var latest := Latest(versions, Minors(versions));
            && Ascending(latest)
            && forall v :: v in latest <==> HighestPatch(tags, satisfies, v)
  {
    var versions := Sort(Qualifying(tags, satisfies));
    var minors := Minors(versions);
    var latest := Latest(versions, minors);
    SortSorts(Qualifying(tags, satisfies));
    MinorsAscend(versions);
    LatestPerMinor(versions, minors);
    forall w ensures w in versions <==> Qualifies(tags, satisfies, w) {
      QualifyingMembers(tags, satisfies, w);
    }
    forall v ensures v in latest <==> HighestPatch(tags, satisfies, v) {
      MaxIsHighest(versions, MinorOf(v));
      if v in latest {
        var i :| 0 <= i < |latest| && latest[i] == v;
        assert v in MaxOfMinor(versions, minors[i]);
      }
      if HighestPatch(tags, satisfies, v) {
        assert MinorOf(v) in minors;
        var i :| 0 <= i < |minors| && minors[i] == MinorOf(v);
        assert v in MaxOfMinor(versions, minors[i]);
      }
    }
  }

  /** The minors of qualifying releases that are newer than that of `v`. */
  function NewerMinors(tags: seq<Tag>, satisfies: Version -> bool, v: Version): set<Minor> {
    set t | t in tags && t.Release? && satisfies(t.version)
            && Older(MinorOf(v), MinorOf(t.version)) :: MinorOf(t.version)
  }

  function MinorSet(vs: seq<Version>): set<Minor> {
    set v | v in vs :: MinorOf(v)
  }

  lemma {:induction false} AscendingAreDistinct(vs: seq<Version>)
    requires Ascending(vs)
    ensures |MinorSet(vs)| == |vs|
  {
    if vs != [] {
      AscendingAreDistinct(vs[1..]);
      assert MinorSet(vs) == {MinorOf(vs[0])} + MinorSet(vs[1..]);
      assert MinorOf(vs[0]) !in MinorSet(vs[1..]);
    }
  }

  /** In the ascending list, the minors newer than an entry's are those behind it. */
  lemma NewerAreBehind(tags: seq<Tag>, satisfies: Version -> bool, latest: seq<Version>, i: nat)
    requires i < |latest| && Ascending(latest) && forall v :: v in latest <==> HighestPatch(tags, satisfies, v)
    ensures |NewerMinors(tags, satisfies, latest[i])| == |latest| - 1 - i
  {
    var behind := latest[i + 1..];
    AscendingAreDistinct(behind);
    forall m ensures m in NewerMinors(tags, satisfies, latest[i]) <==> m in MinorSet(behind) {
      if m in NewerMinors(tags, satisfies, latest[i]) {
        var t :| t in tags && t.Release? && satisfies(t.version) && MinorOf(t.version) == m;
        var top := HasHighest(tags, satisfies, t.version);
        var j :| 0 <= j < |latest| && latest[j] == top;
        assert j > i;
        assert latest[j] == behind[j - i - 1];
      }
      if m in MinorSet(behind) {
        var k :| 0 <= k < |behind| && MinorOf(behind[k]) == m;
        assert behind[k] == latest[i + 1 + k];
        assert latest[i + 1 + k] in latest;
        assert Release(behind[k]) in tags;
      }
    }
    assert NewerMinors(tags, satisfies, latest[i]) == MinorSet(behind);
  }

  /** Every minor with a qualifying release has a highest patch. */
  lemma HasHighest(tags: seq<Tag>, satisfies: Version -> bool, v: Version) returns (top: Version)
    requires Qualifies(tags, satisfies, v)
    ensures HighestPatch(tags, satisfies, top) && MinorOf(top) == MinorOf(v)
  {
    var vs := Qualifying(tags, satisfies);
    QualifyingMembers(tags, satisfies, v);
    MaxIsHighest(vs, MinorOf(v));
    top := MaxOfMinor(vs, MinorOf(v))[0];
    assert top in MaxOfMinor(vs, MinorOf(v));
    QualifyingMembers(tags, satisfies, top);
    forall w | Qualifies(tags, satisfies, w) && MinorOf(w) == MinorOf(top) ensures w.patch <= top.patch {
      QualifyingMembers(tags, satisfies, w);
    }
  }

  predicate BadCap(cap: Cap) {
    cap.NotAnInteger? || (cap.Cap? && cap.n < 1)
  }

  /** What is returned, for every list of tags, every range and every cap: an error
      exactly for a bad cap; the range as it was exactly when nothing qualifies; and
      otherwise, in ascending precedence and once each, exactly the highest patch of
      each of the newest `cap` minors. */
  lemma SelectsExactly(tags: seq<Tag>, satisfies: Version -> bool, cap: Cap)
    ensures var r := GetLatestPatchMatching(tags, satisfies, cap);
            && (r == RangeError <==> BadCap(cap))
            && (r == InputRange <==> !BadCap(cap) && forall v :: !Qualifies(tags, satisfies, v))
            && (r.Exactly? ==>
                  && Ascending(r.versions)
                  && forall v :: v in r.versions <==>
                       (HighestPatch(tags, satisfies, v) && (cap.Cap? ==> |NewerMinors(tags, satisfies, v)| < cap.n)))
  {
    if !BadCap(cap) {
      var versions := Sort(Qualifying(tags, satisfies));
      var latest := Latest(versions, Minors(versions));
      LatestIsExact(tags, satisfies);
      var capped := if cap.Cap? then Newest(latest, cap.n) else latest;
      forall v ensures v in capped <==>
          (HighestPatch(tags, satisfies, v) && (cap.Cap? ==> |NewerMinors(tags, satisfies, v)| < cap.n))
      {
        CappedMembers(tags, satisfies, cap, latest, v);
      }
      if v :| Qualifies(tags, satisfies, v) {
        var top := HasHighest(tags, satisfies, v);
        assert top in latest;
      }
      if latest != [] {
        assert latest[0] in latest;
      }
    }
  }

  lemma CappedMembers(tags: seq<Tag>, satisfies: Version -> bool, cap: Cap, latest: seq<Version>, v: Version)
    requires !BadCap(cap) && Ascending(latest) && forall w :: w in latest <==> HighestPatch(tags, satisfies, w)
    ensures v in (if cap.Cap? then Newest(latest, cap.n) else latest) <==>
            (HighestPatch(tags, satisfies, v) && (cap.Cap? ==> |NewerMinors(tags, satisfies, v)| < cap.n))
  {
    if v in latest {
      var i :| 0 <= i < |latest| && latest[i] == v;
      NewerAreBehind(tags, satisfies, latest, i);
      if cap.Cap? && |latest| > cap.n {
        var from := |latest| - cap.n;
        if v in latest[from..] {
          var k :| 0 <= k < |latest[from..]| && latest[from..][k] == v;
          assert latest[from + k] == latest[i];
          assert from + k == i;
        }
      }
    }
  }
}
