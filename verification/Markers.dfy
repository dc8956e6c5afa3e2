/** Comment markers: the openers the neutralizer escapes, and why text it has treated
    holds no marker. Texts are their UTF-8 bytes, one `char` below U+0100 each. */
module Markers {
  import opened Text

  predicate Space(c: char) {
    c == ' ' || c == '\t' || c == '\n' || c == '\r' || c == '\U{000C}'
  }

  /** Case-insensitive equality with a lower-case letter. */
  predicate Folds(c: char, lower: char) {
    c == lower || ('a' <= lower <= 'z' && c as int == lower as int - 32)
  }

  predicate FoldsTo(s: string, name: string) {
    |s| >= |name| && forall i :: 0 <= i < |name| ==> Folds(s[i], name[i])
  }

  /** The two bytes of the long s, U+017F, which folds with `s` too. */
  const LONG_S := "\U{C5}\U{BF}"

  /** How many bytes the name takes in front of `s`, in any case; 0 when it is not there. */
  function NameLen(s: string): (n: nat)
    ensures n == 0 || n == 8 || n == 9
    ensures n <= |s|
  {
    if FoldsTo(s, "fullsend") then 8
    else if |s| >= 9 && FoldsTo(s, "full") && s[4..6] == LONG_S && FoldsTo(s[6..], "end") then 9
    else 0
  }

  /** Spaces, then a colon. */
  predicate ColonNext(s: string) {
    s != "" && (s[0] == ':' || (Space(s[0]) && ColonNext(s[1..])))
  }

  /** Spaces, then the name in any case, then spaces and a colon. */
  predicate NameNext(s: string) {
    if s != "" && Space(s[0]) then NameNext(s[1..]) else NameLen(s) > 0 && ColonNext(s[NameLen(s)..])
  }

  predicate Opener(s: string) {
    "<!--" <= s && NameNext(s[4..])
  }

  /** `NeutralizeMarkers`. An opener holds no second `<`, so replacing whole openers and
      going on after them comes to the same. */
  function Neutralize(s: string): string {
    if s == "" then ""
    else (if Opener(s) then "&lt;" else [s[0]]) + Neutralize(s[1..])
  }

  ghost predicate NoOpener(s: string) {
    forall i :: 0 <= i <= |s| ==> !Opener(s[i..])
  }

  // ----- An opener depends only on its own text -----

  predicate Plain(c: char) {
    c != '<' && c != '&'
  }

  ghost predicate AllPlain(s: string) {
    forall i :: 0 <= i < |s| ==> Plain(s[i])
  }

  lemma FoldsIsPlain(s: string, name: string)
    requires FoldsTo(s, name) && forall i :: 0 <= i < |name| ==> 'a' <= name[i] <= 'z'
    ensures forall i :: 0 <= i < |name| ==> Plain(s[i]) && !Space(s[i])
  {
    forall i | 0 <= i < |name| ensures Plain(s[i]) && !Space(s[i]) {
      assert Folds(s[i], name[i]);
    }
  }

  lemma NameIsPlain(s: string)
    requires NameLen(s) > 0
    ensures AllPlain(s[..NameLen(s)]) && !Space(s[0])
  {
    if NameLen(s) == 8 {
      FoldsIsPlain(s, "fullsend");
    } else {
      FoldsIsPlain(s, "full");
      FoldsIsPlain(s[6..], "end");
      assert forall i :: 6 <= i < 9 ==> s[i] == s[6..][i - 6];
      assert s[4] == s[4..6][0] && s[5] == s[4..6][1];
    }
  }

  /** How far the part up to the colon goes; it is plain, and enough by itself. */
  lemma {:induction false} ColonEnd(s: string) returns (k: nat)
    requires ColonNext(s)
    ensures k <= |s| && AllPlain(s[..k])
    ensures forall t :: s[..k] <= t ==> ColonNext(t)
  {
    if s[0] == ':' {
      k := 1;
    } else {
      var l := ColonEnd(s[1..]);
      k := l + 1;
      assert s[..k] == [s[0]] + s[1..][..l];
      forall t | s[..k] <= t ensures ColonNext(t) {
        assert s[1..][..l] <= t[1..];
      }
    }
  }

  lemma {:induction false} NameEnd(s: string) returns (k: nat)
    requires NameNext(s)
    ensures k <= |s| && AllPlain(s[..k])
    ensures forall t :: s[..k] <= t ==> NameNext(t)
  {
    if s != "" && Space(s[0]) {
      var l := NameEnd(s[1..]);
      k := l + 1;
      assert s[..k] == [s[0]] + s[1..][..l];
      forall t | s[..k] <= t ensures NameNext(t) {
        assert s[1..][..l] <= t[1..];
      }
    } else {
      var n := NameLen(s);
      var l := ColonEnd(s[n..]);
      k := l + n;
      assert s[..k] == s[..n] + s[n..][..l];
      NameIsPlain(s);
      forall t | s[..k] <= t ensures NameNext(t) {
        NameExtends(s, t);
        assert s[n..][..l] <= t[n..];
      }
    }
  }

  lemma NameExtends(s: string, t: string)
    requires var n := NameLen(s); n > 0 && |t| >= n && s[..n] == t[..n]
    ensures NameLen(t) == NameLen(s) && !Space(t[0])
  {
    var n := NameLen(s);
    assert forall i :: 0 <= i < n ==> s[i] == s[..n][i] == t[..n][i] == t[i];
    NameIsPlain(s);
    if n == 9 {
      assert t[4..6] == s[4..6];
      assert t[4] == s[4..6][0] && !Folds(t[4], "fullsend"[4]);
      assert forall i :: 0 <= i < 3 ==> t[6..][i] == s[6..][i];
    }
  }

  /** The opener `s` starts with: plain after its `<`, and an opener whatever follows. */
  lemma OpenerEnd(s: string) returns (k: nat)
    requires Opener(s)
    ensures 0 < k <= |s| && s[0] == '<' && AllPlain(s[1..k])
    ensures forall t :: s[..k] <= t ==> Opener(t)
  {
    var l := NameEnd(s[4..]);
    k := l + 4;
    assert s[1..k] == "!--" + s[4..][..l];
    assert s[..k] == "<!--" + s[4..][..l];
    forall t | s[..k] <= t ensures Opener(t) {
      assert s[4..][..l] <= t[4..];
    }
  }

  lemma OpenerExtends(a: string, b: string)
    requires a <= b && Opener(a)
    ensures Opener(b)
  {
    var k := OpenerEnd(a);
    assert a[..k] <= b;
  }

  // ----- Neutralized text -----

  /** Where neutralized text is plain it is the original text. */
  lemma {:induction false} PlainIsOriginal(s: string, k: nat)
    requires k <= |Neutralize(s)| && forall i :: 0 <= i < k ==> Plain(Neutralize(s)[i])
    ensures k <= |s| && Neutralize(s)[..k] == s[..k]
  {
    if k > 0 {
      var n := Neutralize(s);
      assert Plain(n[0]);
      assert !Opener(s);
      assert n[1..] == Neutralize(s[1..]);
      forall i | 0 <= i < k - 1 ensures Plain(Neutralize(s[1..])[i]) {
        assert n[i + 1] == Neutralize(s[1..])[i];
      }
      PlainIsOriginal(s[1..], k - 1);
      assert n[..k] == [n[0]] + n[1..][..k - 1];
      assert s[..k] == [s[0]] + s[1..][..k - 1];
    }
  }

  lemma PlainHeadIsOriginal(s: string, k: nat)
    requires s != "" && !Opener(s) && 0 < k <= |Neutralize(s)| && AllPlain(Neutralize(s)[1..k])
    ensures k <= |s| && Neutralize(s)[..k] == s[..k]
  {
    var n, rest := Neutralize(s), Neutralize(s[1..]);
    assert n == [s[0]] + rest;
    assert rest[..k - 1] == n[1..k];
    forall i | 0 <= i < k - 1 ensures Plain(rest[i]) {
      assert rest[i] == n[1..k][i];
    }
    PlainIsOriginal(s[1..], k - 1);
    assert s[..k] == [s[0]] + s[1..][..k - 1];
  }

  lemma NoOpenerAtFront(s: string)
    ensures !Opener(Neutralize(s))
  {
    var n := Neutralize(s);
    if Opener(n) {
      var k := OpenerEnd(n);
      PlainHeadIsOriginal(s, k);
    }
  }

  /** No opener survives. */
  lemma {:induction false} NeutralizedHasNoOpener(s: string)
    ensures NoOpener(Neutralize(s))
  {
    var n := Neutralize(s);
    if s == "" {
    } else {
      NeutralizedHasNoOpener(s[1..]);
      NoOpenerAtFront(s);
      var rest := Neutralize(s[1..]);
      var d := |n| - |rest|;
      forall i | 0 <= i <= |n| ensures !Opener(n[i..]) {
        if i >= d {
          assert n[i..] == rest[i - d..];
        } else if i > 0 {
          assert n[i] != '<';
        } else {
          assert n[0..] == n;
        }
      }
    }
  }

  /** Text without openers is left alone; so neutralizing again changes nothing. */
  lemma {:induction false} NoOpenerIsFixed(s: string)
    requires NoOpener(s)
    ensures Neutralize(s) == s
  {
    if s != "" {
      assert s[0..] == s;
      forall i | 0 <= i <= |s| - 1 ensures !Opener(s[1..][i..]) {
        assert s[1..][i..] == s[i + 1..];
      }
      NoOpenerIsFixed(s[1..]);
    }
  }

  lemma NeutralizeIsIdempotent(s: string)
    ensures Neutralize(Neutralize(s)) == Neutralize(s)
  {
    NeutralizedHasNoOpener(s);
    NoOpenerIsFixed(Neutralize(s));
  }

  // ----- Markers in posted bodies -----

  /** A marker as the runner's own are: one opener at its front, on one line. */
  ghost predicate Marker(m: string) {
    Opener(m) && (forall i :: 0 < i < |m| ==> m[i] != '<') && '\n' !in m
  }

  function Marked(m: string, body: string): string {
    m + "\n" + Neutralize(body)
  }

  lemma MarkedContains(m: string, body: string)
    ensures Contains(Marked(m, body), m)
  {
    assert OccursAt(Marked(m, body), m, 0);
  }

  /** A posted body holds no marker but its own, whatever the agent wrote: no other
      marker, unless one of the two starts with the other. */
  lemma MarkedHoldsOnlyItsOwn(m: string, other: string, body: string)
    requires Marker(m) && Marker(other) && Contains(Marked(m, body), other)
    ensures other <= m
  {
    var s, n := Marked(m, body), Neutralize(body);
    NeutralizedHasNoOpener(body);
    forall i | |m| < i <= |s| ensures !Opener(s[i..]) {
      assert s[i..] == n[i - |m| - 1..];
    }
    var i :| 0 <= i <= |s| && OccursAt(s, other, i);
    assert forall k :: 0 <= k < |other| ==> other[k] == s[i..i + |other|][k] == s[i + k];
    OpenerExtends(other, s[i..]);
    assert s[i] == other[0] == '<' && s[|m|] == '\n';
    assert i == 0;
  }

  /** Exactly which text an agent can plant in a neutralized body: any that holds no
      opener. */
  lemma PlantableExactly(other: string)
    ensures (exists body :: Contains(Neutralize(body), other)) <==> NoOpener(other)
  {
    if NoOpener(other) {
      NoOpenerIsFixed(other);
      assert OccursAt(Neutralize(other), other, 0);
    }
    if body :| Contains(Neutralize(body), other) {
      PlantedHoldsNoOpener(body, other);
    }
  }

  lemma PlantedHoldsNoOpener(body: string, other: string)
    requires Contains(Neutralize(body), other)
    ensures NoOpener(other)
  {
    var n := Neutralize(body);
    var at :| 0 <= at <= |n| && OccursAt(n, other, at);
    NeutralizedHasNoOpener(body);
    forall i | 0 <= i <= |other| ensures !Opener(other[i..]) {
      if Opener(other[i..]) {
        assert n[at..at + |other|][i..] <= n[at + i..];
        OpenerExtends(other[i..], n[at + i..]);
      }
    }
  }

  /** So a marker that is not an opener is not protected: only blank markers are refused,
      and agent text can carry such a marker into another marker's comment. */
  lemma PlainMarkerCanBePlanted(m: string)
    ensures NoOpener("B") && Contains(Marked(m, "B"), "B")
  {
    assert "B"[1..] == "" && Neutralize("B") == "B";
    NeutralizedHasNoOpener("B");
    assert OccursAt(Marked(m, "B"), "B", |m| + 1);
  }
}
