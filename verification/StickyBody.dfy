/** The body of an updated sticky comment when no history is kept: the new body, the
    footer of the old one, and a cut when the two are too long. Bodies are their bytes. */
module StickyBody {
  import opened GoText
  import opened Markers
  import opened Sticky
  import opened Text

  const NOTE := "\n\n---\n" + "*Previous history truncated due " + "to comment size limits.*"

  /** How many bytes a cut keeps: it backs off to where a rune starts. */
  function CutAt(body: string, k: nat): (i: nat)
    requires k < |body|
    ensures i <= k && (i == 0 || RuneStart(body[i])) && forall j :: i < j <= k ==> !RuneStart(body[j])
  {
    if k > 0 && !RuneStart(body[k]) then CutAt(body, k - 1) else k
  }

  function Budget(maxSize: nat): nat {
    if maxSize < |NOTE| then 0 else maxSize - |NOTE|
  }

  /** `TruncateBody`. */
  function TruncateBody(body: string, maxSize: nat): string {
    if |body| <= maxSize then body else body[..CutAt(body, Budget(maxSize))] + NOTE
  }

  method CutBody(body: string, maxSize: nat) returns (r: string)
    ensures r == TruncateBody(body, maxSize)
  {
    if |body| <= maxSize {
      return body;
    }
    var budget: nat := Budget(maxSize);
    while budget > 0 && !RuneStart(body[budget])
      invariant budget < |body| && CutAt(body, budget) == CutAt(body, Budget(maxSize))
    {
      budget := budget - 1;
    }
    return body[..budget] + NOTE;
  }

  /** The old body behind its marker. */
  function Stripped(was: string, marker: string): string {
    WithoutMarker(WithoutMarker(was, marker + "\n"), marker)
  }

  /** What follows the last footer marker, that included. */
  function Footer(was: string, marker: string, footerMarker: string): string {
    var stripped := Stripped(was, marker);
    var i := LastIndex(stripped, footerMarker);
    if footerMarker == "" || i < 0 then "" else stripped[i..]
  }

  function WithFooter(now: string, footer: string): string {
    if footer == "" then now else now + "\n\n" + footer
  }

  /** `BuildUpdatedBody` without history. */
  function BuildInPlace(marker: string, footerMarker: string, maxSize: nat, was: string, now: string): string {
    TruncateBody(WithFooter(now, Footer(was, marker, footerMarker)), maxSize)
  }

  // ----- No marker is made up -----

  /** Where a marker occurs: it opens with a `<` and holds no newline. */
  lemma OccurrenceIs(s: string, m: string, i: nat)
    requires Marker(m) && OccursAt(s, m, i)
    ensures m != "" && i + |m| <= |s| && s[i] == '<' && forall j :: i <= j < i + |m| ==> s[j] != '\n'
  {
    forall j | i <= j < i + |m| ensures s[j] == m[j - i] {
      assert m[j - i] == s[i..i + |m|][j - i];
    }
    assert m[0] == '<';
  }

  lemma ContainsIn(s: string, t: string, m: string, from: nat, i: nat)
    requires from + |t| <= |s| && s[from..from + |t|] == t
    requires OccursAt(s, m, i) && from <= i && i + |m| <= from + |t|
    ensures Contains(t, m)
  {
    forall j | 0 <= j < |m| ensures t[i - from + j] == m[j] {
      assert m[j] == s[i..i + |m|][j] == s[i + j];
      assert s[from..from + |t|][i + j - from] == s[i + j];
    }
    assert t[i - from..i - from + |m|] == m;
    assert OccursAt(t, m, i - from);
  }

  lemma SuffixContains(s: string, t: string, m: string)
    requires HasSuffix(s, t) && Contains(t, m)
    ensures Contains(s, m)
  {
    var at := |s| - |t|;
    var i :| 0 <= i <= |t| && OccursAt(t, m, i);
    assert s[at..][i..i + |m|] == s[at + i..at + i + |m|];
    assert OccursAt(s, m, at + i);
  }

  lemma WithoutMarkerIsSuffix(s: string, marker: string)
    ensures HasSuffix(s, WithoutMarker(s, marker))
  {
  }

  lemma SuffixOfSuffix(a: string, b: string, c: string)
    requires HasSuffix(a, b) && HasSuffix(b, c)
    ensures HasSuffix(a, c)
  {
  }

  /** A footer is a tail of the old body, so it holds no marker the old body does not. */
  lemma FooterIsOld(was: string, marker: string, footerMarker: string, other: string)
    requires Contains(Footer(was, marker, footerMarker), other)
    ensures Contains(was, other)
  {
    var once := WithoutMarker(was, marker + "\n");
    var stripped := Stripped(was, marker);
    WithoutMarkerIsSuffix(was, marker + "\n");
    WithoutMarkerIsSuffix(once, marker);
    SuffixOfSuffix(was, once, stripped);
    var footer := Footer(was, marker, footerMarker);
    FooterIsSuffix(stripped, footer, if footerMarker == "" then -1 else LastIndex(stripped, footerMarker));
    SuffixContains(stripped, footer, other);
    SuffixContains(was, stripped, other);
  }

  lemma FooterIsSuffix(stripped: string, footer: string, i: int)
    requires i <= |stripped| && footer == if i < 0 then "" else stripped[i..]
    ensures HasSuffix(stripped, footer)
  {
  }

  lemma NoteIsPlain()
    ensures "\n" <= NOTE && '<' !in NOTE
  {
    assert NOTE[0] == '\n';
  }

  lemma FooterMakesNone(now: string, footer: string, other: string)
    requires Marker(other) && Contains(WithFooter(now, footer), other)
    ensures Contains(now, other) || Contains(footer, other)
  {
    var s := WithFooter(now, footer);
    if footer != "" {
      var i :| 0 <= i <= |s| && OccursAt(s, other, i);
      OccurrenceIs(s, other, i);
      assert s[|now|] == '\n' && s[|now| + 1] == '\n';
      if i < |now| {
        ContainsIn(s, now, other, 0, i);
      } else {
        ContainsIn(s, footer, other, |now| + 2, i);
      }
    }
  }

  /** A cut body holds only markers of the body. */
  lemma CutMakesNone(body: string, maxSize: nat, other: string)
    requires Marker(other) && Contains(TruncateBody(body, maxSize), other)
    ensures Contains(body, other)
  {
    if |body| > maxSize {
      NoteIsPlain();
      CutKeepsMarkers(body, CutAt(body, Budget(maxSize)), NOTE, other);
    }
  }

  lemma BuildMakesNone(marker: string, footerMarker: string, maxSize: nat, was: string, now: string, other: string)
    requires Marker(other) && Contains(BuildInPlace(marker, footerMarker, maxSize, was, now), other)
    ensures Contains(was, other) || Contains(now, other)
  {
    var footer := Footer(was, marker, footerMarker);
    CutMakesNone(WithFooter(now, footer), maxSize, other);
    FooterMakesNone(now, footer, other);
    if Contains(footer, other) {
      FooterIsOld(was, marker, footerMarker, other);
    }
  }

  // ----- The marker in front stays, if it fits -----

  /** The newline behind the marker starts a rune, so a cut that could keep the marker
      does. */
  lemma CutKeepsFront(m: string, body: string, maxSize: nat)
    requires Marker(m) && m + "\n" <= body && |m| + |NOTE| <= maxSize
    ensures Contains(TruncateBody(body, maxSize), m)
  {
    if |body| <= maxSize {
      assert OccursAt(body, m, 0);
    } else {
      assert body[|m|] == '\n';
      NoteIsPlain();
      CutKeepsMarkers(body, CutAt(body, Budget(maxSize)), NOTE, m);
    }
  }

  lemma {:induction false} NeutralizeIsNotShorter(s: string)
    ensures |Neutralize(s)| >= |s|
  {
    if s != "" {
      NeutralizeIsNotShorter(s[1..]);
    }
  }

  /** A cut with no room for the marker loses it. */
  lemma CutLosesFront(m: string, body: string, maxSize: nat)
    requires Marker(m) && maxSize < |m| + |NOTE| && |body| > maxSize
    ensures !Contains(TruncateBody(body, maxSize), m)
  {
    var k := CutAt(body, Budget(maxSize));
    var s := body[..k] + NOTE;
    NoteIsPlain();
    assert s[k] == NOTE[0];
    forall i | 0 <= i <= |s| ensures !OccursAt(s, m, i) {
      if OccursAt(s, m, i) {
        OccurrenceIs(s, m, i);
      }
    }
  }

  /** A comment that is only its marker has no footer. */
  lemma NoFooterIn(m: string, footerMarker: string)
    requires Marker(m)
    ensures Footer(m, m, footerMarker) == ""
  {
    assert WithoutMarker(m, m + "\n") == m && Stripped(m, m) == "";
  }
}
