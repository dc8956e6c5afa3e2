/** Escaping Vue syntax in Markdown before it is rendered: braces and the openers of
    unknown tags become character references, outside fenced blocks and code spans
    (sections 4.5 and 6.1 of CommonMark 0.31.2, as this code tracks them).

    `Tags` is the list of tag names that stay as they are, in lower case; the lemmas
    hold for every list of letter-and-digit names. */
module VueEscape {
  type Tags = set<string>

  predicate AsciiLetterOrDigit(c: char) {
    'a' <= c <= 'z' || 'A' <= c <= 'Z' || '0' <= c <= '9'
  }

  predicate PlainNames(tags: Tags) {
    forall t :: t in tags ==> forall i :: 0 <= i < |t| ==> AsciiLetterOrDigit(t[i])
  }

  function LowerChar(c: char): char {
    if 'A' <= c <= 'Z' then (c as int + 32) as char else c
  }

  function Lower(s: string): (r: string)
    ensures |r| == |s| && forall i :: 0 <= i < |s| ==> r[i] == LowerChar(s[i])
  {
    seq(|s|, i requires 0 <= i < |s| => LowerChar(s[i]))
  }

  /** JavaScript's white space: what `\s` matches and `trim` removes. */
  predicate IsSpace(c: char) {
    var n := c as int;
    || 9 <= n <= 13 || n == 0x20 || n == 0xA0 || n == 0x1680 || 0x2000 <= n <= 0x200A
    || n == 0x2028 || n == 0x2029 || n == 0x202F || n == 0x205F || n == 0x3000 || n == 0xFEFF
  }

  // ----- Tags and comments -----

  /** The text that shows a known tag: the opening, an optional slash, a known name
      in any case and one character that ends it. */
  predicate TagText(tags: Tags, t: string) {
    && |t| >= 3 && t[0] == '<'
    && (IsSpace(t[|t| - 1]) || t[|t| - 1] == '>' || t[|t| - 1] == '/' || t[|t| - 1] == '!')
    && (Lower(t[1..|t| - 1]) in tags || (t[1] == '/' && Lower(t[2..|t| - 1]) in tags))
  }

  predicate OpensKnown(tags: Tags, s: string) {
    "<!--" <= s || exists k :: 0 <= k <= |s| && TagText(tags, s[..k])
  }

  // ----- Code spans -----

  /** The length of the run of `c` that `s` opens with. */
  function RunLen(s: string, c: char): (n: nat)
    ensures n <= |s| && (n < |s| ==> s[n] != c)
    ensures forall i :: 0 <= i < n ==> s[i] == c
  {
    if s == "" || s[0] != c then 0 else 1 + RunLen(s[1..], c)
  }

  /** Where the first run of exactly `n` backticks starts, -1 when there is none. */
  function FindClose(s: string, n: nat): (f: int)
    ensures -1 <= f
    ensures f >= 0 ==> f + n <= |s|
    decreases |s|
  {
    if s == "" then -1
    else if s[0] == '`' then
      var k := RunLen(s, '`');
      if k == n then 0
      else
        var f := FindClose(s[k..], n);
        if f < 0 then -1 else k + f
    else
      var f := FindClose(s[1..], n);
      if f < 0 then -1 else 1 + f
  }

  lemma {:induction false} CloseIsRun(s: string, n: nat)
    requires FindClose(s, n) >= 0
    ensures RunLen(s[FindClose(s, n)..], '`') == n
    decreases |s|
  {
    var k := if s[0] == '`' then RunLen(s, '`') else 1;
    var f := FindClose(s, n);
    if s[0] == '`' && k == n {
      assert s[0..] == s;
    } else {
      CloseIsRun(s[k..], n);
      assert s[f..] == s[k..][f - k..];
    }
  }

  /** A whole run of backticks starts at `j`. */
  predicate RunStartsAt(s: string, j: nat) {
    j < |s| && s[j] == '`' && (j == 0 || s[j - 1] != '`')
  }

  /** The closing run is a whole run of exactly `n` backticks, and no whole run before
      it is (section 6.1 of CommonMark 0.31.2). */
  lemma {:induction false} CloseIsFirst(s: string, n: nat)
    requires n > 0
    ensures var f := FindClose(s, n);
            && (f >= 0 ==> RunStartsAt(s, f) && RunLen(s[f..], '`') == n)
            && forall j: nat :: RunStartsAt(s, j) && (f < 0 || j < f) ==> RunLen(s[j..], '`') != n
    decreases |s|
  {
    var f := FindClose(s, n);
    if s != "" {
      var k := if s[0] == '`' then RunLen(s, '`') else 1;
      if s[0] != '`' || k != n {
        CloseIsFirst(s[k..], n);
        forall j: nat | RunStartsAt(s, j) && (f < 0 || j < f) ensures RunLen(s[j..], '`') != n {
          if j >= k {
            assert s[k..][j - k..] == s[j..];
            assert RunStartsAt(s[k..], j - k);
          } else {
            assert s[0..] == s;
          }
        }
      }
    }
  }

  /** The length of the code span `s` opens with, or of the unmatched run of
      backticks when nothing closes it. Either is copied as it is. */
  function CodeLen(s: string): (n: nat)
    requires s != "" && s[0] == '`'
    ensures 1 <= n <= |s| && (n < |s| ==> s[n] != '`') && s[n - 1] == '`'
  {
    var n := RunLen(s, '`');
    var f := FindClose(s[n..], n);
    if f < 0 then n
    else
      CloseIsRun(s[n..], n);
      assert s[n..][f..] == s[n + f..];
      n + f + n
  }

  // ----- One line -----

  /** What one character outside code becomes; `s` starts with it. */
  function EscapeChar(tags: Tags, s: string): (e: string)
    requires s != "" && s[0] != '`'
    ensures e != "" && e[0] != '`'
  {
    if s[0] == '{' then "&#123;"
    else if s[0] == '}' then "&#125;"
    else if s[0] == '<' && !OpensKnown(tags, s) then "&lt;"
    else [s[0]]
  }

  function Esc(tags: Tags, s: string): string
    decreases |s|
  {
    if s == "" then ""
    else if s[0] == '`' then s[..CodeLen(s)] + Esc(tags, s[CodeLen(s)..])
    else EscapeChar(tags, s) + Esc(tags, s[1..])
  }

  /** How many characters the reference `s` opens with takes, and what it stands for. */
  function Entity(s: string): (int, string) {
    if "&#123;" <= s then (6, "{")
    else if "&#125;" <= s then (6, "}")
    else if "&lt;" <= s then (4, "<")
    else (0, "")
  }

  predicate StartsEntity(s: string) {
    Entity(s).0 > 0
  }

  /** Decoding the three references outside code. */
  function Decode(s: string): string
    decreases |s|
  {
    if s == "" then ""
    else if s[0] == '`' then s[..CodeLen(s)] + Decode(s[CodeLen(s)..])
    else if StartsEntity(s) then Entity(s).1 + Decode(s[Entity(s).0..])
    else [s[0]] + Decode(s[1..])
  }

  /** Outside code there is none of the three references. */
  predicate NoEntity(s: string)
    decreases |s|
  {
    if s == "" then true
    else if s[0] == '`' then NoEntity(s[CodeLen(s)..])
    else !StartsEntity(s) && NoEntity(s[1..])
  }

  /** Outside code there is no brace, and every '<' opens a known tag or a comment. */
  predicate VueSafe(tags: Tags, s: string)
    decreases |s|
  {
    if s == "" then true
    else if s[0] == '`' then VueSafe(tags, s[CodeLen(s)..])
    else
      && s[0] != '{' && s[0] != '}' && (s[0] == '<' ==> OpensKnown(tags, s))
      && VueSafe(tags, s[1..])
  }

  // ----- Code spans stay where they are -----

  lemma {:induction false} RunLenIs(s: string, c: char, n: nat)
    requires n <= |s| && (n < |s| ==> s[n] != c) && forall i :: 0 <= i < n ==> s[i] == c
    ensures RunLen(s, c) == n
  {
    if n > 0 {
      RunLenIs(s[1..], c, n - 1);
    }
  }

  predicate NoTick(s: string) {
    s == "" || s[0] != '`'
  }

  /** A run stays the same run when what follows it changes but opens with no backtick. */
  lemma RunBefore(p: string, y: string)
    requires NoTick(y)
    ensures RunLen(p + y, '`') == RunLen(p, '`')
  {
    var n := RunLen(p, '`');
    RunLenIs(p + y, '`', n);
  }

  /** Whether a closing run exists can be looked up piece by piece. */
  lemma {:induction false} CloseInPieces(p: string, y: string, n: nat)
    requires NoTick(y) && n > 0
    ensures FindClose(p + y, n) < 0 <==> FindClose(p, n) < 0 && FindClose(y, n) < 0
    decreases |p|
  {
    if p == "" {
      assert p + y == y;
    } else if p[0] == '`' {
      var k := RunLen(p, '`');
      RunBefore(p, y);
      assert (p + y)[k..] == p[k..] + y;
      CloseInPieces(p[k..], y, n);
    } else {
      assert (p + y)[1..] == p[1..] + y;
      CloseInPieces(p[1..], y, n);
    }
  }

  /** A closing run that was found at the end of `p` is found there again when only
      what follows it changes. */
  lemma {:induction false} CloseIsLocal(p: string, z: string, y: string, n: nat)
    requires NoTick(y) && n > 0 && n <= |p| && FindClose(p + z, n) == |p| - n
    ensures FindClose(p + y, n) == |p| - n
    decreases |p|
  {
    if p[0] == '`' {
      var k := RunLen(p + z, '`');
      if k == n {
        assert |p| == n;
        RunLenIs(p + y, '`', n);
      } else {
        SameHead(p, z, y, k);
        RunLenIs(p + y, '`', k);
        SplitDrop(p, z, k);
        SplitDrop(p, y, k);
        CloseIsLocal(p[k..], z, y, n);
      }
    } else {
      SplitDrop(p, z, 1);
      SplitDrop(p, y, 1);
      CloseIsLocal(p[1..], z, y, n);
    }
  }

  lemma SameHead(p: string, z: string, y: string, k: nat)
    requires k < |p|
    ensures forall i :: 0 <= i <= k ==> (p + y)[i] == (p + z)[i]
  {
  }

  lemma SplitDrop(p: string, z: string, k: nat)
    requires k <= |p|
    ensures (p + z)[k..] == p[k..] + z
  {
  }

  lemma CodeLenFrom(t: string, p: string, y: string, n: nat)
    requires n > 0 && n <= |p| && t == p + y && RunLen(t, '`') == n
    ensures t[n..] == p[n..] + y
    ensures CodeLen(t) == var f := FindClose(p[n..] + y, n); if f < 0 then n else n + f + n
  {
    SplitDrop(p, y, n);
  }

  lemma ThreeWays(s: string, n: nat, c: nat)
    requires n <= c <= |s|
    ensures s[n..] == s[..c][n..] + s[c..]
  {
  }

  lemma SpanIsLocal(p: string, z: string, y: string, n: nat)
    requires NoTick(y) && 0 < 2 * n <= |p| && RunLen(p + y, '`') == n && FindClose(p[n..] + z, n) == |p| - n - n
    ensures CodeLen(p + y) == |p|
  {
    CodeLenFrom(p + y, p, y, n);
    CloseIsLocal(p[n..], z, y, n);
  }

  lemma UnmatchedIsLocal(p: string, y: string)
    requires p != "" && RunLen(p + y, '`') == |p| && FindClose(y, |p|) < 0
    ensures CodeLen(p + y) == |p|
  {
    SplitAt(p, y);
  }

  lemma {:induction false} SpanStays(s: string, y: string, n: nat, c: nat)
    requires NoTick(y) && n > 0 && RunLen(s, '`') == n
    requires 2 * n <= c <= |s| && FindClose(s[n..], n) == c - n - n
    ensures CodeLen(s[..c] + y) == c
  {
    RunLenIs(s[..c] + y, '`', n);
    ThreeWays(s, n, c);
    SpanIsLocal(s[..c], s[c..], y, n);
  }

  /** Replacing what follows a code span, or an unmatched run, by text with the same
      prospects of closing it leaves it as it is. */
  lemma CodeIsLocal(s: string, y: string)
    requires s != "" && s[0] == '`' && NoTick(y)
    requires FindClose(s[CodeLen(s)..], RunLen(s, '`')) < 0 ==> FindClose(y, RunLen(s, '`')) < 0
    ensures CodeLen(s[..CodeLen(s)] + y) == CodeLen(s)
  {
    var n := RunLen(s, '`');
    if FindClose(s[n..], n) < 0 {
      RunLenIs(s[..n] + y, '`', n);
      UnmatchedIsLocal(s[..n], y);
    } else {
      SpanStays(s, y, n, CodeLen(s));
    }
  }

  lemma EscHead(tags: Tags, s: string)
    ensures (Esc(tags, s) == "") == (s == "")
    ensures NoTick(Esc(tags, s)) == NoTick(s)
  {
  }

  /** Escaping changes no run of backticks. */
  lemma {:induction false} EscKeepsRuns(tags: Tags, s: string, n: nat)
    requires n > 0
    ensures FindClose(Esc(tags, s), n) < 0 <==> FindClose(s, n) < 0
    decreases |s|
  {
    if s == "" {
    } else if s[0] == '`' {
      var c := CodeLen(s);
      var rest := s[c..];
      EscKeepsRuns(tags, rest, n);
      EscHead(tags, rest);
      assert s == s[..c] + rest;
      CloseInPieces(s[..c], rest, n);
      CloseInPieces(s[..c], Esc(tags, rest), n);
    } else {
      var e := EscapeChar(tags, s);
      EscKeepsRuns(tags, s[1..], n);
      SkipTickless(e, Esc(tags, s[1..]), n);
    }
  }

  lemma {:induction false} SkipTickless(p: string, y: string, n: nat)
    requires n > 0 && forall i :: 0 <= i < |p| ==> p[i] != '`'
    ensures FindClose(p + y, n) < 0 <==> FindClose(y, n) < 0
  {
    if p == "" {
      assert p + y == y;
    } else {
      assert (p + y)[1..] == p[1..] + y;
      SkipTickless(p[1..], y, n);
    }
  }

  /** In the escaped line every code span and every unmatched run is where it was. */
  lemma EscapedCode(tags: Tags, s: string)
    requires s != "" && s[0] == '`'
    ensures var e := Esc(tags, s);
            && e != "" && e[0] == '`' && CodeLen(e) == CodeLen(s)
            && e[..CodeLen(e)] == s[..CodeLen(s)] && e[CodeLen(e)..] == Esc(tags, s[CodeLen(s)..])
  {
    var rest := s[CodeLen(s)..];
    EscHead(tags, rest);
    EscKeepsRuns(tags, rest, RunLen(s, '`'));
    CodeIsLocal(s, Esc(tags, rest));
    SplitAt(s[..CodeLen(s)], Esc(tags, rest));
  }

  lemma SplitAt(p: string, y: string)
    ensures (p + y)[..|p|] == p && (p + y)[|p|..] == y
  {
  }

  // ----- What escaping guarantees -----

  /** A character escaping leaves alone wherever it stands. */
  predicate Plain(c: char) {
    c != '`' && c != '{' && c != '}' && c != '<'
  }

  predicate AllPlain(s: string) {
    forall i :: 0 <= i < |s| ==> Plain(s[i])
  }

  lemma {:induction false} EscPlain(tags: Tags, p: string, y: string)
    requires AllPlain(p)
    ensures Esc(tags, p + y) == p + Esc(tags, y)
    ensures VueSafe(tags, p + y) == VueSafe(tags, y)
  {
    if p == "" {
      assert p + y == y;
    } else {
      assert (p + y)[1..] == p[1..] + y;
      EscPlain(tags, p[1..], y);
    }
  }

  lemma TagTextIsPlain(tags: Tags, t: string)
    requires PlainNames(tags) && TagText(tags, t)
    ensures AllPlain(t[1..])
  {
    var from := if Lower(t[1..|t| - 1]) in tags then 1 else 2;
    var name := t[from..|t| - 1];
    forall i | 0 <= i < |t[1..]| ensures Plain(t[1..][i]) {
      if from <= i + 1 < |t| - 1 {
        assert t[i + 1] == name[i + 1 - from];
        assert AsciiLetterOrDigit(Lower(name)[i + 1 - from]);
      }
    }
  }

  /** The known opener at the front: plain after its `<`, and known whatever follows. */
  lemma KnownEnd(tags: Tags, s: string) returns (k: nat)
    requires PlainNames(tags) && s != "" && s[0] == '<' && OpensKnown(tags, s)
    ensures 0 < k <= |s| && AllPlain(s[1..k])
    ensures forall t :: |t| >= k && t[..k] == s[..k] ==> OpensKnown(tags, t)
  {
    if "<!--" <= s {
      k := 4;
      assert s[1..4] == "!--";
    } else {
      k :| 0 <= k <= |s| && TagText(tags, s[..k]);
      TagTextIsPlain(tags, s[..k]);
      assert s[..k][1..] == s[1..k];
    }
  }

  lemma EscBehind(tags: Tags, s: string, k: nat)
    requires 0 < k <= |s| && AllPlain(s[1..k])
    ensures Esc(tags, s[1..]) == s[1..k] + Esc(tags, s[k..])
  {
    assert s[1..] == s[1..k] + s[k..];
    EscPlain(tags, s[1..k], s[k..]);
  }

  /** A known opener is still one after the rest of the line was escaped. */
  lemma KnownStaysKnown(tags: Tags, s: string)
    requires PlainNames(tags) && s != "" && s[0] == '<' && OpensKnown(tags, s)
    ensures OpensKnown(tags, "<" + Esc(tags, s[1..]))
  {
    var k := KnownEnd(tags, s);
    EscBehind(tags, s, k);
    HeadOf(s, k, Esc(tags, s[k..]));
  }

  lemma HeadOf(s: string, k: nat, y: string)
    requires 0 < k <= |s| && s[0] == '<'
    ensures |"<" + (s[1..k] + y)| >= k && ("<" + (s[1..k] + y))[..k] == s[..k]
  {
  }

  /** Outside code spans, which are copied as they are, the escaped line holds no
      brace and no '<' but those of known tags and comments. */
  lemma {:induction false} EscapedIsSafe(tags: Tags, s: string)
    requires PlainNames(tags)
    ensures VueSafe(tags, Esc(tags, s))
    decreases |s|
  {
    if s == "" {
    } else if s[0] == '`' {
      EscapedCode(tags, s);
      EscapedIsSafe(tags, s[CodeLen(s)..]);
    } else {
      var y := Esc(tags, s[1..]);
      EscapedIsSafe(tags, s[1..]);
      if s[0] == '<' && OpensKnown(tags, s) {
        KnownStaysKnown(tags, s);
        assert ("<" + y)[1..] == y;
      } else {
        EscPlain(tags, EscapeChar(tags, s), y);
      }
    }
  }

  lemma {:induction false} SafeIsFixed(tags: Tags, s: string)
    requires VueSafe(tags, s)
    ensures Esc(tags, s) == s
    decreases |s|
  {
    if s != "" {
      if s[0] == '`' {
        SafeIsFixed(tags, s[CodeLen(s)..]);
      } else {
        SafeIsFixed(tags, s[1..]);
      }
    }
  }

  /** Escaping a line twice is escaping it once. */
  lemma EscapeLineIsIdempotent(tags: Tags, s: string)
    requires PlainNames(tags)
    ensures Esc(tags, Esc(tags, s)) == Esc(tags, s)
  {
    EscapedIsSafe(tags, s);
    SafeIsFixed(tags, Esc(tags, s));
  }

  // ----- Decoding -----

  lemma BothPrefixed(c: char, q: string, y: string)
    ensures [c] + q <= [c] + y <==> q <= y
  {
    assert ([c] + q)[1..] == q && ([c] + y)[1..] == y;
    if q <= y {
      assert ([c] + y)[..|q| + 1] == [c] + y[..|q|];
    }
  }

  /** Text without characters the escaper writes or reads stands in the escaped line
      exactly where it stood in the line. */
  lemma {:induction false} PrefixKept(tags: Tags, s: string, q: string)
    requires AllPlain(q) && forall i :: 0 <= i < |q| ==> q[i] != '&'
    ensures q <= Esc(tags, s) <==> q <= s
    ensures q <= s ==> Esc(tags, s)[|q|..] == Esc(tags, s[|q|..])
  {
    var e := Esc(tags, s);
    if q == "" {
      assert s[0..] == s && e[0..] == e;
    } else if s == "" || s[0] != q[0] {
      FirstKept(tags, s, q[0]);
    } else {
      assert s[0] != '`';
      var y := Esc(tags, s[1..]);
      assert e == [s[0]] + y;
      PrefixKept(tags, s[1..], q[1..]);
      assert q == [q[0]] + q[1..] && s == [s[0]] + s[1..];
      BothPrefixed(q[0], q[1..], y);
      if q <= s {
        assert e[|q|..] == y[|q[1..]|..] && s[|q|..] == s[1..][|q[1..]|..];
      }
    }
  }

  /** An escaped line opens with a plain character only when the line opened with it. */
  lemma FirstKept(tags: Tags, s: string, c: char)
    requires Plain(c) && c != '&' && (s == "" || s[0] != c)
    ensures Esc(tags, s) == "" || Esc(tags, s)[0] != c
  {
  }

  /** A reference that opens a line is an ampersand and a tail the escaper keeps. */
  lemma AmpPrefix(tags: Tags, s: string, q: string)
    requires s != "" && Plain(s[0]) && AllPlain(q) && forall i :: 0 <= i < |q| ==> q[i] != '&'
    ensures "&" + q <= Esc(tags, s) <==> "&" + q <= s
    ensures "&" + q <= s ==> Esc(tags, s)[|q| + 1..] == Esc(tags, s[|q| + 1..])
  {
    PrefixKept(tags, s[1..], q);
    var y := Esc(tags, s[1..]);
    Unprefix(s[0], s[1..], q);
    Unprefix(s[0], y, q);
    assert s == [s[0]] + s[1..];
  }

  lemma Unprefix(c: char, s: string, q: string)
    ensures "&" + q <= [c] + s <==> c == '&' && q <= s
    ensures |q| <= |s| ==> ([c] + s)[|q| + 1..] == s[|q|..]
  {
    var x := [c] + s;
    assert x[1..] == s;
    if "&" + q <= x {
      assert x[0] == ("&" + q)[0];
      assert s[..|q|] == x[1..|q| + 1] == ("&" + q)[1..];
    }
    if c == '&' && q <= s {
      assert x == ("&" + q) + s[|q|..];
    }
  }

  lemma ReferenceKept(tags: Tags, s: string, q: string, whole: string)
    requires s != "" && Plain(s[0]) && AllPlain(q) && (forall i :: 0 <= i < |q| ==> q[i] != '&') && whole == "&" + q
    ensures whole <= Esc(tags, s) <==> whole <= s
    ensures whole <= s ==> Esc(tags, s)[|whole|..] == Esc(tags, s[|whole|..])
  {
    AmpPrefix(tags, s, q);
  }

  /** An escaped line whose first character was kept opens with a reference exactly
      when the line itself did. */
  lemma EntityKept(tags: Tags, s: string)
    requires s != "" && Plain(s[0])
    ensures Entity(Esc(tags, s)) == Entity(s)
    ensures StartsEntity(s) ==> Esc(tags, s)[Entity(s).0..] == Esc(tags, s[Entity(s).0..])
  {
    ReferenceKept(tags, s, "#123;", "&#123;");
    ReferenceKept(tags, s, "#125;", "&#125;");
    ReferenceKept(tags, s, "lt;", "&lt;");
  }

  lemma DecodePlain(tags: Tags, s: string)
    requires s != "" && Plain(s[0])
    ensures var e := Esc(tags, s);
            Decode(e) == if StartsEntity(s) then Entity(s).1 + Decode(Esc(tags, s[Entity(s).0..]))
                         else [s[0]] + Decode(Esc(tags, s[1..]))
  {
    EntityKept(tags, s);
    assert Esc(tags, s)[1..] == Esc(tags, s[1..]);
  }

  /** A replaced character, or a kept '<', decodes to itself. */
  lemma DecodeReplaced(tags: Tags, s: string)
    requires s != "" && s[0] != '`' && !Plain(s[0])
    ensures Decode(Esc(tags, s)) == [s[0]] + Decode(Esc(tags, s[1..]))
    ensures !StartsEntity(s)
  {
    var e := EscapeChar(tags, s);
    var y := Esc(tags, s[1..]);
    assert (e + y)[|e|..] == y;
    var t := e + y;
    if e == "&#123;" {
      assert "&#123;" <= t;
    } else if e == "&#125;" {
      assert "&#125;" <= t && t[4] == '5' && "&#123;"[4] == '3';
    } else if e == "&lt;" {
      assert "&lt;" <= t && t[1] == 'l' && "&#123;"[1] == "&#125;"[1] == '#';
    } else {
      assert t[0] == '<' && "&#123;"[0] == "&#125;"[0] == "&lt;"[0] == '&';
    }
  }

  lemma DecodeCode(tags: Tags, s: string)
    requires s != "" && s[0] == '`'
    ensures Decode(Esc(tags, s)) == s[..CodeLen(s)] + Decode(Esc(tags, s[CodeLen(s)..]))
    ensures NoEntity(s) <==> NoEntity(s[CodeLen(s)..])
  {
    EscapedCode(tags, s);
  }

  lemma NoEntityStep(s: string)
    requires s != "" && s[0] != '`'
    ensures NoEntity(s) <==> !StartsEntity(s) && NoEntity(s[1..])
    ensures StartsEntity(s) ==> |Entity(s).1| == 1 && 1 < Entity(s).0 <= |s|
  {
  }

  ghost predicate Undone(tags: Tags, s: string) {
    var d := Decode(Esc(tags, s));
    if NoEntity(s) then d == s else |d| < |s|
  }

  lemma UndoneAtCode(tags: Tags, s: string)
    requires s != "" && s[0] == '`' && Undone(tags, s[CodeLen(s)..])
    ensures Undone(tags, s)
  {
    DecodeCode(tags, s);
    var n := CodeLen(s);
    SameOrShorter(s, n, Decode(Esc(tags, s)), Decode(Esc(tags, s[n..])), NoEntity(s));
  }

  lemma SameOrShorter(s: string, n: nat, d: string, rest: string, exact: bool)
    requires n <= |s| && d == s[..n] + rest && if exact then rest == s[n..] else |rest| < |s| - n
    ensures if exact then d == s else |d| < |s|
  {
  }

  lemma UndoneAtEntity(tags: Tags, s: string)
    requires s != "" && s[0] != '`' && StartsEntity(s) && Undone(tags, s[Entity(s).0..])
    ensures Undone(tags, s)
  {
    NoEntityStep(s);
    DecodePlain(tags, s);
  }

  lemma UndoneAtCharacter(tags: Tags, s: string)
    requires s != "" && s[0] != '`' && !StartsEntity(s) && Undone(tags, s[1..])
    ensures Undone(tags, s)
  {
    NoEntityStep(s);
    if Plain(s[0]) {
      DecodePlain(tags, s);
    } else {
      DecodeReplaced(tags, s);
    }
    assert s == [s[0]] + s[1..];
  }

  /** Decoding gives the line back exactly when it held no reference outside code;
      otherwise what comes back is shorter. */
  lemma {:induction false} DecodeUndoesEscape(tags: Tags, s: string)
    ensures Undone(tags, s)
    ensures Decode(Esc(tags, s)) == s <==> NoEntity(s)
    decreases |s|
  {
    if s == "" {
    } else if s[0] == '`' {
      DecodeUndoesEscape(tags, s[CodeLen(s)..]);
      UndoneAtCode(tags, s);
    } else if StartsEntity(s) {
      DecodeUndoesEscape(tags, s[Entity(s).0..]);
      UndoneAtEntity(tags, s);
    } else {
      DecodeUndoesEscape(tags, s[1..]);
      UndoneAtCharacter(tags, s);
    }
  }
}
