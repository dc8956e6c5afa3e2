/** The Vue escaper on whole documents: the fence state machine over the lines, and how the
    escaper walks them. */
module VueDocument {
  import opened VueEscape

  /** The open fence: its length and its character; length 0 when none is open. */
  datatype FenceState = FenceState(len: nat, ch: char)

  const NO_FENCE := FenceState(0, ' ')

  /** The fence a line shows after at most three spaces, of three characters or more. */
  function Fence(line: string): (f: FenceState) {
    var i := RunLen(line, ' ');
    if i > 3 || i == |line| then NO_FENCE
    else if line[i] == '`' || line[i] == '~' then
      var n := RunLen(line[i..], line[i]);
      if n >= 3 then FenceState(n, line[i]) else NO_FENCE
    else NO_FENCE
  }

  function TrimLeft(s: string): string {
    if s != "" && IsSpace(s[0]) then TrimLeft(s[1..]) else s
  }

  function TrimRight(s: string): string {
    if s != "" && IsSpace(s[|s| - 1]) then TrimRight(s[..|s| - 1]) else s
  }

  function Trim(s: string): string {
    TrimRight(TrimLeft(s))
  }

  function Repeat(c: char, n: nat): string {
    seq(n, _ => c)
  }

  /** The fence state after a line. */
  function NextFence(st: FenceState, line: string): FenceState {
    var f := Fence(line);
    if f.len == 0 then st
    else if st.len == 0 then f
    else if f.ch == st.ch && f.len >= st.len && Trim(line) == Repeat(f.ch, f.len) then NO_FENCE
    else st
  }

  /** Lines the escaper must not touch: those inside a fence and those that show one. */
  predicate Copied(st: FenceState, line: string) {
    Fence(line).len > 0 || st.len > 0
  }

  function EscapeOne(tags: Tags, st: FenceState, line: string): string {
    if Copied(st, line) then line else Esc(tags, line)
  }

  function EscapeLines(tags: Tags, st: FenceState, lines: seq<string>): (r: seq<string>)
    ensures |r| == |lines|
    decreases |lines|
  {
    if lines == [] then []
    else [EscapeOne(tags, st, lines[0])] + EscapeLines(tags, NextFence(st, lines[0]), lines[1..])
  }

  function DecodeLines(st: FenceState, lines: seq<string>): (r: seq<string>)
    ensures |r| == |lines|
    decreases |lines|
  {
    if lines == [] then []
    else [if Copied(st, lines[0]) then lines[0] else Decode(lines[0])]
         + DecodeLines(NextFence(st, lines[0]), lines[1..])
  }

  predicate NoEntityInLines(st: FenceState, lines: seq<string>)
    decreases |lines|
  {
    lines == [] || ((Copied(st, lines[0]) || NoEntity(lines[0]))
        && NoEntityInLines(NextFence(st, lines[0]), lines[1..]))
  }

  predicate SafeLines(tags: Tags, st: FenceState, lines: seq<string>)
    decreases |lines|
  {
    lines == []
    || ((Copied(st, lines[0]) || VueSafe(tags, lines[0])) && SafeLines(tags, NextFence(st, lines[0]), lines[1..]))
  }

  /** The fence state before line `i`. */
  function StateAt(st: FenceState, lines: seq<string>, i: nat): FenceState
    requires i <= |lines|
    decreases |lines|
  {
    if i == 0 then st else StateAt(NextFence(st, lines[0]), lines[1..], i - 1)
  }

  // ----- Escaping keeps fences -----

  /** Runs of a character the escaper never touches, at the start of a line. */
  lemma {:induction false} EscKeepsRunLen(tags: Tags, s: string, c: char)
    requires c == ' ' || c == '~'
    ensures RunLen(Esc(tags, s), c) == RunLen(s, c)
    ensures Esc(tags, s)[RunLen(s, c)..] == Esc(tags, s[RunLen(s, c)..])
  {
    if s != "" && s[0] == c {
      EscKeepsRunLen(tags, s[1..], c);
      EscKeepsRunStep(tags, s, c);
    } else {
      var e := Esc(tags, s);
      FirstKept(tags, s, c);
      assert RunLen(s, c) == 0 == RunLen(e, c);
      assert s[0..] == s && e[0..] == e;
    }
  }

  lemma EscKeepsRunStep(tags: Tags, s: string, c: char)
    requires (c == ' ' || c == '~') && s != "" && s[0] == c && RunLen(Esc(tags, s[1..]), c) == RunLen(s[1..], c)
    requires Esc(tags, s[1..])[RunLen(s[1..], c)..] == Esc(tags, s[1..][RunLen(s[1..], c)..])
    ensures RunLen(Esc(tags, s), c) == RunLen(s, c)
    ensures Esc(tags, s)[RunLen(s, c)..] == Esc(tags, s[RunLen(s, c)..])
  {
    EscStartsPlain(tags, s);
    RunLenCons(c, Esc(tags, s[1..]), Esc(tags, s));
    RunLenCons(c, s[1..], s);
  }

  lemma EscStartsPlain(tags: Tags, s: string)
    requires s != "" && Plain(s[0])
    ensures Esc(tags, s) == [s[0]] + Esc(tags, s[1..])
  {
  }

  lemma RunLenCons(c: char, t: string, s: string)
    requires s == [c] + t
    ensures RunLen(s, c) == 1 + RunLen(t, c) && s[RunLen(s, c)..] == t[RunLen(t, c)..]
  {
    assert s[1..] == t;
  }

  lemma EscKeepsTicks(tags: Tags, s: string)
    ensures RunLen(Esc(tags, s), '`') == RunLen(s, '`')
  {
    if s != "" && s[0] == '`' {
      EscapedCode(tags, s);
      var n := RunLen(s, '`');
      var e := Esc(tags, s);
      EscHead(tags, s[CodeLen(s)..]);
      TicksWithin(s);
      forall i | 0 <= i < n ensures e[i] == '`' {
        assert e[i] == e[..CodeLen(s)][i] == s[..CodeLen(s)][i];
      }
      if n < CodeLen(s) {
        assert e[n] == e[..CodeLen(s)][n] == s[..CodeLen(s)][n] == s[n];
      } else if n < |e| {
        assert e[n] == e[n..][0];
      }
      RunLenIs(e, '`', n);
    } else {
      EscHead(tags, s);
    }
  }

  lemma TicksWithin(s: string)
    requires s != "" && s[0] == '`'
    ensures RunLen(s, '`') <= CodeLen(s)
  {
  }

  /** An escaped line shows the fence the line showed. */
  lemma EscKeepsFence(tags: Tags, line: string)
    ensures Fence(Esc(tags, line)) == Fence(line)
  {
    var i := RunLen(line, ' ');
    EscKeepsRunLen(tags, line, ' ');
    var rest := line[i..];
    EscHead(tags, rest);
    EscKeepsTicks(tags, rest);
    EscKeepsRunLen(tags, rest, '~');
    if rest != "" {
      assert Esc(tags, line)[i] == Esc(tags, rest)[0] && line[i] == rest[0];
    }
  }

  lemma EscapeKeepsState(tags: Tags, st: FenceState, line: string)
    ensures NextFence(st, EscapeOne(tags, st, line)) == NextFence(st, line)
    ensures Copied(st, EscapeOne(tags, st, line)) == Copied(st, line)
  {
    EscKeepsFence(tags, line);
  }

  // ----- Whole documents, line by line -----

  lemma {:induction false} EscapedLine(tags: Tags, st: FenceState, lines: seq<string>, i: nat)
    requires i < |lines|
    ensures EscapeLines(tags, st, lines)[i] == EscapeOne(tags, StateAt(st, lines, i), lines[i])
    decreases |lines|
  {
    if i > 0 {
      EscapedLine(tags, NextFence(st, lines[0]), lines[1..], i - 1);
    }
  }

  lemma {:induction false} EscapedLinesAreSafe(tags: Tags, st: FenceState, lines: seq<string>)
    requires PlainNames(tags)
    ensures SafeLines(tags, st, EscapeLines(tags, st, lines))
    decreases |lines|
  {
    if lines != [] {
      EscapeKeepsState(tags, st, lines[0]);
      EscapedIsSafe(tags, lines[0]);
      EscapedLinesAreSafe(tags, NextFence(st, lines[0]), lines[1..]);
    }
  }

  lemma {:induction false} SafeLinesAreFixed(tags: Tags, st: FenceState, lines: seq<string>)
    requires SafeLines(tags, st, lines)
    ensures EscapeLines(tags, st, lines) == lines
    decreases |lines|
  {
    if lines != [] {
      if !Copied(st, lines[0]) {
        SafeIsFixed(tags, lines[0]);
      }
      SafeLinesAreFixed(tags, NextFence(st, lines[0]), lines[1..]);
    }
  }

  lemma {:induction false} DecodeUndoesLines(tags: Tags, st: FenceState, lines: seq<string>)
    ensures DecodeLines(st, EscapeLines(tags, st, lines)) == lines <==> NoEntityInLines(st, lines)
    decreases |lines|
  {
    if lines != [] {
      var out := EscapeLines(tags, st, lines);
      EscapeKeepsState(tags, st, lines[0]);
      DecodeUndoesEscape(tags, lines[0]);
      DecodeUndoesLines(tags, NextFence(st, lines[0]), lines[1..]);
      var back := DecodeLines(st, out);
      assert out[1..] == EscapeLines(tags, NextFence(st, lines[0]), lines[1..]);
      assert back[1..] == DecodeLines(NextFence(st, lines[0]), out[1..]);
      assert back == lines <==> back[0] == lines[0] && back[1..] == lines[1..];
    }
  }

  // ----- Splitting and joining -----

  /** `src.split("\n")`. */
  function Split(src: string): (lines: seq<string>)
    ensures lines != []
  {
    if src == "" then [""]
    else
      var rest := Split(src[1..]);
      if src[0] == '\n' then [""] + rest else [[src[0]] + rest[0]] + rest[1..]
  }

  function JoinLines(lines: seq<string>): string
    requires lines != []
  {
    if |lines| == 1 then lines[0] else lines[0] + "\n" + JoinLines(lines[1..])
  }

  predicate OneLine(s: string) {
    '\n' !in s
  }

  lemma JoinCons(c: char, lines: seq<string>)
    requires lines != []
    ensures JoinLines([[c] + lines[0]] + lines[1..]) == [c] + JoinLines(lines)
  {
    assert ([[c] + lines[0]] + lines[1..])[1..] == lines[1..];
  }

  lemma JoinNewLine(lines: seq<string>)
    requires lines != []
    ensures JoinLines([""] + lines) == "\n" + JoinLines(lines)
  {
    assert ([""] + lines)[1..] == lines;
  }

  lemma {:induction false} SplitGivesLines(src: string)
    ensures JoinLines(Split(src)) == src
    ensures forall l :: l in Split(src) ==> OneLine(l)
  {
    if src != "" {
      SplitGivesLines(src[1..]);
      JoinNewLine(Split(src[1..]));
      JoinCons(src[0], Split(src[1..]));
      assert src == [src[0]] + src[1..];
      var rest := Split(src[1..]);
      forall l | l in Split(src) ensures OneLine(l) {
        assert l == "" || l in rest || l == [src[0]] + rest[0];
        assert rest[0] in rest;
      }
    }
  }

  lemma {:induction false} SplitOfJoin(lines: seq<string>)
    requires lines != [] && forall l :: l in lines ==> OneLine(l)
    ensures Split(JoinLines(lines)) == lines
    decreases |lines|, |lines[0]|
  {
    if |lines| == 1 {
      SplitOfLine(lines[0]);
    } else {
      SplitOfJoin(lines[1..]);
      SplitAfterLine(lines[0], JoinLines(lines[1..]));
      assert lines == [lines[0]] + lines[1..];
    }
  }

  lemma {:induction false} SplitOfLine(l: string)
    requires OneLine(l)
    ensures Split(l) == [l]
  {
    if l != "" {
      SplitOfLine(l[1..]);
      assert l == [l[0]] + l[1..];
    }
  }

  lemma {:induction false} SplitAfterLine(l: string, rest: string)
    requires OneLine(l)
    ensures Split(l + "\n" + rest) == [l] + Split(rest)
  {
    var s := l + "\n" + rest;
    if l == "" {
      assert s[0] == '\n' && s[1..] == rest;
    } else {
      assert s[0] == l[0] && s[1..] == l[1..] + "\n" + rest;
      SplitAfterLine(l[1..], rest);
      assert l == [l[0]] + l[1..];
      assert ([l[1..]] + Split(rest))[1..] == Split(rest);
    }
  }

  lemma {:induction false} EscKeepsOneLine(tags: Tags, s: string)
    requires OneLine(s)
    ensures OneLine(Esc(tags, s))
    decreases |s|
  {
    if s != "" {
      EscKeepsOneLine(tags, if s[0] == '`' then s[CodeLen(s)..] else s[1..]);
    }
  }

  lemma {:induction false} EscapeKeepsLines(tags: Tags, st: FenceState, lines: seq<string>)
    requires forall l :: l in lines ==> OneLine(l)
    ensures forall l :: l in EscapeLines(tags, st, lines) ==> OneLine(l)
    decreases |lines|
  {
    if lines != [] {
      EscKeepsOneLine(tags, lines[0]);
      EscapeKeepsLines(tags, NextFence(st, lines[0]), lines[1..]);
    }
  }

  // ----- The document -----

  function Escape(tags: Tags, src: string): string {
    JoinLines(EscapeLines(tags, NO_FENCE, Split(src)))
  }

  function DecodeDocument(src: string): string {
    JoinLines(DecodeLines(NO_FENCE, Split(src)))
  }

  lemma SplitOfEscape(tags: Tags, src: string)
    ensures Split(Escape(tags, src)) == EscapeLines(tags, NO_FENCE, Split(src))
  {
    SplitGivesLines(src);
    EscapeKeepsLines(tags, NO_FENCE, Split(src));
    SplitOfJoin(EscapeLines(tags, NO_FENCE, Split(src)));
  }

  /** The document keeps its lines; a line in or on a fence is copied, every other is
      the escaped line. */
  lemma EscapeLineByLine(tags: Tags, src: string, i: nat)
    ensures |Split(Escape(tags, src))| == |Split(src)|
    ensures i < |Split(src)| ==>
              Split(Escape(tags, src))[i] == EscapeOne(tags, StateAt(NO_FENCE, Split(src), i), Split(src)[i])
  {
    SplitOfEscape(tags, src);
    if i < |Split(src)| {
      EscapedLine(tags, NO_FENCE, Split(src), i);
    }
  }

  /** Nothing Vue would read is left outside fences and code spans. */
  lemma EscapedDocumentIsSafe(tags: Tags, src: string)
    requires PlainNames(tags)
    ensures SafeLines(tags, NO_FENCE, Split(Escape(tags, src)))
  {
    SplitOfEscape(tags, src);
    EscapedLinesAreSafe(tags, NO_FENCE, Split(src));
  }

  /** Escaping twice is escaping once. */
  lemma EscapeIsIdempotent(tags: Tags, src: string)
    requires PlainNames(tags)
    ensures Escape(tags, Escape(tags, src)) == Escape(tags, src)
  {
    EscapedDocumentIsSafe(tags, src);
    SafeLinesAreFixed(tags, NO_FENCE, Split(Escape(tags, src)));
    SplitOfEscape(tags, src);
  }

  /** Decoding the three references gives the document back exactly when it held none
      of them outside fences and code spans. */
  lemma DecodeUndoesDocument(tags: Tags, src: string)
    ensures DecodeDocument(Escape(tags, src)) == src <==> NoEntityInLines(NO_FENCE, Split(src))
  {
    var lines := Split(src);
    var out := EscapeLines(tags, NO_FENCE, lines);
    SplitOfEscape(tags, src);
    SplitGivesLines(src);
    DecodeUndoesLines(tags, NO_FENCE, lines);
    EscapeKeepsLines(tags, NO_FENCE, lines);
    DecodeKeepsLines(NO_FENCE, out);
    JoinIsInjective(DecodeLines(NO_FENCE, out), lines);
  }

  lemma JoinIsInjective(a: seq<string>, b: seq<string>)
    requires a != [] && b != [] && (forall l :: l in a ==> OneLine(l)) && (forall l :: l in b ==> OneLine(l))
    ensures JoinLines(a) == JoinLines(b) <==> a == b
  {
    SplitOfJoin(a);
    SplitOfJoin(b);
  }

  lemma {:induction false} DecodeKeepsOneLine(s: string)
    requires OneLine(s)
    ensures OneLine(Decode(s))
    decreases |s|
  {
    if s != "" {
      DecodeKeepsOneLine(if s[0] == '`' then s[CodeLen(s)..] else if StartsEntity(s) then s[Entity(s).0..] else s[1..]);
    }
  }

  lemma {:induction false} DecodeKeepsLines(st: FenceState, lines: seq<string>)
    requires forall l :: l in lines ==> OneLine(l)
    ensures forall l :: l in DecodeLines(st, lines) ==> OneLine(l)
    decreases |lines|
  {
    if lines != [] {
      DecodeKeepsOneLine(lines[0]);
      DecodeKeepsLines(NextFence(st, lines[0]), lines[1..]);
    }
  }

  // ----- The loops -----

  /** `escapeLine`. */
  method EscapeLine(tags: Tags, line: string) returns (result: string)
    ensures result == Esc(tags, line)
  {
    result := "";
    var i := 0;
    assert line[0..] == line;
    while i < |line|
      invariant 0 <= i <= |line|
      invariant result + Esc(tags, line[i..]) == Esc(tags, line)
    {
      var from := i;
      ghost var before := result;
      if line[i] == '`' {
        i := SkipCode(line, i);
        result := result + line[from..i];
      } else {
        if line[i] == '{' {
          result := result + "&#123;";
        } else if line[i] == '}' {
          result := result + "&#125;";
        } else if line[i] == '<' {
          if OpensKnown(tags, line[i..]) {
            result := result + "<";
          } else {
            result := result + "&lt;";
          }
        } else {
          result := result + [line[i]];
        }
        i := i + 1;
      }
      EscStep(tags, line, from, i);
      EscAppend(before, Piece(tags, line, from, i), Esc(tags, line[i..]));
    }
  }

  /** What one turn of the loop, from `i` to `next`, writes. */
  function Piece(tags: Tags, line: string, i: nat, next: nat): string
    requires i < next <= |line|
  {
    if line[i] == '`' then line[i..next] else EscapeChar(tags, line[i..])
  }

  lemma EscStep(tags: Tags, line: string, i: nat, next: nat)
    requires i < next <= |line| && next == if line[i] == '`' then i + CodeLen(line[i..]) else i + 1
    ensures Esc(tags, line[i..]) == Piece(tags, line, i, next) + Esc(tags, line[next..])
  {
    assert line[i..][next - i..] == line[next..];
    assert line[i..][..next - i] == line[i..next];
  }

  lemma EscAppend(a: string, b: string, c: string)
    ensures (a + b) + c == a + (b + c)
  {
  }

  /** The branch at a backtick: skips a code span, or an unmatched run. */
  method SkipCode(line: string, i: nat) returns (end: nat)
    requires i < |line| && line[i] == '`'
    ensures end == i + CodeLen(line[i..]) <= |line|
  {
    var runLen := TickRun(line, i);
    var found := FindClosing(line, i + runLen, runLen);
    CodeLenIs(line[i..], runLen, line[i + runLen..]);
    end := if found != -1 then found + runLen else i + runLen;
  }

  lemma CodeLenIs(s: string, n: nat, rest: string)
    requires s != "" && s[0] == '`' && n == RunLen(s, '`') && rest == s[n..]
    ensures CodeLen(s) == var f := FindClose(rest, n); if f < 0 then n else n + f + n
  {
  }

  /** The inner loop that measures a run of backticks. */
  method TickRun(line: string, i: nat) returns (n: nat)
    requires i <= |line|
    ensures n == RunLen(line[i..], '`')
  {
    n := 0;
    while i + n < |line| && line[i + n] == '`'
      invariant i + n <= |line|
      invariant forall k :: i <= k < i + n ==> line[k] == '`'
    {
      n := n + 1;
    }
    RunLenIs(line[i..], '`', n);
  }

  function Shift(from: nat, f: int): int {
    if f < 0 then -1 else from + f
  }

  lemma FindCloseStep(s: string, n: nat, k: nat)
    requires s != "" && k == (if s[0] == '`' then RunLen(s, '`') else 1) && (s[0] == '`' ==> k != n)
    ensures 0 < k <= |s| && FindClose(s, n) == Shift(k, FindClose(s[k..], n))
  {
  }

  /** One turn of the loop below: a closing run, or how far to go on. */
  method CloseOrSkip(line: string, j: nat, n: nat) returns (step: nat, closes: bool)
    requires j < |line| && n > 0
    ensures closes ==> FindClose(line[j..], n) == 0
    ensures !closes ==> 0 < step <= |line| - j && FindClose(line[j..], n) == Shift(step, FindClose(line[j + step..], n))
  {
    step, closes := 1, false;
    if line[j] == '`' {
      step := TickRun(line, j);
      if step == n {
        closes := true;
        return;
      }
    }
    FindCloseStep(line[j..], n, step);
    assert line[j + step..] == line[j..][step..];
  }

  /** The inner loop that looks for a closing run of exactly `n` backticks. */
  method FindClosing(line: string, from: nat, n: nat) returns (found: int)
    requires from <= |line| && n > 0
    ensures found == var f := FindClose(line[from..], n); if f < 0 then -1 else from + f
  {
    ghost var target := Shift(from, FindClose(line[from..], n));
    var j := from;
    while j < |line|
      invariant from <= j <= |line|
      invariant target == Shift(j, FindClose(line[j..], n))
      decreases |line| - j
    {
      var step, closes := CloseOrSkip(line, j, n);
      if closes {
        return j;
      }
      j := j + step;
    }
    return -1;
  }

  lemma LinesAppend(a: seq<string>, l: string, c: seq<string>)
    ensures (a + [l]) + c == a + ([l] + c)
  {
  }

  /** The callback `escapeVueSyntax` maps over the lines. */
  method EscapeNext(tags: Tags, st: FenceState, line: string) returns (out: string, next: FenceState)
    ensures out == EscapeOne(tags, st, line) && next == NextFence(st, line)
  {
    var fence := Fence(line);
    if fence.len > 0 {
      if st.len == 0 {
        return line, fence;
      }
      if fence.ch == st.ch && fence.len >= st.len && Trim(line) == Repeat(fence.ch, fence.len) {
        return line, NO_FENCE;
      }
      return line, st;
    }
    if st.len > 0 {
      return line, st;
    }
    out := EscapeLine(tags, line);
    next := st;
  }

  /** `escapeVueSyntax`. */
  method EscapeVueSyntax(tags: Tags, src: string) returns (escaped: string)
    ensures escaped == Escape(tags, src)
  {
    var lines := Split(src);
    var out := [];
    var st := NO_FENCE;
    for i := 0 to |lines|
      invariant |out| == i
      invariant out + EscapeLines(tags, st, lines[i..]) == EscapeLines(tags, NO_FENCE, lines)
    {
      assert lines[i..][0] == lines[i] && lines[i..][1..] == lines[i + 1..];
      var line, next := EscapeNext(tags, st, lines[i]);
      LinesAppend(out, line, EscapeLines(tags, next, lines[i + 1..]));
      out, st := out + [line], next;
    }
    assert lines[|lines|..] == [] && lines[0..] == lines;
    assert out == EscapeLines(tags, NO_FENCE, lines);
    escaped := JoinLines(out);
  }
}
