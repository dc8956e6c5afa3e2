/** Where a document's fences open and close, in terms of its lines alone. */
module VueFences {
  import opened VueEscape
  import opened VueDocument

  /** The line has `a` spaces, then a run of exactly `n` of the character. */
  predicate ShowsAt(line: string, n: nat, c: char, a: nat) {
    && a + n <= |line| && (forall k :: 0 <= k < a ==> line[k] == ' ') && (forall k :: a <= k < a + n ==> line[k] == c)
    && (a + n < |line| ==> line[a + n] != c)
  }

  /** A fence: at most three spaces, then three or more of a backtick or a tilde. */
  ghost predicate Shows(line: string, n: nat, c: char) {
    n >= 3 && (c == '`' || c == '~') && exists a: nat :: a <= 3 && ShowsAt(line, n, c, a)
  }

  /** A fence with nothing but blanks behind it. */
  ghost predicate ShowsOnly(line: string, n: nat, c: char) {
    && n >= 3 && (c == '`' || c == '~')
    && exists a: nat :: a <= 3 && ShowsAt(line, n, c, a) && forall k :: a + n <= k < |line| ==> IsSpace(line[k])
  }

  lemma SpacesThenRun(line: string, n: nat, c: char, a: nat)
    requires n > 0 && c != ' ' && ShowsAt(line, n, c, a)
    ensures RunLen(line, ' ') == a && RunLen(line[a..], c) == n
  {
    RunLenIs(line, ' ', a);
    RunLenIs(line[a..], c, n);
  }

  /** The state machine reads exactly the fence off a line that the line shows. */
  lemma FenceExactly(line: string, n: nat, c: char)
    requires n > 0
    ensures Fence(line) == FenceState(n, c) <==> Shows(line, n, c)
  {
    var a := RunLen(line, ' ');
    if Fence(line) == FenceState(n, c) {
      forall k | a <= k < a + n ensures line[k] == c {
        assert line[k] == line[a..][k - a];
      }
      assert ShowsAt(line, n, c, a);
    }
    if Shows(line, n, c) {
      var b: nat :| b <= 3 && ShowsAt(line, n, c, b);
      SpacesThenRun(line, n, c, b);
    }
  }

  // ----- Closing -----

  lemma {:induction false} TrimLeftIs(s: string, a: nat)
    requires a <= |s| && (forall k :: 0 <= k < a ==> IsSpace(s[k])) && (a < |s| ==> !IsSpace(s[a]))
    ensures TrimLeft(s) == s[a..]
  {
    if a > 0 {
      TrimLeftIs(s[1..], a - 1);
    }
  }

  lemma {:induction false} TrimRightIs(s: string, b: nat)
    requires b <= |s| && (forall k :: b <= k < |s| ==> IsSpace(s[k])) && (b > 0 ==> !IsSpace(s[b - 1]))
    ensures TrimRight(s) == s[..b]
  {
    if b < |s| {
      TrimRightIs(s[..|s| - 1], b);
    }
  }

  /** What trimming takes away is blank. */
  lemma {:induction false} TrimRightTakesBlanks(s: string)
    ensures TrimRight(s) <= s && forall k :: |TrimRight(s)| <= k < |s| ==> IsSpace(s[k])
  {
    if s != "" && IsSpace(s[|s| - 1]) {
      TrimRightTakesBlanks(s[..|s| - 1]);
    }
  }

  lemma TrimmedFence(line: string, n: nat, c: char, a: nat)
    requires n > 0 && (c == '`' || c == '~') && ShowsAt(line, n, c, a)
    ensures Trim(line) == Repeat(c, n) <==> forall k :: a + n <= k < |line| ==> IsSpace(line[k])
  {
    TrimLeftIs(line, a);
    var rest := line[a..];
    assert rest[..n] == Repeat(c, n);
    if Trim(line) == Repeat(c, n) {
      TrimRightTakesBlanks(rest);
      forall k | a + n <= k < |line| ensures IsSpace(line[k]) {
        assert line[k] == rest[k - a];
      }
    }
    if forall k :: a + n <= k < |line| ==> IsSpace(line[k]) {
      TrimRightIs(rest, n);
    }
  }

  /** A fence closes exactly at a line that shows nothing but one of the same character,
      at least as long; a line opens one exactly where none is open and it shows one. */
  lemma NextExactly(st: FenceState, line: string)
    requires st.len == 0 || st.len >= 3
    ensures st.len > 0 && (forall m: nat :: ShowsOnly(line, m, st.ch) ==> m < st.len) ==>
              NextFence(st, line) == st
    ensures st.len > 0 && (exists m: nat :: m >= st.len && ShowsOnly(line, m, st.ch)) ==>
              NextFence(st, line) == NO_FENCE
    ensures st.len == 0 ==> forall n: nat, c :: Shows(line, n, c) ==> NextFence(st, line) == FenceState(n, c)
    ensures st.len == 0 && (forall n: nat, c :: !Shows(line, n, c)) ==> NextFence(st, line) == st
  {
    var f := Fence(line);
    if f.len > 0 {
      FenceExactly(line, f.len, f.ch);
      var a: nat :| a <= 3 && ShowsAt(line, f.len, f.ch, a);
      TrimmedFence(line, f.len, f.ch, a);
      assert Trim(line) == Repeat(f.ch, f.len) ==> ShowsOnly(line, f.len, f.ch);
    }
    forall n: nat, c | Shows(line, n, c) ensures f == FenceState(n, c) {
      FenceExactly(line, n, c);
    }
    forall m: nat, c | ShowsOnly(line, m, c) ensures f == FenceState(m, c) && Trim(line) == Repeat(c, m) {
      FenceExactly(line, m, c);
      var a: nat :| a <= 3 && ShowsAt(line, m, c, a) && forall k :: a + m <= k < |line| ==> IsSpace(line[k]);
      TrimmedFence(line, m, c, a);
    }
  }

  // ----- Whole documents -----

  /** Line `j` opens a fence that no line before `i` closes. */
  ghost predicate OpenSince(lines: seq<string>, j: nat, i: nat, n: nat, c: char)
    requires i <= |lines|
    decreases j, 1
  {
    && j < i && !InFence(lines, j) && Shows(lines[j], n, c)
    && forall k, m: nat :: j < k < i && ShowsOnly(lines[k], m, c) ==> m < n
  }

  /** Line `i` is within a fence. */
  ghost predicate InFence(lines: seq<string>, i: nat)
    requires i <= |lines|
    decreases i, 0
  {
    exists j: nat, n: nat, c | j < i :: OpenSince(lines, j, i, n, c)
  }

  lemma {:induction false} StateNext(st: FenceState, lines: seq<string>, i: nat)
    requires i < |lines|
    ensures StateAt(st, lines, i + 1) == NextFence(StateAt(st, lines, i), lines[i])
    decreases |lines|
  {
    if i > 0 {
      StateNext(NextFence(st, lines[0]), lines[1..], i - 1);
    }
  }

  lemma OpenLonger(lines: seq<string>, j: nat, i: nat, n: nat, c: char)
    requires j < i < |lines|
    ensures OpenSince(lines, j, i + 1, n, c)
            <==> OpenSince(lines, j, i, n, c) && forall m: nat :: ShowsOnly(lines[i], m, c) ==> m < n
  {
  }

  lemma OpenNow(lines: seq<string>, i: nat, n: nat, c: char)
    requires i < |lines|
    ensures OpenSince(lines, i, i + 1, n, c) <==> !InFence(lines, i) && Shows(lines[i], n, c)
  {
  }

  /** `st` is the fence that is open before line `i`. */
  ghost predicate Tracks(lines: seq<string>, i: nat, st: FenceState)
    requires i <= |lines|
  {
    && (st == NO_FENCE || st.len >= 3)
    && (forall j: nat, n: nat, c | j < i :: OpenSince(lines, j, i, n, c) ==> st == FenceState(n, c))
    && (st != NO_FENCE ==> exists j: nat | j < i :: OpenSince(lines, j, i, st.len, st.ch))
  }

  lemma TracksOutside(lines: seq<string>, i: nat)
    requires i < |lines| && Tracks(lines, i, NO_FENCE)
    ensures Tracks(lines, i + 1, NextFence(NO_FENCE, lines[i]))
  {
    var next := NextFence(NO_FENCE, lines[i]);
    NextExactly(NO_FENCE, lines[i]);
    forall n: nat, c | Shows(lines[i], n, c) ensures next == FenceState(n, c) {
      FenceExactly(lines[i], n, c);
    }
    var after := i + 1;
    forall j: nat, n: nat, c | j < after && OpenSince(lines, j, after, n, c) ensures next == FenceState(n, c) {
      if j < i {
        OpenLonger(lines, j, i, n, c);
      }
    }
    if next != NO_FENCE {
      FenceExactly(lines[i], next.len, next.ch);
      OpenNow(lines, i, next.len, next.ch);
    }
  }

  lemma TracksWithin(lines: seq<string>, i: nat, st: FenceState)
    requires i < |lines| && Tracks(lines, i, st) && st != NO_FENCE
    ensures Tracks(lines, i + 1, NextFence(st, lines[i]))
  {
    var next := NextFence(st, lines[i]);
    NextExactly(st, lines[i]);
    var first: nat :| first < i && OpenSince(lines, first, i, st.len, st.ch);
    assert InFence(lines, i);
    var after := i + 1;
    forall j: nat, n: nat, c | j < after && OpenSince(lines, j, after, n, c) ensures next == FenceState(n, c) {
      if j < i {
        OpenLonger(lines, j, i, n, c);
      }
    }
    if next != NO_FENCE {
      OpenLonger(lines, first, i, st.len, st.ch);
    }
  }

  /** The state before a line is the fence that is open there, and none outside of all. */
  lemma {:induction false} StateExactly(lines: seq<string>, i: nat)
    requires i <= |lines|
    ensures Tracks(lines, i, StateAt(NO_FENCE, lines, i))
    ensures StateAt(NO_FENCE, lines, i) != NO_FENCE <==> InFence(lines, i)
  {
    if i > 0 {
      var st := StateAt(NO_FENCE, lines, i - 1);
      StateExactly(lines, i - 1);
      StateNext(NO_FENCE, lines, i - 1);
      if st == NO_FENCE {
        TracksOutside(lines, i - 1);
      } else {
        TracksWithin(lines, i - 1, st);
      }
    }
  }

  /** A line is copied exactly within a fence or where it shows one; all others are escaped. */
  lemma EscapedExactly(tags: Tags, src: string, i: nat)
    requires i < |Split(src)|
    ensures var lines, escaped := Split(src), Split(Escape(tags, src));
            && |escaped| == |lines|
            && escaped[i] == if InFence(lines, i) || (exists n: nat, c :: Shows(lines[i], n, c)) then lines[i]
                             else Esc(tags, lines[i])
  {
    var lines := Split(src);
    EscapeLineByLine(tags, src, i);
    StateExactly(lines, i);
    var f := Fence(lines[i]);
    if f.len > 0 {
      FenceExactly(lines[i], f.len, f.ch);
    }
    forall n: nat, c | Shows(lines[i], n, c) ensures f.len > 0 {
      FenceExactly(lines[i], n, c);
    }
  }
}
