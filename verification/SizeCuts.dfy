/** The two size cuts that run when the output is assembled: the raw suffix budget
    and the cut on the encoded record. Both keep an ordered suffix, oldest first
    to go, and both are shown to keep the largest one that fits. */
module SizeCuts {
  import opened GoText
  import opened ContentPart

  /** `kept` is the largest cut suffix of `ps` of at most `n` raw bytes. */
  ghost predicate LargestInBudget(kept: seq<Part>, ps: seq<Part>, n: int) {
    && CutSuffix(kept, ps)
    && SumSize(kept) <= n
    && forall other :: CutSuffix(other, ps) && SumSize(other) <= n ==>
         |other| <= |kept| && SumSize(other) <= SumSize(kept)
  }

  /** `kept` is the largest cut suffix of `ps` whose parts encode to at most `n`
      bytes; no parts at all always fit, since they produce no record. */
  ghost predicate LargestEncoded(kept: seq<Part>, ps: seq<Part>, n: int) {
    && CutSuffix(kept, ps)
    && (kept != [] ==> |Join(kept)| <= n)
    && forall other :: CutSuffix(other, ps) && other != [] && |Join(other)| <= n ==>
         |other| <= |kept| && SumSize(other) <= SumSize(kept)
  }

  predicate AllWellFormed(ps: seq<Part>) {
    forall p :: p in ps ==> WellFormed(p) && ContentBytes(p) > 0
  }

  predicate AnyTruncated(ps: seq<Part>) {
    exists p :: p in ps && p.truncated
  }

  /** Both descriptions pin the kept parts down: two cut suffixes of the same length
      and footprint are the same list. */
  lemma {:induction false} SameCutSuffix(a: seq<Part>, b: seq<Part>, ps: seq<Part>)
    requires CutSuffix(a, ps) && CutSuffix(b, ps) && |a| == |b| && SumSize(a) == SumSize(b)
    ensures a == b
  {
    if a != [] {
      CandidateSize(a, ps);
      CandidateSize(b, ps);
      assert a == [a[0]] + a[1..];
      assert b == [b[0]] + b[1..];
    }
  }

  lemma LargestInBudgetIsUnique(a: seq<Part>, b: seq<Part>, ps: seq<Part>, n: int)
    requires LargestInBudget(a, ps, n) && LargestInBudget(b, ps, n)
    ensures a == b
  {
    SameCutSuffix(a, b, ps);
  }

  lemma LargestEncodedIsUnique(a: seq<Part>, b: seq<Part>, ps: seq<Part>, n: int)
    requires LargestEncoded(a, ps, n) && LargestEncoded(b, ps, n)
    ensures a == b
  {
    SameCutSuffix(a, b, ps);
  }

  // ----- Facts about candidates -----

  lemma SumSizeSplit(ps: seq<Part>, i: nat)
    requires i <= |ps|
    ensures SumSize(ps) == SumSize(ps[..i]) + SumSize(ps[i..])
  {
    assert ps == ps[..i] + ps[i..];
    SumSizeConcat(ps[..i], ps[i..]);
  }

  lemma SumSizeFrom(ps: seq<Part>, i: nat)
    requires i < |ps|
    ensures SumSize(ps[i..]) == PartSize(ps[i]) + SumSize(ps[i + 1..])
  {
    assert ps[i..][1..] == ps[i + 1..];
  }

  lemma SumSizeSuffix(ps: seq<Part>, i: nat, j: nat)
    requires i <= j <= |ps|
    ensures SumSize(ps[j..]) <= SumSize(ps[i..])
  {
    assert ps[i..][j - i..] == ps[j..];
    SumSizeSplit(ps[i..], j - i);
  }

  /** The raw size of a candidate, read off its head. */
  lemma CandidateSize(other: seq<Part>, ps: seq<Part>)
    requires CutSuffix(other, ps) && other != []
    ensures var i := |ps| - |other|;
            && SumSize(other) == PartSize(other[0]) + SumSize(ps[i + 1..])
            && PartSize(other[0]) == PartSize(ps[i]) - |Bulk(ps[i])| + |Bulk(other[0])|
            && SumSize(other) <= SumSize(ps[i..])
  {
    var i := |ps| - |other|;
    SumSizeFrom(ps, i);
    if other[0] != ps[i] {
      CutSize(ps[i], Bulk(other[0]));
    }
  }

  lemma CutSuffixSize(other: seq<Part>, ps: seq<Part>)
    requires CutSuffix(other, ps)
    ensures SumSize(other) <= SumSize(ps[|ps| - |other|..])
  {
    if other != [] {
      CandidateSize(other, ps);
    }
  }

  lemma CutSuffixNotLarger(other: seq<Part>, ps: seq<Part>)
    requires CutSuffix(other, ps)
    ensures SumSize(other) <= SumSize(ps)
  {
    if other != [] {
      CandidateSize(other, ps);
      SumSizeSuffix(ps, 0, |ps| - |other|);
    }
  }

  /** Putting the parts after `i` back behind part `i`, cut or whole, is a suffix. */
  lemma HeadedSuffix(q: Part, ps: seq<Part>, i: nat)
    requires i < |ps| && (q == ps[i] || CutOf(q, ps[i]))
    ensures CutSuffix([q] + ps[i + 1..], ps)
    ensures SumSize([q] + ps[i + 1..]) == PartSize(q) + SumSize(ps[i + 1..])
  {
    assert ([q] + ps[i + 1..])[1..] == ps[i + 1..];
  }

  lemma ProperTailIsCut(p: Part, t: Bytes)
    requires WellFormed(p) && p.kind != ToolCall && t != "" && |t| < |Bulk(p)| && RuneTail(t, Bulk(p))
    ensures CutOf(Cut(p, t), p)
  {
  }

  // ----- The raw budget -----

  /** `t` is what `remaining` bytes leave of `p`: its longest proper tail that fits
      next to its other fields, nothing when there is none or `p` is a tool call. */
  ghost predicate LongestThatFits(t: Bytes, p: Part, remaining: int) {
    && RuneTail(t, Bulk(p))
    && (t != "" ==> p.kind != ToolCall && |t| < |Bulk(p)| && PartSize(p) - |Bulk(p)| + |t| <= remaining)
    && (p.kind != ToolCall ==>
          forall u :: RuneTail(u, Bulk(p)) && PartSize(p) - |Bulk(p)| + |u| <= remaining ==> |u| <= |t|)
  }

  /** `rest` behind the tail `t` of `p`, or alone when the tail is empty. */
  function Headed(p: Part, t: Bytes, rest: seq<Part>): (kept: seq<Part>)
    ensures |kept| == |rest| + (if t == "" then 0 else 1)
    ensures SumSize(kept) == SumSize(rest) + (if t == "" then 0 else PartSize(p) - |Bulk(p)| + |t|)
  {
    if t == "" then rest
    else
      CutSize(p, t);
      assert ([Cut(p, t)] + rest)[1..] == rest;
      [Cut(p, t)] + rest
  }

  lemma HeadedIsCandidate(ps: seq<Part>, i: nat, t: Bytes)
    requires i < |ps| && WellFormed(ps[i])
    requires t != "" ==> ps[i].kind != ToolCall && |t| < |Bulk(ps[i])| && RuneTail(t, Bulk(ps[i]))
    ensures CutSuffix(Headed(ps[i], t, ps[i + 1..]), ps)
  {
    if t != "" {
      ProperTailIsCut(ps[i], t);
      HeadedSuffix(Cut(ps[i], t), ps, i);
    } else if i + 1 < |ps| {
      assert ps[i + 1..][1..] == ps[i + 2..];
    }
  }

  /** A candidate that starts at part `i` or later is no larger than `kept`, if one
      that starts at part `i` is not. */
  lemma {:induction false} Dominates(ps: seq<Part>, i: nat, kept: seq<Part>, other: seq<Part>)
    requires |other| <= |ps| - i && i < |ps|
    requires SumSize(other) <= SumSize(ps[|ps| - |other|..])
    requires |ps| - i - 1 <= |kept| && SumSize(ps[i + 1..]) <= SumSize(kept)
    requires |other| == |ps| - i ==> |other| <= |kept| && SumSize(other) <= SumSize(kept)
    ensures |other| <= |kept| && SumSize(other) <= SumSize(kept)
  {
    if |other| < |ps| - i {
      SumSizeSuffix(ps, i + 1, |ps| - |other|);
    }
  }

  lemma OlderExceeds(ps: seq<Part>, i: nat, n: int, other: seq<Part>)
    requires i < |ps| && n < SumSize(ps[i..])
    requires CutSuffix(other, ps) && |other| > |ps| - i
    ensures SumSize(other) > n
  {
    CandidateSize(other, ps);
    SumSizeSuffix(ps, |ps| - |other| + 1, i);
  }

  /** Stopping at the newest part that does not fit whole, and keeping what is left
      of it, is optimal. */
  lemma BudgetCutIsLargest(ps: seq<Part>, i: nat, n: int, t: Bytes)
    requires i < |ps| && WellFormed(ps[i])
    requires SumSize(ps[i + 1..]) <= n < SumSize(ps[i..])
    requires LongestThatFits(t, ps[i], n - SumSize(ps[i + 1..]))
    ensures LargestInBudget(Headed(ps[i], t, ps[i + 1..]), ps, n)
  {
    HeadedIsCandidate(ps, i, t);
    forall other | CutSuffix(other, ps) && SumSize(other) <= n
      ensures |other| <= |Headed(ps[i], t, ps[i + 1..])| && SumSize(other) <= SumSize(Headed(ps[i], t, ps[i + 1..]))
    {
      BudgetCandidate(ps, i, n, t, other);
    }
  }

  lemma BudgetCandidate(ps: seq<Part>, i: nat, n: int, t: Bytes, other: seq<Part>)
    requires i < |ps| && n < SumSize(ps[i..])
    requires LongestThatFits(t, ps[i], n - SumSize(ps[i + 1..]))
    requires CutSuffix(other, ps) && SumSize(other) <= n
    ensures var kept := Headed(ps[i], t, ps[i + 1..]); |other| <= |kept| && SumSize(other) <= SumSize(kept)
  {
    if |other| > |ps| - i {
      OlderExceeds(ps, i, n, other);
    }
    if |other| == |ps| - i {
      CutHere(ps, i, n, other);
    }
    CutSuffixSize(other, ps);
    Dominates(ps, i, Headed(ps[i], t, ps[i + 1..]), other);
  }

  /** A candidate that starts at part `i` cuts it to a tail that fits. */
  lemma CutHere(ps: seq<Part>, i: nat, n: int, other: seq<Part>)
    requires i < |ps| && n < SumSize(ps[i..])
    requires CutSuffix(other, ps) && |other| == |ps| - i && SumSize(other) <= n
    ensures var u := Bulk(other[0]);
            && RuneTail(u, Bulk(ps[i])) && u != "" && ps[i].kind != ToolCall
            && SumSize(other) == PartSize(ps[i]) - |Bulk(ps[i])| + |u| + SumSize(ps[i + 1..])
  {
    CandidateSize(other, ps);
    SumSizeFrom(ps, i);
  }

  /** The list read backwards: the loop below collects newest first. */
  function Reversed<T>(s: seq<T>): (r: seq<T>)
    ensures |r| == |s| && forall k :: 0 <= k < |s| ==> r[k] == s[|s| - 1 - k]
  {
    seq(|s|, k requires 0 <= k < |s| => s[|s| - 1 - k])
  }

  lemma ReversedAppend<T>(s: seq<T>, p: T)
    ensures Reversed(s + [p]) == [p] + Reversed(s)
  {
  }

  lemma ReversedIs<T>(r: seq<T>, s: seq<T>)
    requires |r| == |s| && forall k :: 0 <= k < |s| ==> r[k] == s[|s| - 1 - k]
    ensures r == Reversed(s)
  {
  }

  /** The list with its first `i` and last `i` elements swapped. */
  ghost predicate Swapped<T>(r: seq<T>, s: seq<T>, i: nat) {
    && |r| == |s| && 2 * i <= |s| + 1
    && (forall k {:trigger r[k]} :: 0 <= k < |s| && (k < i || k >= |s| - i) ==> r[k] == s[|s| - 1 - k])
    && (forall k {:trigger r[k]} :: i <= k < |s| - i ==> r[k] == s[k])
  }

  /** The swap loop that puts the kept parts back in stream order. */
  method Reverse<T>(s: seq<T>) returns (r: seq<T>)
    ensures r == Reversed(s)
  {
    r := s;
    var i, j := 0, |s| - 1;
    while i < j
      invariant 0 <= i <= j + 1 && j == |s| - 1 - i && Swapped(r, s, i)
    {
      r := r[i := r[j]][j := r[i]];
      i, j := i + 1, j - 1;
    }
    ReversedIs(r, s);
  }

  /** The tail of `p` that fits in `remaining` bytes next to its other fields. */
  method TailWithin(p: Part, remaining: nat) returns (tail: Bytes)
    requires PartSize(p) > remaining
    ensures LongestThatFits(tail, p, remaining)
  {
    var bulk := Bulk(p);
    var nonBulk := PartSize(p) - |bulk|;
    tail := "";
    if p.kind != ToolCall && remaining > nonBulk {
      tail := TailToRuneBoundary(bulk, remaining - nonBulk);
      TailIsLongest(bulk, remaining - nonBulk);
    }
  }

  lemma TakeWhole(acc: seq<Part>, ps: seq<Part>, i: nat)
    requires i < |ps| && Reversed(acc) == ps[i + 1..]
    ensures Reversed(acc + [ps[i]]) == ps[i..]
  {
    ReversedAppend(acc, ps[i]);
    assert [ps[i]] + ps[i + 1..] == ps[i..];
  }

  /** Where the loop below is: the parts after `i` are kept whole, or something was cut
      or dropped and what is kept is final. */
  ghost predicate CutSoFar(ps: seq<Part>, maxBytes: nat, i: int, acc: seq<Part>, remaining: nat, dropped: nat,
                           full: bool)
    requires -1 <= i < |ps|
  {
    && (!full ==> Reversed(acc) == ps[i + 1..] && remaining == maxBytes - SumSize(ps[i + 1..]))
    && (full ==> LargestInBudget(Reversed(acc), ps, maxBytes))
    && SumSize(Reversed(acc)) + dropped == SumSize(ps[i + 1..])
    && (full <==> dropped > 0)
  }

  lemma WholeFits(ps: seq<Part>, maxBytes: nat, i: nat, acc: seq<Part>, remaining: nat, dropped: nat)
    requires i < |ps| && CutSoFar(ps, maxBytes, i, acc, remaining, dropped, false) && PartSize(ps[i]) <= remaining
    ensures CutSoFar(ps, maxBytes, i - 1, acc + [ps[i]], remaining - PartSize(ps[i]), dropped, false)
  {
    SumSizeFrom(ps, i);
    TakeWhole(acc, ps, i);
  }

  lemma FirstIsCut(ps: seq<Part>, maxBytes: nat, i: nat, acc: seq<Part>, remaining: nat, dropped: nat, tail: Bytes)
    requires i < |ps| && WellFormed(ps[i]) && CutSoFar(ps, maxBytes, i, acc, remaining, dropped, false)
    requires PartSize(ps[i]) > remaining && LongestThatFits(tail, ps[i], remaining)
    ensures var p := ps[i];
            CutSoFar(ps, maxBytes, i - 1, if tail == "" then acc else acc + [Cut(p, tail)], remaining,
                     dropped + if tail == "" then PartSize(p) else |Bulk(p)| - |tail|, true)
  {
    SumSizeFrom(ps, i);
    BudgetCutIsLargest(ps, i, maxBytes, tail);
    ReversedAppend(acc, Cut(ps[i], tail));
  }

  lemma OlderDrops(ps: seq<Part>, maxBytes: nat, i: nat, acc: seq<Part>, remaining: nat, dropped: nat)
    requires i < |ps| && CutSoFar(ps, maxBytes, i, acc, remaining, dropped, true)
    ensures CutSoFar(ps, maxBytes, i - 1, acc, remaining, dropped + PartSize(ps[i]), true)
  {
    SumSizeFrom(ps, i);
  }

  lemma CutIsDone(ps: seq<Part>, maxBytes: nat, acc: seq<Part>, remaining: nat, dropped: nat, full: bool)
    requires CutSoFar(ps, maxBytes, -1, acc, remaining, dropped, full)
    ensures LargestInBudget(Reversed(acc), ps, maxBytes) && SumSize(Reversed(acc)) + dropped == SumSize(ps)
  {
    assert ps[0..] == ps;
    if !full {
      WholeIsLargest(ps, maxBytes);
    }
  }

  /** The suffix budget: newest first, whole parts while they fit, then what is left
      of the first that does not, then nothing. */
  method SuffixCut(ps: seq<Part>, maxBytes: nat) returns (kept: seq<Part>, dropped: nat, truncated: bool)
    requires AllWellFormed(ps)
    ensures LargestInBudget(kept, ps, maxBytes)
    ensures SumSize(kept) + dropped == SumSize(ps)
    ensures truncated <==> dropped > 0
  {
    var remaining := maxBytes;
    var acc := [];
    var full := false;
    dropped, truncated := 0, false;
    var i := |ps| - 1;
    assert Reversed(acc) == ps[|ps|..];
    while i >= 0
      invariant -1 <= i < |ps| && truncated == full
      invariant CutSoFar(ps, maxBytes, i, acc, remaining, dropped, full)
    {
      var p := ps[i];
      var size := PartSize(p);
      assert p in ps;
      if !full && size <= remaining {
        WholeFits(ps, maxBytes, i, acc, remaining, dropped);
        remaining := remaining - size;
        acc := acc + [p];
        i := i - 1;
        continue;
      }
      truncated := true;
      var tail := "";
      if !full {
        tail := TailWithin(p, remaining);
        FirstIsCut(ps, maxBytes, i, acc, remaining, dropped, tail);
      } else {
        OlderDrops(ps, maxBytes, i, acc, remaining, dropped);
      }
      if tail != "" {
        dropped := dropped + |Bulk(p)| - |tail|;
        acc := acc + [Cut(p, tail)];
      } else {
        dropped := dropped + size;
      }
      full := true;
      i := i - 1;
    }
    CutIsDone(ps, maxBytes, acc, remaining, dropped, full);
    kept := Reverse(acc);
  }

  lemma WholeIsLargest(ps: seq<Part>, n: int)
    requires SumSize(ps) <= n
    ensures LargestInBudget(ps, ps, n)
  {
    forall other | CutSuffix(other, ps) && SumSize(other) <= n
      ensures |other| <= |ps| && SumSize(other) <= SumSize(ps)
    {
      CutSuffixNotLarger(other, ps);
    }
  }

  // ----- The encoded record -----

  /** No candidate that starts before part `i` encodes to at most `n` bytes. */
  ghost predicate NothingOlderFits(ps: seq<Part>, i: nat, n: int) {
    forall other :: CutSuffix(other, ps) && |other| > |ps| - i && other != [] ==> |Join(other)| > n
  }

  lemma JoinGrows(q: Part, rest: seq<Part>)
    ensures |Join(rest)| <= |Join([q] + rest)|
  {
    assert ([q] + rest)[1..] == rest;
  }

  /** A length that no part put in front makes smaller. */
  ghost predicate Growing(len: seq<Part> -> nat) {
    forall q, rest :: len(rest) <= len([q] + rest)
  }

  lemma {:induction false} LengthFrom(len: seq<Part> -> nat, ps: seq<Part>, i: nat, j: nat)
    requires Growing(len) && i <= j <= |ps|
    ensures len(ps[j..]) <= len(ps[i..])
    decreases j - i
  {
    if i < j {
      LengthFrom(len, ps, i + 1, j);
      assert ps[i..] == [ps[i]] + ps[i + 1..];
    }
  }

  /** A candidate is its head and the parts behind it. */
  lemma CandidateSplit(other: seq<Part>, ps: seq<Part>)
    requires CutSuffix(other, ps) && other != []
    ensures other == [other[0]] + ps[|ps| - |other| + 1..]
  {
  }

  lemma CandidateLength(len: seq<Part> -> nat, other: seq<Part>, ps: seq<Part>, i: nat)
    requires Growing(len) && CutSuffix(other, ps) && |other| > |ps| - i && i <= |ps|
    ensures len(ps[i..]) <= len(other)
  {
    CandidateSplit(other, ps);
    LengthFrom(len, ps, |ps| - |other| + 1, i);
  }

  lemma CandidateJoin(other: seq<Part>, ps: seq<Part>, i: nat)
    requires CutSuffix(other, ps) && |other| > |ps| - i && i <= |ps|
    ensures |Join(ps[i..])| <= |Join(other)|
  {
    var len := (x: seq<Part>) => |Join(x)|;
    forall q, rest ensures len(rest) <= len([q] + rest) {
      JoinGrows(q, rest);
    }
    CandidateLength(len, other, ps, i);
  }

  function Reserve(p: Part): nat {
    if p.truncated then 0 else TRUNCATED_FOOTPRINT
  }

  /** What cutting part `i`, now the oldest, to `u` makes of the record's length. */
  lemma CutJoin(ps: seq<Part>, i: nat, u: Bytes)
    requires i < |ps| && ps[i].kind != ToolCall && u != "" && Bulk(ps[i]) != ""
    ensures |Join([Cut(ps[i], u)] + ps[i + 1..])|
            == |Join(ps[i..])| - EncodedLen(Bulk(ps[i])) + EncodedLen(u) + Reserve(ps[i])
  {
    assert ps[i..] == [ps[i]] + ps[i + 1..];
    JoinHead(ps[i], Cut(ps[i], u), ps[i + 1..]);
    CutSavesExactly(ps[i], u);
  }

  /** How many bytes the bulk field of part `i`, now the oldest, may still encode to. */
  function Allowance(ps: seq<Part>, i: nat, n: int): int
    requires i < |ps|
  {
    EncodedLen(Bulk(ps[i])) - (|Join(ps[i..])| - n) - Reserve(ps[i])
  }

  lemma CandidateHere(ps: seq<Part>, i: nat, n: int, other: seq<Part>)
    requires i < |ps| && |Join(ps[i..])| > n
    requires CutSuffix(other, ps) && |other| == |ps| - i && |Join(other)| <= n
    ensures var u := Bulk(other[0]);
            && RuneTail(u, Bulk(ps[i])) && u != "" && EncodedLen(u) <= Allowance(ps, i, n)
            && SumSize(other) == PartSize(ps[i]) - |Bulk(ps[i])| + |u| + SumSize(ps[i + 1..])
  {
    CandidateSplit(other, ps);
    WholeDoesNotFit(ps, i, n);
    CutJoin(ps, i, Bulk(other[0]));
    CandidateSize(other, ps);
  }

  lemma WholeDoesNotFit(ps: seq<Part>, i: nat, n: int)
    requires i < |ps| && |Join(ps[i..])| > n
    ensures |Join([ps[i]] + ps[i + 1..])| > n
  {
    assert ps[i..] == [ps[i]] + ps[i + 1..];
  }

  /** When the oldest part cannot pay, nothing that holds it fits. */
  lemma OldestCannotPay(ps: seq<Part>, i: nat, n: int)
    requires i < |ps| && |Join(ps[i..])| > n
    requires EncodedTail(Bulk(ps[i]), Allowance(ps, i, n)) == ""
    ensures NothingOlderFits(ps, i + 1, n)
  {
    EncodedTailIsLongest(Bulk(ps[i]), Allowance(ps, i, n));
    forall other | CutSuffix(other, ps) && |other| > |ps| - (i + 1) && other != []
      ensures |Join(other)| > n
    {
      if |other| > |ps| - i {
        CandidateJoin(other, ps, i);
      } else if |Join(other)| <= n {
        CandidateHere(ps, i, n, other);
      }
    }
  }

  /** When it can, cutting it to the longest tail that pays is optimal. */
  lemma EncodedCutIsLargest(ps: seq<Part>, i: nat, n: int, t: Bytes)
    requires i < |ps| && WellFormed(ps[i]) && |Join(ps[i..])| > n
    requires t == EncodedTail(Bulk(ps[i]), Allowance(ps, i, n)) && t != ""
    ensures CutOf(Cut(ps[i], t), ps[i])
    ensures LargestEncoded(Headed(ps[i], t, ps[i + 1..]), ps, n)
  {
    EncodedTailIsLongest(Bulk(ps[i]), Allowance(ps, i, n));
    assert t != Bulk(ps[i]);
    assert ps[i].kind != ToolCall;
    HeadedIsCandidate(ps, i, t);
    CutJoin(ps, i, t);
    forall other | CutSuffix(other, ps) && other != [] && |Join(other)| <= n
      ensures |other| <= |Headed(ps[i], t, ps[i + 1..])| && SumSize(other) <= SumSize(Headed(ps[i], t, ps[i + 1..]))
    {
      EncodedCandidate(ps, i, n, t, other);
    }
  }

  lemma EncodedCandidate(ps: seq<Part>, i: nat, n: int, t: Bytes, other: seq<Part>)
    requires i < |ps| && |Join(ps[i..])| > n && t != ""
    requires forall u :: RuneTail(u, Bulk(ps[i])) && EncodedLen(u) <= Allowance(ps, i, n) ==> |u| <= |t|
    requires CutSuffix(other, ps) && |Join(other)| <= n
    ensures var kept := Headed(ps[i], t, ps[i + 1..]); |other| <= |kept| && SumSize(other) <= SumSize(kept)
  {
    if |other| > |ps| - i {
      CandidateJoin(other, ps, i);
    }
    if |other| == |ps| - i {
      CandidateHere(ps, i, n, other);
    }
    CutSuffixSize(other, ps);
    Dominates(ps, i, Headed(ps[i], t, ps[i + 1..]), other);
  }

  lemma SuffixIsCandidate(ps: seq<Part>, i: nat)
    requires i <= |ps|
    ensures CutSuffix(ps[i..], ps)
  {
    if i < |ps| {
      assert ps[i..][1..] == ps[i + 1..];
    }
  }

  /** The parts left over when everything older had to go and they fit. */
  lemma LeftoverIsLargest(ps: seq<Part>, i: nat, n: int)
    requires i <= |ps| && NothingOlderFits(ps, i, n)
    requires i < |ps| ==> |Join(ps[i..])| <= n
    ensures LargestEncoded(ps[i..], ps, n)
  {
    SuffixIsCandidate(ps, i);
    forall other | CutSuffix(other, ps) && other != [] && |Join(other)| <= n
      ensures |other| <= |ps[i..]| && SumSize(other) <= SumSize(ps[i..])
    {
      CutSuffixSize(other, ps);
      LaterIsSmaller(ps, i, other);
    }
  }

  lemma LaterIsSmaller(ps: seq<Part>, i: nat, other: seq<Part>)
    requires |other| <= |ps| - i && SumSize(other) <= SumSize(ps[|ps| - |other|..])
    ensures SumSize(other) <= SumSize(ps[i..])
  {
    SumSizeSuffix(ps, i, |ps| - |other|);
  }

  /** One turn of the loop that drops the oldest part whole. */
  lemma DropOldest(ps: seq<Part>, i: nat)
    requires i < |ps|
    ensures i + 1 < |ps| ==> |Join(ps[i + 1..])| == |Join(ps[i..])| - (|EncodePart(ps[i])| + 1)
    ensures SumSize(ps[i + 1..]) == SumSize(ps[i..]) - PartSize(ps[i])
  {
    SumSizeFrom(ps, i);
    assert ps[i..][1..] == ps[i + 1..];
    if i + 1 < |ps| {
      DropSavesExactly(ps[i..]);
    }
  }

  lemma ReplaceHead(ps: seq<Part>, i: nat, t: Bytes)
    requires i < |ps| && t != ""
    ensures ps[i..][0 := Cut(ps[i], t)] == Headed(ps[i], t, ps[i + 1..])
  {
  }

  /** One turn of the loop that cuts the oldest part to `t` and stops. */
  lemma PayOldest(ps: seq<Part>, i: nat, n: int, t: Bytes)
    requires i < |ps| && WellFormed(ps[i]) && |Join(ps[i..])| > n
    requires t == EncodedTail(Bulk(ps[i]), Allowance(ps, i, n)) && t != ""
    ensures LargestEncoded(ps[i..][0 := Cut(ps[i], t)], ps, n)
  {
    EncodedCutIsLargest(ps, i, n, t);
    ReplaceHead(ps, i, t);
  }

  lemma PaidSize(ps: seq<Part>, i: nat, n: int, t: Bytes)
    requires i < |ps| && WellFormed(ps[i]) && |Join(ps[i..])| > n
    requires t == EncodedTail(Bulk(ps[i]), Allowance(ps, i, n)) && t != ""
    ensures SumSize(ps[i..][0 := Cut(ps[i], t)]) == SumSize(ps[i..]) - |Bulk(ps[i])| + |t|
    ensures |t| < |Bulk(ps[i])|
  {
    EncodedTailIsLongest(Bulk(ps[i]), Allowance(ps, i, n));
    assert t != Bulk(ps[i]);
    ReplaceHead(ps, i, t);
    SumSizeFrom(ps, i);
  }

  /** The tail the oldest part `p` is cut to so that the record ends up `over` bytes
      shorter; empty when its bulk field cannot pay. The cut adds the truncated
      marker, unless the part carries one already: reserved only then. */
  method TailThatPays(p: Part, over: int, ghost ps: seq<Part>, ghost i: nat, ghost n: int) returns (tail: Bytes)
    requires i < |ps| && p == ps[i] && WellFormed(p) && over == |Join(ps[i..])| - n > 0
    ensures tail != "" ==> |tail| < |Bulk(p)| && LargestEncoded(ps[i..][0 := Cut(p, tail)], ps, n)
    ensures tail != "" ==> SumSize(ps[i..][0 := Cut(p, tail)]) == SumSize(ps[i..]) - |Bulk(p)| + |tail|
    ensures tail == "" ==> NothingOlderFits(ps, i + 1, n)
  {
    var bulk := Bulk(p);
    var reserve := TRUNCATED_FOOTPRINT;
    if p.truncated {
      reserve := 0;
    }
    var allow := EncodedLen(bulk) - over - reserve;
    assert allow == Allowance(ps, i, n);
    tail := EncodedTail(bulk, allow);
    if tail == "" {
      OldestCannotPay(ps, i, n);
    } else {
      PayOldest(ps, i, n, tail);
      PaidSize(ps, i, n, tail);
    }
  }

  /** The loop on the encoded record: makes it at least `over` bytes shorter, the
      oldest part first. */
  method ShrinkEncoded(ps: seq<Part>, over0: int) returns (kept: seq<Part>, dropped: nat)
    requires AllWellFormed(ps) && ps != [] && over0 > 0
    ensures LargestEncoded(kept, ps, |Join(ps)| - over0)
    ensures dropped > 0 && SumSize(kept) + dropped == SumSize(ps)
  {
    kept, dropped := ps, 0;
    var over := over0;
    ghost var n := |Join(ps)| - over0;
    ghost var i := 0;
    assert ps[0..] == ps;
    while |kept| > 0 && over > 0
      invariant i <= |ps| && kept == ps[i..]
      invariant i < |ps| ==> over == |Join(ps[i..])| - n
      invariant SumSize(kept) + dropped == SumSize(ps)
      invariant NothingOlderFits(ps, i, n)
      invariant i > 0 || over > 0
      invariant i > 0 ==> dropped > 0
      decreases |kept|
    {
      var p := kept[0];
      assert p == ps[i] && p in ps;
      var tail := TailThatPays(p, over, ps, i, n);
      if tail != "" {
        kept := kept[0 := Cut(p, tail)];
        dropped := dropped + |Bulk(p)| - |tail|;
        return;
      }
      DropOldest(ps, i);
      dropped := dropped + PartSize(p);
      over := over - (|EncodePart(p)| + 1);
      kept := kept[1..];
      i := i + 1;
    }
    LeftoverIsLargest(ps, i, n);
  }

  /** A record that fits as it is needs no cut. */
  lemma WholeIsLargestEncoded(ps: seq<Part>, n: int)
    requires |Join(ps)| <= n
    ensures LargestEncoded(ps, ps, n)
  {
    assert ps[0..] == ps;
    LeftoverIsLargest(ps, 0, n);
  }

  lemma CutSuffixIsWellFormed(kept: seq<Part>, ps: seq<Part>)
    requires AllWellFormed(ps) && CutSuffix(kept, ps)
    ensures AllWellFormed(kept)
  {
    if kept != [] {
      var i := |ps| - |kept|;
      assert WellFormed(ps[i]) by { assert ps[i] in ps; }
      forall p | p in kept ensures WellFormed(p) && ContentBytes(p) > 0 {
        if p == kept[0] {
          if p != ps[i] {
            CutIsWellFormed(ps[i], Bulk(p));
          }
        } else {
          assert p in kept[1..];
        }
      }
    }
  }

  lemma CutIsWellFormed(p: Part, t: Bytes)
    requires WellFormed(p) && p.kind != ToolCall && t != ""
    ensures WellFormed(Cut(p, t)) && ContentBytes(Cut(p, t)) > 0
  {
  }

  /** The record's length, split into its frame and its parts. */
  lemma MarshalLength(ps: seq<Part>, finishReason: Bytes)
    ensures |MarshalOutput(ps, finishReason)| == |MarshalOutput([], finishReason)| + |Join(ps)|
  {
  }
}
