/** Printing a model id that a gateway supplied. */
module ModelId {
  predicate PairAt(s: string, i: nat) {
    i + 1 < |s| && s[i] == ':' && s[i + 1] == ':'
  }

  /** The number of adjacent colon pairs, overlapping ones included. */
  function Pairs(s: string): nat {
    if s == "" then 0 else (if PairAt(s, 0) then 1 else 0) + Pairs(s[1..])
  }

  /** One left-to-right pass that replaces non-overlapping "::" by ": :". */
  function ReplacePairs(s: string): string {
    if s == "" then ""
    else if PairAt(s, 0) then ": :" + ReplacePairs(s[2..])
    else [s[0]] + ReplacePairs(s[1..])
  }

  /** `s` with one space put between every two adjacent colons. */
  function Spaced(s: string): string {
    if s == "" then "" else [s[0]] + (if PairAt(s, 0) then " " else "") + Spaced(s[1..])
  }

  lemma SpacedCons(c: char, s: string)
    ensures Spaced([c] + s) == [c] + (if c == ':' && s != "" && s[0] == ':' then " " else "") + Spaced(s)
    ensures Pairs([c] + s) == (if c == ':' && s != "" && s[0] == ':' then 1 else 0) + Pairs(s)
  {
    assert ([c] + s)[1..] == s;
  }

  lemma ReplaceKeepsHead(s: string)
    ensures (ReplacePairs(s) == "") == (s == "")
    ensures s != "" ==> ReplacePairs(s)[0] == s[0]
  {
  }

  lemma SpacedPair(t: string)
    requires t != "" && t[0] == ':'
    ensures Spaced([':'] + t) == [':'] + " " + Spaced(t) && Pairs([':'] + t) == 1 + Pairs(t)
  {
    SpacedCons(':', t);
  }

  lemma SpacedGap(t: string, u: string)
    requires u == [' '] + t
    ensures Spaced([':'] + u) == [':'] + " " + Spaced(t) && Pairs([':'] + u) == Pairs(t)
  {
    SpacedCons(':', u);
    assert Spaced(u) == " " + Spaced(t) && Pairs(u) == Pairs(t) by {
      SpacedCons(' ', t);
    }
    Regroup([':'], [' '], Spaced(t));
  }

  lemma Regroup(a: string, b: string, c: string)
    ensures a + (b + c) == a + b + c
  {
  }

  lemma PairIsSpaced(rest: string, out: string)
    requires Spaced(out) == Spaced(rest) && Pairs(out) <= Pairs(rest)
    requires (out == "") == (rest == "") && (rest != "" ==> out[0] == rest[0])
    ensures Spaced(": :" + out) == Spaced("::" + rest) && Pairs(": :" + out) < Pairs("::" + rest)
  {
    SpacedCons(':', out);
    SpacedCons(':', rest);
    SpacedGap([':'] + out, [' '] + ([':'] + out));
    SpacedPair([':'] + rest);
    assert ": :" + out == [':'] + ([' '] + ([':'] + out));
    assert "::" + rest == [':'] + ([':'] + rest);
  }

  /** A pass moves towards the spaced form and removes pairs. */
  lemma {:induction false} PassMakesProgress(s: string)
    ensures Spaced(ReplacePairs(s)) == Spaced(s)
    ensures Pairs(ReplacePairs(s)) <= Pairs(s)
    ensures Pairs(s) > 0 ==> Pairs(ReplacePairs(s)) < Pairs(s)
  {
    if s != "" {
      if PairAt(s, 0) {
        PassMakesProgress(s[2..]);
        ReplaceKeepsHead(s[2..]);
        PairIsSpaced(s[2..], ReplacePairs(s[2..]));
        assert s == "::" + s[2..];
      } else {
        var rest := s[1..];
        PassMakesProgress(rest);
        ReplaceKeepsHead(rest);
        SpacedCons(s[0], ReplacePairs(rest));
        SpacedCons(s[0], rest);
        assert s == [s[0]] + rest;
      }
    }
  }

  lemma {:induction false} PairsCountsThem(s: string)
    ensures Pairs(s) > 0 <==> exists i: nat :: PairAt(s, i)
  {
    if s != "" {
      PairsCountsThem(s[1..]);
      if i: nat :| PairAt(s, i) && i > 0 {
        assert PairAt(s[1..], i - 1);
      }
      if i: nat :| PairAt(s[1..], i) {
        assert PairAt(s, i + 1);
      }
    }
  }

  lemma {:induction false} SpacedWithoutPairs(s: string)
    requires Pairs(s) == 0
    ensures Spaced(s) == s
  {
    if s != "" {
      SpacedWithoutPairs(s[1..]);
    }
  }

  /** The spaced form has no pair left: no workflow command marker can form. */
  lemma {:induction false} SpacedHasNoPairs(s: string)
    ensures Pairs(Spaced(s)) == 0
    ensures (Spaced(s) == "") == (s == "") && (s != "" ==> Spaced(s)[0] == s[0])
  {
    if s != "" {
      SpacedHasNoPairs(s[1..]);
      var rest := Spaced(s[1..]);
      SpacedCons(s[0], rest);
      if PairAt(s, 0) {
        SpacedCons(' ', rest);
        SpacedCons(s[0], [' '] + rest);
        assert Spaced(s) == [s[0]] + ([' '] + rest);
      } else {
        assert Spaced(s) == [s[0]] + rest;
      }
    }
  }

  function WithoutSpaces(s: string): string {
    if s == "" then "" else (if s[0] == ' ' then "" else [s[0]]) + WithoutSpaces(s[1..])
  }

  lemma WithoutSpacesCons(c: char, s: string)
    ensures WithoutSpaces([c] + s) == (if c == ' ' then "" else [c]) + WithoutSpaces(s)
  {
    assert ([c] + s)[1..] == s;
  }

  /** Only spaces are put in, one for each pair: everything else keeps its order. */
  lemma {:induction false} SpacedOnlyAddsSpaces(s: string)
    ensures WithoutSpaces(Spaced(s)) == WithoutSpaces(s)
    ensures |Spaced(s)| == |s| + Pairs(s)
  {
    if s != "" {
      var rest := Spaced(s[1..]);
      SpacedOnlyAddsSpaces(s[1..]);
      var gap := if PairAt(s, 0) then [' '] + rest else rest;
      SpacedHead(s, gap);
      WithoutSpacesCons(' ', rest);
      WithoutSpacesCons(s[0], gap);
    }
  }

  lemma SpacedHead(s: string, gap: string)
    requires s != "" && gap == if PairAt(s, 0) then [' '] + Spaced(s[1..]) else Spaced(s[1..])
    ensures Spaced(s) == [s[0]] + gap
  {
  }

  /** Category Cc. */
  predicate IsControl(c: char) {
    c as int < 0x20 || 0x7F <= c as int <= 0x9F
  }

  function MapControls(s: string): (r: string)
    ensures |r| == |s| && forall i :: 0 <= i < |s| ==> !IsControl(r[i]) && (!IsControl(s[i]) ==> r[i] == s[i])
  {
    seq(|s|, i requires 0 <= i < |s| => if IsControl(s[i]) then '?' else s[i])
  }

  lemma {:induction false} SpacedAddsNoControls(s: string)
    requires forall i :: 0 <= i < |s| ==> !IsControl(s[i])
    ensures forall i :: 0 <= i < |Spaced(s)| ==> !IsControl(Spaced(s)[i])
  {
    if s != "" {
      SpacedAddsNoControls(s[1..]);
    }
  }

  method ContainsPair(s: string) returns (found: bool)
    ensures found <==> Pairs(s) > 0
  {
    PairsCountsThem(s);
    for i := 0 to |s|
      invariant forall k: nat :: k < i ==> !PairAt(s, k)
    {
      if PairAt(s, i) {
        return true;
      }
    }
    return false;
  }

  /** The colon loop. */
  method SplitColons(input: string) returns (id: string)
    ensures id == Spaced(input)
    ensures forall i: nat :: !PairAt(id, i)
  {
    id := input;
    var more := ContainsPair(id);
    while more
      invariant more <==> Pairs(id) > 0
      invariant Spaced(id) == Spaced(input)
      decreases Pairs(id)
    {
      PassMakesProgress(id);
      id := ReplacePairs(id);
      more := ContainsPair(id);
    }
    SpacedWithoutPairs(id);
    PairsCountsThem(id);
  }

  /** A model id made safe to print; `mask` is what redacting the assertion and
      JWT-shaped values makes of it. */
  method DisplayModelId(id: string, mask: string -> string) returns (shown: string)
    ensures shown == Spaced(MapControls(mask(id)))
    ensures forall i :: 0 <= i < |shown| ==> !IsControl(shown[i])
    ensures forall i: nat :: !PairAt(shown, i)
  {
    shown := MapControls(mask(id));
    SpacedAddsNoControls(shown);
    shown := SplitColons(shown);
  }
}
