/** Go strings as the collector sees them: UTF-8 rune boundaries and the JSON
    string encoding of `encoding/json`.

    A Go string is a sequence of bytes; here a byte is a `char` below U+0100.
    Chars above that are treated like the bytes no UTF-8 sequence uses, so the
    lemmas hold for every `string`, byte strings included. */
module GoText {
  import opened Text

  type Bytes = string

  predicate In(c: char, lo: int, hi: int) {
    lo <= c as int <= hi
  }

  /** A byte of the form 10xxxxxx: it never starts a rune (section 3 of RFC 3629). */
  predicate Continuation(c: char) {
    In(c, 0x80, 0xBF)
  }

  predicate RuneStart(c: char) {
    !Continuation(c)
  }

  /** Whether `s` opens with a well-formed multi-byte sequence, and how long it is
      (section 4 of RFC 3629); 0 when it does not. */
  function MultiByte(s: Bytes): (n: nat)
    requires s != ""
    ensures n <= 4 && n <= |s|
    ensures forall k :: 1 <= k < n ==> Continuation(s[k])
  {
    var c := s[0];
    if In(c, 0xC2, 0xDF) && |s| >= 2 && Continuation(s[1]) then 2
    else if In(c, 0xE0, 0xEF) && |s| >= 3 && Continuation(s[1]) && Continuation(s[2])
            && (c as int == 0xE0 ==> In(s[1], 0xA0, 0xBF)) && (c as int == 0xED ==> In(s[1], 0x80, 0x9F)) then 3
    else if In(c, 0xF0, 0xF4) && |s| >= 4 && Continuation(s[1]) && Continuation(s[2]) && Continuation(s[3])
            && (c as int == 0xF0 ==> In(s[1], 0x90, 0xBF)) && (c as int == 0xF4 ==> In(s[1], 0x80, 0x8F)) then 4
    else 0
  }

  /** The number of bytes the first rune takes; an invalid byte takes one. */
  function RuneSize(s: Bytes): (n: nat)
    requires s != ""
    ensures 1 <= n <= |s|
    ensures forall k :: 1 <= k < n ==> Continuation(s[k])
  {
    var n := MultiByte(s);
    if n == 0 then 1 else n
  }

  function HexDigit(n: nat): char
    requires n < 16
  {
    "0123456789abcdef"[n]
  }

  /** The escape of an ASCII byte inside a JSON string (section 7 of RFC 8259,
      plus the encoder's HTML escaping of '<', '>' and '&'). */
  function EncodeAscii(c: char): (e: Bytes)
    requires c as int < 0x80
    ensures 1 <= |e| <= 6
  {
    if c == '"' || c == '\\' then ['\\', c]
    else if c as int == 8 then "\\b"
    else if c as int == 12 then "\\f"
    else if c == '\n' then "\\n"
    else if c == '\r' then "\\r"
    else if c == '\t' then "\\t"
    else if c as int < 0x20 || c == '<' || c == '>' || c == '&' then
      "\\u00" + [HexDigit(c as int / 16), HexDigit(c as int % 16)]
    else [c]
  }

  /** The encoding of the first rune of `s`. */
  function EncodeRune(s: Bytes): (e: Bytes)
    requires s != ""
    ensures 1 <= |e| <= 6
  {
    if s[0] as int < 0x80 then EncodeAscii(s[0])
    else
      var n := MultiByte(s);
      if n == 0 then "\\ufffd"
      else if n == 3 && s[0] as int == 0xE2 && s[1] as int == 0x80 && In(s[2], 0xA8, 0xA9) then
        "\\u202" + [HexDigit(s[2] as int - 0xA0)]
      else s[..n]
  }

  /** The body of the JSON string that encodes `s`, quotes left out. */
  function EncodeBody(s: Bytes): Bytes {
    if s == "" then "" else EncodeRune(s) + EncodeBody(s[RuneSize(s)..])
  }

  function EncodedLen(s: Bytes): nat {
    |EncodeBody(s)|
  }

  // ----- Tails -----

  /** A position a size cut may start at: the start, the end, or a rune boundary. */
  predicate CutPoint(s: Bytes, i: int) {
    0 <= i <= |s| && (i == 0 || i == |s| || RuneStart(s[i]))
  }

  /** `t` is a tail of `s` that starts at a cut point. */
  predicate RuneTail(t: Bytes, s: Bytes) {
    |t| <= |s| && t == s[|s| - |t|..] && CutPoint(s, |s| - |t|)
  }

  /** The first rune boundary at or after position `i`. */
  function Boundary(s: Bytes, i: nat): (j: nat)
    requires i <= |s|
    ensures i <= j <= |s| && (j == |s| || RuneStart(s[j]))
    decreases |s| - i
  {
    if i == |s| || RuneStart(s[i]) then i else Boundary(s, i + 1)
  }

  lemma {:induction false} BoundaryIsFirst(s: Bytes, i: nat)
    requires i <= |s|
    ensures forall k :: i <= k < Boundary(s, i) ==> Continuation(s[k])
    decreases |s| - i
  {
    if i < |s| && Continuation(s[i]) {
      BoundaryIsFirst(s, i + 1);
    }
  }

  /** What a size cut to `n` bytes keeps. */
  function Tail(s: Bytes, n: nat): (t: Bytes)
    ensures |t| <= n && RuneTail(t, s)
  {
    if |s| <= n then s else s[Boundary(s, |s| - n)..]
  }

  /** It keeps the longest tail of at most `n` bytes that starts at a cut point. */
  lemma TailIsLongest(s: Bytes, n: nat)
    ensures forall u :: RuneTail(u, s) && |u| <= n ==> |u| <= |Tail(s, n)|
  {
    if |s| > n {
      BoundaryIsFirst(s, |s| - n);
      forall u | RuneTail(u, s) && |u| <= n ensures |u| <= |Tail(s, n)| {
        assert CutPoint(s, |s| - |u|);
      }
    }
  }

  /** A tail of a tail is a tail. */
  lemma RuneTailTransitive(u: Bytes, t: Bytes, s: Bytes)
    requires RuneTail(u, t) && RuneTail(t, s)
    ensures RuneTail(u, s)
  {
  }

  /** The loop that finds the boundary. */
  method TailToRuneBoundary(s: Bytes, n: nat) returns (t: Bytes)
    ensures t == Tail(s, n)
  {
    if |s| <= n {
      return s;
    }
    var start := |s| - n;
    while start < |s| && !RuneStart(s[start])
      invariant |s| - n <= start <= |s|
      invariant Boundary(s, start) == Boundary(s, |s| - n)
    {
      start := start + 1;
    }
    return s[start..];
  }

  // ----- The encoded tail -----

  /** Runes encode independently, and a run of bytes the decoder takes as one rune
      holds no boundary after its first byte: so every tail that starts at a cut
      point encodes to a suffix of the whole encoding, valid UTF-8 or not. */
  lemma {:induction false} TailEncodesToSuffix(s: Bytes, i: nat)
    requires CutPoint(s, i)
    ensures HasSuffix(EncodeBody(s), EncodeBody(s[i..]))
    decreases i
  {
    if i == 0 {
      assert s[0..] == s;
    } else {
      var n := RuneSize(s);
      assert i >= n;
      TailEncodesToSuffix(s[n..], i - n);
      assert s[n..][i - n..] == s[i..];
      SuffixOfSum(EncodeRune(s), EncodeBody(s[n..]), EncodeBody(s[i..]));
    }
  }

  lemma SuffixOfSum(a: Bytes, b: Bytes, t: Bytes)
    requires HasSuffix(b, t)
    ensures HasSuffix(a + b, t)
  {
    assert (a + b)[|a + b| - |t|..] == b[|b| - |t|..];
  }

  /** Longer tails never encode shorter. */
  lemma EncodedTailMonotone(t: Bytes, u: Bytes, s: Bytes)
    requires RuneTail(t, s) && RuneTail(u, s) && |t| <= |u|
    ensures EncodedLen(t) <= EncodedLen(u)
  {
    assert RuneTail(t, u) by {
      assert u[|u| - |t|..] == t;
    }
    TailEncodesToSuffix(u, |u| - |t|);
  }

  /** The test of the binary search: the tail that starts at the first boundary
      at or after `i` encodes to at most `allow` bytes. */
  predicate Fits(s: Bytes, allow: int, i: nat)
    requires i <= |s|
  {
    EncodedLen(Tail(s, |s| - i)) <= allow
  }

  lemma FitsMonotone(s: Bytes, allow: int, i: nat, j: nat)
    requires i <= j <= |s| && Fits(s, allow, i)
    ensures Fits(s, allow, j)
  {
    TailIsLongest(s, |s| - i);
    EncodedTailMonotone(Tail(s, |s| - j), Tail(s, |s| - i), s);
  }

  lemma NothingFitsBefore(s: Bytes, allow: int, j: nat)
    requires j <= |s| && !Fits(s, allow, j)
    ensures forall i :: 0 <= i <= j ==> !Fits(s, allow, i)
  {
    forall i | 0 <= i <= j && Fits(s, allow, i) ensures false {
      FitsMonotone(s, allow, i, j);
    }
  }

  /** `sort.Search` over [lo, hi): a binary search that needs `f` to be monotone to
      find the first index at which it holds. */
  function Search(lo: nat, hi: nat, f: nat -> bool): (i: nat)
    requires lo <= hi
    ensures lo <= i <= hi
    ensures i < hi ==> f(i)
    ensures lo < i ==> !f(i - 1)
    decreases hi - lo
  {
    if lo == hi then lo
    else
      var mid := (lo + hi) / 2;
      if !f(mid) then Search(mid + 1, hi, f) else Search(lo, mid, f)
  }

  /** Where the binary search stops. */
  function FirstFit(s: Bytes, allow: int): (i: nat)
    ensures i <= |s| && (i < |s| ==> Fits(s, allow, i)) && (0 < i ==> !Fits(s, allow, i - 1))
  {
    Search(0, |s|, (i: nat) => i <= |s| && Fits(s, allow, i))
  }

  /** What an encoded cut keeps. */
  function EncodedTail(s: Bytes, allow: int): Bytes {
    Tail(s, |s| - FirstFit(s, allow))
  }

  lemma TailOfLength(u: Bytes, s: Bytes)
    requires RuneTail(u, s)
    ensures Tail(s, |u|) == u
  {
    TailIsLongest(s, |u|);
  }

  lemma NoLongerTailFits(s: Bytes, allow: int, u: Bytes)
    requires RuneTail(u, s) && EncodedLen(u) <= allow
    ensures |u| <= |EncodedTail(s, allow)|
  {
    var i := FirstFit(s, allow);
    TailOfLength(u, s);
    assert Fits(s, allow, |s| - |u|);
    if i > 0 {
      NothingFitsBefore(s, allow, i - 1);
    }
    TailIsLongest(s, |s| - i);
  }

  /** `EncodedTail` is the longest tail from a cut point whose encoding is at most
      `allow` bytes, and empty when there is none, a negative `allow` included. */
  lemma EncodedTailIsLongest(s: Bytes, allow: int)
    ensures var t := EncodedTail(s, allow);
            && RuneTail(t, s)
            && (t != "" ==> EncodedLen(t) <= allow)
            && forall u :: RuneTail(u, s) && EncodedLen(u) <= allow ==> |u| <= |t|
  {
    forall u | RuneTail(u, s) && EncodedLen(u) <= allow ensures |u| <= |EncodedTail(s, allow)| {
      NoLongerTailFits(s, allow, u);
    }
  }
}
