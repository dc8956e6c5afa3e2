/** Substrings. */
module Text {
  predicate HasPrefix(s: string, p: string) {
    p <= s
  }

  predicate HasSuffix(s: string, t: string) {
    |t| <= |s| && s[|s| - |t|..] == t
  }

  predicate OccursAt(s: string, t: string, i: int) {
    0 <= i <= |s| - |t| && s[i..i + |t|] == t
  }

  predicate Contains(s: string, t: string) {
    exists i :: 0 <= i <= |s| && OccursAt(s, t, i)
  }

  /** The first position at which `t` occurs in `s`, -1 when it does not. */
  function Index(s: string, t: string): (i: int)
    ensures i == -1 || OccursAt(s, t, i)
    ensures forall k :: OccursAt(s, t, k) ==> 0 <= i <= k
  {
    IndexFrom(s, t, 0)
  }

  function IndexFrom(s: string, t: string, from: nat): (i: int)
    ensures i == -1 || OccursAt(s, t, i)
    ensures forall k :: OccursAt(s, t, k) && from <= k ==> 0 <= i <= k
    decreases if from <= |s| then |s| - from + 1 else 0
  {
    if from > |s| then -1 else if OccursAt(s, t, from) then from else IndexFrom(s, t, from + 1)
  }

  /** The last position at which `t` occurs in `s`, -1 when it does not. */
  function LastIndex(s: string, t: string): (i: int)
    ensures i == -1 || OccursAt(s, t, i)
    ensures forall k :: OccursAt(s, t, k) ==> k <= i
  {
    LastIndexFrom(s, t, |s| - |t|)
  }

  function LastIndexFrom(s: string, t: string, from: int): (i: int)
    ensures i == -1 || OccursAt(s, t, i)
    ensures forall k :: OccursAt(s, t, k) && k <= from ==> k <= i
    decreases if from < 0 then 0 else from + 1
  {
    if from < 0 then -1 else if OccursAt(s, t, from) then from else LastIndexFrom(s, t, from - 1)
  }
}
