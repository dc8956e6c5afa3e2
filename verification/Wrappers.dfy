/** Values that may be missing, computations that may fail, and what is picked from a list. */
module Wrappers {
  datatype Option<T> = None | Some(value: T)

  datatype Result<T> = Ok(value: T) | Err

  /** `kept` are the elements of `all` at the positions `f`, in order. */
  ghost predicate Picks<T>(kept: seq<T>, all: seq<T>, f: seq<nat>) {
    && |f| == |kept|
    && (forall k :: 0 <= k < |f| ==> f[k] < |all| && kept[k] == all[f[k]])
    && (forall k, l :: 0 <= k < l < |f| ==> f[k] < f[l])
  }

  /** One element more, kept or not. */
  lemma PicksOneMore<T>(kept: seq<T>, s: seq<T>, f: seq<nat>)
    requires s != [] && Picks(kept, s[..|s| - 1], f)
    ensures Picks(kept, s, f) && Picks(kept + [s[|s| - 1]], s, f + [|s| - 1])
    ensures forall j :: j in f ==> j < |s| - 1
  {
    var n := |s| - 1;
    forall k | 0 <= k < |f| ensures f[k] < n && kept[k] == s[f[k]] {
      assert s[..n][f[k]] == s[f[k]];
    }
    forall j | j in f ensures j < n {
      var k :| 0 <= k < |f| && f[k] == j;
    }
  }
}
