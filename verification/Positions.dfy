/** Subsequences at a position. */
module Positions {

  /** `t` stands in `s` at position `i`. */
  predicate At<T(==)>(s: seq<T>, i: nat, t: seq<T>) {
    i + |t| <= |s| && forall k :: 0 <= k < |t| ==> s[i + k] == t[k]
  }

  /** `part` stands somewhere in `s`. */
  predicate Contains<T(==)>(s: seq<T>, part: seq<T>) {
    exists i :: 0 <= i <= |s| && At(s, i, part)
  }

  lemma AtParts<T>(s: seq<T>, i: nat, t: seq<T>, u: seq<T>)
    requires At(s, i, t + u)
    ensures At(s, i, t) && At(s, i + |t|, u)
  {
    forall k | 0 <= k < |t| ensures s[i + k] == t[k] { assert (t + u)[k] == t[k]; }
    forall k | 0 <= k < |u| ensures s[i + |t| + k] == u[k] { assert (t + u)[|t| + k] == u[k]; }
  }

  /** One differing or missing element refutes an occurrence. */
  lemma NotAt<T>(s: seq<T>, i: nat, t: seq<T>, k: nat)
    requires k < |t| && (i + k >= |s| || s[i + k] != t[k])
    ensures !At(s, i, t)
  {
  }

  /** What does not occur in a part does not occur there in the whole. */
  lemma NotAtInside<T>(s: seq<T>, i: nat, part: seq<T>, j: nat, t: seq<T>)
    requires At(s, i, part) && j + |t| <= |part| && !At(part, j, t)
    ensures !At(s, i + j, t)
  {
    var k :| 0 <= k < |t| && part[j + k] != t[k];
    assert s[i + (j + k)] == part[j + k];
    NotAt(s, i + j, t, k);
  }
}
