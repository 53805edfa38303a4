/** Where one sequence occurs inside another. */
module Texts {

  /** `t` stands at position `p` of `s`. */
  ghost predicate At<T>(s: seq<T>, p: nat, t: seq<T>) {
    p + |t| <= |s| && forall k {:trigger t[k]} :: 0 <= k < |t| ==> s[p + k] == t[k]
  }

  lemma AtSplit<T>(s: seq<T>, p: nat, a: seq<T>, b: seq<T>)
    requires At(s, p, a + b)
    ensures At(s, p, a) && At(s, p + |a|, b)
  {
    forall k | 0 <= k < |a|
      ensures s[p + k] == a[k]
    {
      assert (a + b)[k] == a[k];
    }
    forall k | 0 <= k < |b|
      ensures s[p + |a| + k] == b[k]
    {
      assert (a + b)[|a| + k] == b[k];
    }
  }

  lemma AtSlice<T>(s: seq<T>, p: nat, t: seq<T>)
    requires At(s, p, t)
    ensures s[p..p + |t|] == t
  {
  }

  lemma AtSelf<T>(pre: seq<T>, t: seq<T>, post: seq<T>)
    ensures At(pre + t + post, |pre|, t)
  {
  }
}
