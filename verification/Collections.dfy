/** Sizes of finite sets and the shape of sequences. */
module Collections {
  lemma SubsetSize<T>(small: set<T>, big: set<T>)
    requires small <= big
    ensures |small| <= |big| && |big - small| == |big| - |small|
    ensures small != big ==> |small| < |big|
  {
    assert big == small + (big - small);
  }

  /** What is left of `all` shrinks as more of it is taken. */
  lemma FewerLeft<T>(all: set<T>, a: set<T>, b: set<T>)
    requires a <= b <= all
    ensures |all - b| <= |all - a|
    ensures a != b ==> |all - b| < |all - a|
  {
    assert all - a == (all - b) + (b - a);
    if a != b {
      assert b - a != {};
    }
  }

  lemma OneMore<T>(s: seq<T>, i: nat)
    requires i < |s|
    ensures s[..i + 1] == s[..i] + [s[i]] && s[..i + 1][..i] == s[..i] && s[..|s|] == s
  {
  }

  lemma ConcatAssociates<T>(a: seq<T>, b: seq<T>, c: seq<T>)
    ensures (a + b) + c == a + (b + c)
  {
  }
}
