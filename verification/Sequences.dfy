/** Subsequences by explicit index embeddings. */
module Sequences {

  /** `f` names, in strictly increasing order, the positions of `b` that spell `a`. */
  ghost predicate Embeds<T(!new)>(a: seq<T>, b: seq<T>, f: seq<nat>) {
    && |f| == |a|
    && (forall i, j | 0 <= i < j < |f| :: f[i] < f[j])
    && (forall i | 0 <= i < |f| :: f[i] < |b| && a[i] == b[f[i]])
  }

  ghost predicate IsSubsequence<T(!new)>(a: seq<T>, b: seq<T>) {
    exists f: seq<nat> :: Embeds(a, b, f)
  }

  lemma SubsequenceOfItself<T(!new)>(a: seq<T>)
    ensures IsSubsequence(a, a)
  {
    assert Embeds(a, a, seq(|a|, i requires 0 <= i < |a| => i));
  }

  lemma SubsequenceWiden<T(!new)>(a: seq<T>, b: seq<T>, c: seq<T>)
    requires IsSubsequence(a, b)
    ensures IsSubsequence(a, b + c)
  {
    var f :| Embeds(a, b, f);
    assert Embeds(a, b + c, f);
  }

  lemma SubsequencePrefix<T(!new)>(a: seq<T>, b: seq<T>, n: nat)
    requires IsSubsequence(a, b) && n <= |a|
    ensures IsSubsequence(a[..n], b)
  {
    var f :| Embeds(a, b, f);
    assert Embeds(a[..n], b, f[..n]);
  }

  lemma SubsequenceConcat<T(!new)>(a: seq<T>, b: seq<T>, c: seq<T>, d: seq<T>)
    requires IsSubsequence(a, b) && IsSubsequence(c, d)
    ensures IsSubsequence(a + c, b + d)
  {
    var f :| Embeds(a, b, f);
    var g :| Embeds(c, d, g);
    var h: seq<nat> := seq(|f| + |g|,
                           i requires 0 <= i < |f| + |g| => if i < |f| then f[i] else |b| + g[i - |f|]);
    assert Embeds(a + c, b + d, h);
  }

  lemma SubsequenceTransitive<T(!new)>(a: seq<T>, b: seq<T>, c: seq<T>)
    requires IsSubsequence(a, b) && IsSubsequence(b, c)
    ensures IsSubsequence(a, c)
  {
    var f :| Embeds(a, b, f);
    var g :| Embeds(b, c, g);
    assert Embeds(a, c, seq(|f|, i requires 0 <= i < |f| => g[f[i]]));
  }
}
