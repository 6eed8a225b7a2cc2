/** Facts about sequences and finite sets that several models share. */
module Collections {

  predicate Distinct<K(==)>(s: seq<K>) {
    forall i, j :: 0 <= i < j < |s| ==> s[i] != s[j]
  }

  lemma AppendDistinct<K(!new)>(s: seq<K>, x: K)
    requires Distinct(s) && x !in s
    ensures Distinct(s + [x])
  {
  }

  /** `s` without `x`. */
  function Without<K(==, !new)>(s: seq<K>, x: K): (r: seq<K>)
    ensures x !in r && |r| <= |s|
    ensures forall y :: y in r <==> y in s && y != x
    ensures x !in s ==> r == s
  {
    if s == [] then [] else
      var n := |s| - 1;
      assert s == s[..n] + [s[n]];
      if s[n] == x then Without(s[..n], x) else Without(s[..n], x) + [s[n]]
  }

  lemma {:induction false} WithoutAt<K(!new)>(s: seq<K>, i: nat)
    requires Distinct(s) && i < |s|
    ensures Without(s, s[i]) == s[..i] + s[i + 1..] && Distinct(Without(s, s[i]))
  {
    var n := |s| - 1;
    var init := s[..n];
    if i == n {
      assert Without(init, s[n]) == init;
      assert s[..i] + s[i + 1..] == init;
    } else {
      WithoutAt(init, i);
      assert Without(s, s[i]) == Without(init, s[i]) + [s[n]];
      assert init[..i] == s[..i] && init[i + 1..] + [s[n]] == s[i + 1..];
      AppendDistinct(Without(init, s[i]), s[n]);
    }
  }

  lemma SubsetSize<T>(a: set<T>, b: set<T>)
    requires a <= b
    ensures |a| <= |b|
  {
    assert a + (b - a) == b;
  }

  lemma DisjointSize<T>(a: set<T>, b: set<T>, u: set<T>)
    requires a <= u && b <= u && a !! b
    ensures |a| + |b| <= |u|
  {
    assert |a + b| == |a| + |b|;
    SubsetSize(a + b, u);
  }
}
