/** Taking elements out of sequences that hold the same elements. */
module Permutations {
  function Without<T>(s: seq<T>, i: nat): seq<T>
    requires i < |s|
  {
    s[..i] + s[i + 1..]
  }

  lemma WithoutTakesOne<T>(s: seq<T>, i: nat)
    requires i < |s|
    ensures multiset(s) == multiset(Without(s, i)) + multiset{s[i]}
  {
    assert s == s[..i] + [s[i]] + s[i + 1..];
  }

  lemma CancelOne<T>(m: multiset<T>, n: multiset<T>, x: T)
    requires m + multiset{x} == n + multiset{x}
    ensures m == n
  {
    assert m == m + multiset{x} - multiset{x};
  }

  /** Where the first element of one order is in another. */
  lemma FindFirst<T>(a: seq<T>, b: seq<T>) returns (k: nat)
    requires a != [] && multiset(a) == multiset(b)
    ensures k < |b| && b[k] == a[0] && multiset(a[1..]) == multiset(Without(b, k))
  {
    assert a[0] in multiset(b);
    k :| 0 <= k < |b| && b[k] == a[0];
    WithoutTakesOne(a, 0);
    WithoutTakesOne(b, k);
    assert Without(a, 0) == a[1..];
    CancelOne(multiset(a[1..]), multiset(Without(b, k)), a[0]);
  }

  lemma SameMembers<T>(a: seq<T>, b: seq<T>)
    requires multiset(a) == multiset(b)
    ensures forall z :: z in a <==> z in b
  {
    assert forall z :: z in a <==> z in multiset(a);
    assert forall z :: z in b <==> z in multiset(b);
  }

  lemma LastTwo<T>(s: seq<T>, x: T, y: T)
    ensures multiset(s + [x, y]) == multiset(s) + multiset{x} + multiset{y}
  {
    assert s + [x, y] == s + [x] + [y];
  }
}
