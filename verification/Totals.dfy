/** Multisets gathered over the elements of a sequence. */
module Totals {

  function Total<T, A>(s: seq<T>, f: T -> multiset<A>): (total: multiset<A>) {
    if s == [] then multiset{} else f(s[0]) + Total(s[1..], f)
  }

  lemma {:induction false} TotalSplit<T, A>(a: seq<T>, b: seq<T>, f: T -> multiset<A>)
    ensures Total(a + b, f) == Total(a, f) + Total(b, f)
  {
    if a == [] {
      assert a + b == b;
    } else {
      TotalSplit(a[1..], b, f);
      assert (a + b)[1..] == a[1..] + b;
    }
  }

  lemma TotalOne<T, A>(x: T, f: T -> multiset<A>)
    ensures Total([x], f) == f(x)
  {
    assert [x][1..] == [];
  }

  /** The total, seen from one element. */
  lemma TotalAt<T, A>(s: seq<T>, i: nat, f: T -> multiset<A>)
    requires i < |s|
    ensures Total(s, f) == Total(s[..i] + s[i + 1..], f) + f(s[i])
  {
    var a, x, b := s[..i], s[i], s[i + 1..];
    assert s == a + ([x] + b);
    TotalSplit(a, [x] + b, f);
    TotalSplit([x], b, f);
    TotalSplit(a, b, f);
    TotalOne(x, f);
  }

  lemma TotalUpdate<T, A>(s: seq<T>, i: nat, x: T, f: T -> multiset<A>, added: multiset<A>)
    requires i < |s| && f(x) == f(s[i]) + added
    ensures Total(s[i := x], f) == Total(s, f) + added
  {
    TotalAt(s, i, f);
    TotalAt(s[i := x], i, f);
    assert s[i := x][..i] == s[..i] && s[i := x][i + 1..] == s[i + 1..];
  }

  lemma TotalAppend<T, A>(s: seq<T>, x: T, f: T -> multiset<A>)
    ensures Total(s + [x], f) == Total(s, f) + f(x)
  {
    TotalSplit(s, [x], f);
    TotalOne(x, f);
  }
}
