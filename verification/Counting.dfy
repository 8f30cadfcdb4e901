/** Counting the elements of a sequence that satisfy a predicate. */
module Counting {

  function CountIf<T>(s: seq<T>, p: T -> bool): nat {
    if s == [] then 0 else CountIf(s[..|s| - 1], p) + if p(s[|s| - 1]) then 1 else 0
  }

  lemma CountNext<T>(s: seq<T>, k: nat, p: T -> bool)
    requires k < |s|
    ensures CountIf(s[..k + 1], p) == CountIf(s[..k], p) + if p(s[k]) then 1 else 0
  {
    assert s[..k + 1][..k] == s[..k];
  }

  lemma {:induction false} CountConcat<T>(a: seq<T>, b: seq<T>, p: T -> bool)
    ensures CountIf(a + b, p) == CountIf(a, p) + CountIf(b, p)
  {
    if b == [] {
      assert a + b == a;
    } else {
      assert (a + b)[..|a + b| - 1] == a + b[..|b| - 1];
      CountConcat(a, b[..|b| - 1], p);
    }
  }

  lemma CountRemoved<T>(b: seq<T>, i: nat, p: T -> bool)
    requires i < |b|
    ensures CountIf(b, p) == CountIf(b[..i] + b[i + 1..], p) + if p(b[i]) then 1 else 0
  {
    var l, x, r := b[..i], [b[i]], b[i + 1..];
    assert b == (l + x) + r;
    CountConcat(l + x, r, p);
    CountConcat(l, x, p);
    CountConcat(l, r, p);
    assert x[..0] == [];
  }

  lemma MultisetRemoved<T>(b: seq<T>, i: nat)
    requires i < |b|
    ensures multiset(b[..i] + b[i + 1..]) == multiset(b) - multiset{b[i]}
  {
    assert b == b[..i] + [b[i]] + b[i + 1..];
  }

  /** Counting does not depend on the order. */
  lemma {:induction false} CountPermutation<T>(a: seq<T>, b: seq<T>, p: T -> bool)
    requires multiset(a) == multiset(b)
    ensures CountIf(a, p) == CountIf(b, p)
    decreases |a|
  {
    if a == [] {
      assert |multiset(b)| == |b|;
    } else {
      var n := |a| - 1;
      assert a[n] in multiset(a);
      var i :| 0 <= i < |b| && b[i] == a[n];
      MultisetRemoved(a, n);
      MultisetRemoved(b, i);
      assert a[..n] + a[n + 1..] == a[..n];
      CountPermutation(a[..n], b[..i] + b[i + 1..], p);
      CountRemoved(b, i, p);
    }
  }

  /** Two predicates that agree on the elements count the same. */
  lemma {:induction false} CountSame<T>(s: seq<T>, p: T -> bool, q: T -> bool)
    requires forall x <- s :: p(x) == q(x)
    ensures CountIf(s, p) == CountIf(s, q)
  {
    if s != [] {
      CountSame(s[..|s| - 1], p, q);
    }
  }

  /** A predicate split in two that exclude each other. */
  lemma {:induction false} CountSplit<T>(s: seq<T>, p: T -> bool, q: T -> bool, r: T -> bool)
    requires forall x <- s :: p(x) <==> q(x) || r(x)
    requires forall x <- s :: !(q(x) && r(x))
    ensures CountIf(s, p) == CountIf(s, q) + CountIf(s, r)
  {
    if s != [] {
      CountSplit(s[..|s| - 1], p, q, r);
    }
  }

  lemma {:induction false} CountZero<T>(s: seq<T>, p: T -> bool)
    ensures CountIf(s, p) == 0 <==> forall x <- s :: !p(x)
  {
    if s != [] {
      CountZero(s[..|s| - 1], p);
      assert forall x :: x in s <==> x in s[..|s| - 1] || x == s[|s| - 1];
    }
  }
}
