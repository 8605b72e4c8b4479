/** Fermat's theorem in the scalar field: multiplying by a non-zero element permutes the non-zero elements. */
module Fermat {
  import opened Numbers
  import opened ResidueField
  import opened ScalarField
  import opened MpcArithmetic

  ghost predicate Distinct<T>(s: seq<T>) {
    forall i, j :: 0 <= i < j < |s| ==> s[i] != s[j]
  }

  // ---- products of permuted sequences --------------------------------------------------

  lemma {:induction false} ProductConcat(u: seq<Elem>, v: seq<Elem>)
    ensures ProductOf(u + v) == Mul(ProductOf(u), ProductOf(v))
  {
    hide Mul;
    if v == [] {
      assert u + v == u;
      MulOne(ProductOf(u));
    } else {
      var n := |v| - 1;
      assert (u + v)[..|u| + n] == u + v[..n];
      ProductConcat(u, v[..n]);
      MulAssociative(ProductOf(u), ProductOf(v[..n]), v[n]);
    }
  }

  lemma ProductOfOne(x: Elem)
    ensures ProductOf([x]) == x
  {
    hide Mul;
    assert [x][..0] == [];
    MulOne(x);
  }

  lemma ProductRemove(t: seq<Elem>, k: nat)
    requires k < |t|
    ensures ProductOf(t) == Mul(ProductOf(t[..k] + t[k + 1..]), t[k])
  {
    hide Mul, ProductOf;
    var u, x, v := t[..k], t[k], t[k + 1..];
    assert t == u + [x] + v;
    ProductConcat(u + [x], v);
    ProductConcat(u, [x]);
    ProductOfOne(x);
    ProductConcat(u, v);
    MulAssociative(ProductOf(u), x, ProductOf(v));
    MulCommutative(x, ProductOf(v));
    MulAssociative(ProductOf(u), ProductOf(v), x);
  }

  lemma RemoveCounts<T>(t: seq<T>, k: nat)
    requires k < |t|
    ensures multiset(t) == multiset(t[..k] + t[k + 1..]) + multiset{t[k]}
  {
    assert t == t[..k] + [t[k]] + t[k + 1..];
  }

  lemma {:induction false} ProductPermutes(s: seq<Elem>, t: seq<Elem>)
    requires multiset(s) == multiset(t)
    ensures ProductOf(s) == ProductOf(t)
    decreases |s|
  {
    hide Mul;
    assert |s| == |multiset(s)| == |multiset(t)| == |t|;
    if |s| > 0 {
      var n := |s| - 1;
      var x := s[n];
      assert s == s[..n] + [x];
      assert x in multiset(t);
      var k :| 0 <= k < |t| && t[k] == x;
      var rest := t[..k] + t[k + 1..];
      RemoveCounts(t, k);
      assert multiset(s) == multiset(s[..n]) + multiset{x};
      assert multiset(s[..n]) == multiset(s) - multiset{x} == multiset(t) - multiset{x} == multiset(rest);
      ProductPermutes(s[..n], rest);
      ProductRemove(t, k);
    }
  }

  // ---- the non-zero elements -----------------------------------------------------------

  function UpTo(n: nat): (s: seq<Elem>)
    requires n < P
    ensures |s| == n && forall i :: 0 <= i < n ==> s[i] as int == i + 1
  {
    seq(n, i requires 0 <= i < n => i + 1)
  }

  function Times(a: Elem, s: seq<Elem>): (r: seq<Elem>)
    ensures |r| == |s| && forall i :: 0 <= i < |s| ==> r[i] == Mul(a, s[i])
  {
    seq(|s|, i requires 0 <= i < |s| => Mul(a, s[i]))
  }

  lemma {:induction false} ProductTimes(a: Elem, s: seq<Elem>)
    ensures ProductOf(Times(a, s)) == Mul(Exp(a, |s|), ProductOf(s))
  {
    hide Mul;
    if |s| == 0 {
      MulOne(1);
    } else {
      var n := |s| - 1;
      ProductTimes(a, s[..n]);
      assert Times(a, s)[..n] == Times(a, s[..n]);
      MulInterchange(Exp(a, n), ProductOf(s[..n]), a, s[n]);
      MulCommutative(Exp(a, n), a);
    }
  }

  lemma {:induction false} DistinctCounts<T>(s: seq<T>, x: T)
    requires Distinct(s)
    ensures multiset(s)[x] == if x in s then 1 else 0
  {
    if |s| > 0 {
      var n := |s| - 1;
      assert s == s[..n] + [s[n]];
      DistinctCounts(s[..n], x);
      assert s[n] !in s[..n];
    }
  }

  ghost function Members(s: seq<Elem>): set<Elem> {
    set x | x in s
  }

  lemma {:induction false} DistinctSize(s: seq<Elem>)
    requires Distinct(s)
    ensures |Members(s)| == |s|
  {
    if |s| > 0 {
      var n := |s| - 1;
      DistinctSize(s[..n]);
      assert s == s[..n] + [s[n]];
      assert s[n] !in Members(s[..n]);
      assert Members(s) == Members(s[..n]) + {s[n]};
    } else {
      assert Members(s) == {};
    }
  }

  lemma SameSize(a: set<Elem>, b: set<Elem>)
    requires a <= b && |a| == |b|
    ensures a == b
  {
    assert b == a + (b - a);
  }

  lemma UpToDistinct(n: nat)
    requires n < P
    ensures Distinct(UpTo(n))
  {
  }

  /** P - 1 distinct non-zero elements are all of them. */
  lemma DistinctIsAll(s: seq<Elem>)
    requires |s| == P - 1 && Distinct(s) && 0 !in s
    ensures multiset(s) == multiset(UpTo(P - 1))
  {
    var t := UpTo(P - 1);
    UpToDistinct(P - 1);
    var a, b := Members(s), Members(t);
    forall x | x in a ensures x in b {
      assert x in s && x != 0;
      assert t[x - 1] == x;
    }
    DistinctSize(s);
    DistinctSize(t);
    SameSize(a, b);
    forall x: Elem ensures multiset(s)[x] == multiset(t)[x] {
      DistinctCounts(s, x);
      DistinctCounts(t, x);
      assert x in s <==> x in a;
      assert x in t <==> x in b;
    }
  }

  lemma TimesDistinct(a: Elem, s: seq<Elem>)
    requires a != 0 && Distinct(s) && 0 !in s
    ensures Distinct(Times(a, s)) && 0 !in Times(a, s)
  {
    hide Mul;
    var t := Times(a, s);
    forall i, j | 0 <= i < j < |t| ensures t[i] != t[j] {
      if Mul(a, s[i]) == Mul(a, s[j]) {
        MulCancels(a, s[i], s[j]);
      }
    }
    forall i | 0 <= i < |t| ensures t[i] != 0 {
      if Mul(a, s[i]) == 0 {
        NoZeroDivisors(a, s[i]);
      }
    }
  }

  lemma {:induction false} ProductNonZero(s: seq<Elem>)
    requires 0 !in s
    ensures ProductOf(s) != 0
  {
    hide Mul;
    if |s| > 0 {
      var n := |s| - 1;
      ProductNonZero(s[..n]);
      if Mul(ProductOf(s[..n]), s[n]) == 0 {
        NoZeroDivisors(ProductOf(s[..n]), s[n]);
      }
    }
  }

  /** a^(P - 1) is one for every non-zero a. */
  lemma FermatLittle(a: Elem)
    requires a != 0
    ensures Exp(a, P - 1) == 1
  {
    hide Mul, ProductOf, Exp, Times, UpTo;
    var s := UpTo(P - 1);
    UpToDistinct(P - 1);
    assert 0 !in s;
    TimesDistinct(a, s);
    DistinctIsAll(Times(a, s));
    ProductPermutes(Times(a, s), s);
    ProductTimes(a, s);
    ProductNonZero(s);
    var p := ProductOf(s);
    MulCommutative(Exp(a, P - 1), p);
    MulOne(p);
    MulCancels(p, Exp(a, P - 1), 1);
  }

  lemma {:induction false} ExpOfOne(n: nat)
    ensures Exp(1, n) == 1
  {
    hide Mul;
    if n > 0 {
      ExpOfOne(n - 1);
      MulOne(1);
    }
  }

  lemma ExpOfZero(n: nat)
    requires n > 0
    ensures Exp(0, n) == 0
  {
    hide Mul;
    MulOne(Exp(0, n - 1));
  }

  /** Exponents that are one modulo P - 1 give every element back, zero included. */
  lemma ExponentOne(x: Elem, e: nat)
    requires e % (P - 1) == 1
    ensures Exp(x, e) == x
  {
    hide Mul, Exp;
    if x == 0 {
      assert e > 0 by { ZeroRemainder(e, P - 1); }
      ExpOfZero(e);
    } else {
      var k := e / (P - 1);
      assert e == (P - 1) * k + 1;
      ExpAdd(x, (P - 1) * k, 1);
      ExpExp(x, P - 1, k);
      FermatLittle(x);
      ExpOfOne(k);
      ExpOne(x);
      MulOne(x);
    }
  }

  lemma ZeroRemainder(e: nat, m: nat)
    requires m > 1 && e % m == 1
    ensures e > 0
  {
    if e == 0 {
      DivModUnique(0, 0, 0, m);
    }
  }
}
