/**
 Constant-round products and exponentiation (circuits/src/mpc_gadgets/arithmetic.rs and scalar_exp of
 circuits/src/mpc_gadgets/poseidon.rs). The random inverse pairs are arguments.
 */
module MpcArithmetic {
  import opened ResidueField
  import opened ScalarField

  /** a_0 * ... * a_{n-1} */
  function ProductOf(a: seq<Elem>): Elem {
    if |a| == 0 then 1 else Mul(ProductOf(a[..|a| - 1]), a[|a| - 1])
  }

  /** The preprocessing's pairs (b_i, b_i^-1). */
  datatype InversePairs = InversePairs(b: seq<Elem>, inv: seq<Elem>)

  ghost predicate ValidPairs(pairs: InversePairs, n: nat) {
    |pairs.b| == |pairs.inv| == n + 1 &&
    forall i :: 0 <= i <= n ==> Mul(pairs.b[i], pairs.inv[i]) == 1
  }

  /** The opened value d_i = b_i a_i b_{i+1}^-1 */
  function OpenedValue(a: seq<Elem>, pairs: InversePairs, i: nat): Elem
    requires |pairs.b| == |pairs.inv| == |a| + 1 && i < |a|
  {
    Mul(Mul(pairs.b[i], a[i]), pairs.inv[i + 1])
  }

  /** The accumulator after k opened values. */
  function Telescoped(a: seq<Elem>, pairs: InversePairs, k: nat): Elem
    requires |pairs.b| == |pairs.inv| == |a| + 1 && k <= |a|
  {
    if k == 0 then 1 else Mul(Telescoped(a, pairs, k - 1), OpenedValue(a, pairs, k - 1))
  }

  /** What the source returns for the prefix ending at index k. */
  function PrefixProduct(a: seq<Elem>, pairs: InversePairs, k: nat): Elem
    requires |pairs.b| == |pairs.inv| == |a| + 1 && k < |a|
  {
    Mul(Telescoped(a, pairs, k + 1), Mul(pairs.inv[0], pairs.b[k]))
  }

  function Product(a: seq<Elem>, pairs: InversePairs): Elem
    requires |pairs.b| == |pairs.inv| == |a| + 1 && a != []
  {
    PrefixProduct(a, pairs, |a| - 1)
  }

  /** All inner factors cancel: the accumulator is b_0 a_0 ... a_{k-1} b_k^-1. */
  lemma {:induction false} Telescopes(a: seq<Elem>, pairs: InversePairs, k: nat)
    requires ValidPairs(pairs, |a|) && k <= |a|
    ensures Telescoped(a, pairs, k) == Mul(Mul(pairs.b[0], ProductOf(a[..k])), pairs.inv[k])
  {
    hide Mul;
    var b, inv := pairs.b, pairs.inv;
    if k == 0 {
      MulOne(b[0]);
    } else {
      Telescopes(a, pairs, k - 1);
      assert a[..k][..k - 1] == a[..k - 1];
      var front := Mul(b[0], ProductOf(a[..k - 1]));
      CancelInner(front, inv[k - 1], b[k - 1], a[k - 1], inv[k]);
      MulAssociative(b[0], ProductOf(a[..k - 1]), a[k - 1]);
    }
  }

  /** (f i)((b a) j) == (f a) j when b i == 1 */
  lemma CancelInner(f: Elem, i: Elem, b: Elem, a: Elem, j: Elem)
    requires Mul(b, i) == 1
    ensures Mul(Mul(f, i), Mul(Mul(b, a), j)) == Mul(Mul(f, a), j)
  {
    hide Mul;
    MulAssociative(Mul(f, i), Mul(b, a), j);
    MulInterchange(f, i, b, a);
    MulAssociative(f, i, Mul(b, a));
    MulAssociative(i, b, a);
    MulCommutative(i, b);
    MulOne(a);
  }

  /** As coded the cancellation factor leaves b_k b_{k+1}^-1 on the product. */
  lemma PrefixProductExact(a: seq<Elem>, pairs: InversePairs, k: nat)
    requires ValidPairs(pairs, |a|) && k < |a|
    ensures PrefixProduct(a, pairs, k) == Mul(ProductOf(a[..k + 1]), Mul(pairs.b[k], pairs.inv[k + 1]))
  {
    hide Mul;
    var b, inv, p := pairs.b, pairs.inv, ProductOf(a[..k + 1]);
    Telescopes(a, pairs, k + 1);
    MulInterchange(Mul(b[0], p), inv[k + 1], inv[0], b[k]);
    MulCommutative(b[0], p);
    MulAssociative(p, b[0], inv[0]);
    MulOne(p);
    MulCommutative(inv[k + 1], b[k]);
  }

  /** The result is the true prefix product exactly when b_k == b_{k+1} or the product vanishes. */
  lemma PrefixProductIff(a: seq<Elem>, pairs: InversePairs, k: nat)
    requires ValidPairs(pairs, |a|) && k < |a|
    ensures PrefixProduct(a, pairs, k) == ProductOf(a[..k + 1]) <==>
      pairs.b[k] == pairs.b[k + 1] || ProductOf(a[..k + 1]) == 0
  {
    hide Mul;
    var b, inv, p := pairs.b, pairs.inv, ProductOf(a[..k + 1]);
    PrefixProductExact(a, pairs, k);
    MulOne(p);
    MulOne(Mul(b[k], inv[k + 1]));
    if PrefixProduct(a, pairs, k) == p && p != 0 {
      MulCancels(p, Mul(b[k], inv[k + 1]), 1);
      MulOne(inv[k + 1]);
      MulCommutative(b[k], inv[k + 1]);
      MulCommutative(b[k + 1], inv[k + 1]);
      MulOne(b[k + 1]);
      MulCancels(inv[k + 1], b[k], b[k + 1]);
    }
  }

  /** The loop of the source: accumulate the opened values, keep every partial product, select. */
  method PrefixProductImpl(a: seq<Elem>, pairs: InversePairs, pre: seq<nat>) returns (r: seq<Elem>)
    requires |pairs.b| == |pairs.inv| == |a| + 1
    requires forall i :: 0 <= i < |pre| ==> pre[i] < |a|
    ensures |r| == |pre| && forall i :: 0 <= i < |pre| ==> r[i] == PrefixProduct(a, pairs, pre[i])
    ensures ValidPairs(pairs, |a|) ==> forall i :: 0 <= i < |pre| ==>
      r[i] == Mul(ProductOf(a[..pre[i] + 1]), Mul(pairs.b[pre[i]], pairs.inv[pre[i] + 1]))
  {
    hide Mul;
    var partials: seq<Elem> := [];
    var accumulator: Elem := 1;
    for i := 0 to |a|
      invariant |partials| == i && accumulator == Telescoped(a, pairs, i)
      invariant forall j :: 0 <= j < i ==> partials[j] == Telescoped(a, pairs, j + 1)
    {
      accumulator := Mul(accumulator, OpenedValue(a, pairs, i));
      partials := partials + [accumulator];
    }
    r := seq(|pre|, i requires 0 <= i < |pre| => Mul(partials[pre[i]], Mul(pairs.inv[0], pairs.b[pre[i]])));
    if ValidPairs(pairs, |a|) {
      forall i | 0 <= i < |pre| { PrefixProductExact(a, pairs, pre[i]); }
    }
  }

  // ---- exponentiation ------------------------------------------------------------------

  /** x^n, the reference. */
  function Exp(x: Elem, n: nat): Elem {
    if n == 0 then 1 else Mul(x, Exp(x, n - 1))
  }

  lemma {:induction false} ExpAdd(x: Elem, i: nat, j: nat)
    ensures Exp(x, i + j) == Mul(Exp(x, i), Exp(x, j))
  {
    hide Mul;
    if i == 0 {
      MulOne(Exp(x, j));
    } else {
      ExpAdd(x, i - 1, j);
      MulAssociative(x, Exp(x, i - 1), Exp(x, j));
    }
  }

  lemma ExpOne(x: Elem)
    ensures Exp(x, 1) == x
  {
    hide Mul;
    MulOne(x);
    assert Exp(x, 1) == Mul(x, Exp(x, 0));
  }

  /** (x^i)^j == x^(i j) */
  lemma {:induction false} ExpExp(x: Elem, i: nat, j: nat)
    ensures Exp(Exp(x, i), j) == Exp(x, i * j)
  {
    hide Mul;
    if j > 0 {
      ExpExp(x, i, j - 1);
      ExpAdd(x, i, i * (j - 1));
      assert i + i * (j - 1) == i * j;
    } else {
      assert i * j == 0;
    }
  }

  /** pow of the MPC gadgets; its exponent zero gives zero. */
  function Pow(a: Elem, n: nat): Elem {
    if n == 0 then 0
    else if n == 1 then a
    else if n % 2 == 0 then var h := Pow(a, n / 2); Mul(h, h)
    else var h := Pow(a, (n - 1) / 2); Mul(Mul(h, h), a)
  }

  /** scalar_exp of the hasher. */
  function ScalarExp(x: Elem, a: nat): Elem {
    if a == 0 then 1
    else if a == 1 then x
    else if a % 2 == 1 then var h := ScalarExp(x, (a - 1) / 2); Mul(Mul(h, h), x)
    else var h := ScalarExp(x, a / 2); Mul(h, h)
  }

  lemma {:induction false} PowIsExp(a: Elem, n: nat)
    ensures Pow(a, n) == Exp(a, n) <==> n != 0
  {
    hide Mul;
    MulOne(a);
    if n == 1 {
      assert Exp(a, 1) == Mul(a, Exp(a, 0));
    } else if n > 1 {
      var h := n / 2;
      PowIsExp(a, h);
      ExpAdd(a, h, h);
      if n % 2 == 1 { MulCommutative(Exp(a, n - 1), a); }
    }
  }

  lemma {:induction false} ScalarExpIsExp(x: Elem, a: nat)
    ensures ScalarExp(x, a) == Exp(x, a)
  {
    hide Mul;
    MulOne(x);
    if a == 1 {
      assert Exp(x, 1) == Mul(x, Exp(x, 0));
    } else if a > 1 {
      var h := a / 2;
      ScalarExpIsExp(x, h);
      ExpAdd(x, h, h);
      if a % 2 == 1 { MulCommutative(Exp(x, a - 1), x); }
    }
  }
}
