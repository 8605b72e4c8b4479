/**
 Primes, Bezout coefficients, and a primality criterion whose hypotheses can be checked on
 literals: `n` is prime as soon as some base has a multiplicative order modulo every divisor of
 `n` that exceeds the square root of `n`.
 */
module Primality {
  import opened Numbers

  predicate Divides(d: int, n: int)
    requires d != 0
  {
    n % d == 0
  }

  lemma Multiple(d: int, k: int)
    requires d > 0
    ensures Divides(d, d * k)
  {
    MulCommutes(d, k);
    DivModUnique(d * k, k, 0, d);
  }

  lemma Quotient(d: int, n: int) returns (k: int)
    requires d > 0 && Divides(d, n)
    ensures n == d * k
  {
    k := n / d;
  }

  lemma MulMonotone(a: int, b: int, c: int, d: int)
    requires 0 <= a <= c && 0 <= b <= d
    ensures a * b <= c * d
  {
    assert a * b <= a * d <= c * d;
  }

  ghost predicate IsPrime(n: int) {
    n > 1 && forall d :: 1 < d < n ==> !Divides(d, n)
  }

  /** Bezout coefficients: g == u a + v b divides both arguments. */
  function Bezout(a: nat, b: nat): (r: (nat, int, int))
    requires a > 0 || b > 0
    ensures r.0 > 0 && r.0 == r.1 * a + r.2 * b
    ensures Divides(r.0, a) && Divides(r.0, b)
    decreases a
  {
    if a == 0 then (b, 0, 1)
    else
      var (g, u, v) := Bezout(b % a, a);
      BezoutStep(a, b, g, u, v);
      (g, v - u * (b / a), u)
  }

  lemma BezoutStep(a: nat, b: nat, g: nat, u: int, v: int)
    requires a > 0 && g > 0 && g == u * (b % a) + v * a
    requires Divides(g, b % a) && Divides(g, a)
    ensures g == (v - u * (b / a)) * a + u * b
    ensures Divides(g, b)
  {
    var q := b / a;
    assert b == a * q + b % a;
    assert u * (b % a) == u * b - u * (a * q);
    assert u * (a * q) == (u * q) * a;
    var i, j := a / g, (b % a) / g;
    assert a == g * i && b % a == g * j;
    assert b == (i * q + j) * g + 0 by {
      assert a * q == (g * i) * q == (i * q) * g;
    }
    DivModUnique(b, i * q + j, 0, g);
  }

  lemma PrimeCoprime(a: nat, p: nat)
    requires IsPrime(p) && 0 < a < p
    ensures Bezout(a, p).0 == 1
  {
    var g := Bezout(a, p).0;
    assert a == g * (a / g);
    MultipleBound(g, a / g);
  }

  /** Euclid's lemma. */
  lemma EuclidLemma(p: nat, a: nat, b: nat)
    requires IsPrime(p) && Divides(p, a * b)
    ensures Divides(p, a) || Divides(p, b)
  {
    if !Divides(p, a) {
      var r := a % p;
      PrimeCoprime(r, p);
      var (g, u, v) := Bezout(r, p);
      var k := a * b / p;
      assert a == p * (a / p) + r && a * b == p * k;
      EuclidWitness(p, a / p, r, b, u, v, k);
      DivModUnique(b, u * k - u * (a / p) * b + v * b, 0, p);
    }
  }

  lemma EuclidWitness(p: int, q: int, r: int, b: int, u: int, v: int, k: int)
    requires 1 == u * r + v * p && (p * q + r) * b == p * k
    ensures b == (u * k - u * q * b + v * b) * p
  {
    calc {
      b;
      (u * r + v * p) * b;
      u * (r * b) + v * p * b;
      { assert r * b == p * k - p * q * b; }
      u * (p * k - p * q * b) + v * p * b;
      (u * k - u * q * b + v * b) * p;
    }
  }

  /** Trial division for the small primes at the end of a certificate chain. */
  predicate NoDivisorUpTo(n: nat, k: nat) {
    k <= 1 || (n % k != 0 && NoDivisorUpTo(n, k - 1))
  }

  lemma {:induction false} NoDivisorMeans(n: nat, k: nat, q: nat)
    requires NoDivisorUpTo(n, k) && 1 < q <= k
    ensures !Divides(q, n)
  {
    if q < k { NoDivisorMeans(n, k - 1, q); }
  }

  lemma TrialDivision(n: nat, k: nat)
    requires n > 1 && NoDivisorUpTo(n, k) && (k + 1) * (k + 1) > n
    ensures IsPrime(n)
  {
    hide Divides;
    forall d | 1 < d < n ensures !Divides(d, n) {
      if Divides(d, n) {
        var q := SmallFactor(n, d);
        if q > k { MulMonotone(k + 1, k + 1, q, q); }
        else { NoDivisorMeans(n, k, q); }
      }
    }
  }

  // ---- powers modulo n -----------------------------------------------------------------

  function Pow(b: nat, e: nat): nat {
    if e == 0 then 1 else b * Pow(b, e - 1)
  }

  lemma {:induction false} PowAdd(b: nat, i: nat, j: nat)
    ensures Pow(b, i + j) == Pow(b, i) * Pow(b, j)
  {
    if i == 0 {
      assert Pow(b, i) * Pow(b, j) == Pow(b, j);
    } else {
      PowAdd(b, i - 1, j);
      MulRotates(b, Pow(b, i - 1), Pow(b, j));
      MulCommutes(Pow(b, i - 1) * Pow(b, j), b);
    }
  }

  /** b^e == x modulo n */
  ghost predicate PowIs(b: nat, e: nat, n: nat, x: int) {
    n > 1 && Pow(b, e) % n == x
  }

  lemma PowModAdd(b: nat, i: nat, j: nat, n: nat, x: int, y: int)
    requires PowIs(b, i, n, x) && PowIs(b, j, n, y)
    ensures PowIs(b, i + j, n, (x * y) % n)
  {
    PowAdd(b, i, j);
    var u, v := Pow(b, i), Pow(b, j);
    ModMulLeft(u, v % n, n);
    ModMulLeft(v, u, n);
    MulCommutes(u, v);
    MulCommutes(u, v % n);
  }

  lemma Square(b: nat, e: nat, n: nat, x: int, y: int, k: int) returns (e': nat)
    requires PowIs(b, e, n, x) && x * x == y + k * n && 0 <= y < n
    ensures e' == 2 * e && PowIs(b, e', n, y)
  {
    PowModAdd(b, e, e, n, x, x);
    DivModUnique(x * x, k, y, n);
    e' := e + e;
  }

  lemma SquareTimes(b: nat, e: nat, n: nat, x: int, y: int, k: int) returns (e': nat)
    requires PowIs(b, e, n, x) && x * x * b == y + k * n && 0 <= y < n && b < n
    ensures e' == 2 * e + 1 && PowIs(b, e', n, y)
  {
    PowModAdd(b, e, e, n, x, x);
    assert PowIs(b, 1, n, b) by { assert Pow(b, 1) == b; DivModUnique(b, 0, b, n); }
    PowModAdd(b, e + e, 1, n, (x * x) % n, b);
    ModMulLeft(x * x, b, n);
    DivModUnique(x * x * b, k, y, n);
    e' := e + e + 1;
  }

  lemma PowOne(b: nat, n: nat)
    requires b < n && n > 1
    ensures PowIs(b, 1, n, b)
  {
    assert Pow(b, 1) == b;
    DivModUnique(b, 0, b, n);
  }

  // ---- multiplicative order ------------------------------------------------------------

  lemma {:induction false} PowOfOne(b: nat, o: nat, k: nat, q: nat)
    requires PowIs(b, o, q, 1)
    ensures PowIs(b, o * k, q, 1)
  {
    if k == 0 {
      assert o * k == 0;
      DivModUnique(1, 0, 1, q);
    } else {
      PowOfOne(b, o, k - 1, q);
      PowModAdd(b, o, o * (k - 1), q, 1, 1);
      DivModUnique(1, 0, 1, q);
      assert o * k == o + o * (k - 1);
    }
  }

  /** The least positive exponent that gives 1. */
  lemma LeastOrder(b: nat, q: nat, d: nat) returns (o: nat)
    requires d > 0 && PowIs(b, d, q, 1)
    ensures 0 < o <= d && PowIs(b, o, q, 1)
    ensures forall i :: 0 < i < o ==> !PowIs(b, i, q, 1)
  {
    o := d;
    while exists i :: 0 < i < o && PowIs(b, i, q, 1)
      invariant 0 < o <= d && PowIs(b, o, q, 1)
      decreases o
    {
      var i :| 0 < i < o && PowIs(b, i, q, 1);
      o := i;
    }
  }

  lemma OrderDivides(b: nat, q: nat, o: nat, f: nat)
    requires o > 0 && PowIs(b, o, q, 1) && PowIs(b, f, q, 1)
    requires forall i :: 0 < i < o ==> !PowIs(b, i, q, 1)
    ensures Divides(o, f)
  {
    var k, r := f / o, f % o;
    assert f == o * k + r;
    PowOfOne(b, o, k, q);
    RemainderPower(b, o * k, r, q);
  }

  lemma RemainderPower(b: nat, i: nat, r: nat, q: nat)
    requires PowIs(b, i, q, 1) && PowIs(b, i + r, q, 1)
    ensures PowIs(b, r, q, 1)
  {
    var x := Pow(b, r) % q;
    PowModAdd(b, i, r, q, 1, x);
    DivModUnique(x, 0, x, q);
  }

  /** Too many values for the holes 1..n: two positions agree. */
  lemma {:induction false} Pigeonhole(s: seq<int>, n: nat) returns (i: nat, j: nat)
    requires |s| > n && forall k :: 0 <= k < |s| ==> 1 <= s[k] <= n
    ensures i < j < |s| && s[i] == s[j]
    decreases n
  {
    assert 1 <= s[0] <= n;
    if k :| 0 <= k < |s| && s[k] == n {
      if l :| 0 <= l < |s| && s[l] == n && l != k {
        i, j := if k < l then k else l, if k < l then l else k;
      } else {
        i, j := Pigeonhole(s[..k] + s[k + 1..], n - 1);
        i, j := if i < k then i else i + 1, if j < k then j else j + 1;
      }
    } else {
      i, j := Pigeonhole(s, n - 1);
    }
  }

  lemma PowNonZero(b: nat, q: nat, f: nat, i: nat)
    requires PowIs(b, f, q, 1) && i <= f
    ensures Pow(b, i) % q != 0
  {
    if Pow(b, i) % q == 0 {
      var y := Pow(b, f - i) % q;
      PowModAdd(b, i, f - i, q, 0, y);
    }
  }

  /** Modulo a small q, a power below b^f == 1 is already 1. */
  lemma RepeatedPower(b: nat, q: nat, f: nat) returns (d: nat)
    requires PowIs(b, f, q, 1) && q <= f
    ensures 0 < d < f && PowIs(b, d, q, 1)
  {
    var s := seq(f, i requires 0 <= i < f => Pow(b, i) % q);
    forall i | 0 <= i < f ensures 1 <= s[i] <= q - 1 { PowNonZero(b, q, f, i); }
    var i, j := Pigeonhole(s, q - 1);
    d := j - i;
    var x, y, z := Pow(b, i) % q, Pow(b, f - i) % q, Pow(b, d) % q;
    PowModAdd(b, i, f - i, q, x, y);
    PowModAdd(b, j, f - i, q, x, y);
    PowModAdd(b, f, d, q, 1, z);
    DivModUnique(z, 0, z, q);
  }

  lemma {:induction false} ModDivisor(x: int, y: int, n: nat, q: nat)
    requires n > 0 && q > 0 && Divides(q, n) && x % n == y
    ensures x % q == y % q
  {
    var k := n / q;
    assert n == q * k;
    assert x == y + (x / n * k) * q by { assert n * (x / n) == q * k * (x / n) == (x / n * k) * q; }
    ModShift(y, x / n * k, q);
  }

  /** An element known to be invertible modulo n after subtracting 1 is not 1 modulo q | n. */
  lemma NotOne(b: nat, e: nat, n: nat, q: nat, x: int, u: int)
    requires PowIs(b, e, n, x) && 1 < q && Divides(q, n) && ((x - 1) * u) % n == 1
    ensures !PowIs(b, e, q, 1)
  {
    hide Divides;
    ModDivisor(Pow(b, e), x, n, q);
    ModDivisor((x - 1) * u, 1, n, q);
    DivModUnique(1, 0, 1, q);
    if x % q == 1 { UnitIsNotZero(x, u, q); }
  }

  lemma UnitIsNotZero(x: int, u: int, q: nat)
    requires q > 1 && x % q == 1
    ensures ((x - 1) * u) % q == 0
  {
    var k := x / q;
    assert x - 1 == k * q;
    assert (x - 1) * u == (k * u) * q by { MulRotates(k, q, u); MulRotates(q, u, k); MulRotates(u, k, q); MulCommutes(u, k); }
    DivModUnique((x - 1) * u, k * u, 0, q);
  }

  /** s t exceeds the square root of n, and b has order exactly s t modulo every divisor of n. */
  lemma PrimeByOrder(n: nat, b: nat, s: nat, t: nat, x: int, u: int, w: int, y: int, v: int, z: int)
    requires n > 1 && IsPrime(s) && (t == 1 || IsPrime(t)) && (s * t + 1) * (s * t + 1) > n
    requires PowIs(b, s * t, n, 1)
    requires PowIs(b, t, n, x) && (x - 1) * u == 1 + w * n
    requires t != 1 ==> PowIs(b, s, n, y) && (y - 1) * v == 1 + z * n
    ensures IsPrime(n)
  {
    hide PowIs, Divides;
    DivModUnique((x - 1) * u, w, 1, n);
    if t != 1 { DivModUnique((y - 1) * v, z, 1, n); }
    forall d | 1 < d < n ensures !Divides(d, n) {
      if Divides(d, n) {
        var q := SmallFactor(n, d);
        NotOne(b, t, n, q, x, u);
        if t != 1 { NotOne(b, s, n, q, y, v); }
        PowDescends(b, s * t, n, q);
        SmallOrder(b, q, s, t, n);
      }
    }
  }

  lemma SmallFactor(n: nat, d: nat) returns (q: nat)
    requires 1 < d < n && Divides(d, n)
    ensures 1 < q && Divides(q, n) && q * q <= n
  {
    hide Divides;
    var c := Quotient(d, n);
    if c <= 1 {
      MulMonotone(d, 0, d, 1 - c);
      MulDistributesOver(d, c, 1 - c);
      assert false;
    }
    MulCommutes(c, d);
    Multiple(c, d);
    if d <= c {
      MulMonotone(d, d, d, c);
      return d;
    } else {
      MulMonotone(c, c, d, c);
      return c;
    }
  }

  lemma SmallOrder(b: nat, q: nat, s: nat, t: nat, n: nat)
    requires IsPrime(s) && (t == 1 || IsPrime(t)) && q * q <= n < (s * t + 1) * (s * t + 1)
    requires PowIs(b, s * t, q, 1)
    ensures PowIs(b, t, q, 1) || (t != 1 && PowIs(b, s, q, 1))
  {
    hide PowIs, Divides, IsPrime;
    var f: nat := s * t;
    if q > f {
      MulMonotone(f + 1, f + 1, q, q);
      assert false;
    }
    var d := RepeatedPower(b, q, f);
    var o := LeastOrder(b, q, d);
    OrderDivides(b, q, o, f);
    var k := Quotient(o, f);
    var c, dividesT := ProperDivisor(o, k, s, t);
    PowOfOne(b, o, c, q);
  }

  lemma PowDescends(b: nat, f: nat, n: nat, q: nat)
    requires PowIs(b, f, n, 1) && 1 < q && Divides(q, n)
    ensures PowIs(b, f, q, 1)
  {
    ModDivisor(Pow(b, f), 1, n, q);
    DivModUnique(1, 0, 1, q);
  }

  /** A proper divisor of s t divides s or t. */
  lemma ProperDivisor(o: nat, k: int, s: nat, t: nat) returns (c: nat, dividesT: bool)
    requires IsPrime(s) && (t == 1 || IsPrime(t)) && o * k == s * t && 0 < o < s * t
    ensures if dividesT then o * c == t else t != 1 && o * c == s
  {
    hide Divides;
    Cofactor(o, k, s * t);
    Multiple(s, t);
    EuclidLemma(s, o, k);
    if Divides(s, k) {
      var m := Quotient(s, k);
      ThreeFactors(o, s, m);
      CancelFactor(s, o * m, t);
      Cofactor'(o, m, t);
      c, dividesT := m, true;
    } else {
      var m := Quotient(s, o);
      MulRotates(s, m, k);
      CancelFactor(s, m * k, t) by { MulRotates(k, s, m); MulRotates(m, k, s); MulCommutes(s, m * k); }
      MulCommutes(m, k);
      Cofactor'(k, m, t);
      Multiple(k, m);
      if k == t {
        CancelFactor(t, m, 1);
        c, dividesT := 1, false;
      } else {
        Cofactor''(k, m, t);
        assert false;
      }
    }
  }

  lemma Cofactor(o: nat, k: int, f: nat)
    requires 0 < o < f && o * k == f
    ensures k > 1
  {
    MultipleBound(o, k);
    assert k == 1 ==> o * k == o;
  }

  lemma Cofactor'(o: nat, m: int, t: nat)
    requires 0 < o && o * m == t && t > 0
    ensures m > 0
  {
    MultipleBound(o, m);
    assert m == 0 ==> o * m == 0;
  }

  lemma Cofactor''(k: nat, m: int, t: nat)
    requires 1 < k && k * m == t && t > 0 && m > 0 && k != t
    ensures 1 < k < t
  {
    MultipleBound(k, m);
  }

  lemma ThreeFactors(o: int, s: int, m: int)
    ensures o * (s * m) == s * (o * m)
  {
  }

  lemma CancelFactor(s: int, x: int, y: int)
    requires s > 0 && s * x == s * y
    ensures x == y
  {
    MultipleBound(s, x - y);
    assert s * (x - y) == 0;
  }
}
