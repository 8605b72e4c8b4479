/**
 Integers modulo the prime `M`, with every ring operation reduced. `F` embeds a (signed) integer; the lemmas say
 that `F` is a ring homomorphism, which is what lets the gadgets be reasoned about over the integers.
 */
module ResidueField {
  import opened Numbers
  import opened Primality
  import opened RistrettoCertificate

  /** A request for the size of the modulus: the bounds enter only the proofs that ask for them. */
  ghost predicate SizeNeeded(n: nat) {
    n >= 0
  }

  /**
   All that the model uses of the field modulus. The source's modulus is the witness; since the
   constant M carries no other information, every theorem holds for any such modulus.
   */
  ghost predicate IsScalarModulus(p: int) {
    && IsPrime(p) && 0x1_0000_0000_0000_0000 < p
    && forall n: nat :: SizeNeeded(n) ==>
         0x1000000000000000000000000000000000000000000000000000000000000000 < p
         < 0x2000000000000000000000000000000000000000000000000000000000000000
  }

  function RistrettoOrder(): (p: int)
    ensures IsScalarModulus(p)
  {
    PrimeRistretto();
    RISTRETTO_ORDER
  }

  type PrimeModulus = p: int | IsScalarModulus(p) witness RistrettoOrder()

  const M: PrimeModulus

  lemma ModulusSize()
    ensures 0x1000000000000000000000000000000000000000000000000000000000000000 < M
         < 0x2000000000000000000000000000000000000000000000000000000000000000
  {
    assert SizeNeeded(0);
  }

  type Elem = x: int | 0 <= x < M

  /** The field element that represents the integer `x`. */
  function F(x: int): Elem {
    x % M
  }

  function Add(a: Elem, b: Elem): Elem {
    F(a as int + b as int)
  }

  function Sub(a: Elem, b: Elem): Elem {
    F(a as int - b as int)
  }

  function Neg(a: Elem): Elem {
    F(-(a as int))
  }

  function Mul(a: Elem, b: Elem): Elem {
    F(a as int * b as int)
  }

  lemma FCongruent(x: int, y: int, k: int)
    requires x == y + k * M
    ensures F(x) == F(y)
  {
    ModShift(y, k, M);
  }

  /** `F` forgets exactly the multiples of `M`. */
  lemma FEqualIff(x: int, y: int)
    ensures F(x) == F(y) <==> (x - y) % M == 0
  {
    ModEqualsIff(x, y, M);
  }

  lemma FAdd(x: int, y: int)
    ensures Add(F(x), F(y)) == F(x + y)
  {
    ModAddLeft(x, y % M, M);
    ModAddLeft(y, x, M);
  }

  lemma FSub(x: int, y: int)
    ensures Sub(F(x), F(y)) == F(x - y)
  {
    ModAddLeft(x, -(y % M), M);
    ModSubRight(x, y, M);
  }

  lemma FMul(x: int, y: int)
    ensures Mul(F(x), F(y)) == F(x * y)
  {
    var r, s := x % M, y % M;
    ModMulLeft(x, s, M);
    ModMulLeft(y, x, M);
    MulCommutes(x, y);
    MulCommutes(x, s);
  }

  /** Elements are their own representatives. */
  lemma FSelf(x: int)
    requires 0 <= x < M
    ensures F(x) == x
  {
    DivModUnique(x, 0, x, M);
  }

  lemma MulCommutative(a: Elem, b: Elem)
    ensures Mul(a, b) == Mul(b, a)
  {
    MulCommutes(a, b);
  }

  lemma MulOne(a: Elem)
    ensures Mul(1, a) == a && Mul(a, 1) == a && Mul(0, a) == 0 && Mul(a, 0) == 0
  {
    hide F;
    FSelf(a);
    FSelf(0);
  }

  lemma MulAssociative(a: Elem, b: Elem, c: Elem)
    ensures Mul(Mul(a, b), c) == Mul(a, Mul(b, c))
  {
    ModMulAssociative(a, b, c, M);
  }

  lemma MulDistributes(a: Elem, b: Elem, c: Elem)
    ensures Mul(a, Add(b, c)) == Add(Mul(a, b), Mul(a, c))
  {
    ModMulDistributes(a, b, c, M);
  }

  /** (a b)(c d) == (a c)(b d) */
  lemma MulInterchange(a: Elem, b: Elem, c: Elem, d: Elem)
    ensures Mul(Mul(a, b), Mul(c, d)) == Mul(Mul(a, c), Mul(b, d))
  {
    hide Mul;
    MulAssociative(a, b, Mul(c, d));
    MulAssociative(b, c, d);
    MulCommutative(b, c);
    MulAssociative(c, b, d);
    MulAssociative(a, c, Mul(b, d));
  }

  // ---- inverses ------------------------------------------------------------------------

  /** The inverse of a non-zero element, by the extended Euclidean algorithm; 0 for 0. */
  function Inv(a: Elem): (r: Elem)
    ensures a == 0 ==> r == 0
    ensures a != 0 ==> Mul(a, r) == 1
  {
    if a == 0 then 0
    else
      var u := Bezout(a, M).1;
      BezoutInverts(a);
      F(u)
  }

  lemma BezoutInverts(a: Elem)
    requires a != 0
    ensures Mul(a, F(Bezout(a, M).1)) == 1
  {
    hide Mul, F;
    var (g, u, v) := Bezout(a, M);
    PrimeCoprime(a, M);
    MulCommutes(u, a);
    MulCommutes(v, M);
    assert a * u == 1 + (-v) * M;
    FCongruent(a * u, 1, -v);
    FMul(a, u);
    FSelf(a);
    FSelf(1);
  }

  lemma Inverts(a: Elem)
    requires a != 0
    ensures Mul(a, Inv(a)) == 1
  {
  }

  lemma NoZeroDivisors(a: Elem, b: Elem)
    requires Mul(a, b) == 0
    ensures a == 0 || b == 0
  {
    hide Mul;
    if a != 0 {
      MulAssociative(Inv(a), a, b);
      MulCommutative(a, Inv(a));
      MulOne(b);
      MulOne(Inv(a));
    }
  }

  lemma MulCancels(a: Elem, b: Elem, c: Elem)
    requires a != 0 && Mul(a, b) == Mul(a, c)
    ensures b == c
  {
    hide Mul;
    MulAssociative(Inv(a), a, b);
    MulAssociative(Inv(a), a, c);
    MulCommutative(a, Inv(a));
    MulOne(b);
    MulOne(c);
  }

  lemma SubIsEqual(a: Elem, b: Elem, c: Elem)
    ensures Sub(a, b) == c <==> a == Add(b, c)
  {
    hide F;
    var x: int, y: int, z: int := a, b, c;
    FSelf(a);
    FSelf(b);
    FSelf(c);
    if Sub(a, b) == c { FAdd(y, x - y); }
    if a == Add(b, c) { FSub(y + z, y); }
  }
}
