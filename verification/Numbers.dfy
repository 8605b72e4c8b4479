/** Integer facts shared by the whole model: powers of two, Euclidean division, Bezout. */
module Numbers {

  /** 2^n */
  function Pow2(n: nat): (r: nat)
    ensures r > 0
  {
    if n == 0 then 1 else 2 * Pow2(n - 1)
  }

  lemma {:induction false} Pow2Add(a: nat, b: nat)
    ensures Pow2(a + b) == Pow2(a) * Pow2(b)
  {
    if a == 0 {
      assert Pow2(a) * Pow2(b) == Pow2(b);
    } else {
      Pow2Add(a - 1, b);
      assert Pow2(a + b) == 2 * (Pow2(a - 1) * Pow2(b)) == (2 * Pow2(a - 1)) * Pow2(b);
    }
  }

  lemma {:induction false} Pow2Monotone(a: nat, b: nat)
    requires a <= b
    ensures Pow2(a) <= Pow2(b)
  {
    if a < b { Pow2Monotone(a, b - 1); }
  }

  /** The literals the model compares against. */
  lemma Pow2Literals()
    ensures Pow2(1) == 2 && Pow2(2) == 4 && Pow2(31) == 0x8000_0000
    ensures Pow2(32) == 0x1_0000_0000 && Pow2(33) == 0x2_0000_0000
    ensures Pow2(64) == 0x1_0000_0000_0000_0000
    ensures Pow2(128) == 0x1_0000_0000_0000_0000_0000_0000_0000_0000
    ensures Pow2(250) == 0x400000000000000000000000000000000000000000000000000000000000000
    ensures Pow2(252) == 0x1000000000000000000000000000000000000000000000000000000000000000
  {
    assert Pow2(16) == 65536;
    Pow2Add(16, 15);
    Pow2Add(16, 16);
    Pow2Add(32, 1);
    Pow2Add(32, 32);
    Pow2Add(64, 64);
    Pow2Add(64, 32);
    Pow2Add(96, 16);
    Pow2Add(112, 10);
    Pow2Add(128, 122);
    Pow2Add(250, 2);
  }

  lemma MultipleBound(m: int, k: int)
    requires m > 0
    ensures k >= 1 ==> m * k >= m
    ensures k <= -1 ==> m * k <= -m
  {
  }

  /** Quotient and remainder are unique. */
  lemma DivModUnique(x: int, q: int, r: int, m: int)
    requires 0 <= r < m && x == q * m + r
    ensures x / m == q && x % m == r
  {
    var dq, dr := x / m - q, r - x % m;
    assert x == m * (x / m) + x % m;
    assert m * dq == dr by { assert m * (x / m) - q * m == m * dq; }
    MultipleBound(m, dq);
  }

  /** Adding multiples of the modulus changes nothing. */
  lemma ModShift(x: int, k: int, m: int)
    requires m > 0
    ensures (x + k * m) % m == x % m
  {
    assert x == m * (x / m) + x % m;
    assert x + k * m == (x / m + k) * m + x % m;
    DivModUnique(x + k * m, x / m + k, x % m, m);
  }

  lemma ModAddLeft(x: int, y: int, m: int)
    requires m > 0
    ensures (x % m + y) % m == (x + y) % m
  {
    ModShift(x % m + y, x / m, m);
    assert x + y == x % m + y + (x / m) * m;
  }

  lemma ModSubRight(x: int, y: int, m: int)
    requires m > 0
    ensures (x - y % m) % m == (x - y) % m
  {
    ModShift(x - y % m, -(y / m), m);
    assert x - y == x - y % m + (-(y / m)) * m;
  }

  lemma ModMulLeft(x: int, y: int, m: int)
    requires m > 0
    ensures ((x % m) * y) % m == (x * y) % m
  {
    var q, r := x / m, x % m;
    assert x == q * m + r;
    assert x * y == r * y + (q * y) * m;
    ModShift(r * y, q * y, m);
  }

  lemma MulCommutes(x: int, y: int)
    ensures x * y == y * x
  {
  }

  lemma MulNegates(x: int, y: int)
    ensures -x * y == -(x * y)
  {
  }

  lemma MulRotates(x: int, y: int, z: int)
    ensures x * y * z == y * z * x
  {
  }

  lemma MulDistributesOver(x: int, y: int, z: int)
    ensures x * (y + z) == x * y + x * z
  {
  }

  lemma ModMulAssociative(x: int, y: int, z: int, m: int)
    requires m > 0
    ensures (((x * y) % m) * z) % m == (x * ((y * z) % m)) % m
  {
    var u, v := x * y, y * z;
    MulRotates(x, y, z);
    ModMulLeft(u, z, m);
    ModMulLeft(v, x, m);
    MulCommutes(x, v % m);
  }

  lemma ModMulDistributes(x: int, y: int, z: int, m: int)
    requires m > 0
    ensures (x * ((y + z) % m)) % m == ((x * y) % m + (x * z) % m) % m
  {
    var u, v, w := y + z, x * y, x * z;
    ModMulLeft(u, x, m);
    MulCommutes(x, u % m);
    MulCommutes(x, u);
    MulDistributesOver(x, y, z);
    ModAddLeft(v, w % m, m);
    ModAddLeft(w, v, m);
  }

  lemma ModEqualsIff(x: int, y: int, m: int)
    requires m > 0
    ensures x % m == y % m <==> (x - y) % m == 0
  {
    if x % m == y % m {
      assert x - y == (x / m - y / m) * m + 0 by {
        assert x == m * (x / m) + x % m;
        assert y == m * (y / m) + y % m;
      }
      DivModUnique(x - y, x / m - y / m, 0, m);
    }
    if (x - y) % m == 0 {
      var k := (x - y) / m;
      assert x == y + k * m;
      ModShift(y, k, m);
    }
  }
}
