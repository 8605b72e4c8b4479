/** The Poseidon permutation is a bijection when its s-box and its mixing matrix are invertible. */
module PoseidonPermutation {
  import opened Numbers
  import opened ResidueField
  import opened ScalarField
  import opened MpcArithmetic
  import opened Fermat
  import opened RistrettoCertificate
  import opened PoseidonSponge
  import ZkGadgets

  predicate Square(m: seq<State>, width: nat) {
    |m| == width && AllWide(m, width)
  }

  // ---- matrices ------------------------------------------------------------------------

  function Scale(c: Elem, v: State): (r: State)
    ensures |r| == |v|
  {
    seq(|v|, i requires 0 <= i < |v| => Mul(c, v[i]))
  }

  /** The row vector a times the matrix m. */
  function RowTimes(a: State, m: seq<State>, width: nat): (r: State)
    requires |a| == |m| && AllWide(m, width)
    ensures |r| == width
  {
    if |a| == 0 then seq(width, i => 0)
    else
      var n := |a| - 1;
      AddStates(RowTimes(a[..n], m[..n], width), Scale(a[n], m[n]))
  }

  function Unit(i: nat, width: nat): (r: State)
    ensures |r| == width
  {
    seq(width, k => if k == i then 1 else 0)
  }

  /** The product a m is the identity matrix. */
  ghost predicate ProductIsIdentity(a: seq<State>, m: seq<State>, width: nat)
    requires Square(a, width) && Square(m, width)
  {
    forall i :: 0 <= i < width ==> RowTimes(a[i], m, width) == Unit(i, width)
  }

  /** The matrices are inverse to each other. */
  ghost predicate InverseMatrices(m: seq<State>, inv: seq<State>, width: nat)
    requires Square(m, width) && Square(inv, width)
  {
    ProductIsIdentity(inv, m, width) && ProductIsIdentity(m, inv, width)
  }

  lemma AddFour(a: Elem, b: Elem, c: Elem, d: Elem)
    ensures Add(Add(a, b), Add(c, d)) == Add(Add(a, c), Add(b, d))
  {
    hide F;
    FSelf(a);
    FSelf(b);
    FSelf(c);
    FSelf(d);
    FAdd(a, b);
    FAdd(c, d);
    FAdd(a, c);
    FAdd(b, d);
    FAdd(a + b, c + d);
    FAdd(a + c, b + d);
  }

  lemma MulOverAdd(a: Elem, b: Elem, s: Elem)
    ensures Mul(Add(a, b), s) == Add(Mul(a, s), Mul(b, s))
  {
    hide Mul, Add;
    MulDistributes(s, a, b);
    MulCommutative(s, Add(a, b));
    MulCommutative(s, a);
    MulCommutative(s, b);
  }

  lemma {:induction false} DotAdd(u: State, v: State, s: State)
    requires |u| == |v| == |s|
    ensures Dot(AddStates(u, v), s) == Add(Dot(u, s), Dot(v, s))
  {
    hide Add, Mul;
    if |u| == 0 {
      ZkGadgets.AddZero(0);
    } else {
      var n := |u| - 1;
      DotAdd(u[..n], v[..n], s[..n]);
      assert AddStates(u, v)[..n] == AddStates(u[..n], v[..n]);
      MulOverAdd(u[n], v[n], s[n]);
      AddFour(Dot(u[..n], s[..n]), Dot(v[..n], s[..n]), Mul(u[n], s[n]), Mul(v[n], s[n]));
    }
  }

  lemma {:induction false} DotScale(c: Elem, v: State, s: State)
    requires |v| == |s|
    ensures Dot(Scale(c, v), s) == Mul(c, Dot(v, s))
  {
    hide Add, Mul;
    if |v| == 0 {
      MulOne(c);
    } else {
      var n := |v| - 1;
      DotScale(c, v[..n], s[..n]);
      assert Scale(c, v)[..n] == Scale(c, v[..n]);
      MulAssociative(c, v[n], s[n]);
      MulDistributes(c, Dot(v[..n], s[..n]), Mul(v[n], s[n]));
    }
  }

  lemma {:induction false} DotZeros(width: nat, s: State)
    requires |s| == width
    ensures Dot(seq(width, i => 0), s) == 0
  {
    hide Add, Mul;
    if width > 0 {
      var z: State := seq(width, i => 0);
      assert z[..width - 1] == seq(width - 1, i => 0);
      DotZeros(width - 1, s[..width - 1]);
      MulOne(s[width - 1]);
      ZkGadgets.AddZero(0);
    }
  }

  /** A row times m, dotted with s, is the row dotted with m s. */
  lemma {:induction false} DotApply(a: State, m: seq<State>, s: State)
    requires |a| == |m| && AllWide(m, |s|)
    ensures Dot(a, Apply(m, s)) == Dot(RowTimes(a, m, |s|), s)
  {
    hide Add, Mul, AddStates, Scale;
    if |a| == 0 {
      DotZeros(|s|, s);
    } else {
      var n := |a| - 1;
      DotApply(a[..n], m[..n], s);
      assert Apply(m, s)[..n] == Apply(m[..n], s);
      DotAdd(RowTimes(a[..n], m[..n], |s|), Scale(a[n], m[n]), s);
      DotScale(a[n], m[n], s);
    }
  }

  lemma {:induction false} DotUnit(i: nat, s: State)
    requires i < |s|
    ensures Dot(Unit(i, |s|), s) == s[i]
  {
    hide Add, Mul;
    var n := |s| - 1;
    MulOne(s[n]);
    if i == n {
      assert Unit(i, |s|)[..n] == seq(n, k => 0);
      DotZeros(n, s[..n]);
      ZkGadgets.AddZero(s[n]);
    } else {
      assert Unit(i, |s|)[..n] == Unit(i, n);
      DotUnit(i, s[..n]);
      ZkGadgets.AddZero(s[i]);
    }
  }

  /** An identity product undoes the matrix on every state. */
  lemma IdentityUndoes(a: seq<State>, m: seq<State>, s: State)
    requires Square(a, |s|) && Square(m, |s|) && ProductIsIdentity(a, m, |s|)
    ensures Apply(a, Apply(m, s)) == s
  {
    hide Dot, RowTimes, Unit;
    forall i | 0 <= i < |s| ensures Dot(a[i], Apply(m, s)) == s[i] {
      DotApply(a[i], m, s);
      DotUnit(i, s);
    }
  }

  // ---- rounds --------------------------------------------------------------------------

  /** The exponents are inverse modulo P - 1. */
  predicate InversePowers(alpha: nat, beta: nat) {
    alpha * beta % (P - 1) == 1
  }

  /** Then each power undoes the other, on every element. */
  lemma PowersUndone(x: Elem, alpha: nat, beta: nat)
    requires InversePowers(alpha, beta)
    ensures Exp(Exp(x, alpha), beta) == x && Exp(Exp(x, beta), alpha) == x
  {
    hide Exp;
    ExpExp(x, alpha, beta);
    ExpExp(x, beta, alpha);
    MulCommutes(alpha, beta);
    ExponentOne(x, alpha * beta);
  }

  /** The exponent five of the default parameters has an inverse exactly when five does not divide P - 1. */
  lemma FiveHasInverseIff()
    ensures (exists beta: nat :: InversePowers(5, beta)) <==> (P - 1) % 5 != 0
  {
    var m := P - 1;
    if m % 5 != 0 {
      var r := m % 5;
      var k := if r == 1 then 4 else if r == 2 then 2 else if r == 3 then 3 else 1;
      FifthOf(m, r, k);
      var beta := (k * m + 1) / 5;
      DivModUnique(5 * beta, k, 1, m);
      assert InversePowers(5, beta);
    } else if beta: nat :| InversePowers(5, beta) {
      var q := 5 * beta / m;
      assert 5 * beta == m * q + 1;
      NoFifth(m / 5, q, beta);
    }
  }

  /** So over the source's modulus the default s-box is a bijection: some power undoes it on every element. */
  lemma DefaultSBoxInvertible() returns (beta: nat)
    requires P == RISTRETTO_ORDER
    ensures forall x: Elem :: Exp(Exp(x, 5), beta) == x && Exp(Exp(x, beta), 5) == x
  {
    hide Exp;
    FiveIsCoprime();
    FiveHasInverseIff();
    beta :| InversePowers(5, beta);
    forall x: Elem ensures Exp(Exp(x, 5), beta) == x && Exp(Exp(x, beta), 5) == x {
      PowersUndone(x, 5, beta);
    }
  }

  lemma FifthOf(m: nat, r: nat, k: nat)
    requires r == m % 5 && k * r % 5 == 4 && k < 5
    ensures 5 * ((k * m + 1) / 5) == k * m + 1
  {
  }

  lemma NoFifth(t: nat, q: nat, beta: nat)
    ensures 5 * beta != 5 * t * q + 1
  {
    var n := t * q;
    assert 5 * t * q == 5 * n by { MulRotates(5, t, q); }
  }

  function SubStates(s: State, c: State): (r: State)
    requires |s| == |c|
    ensures |r| == |s|
  {
    seq(|s|, i requires 0 <= i < |s| => Sub(s[i], c[i]))
  }

  lemma SubUndoesAdd(x: Elem, c: Elem)
    ensures Sub(Add(x, c), c) == x && Add(Sub(x, c), c) == x
  {
    hide F;
    FSelf(x);
    FSelf(c);
    FAdd(x, c);
    FSub(x + c, c);
    FSub(x, c);
    FAdd(x - c, c);
  }

  lemma ConstantsUndone(s: State, c: State)
    requires |s| == |c|
    ensures SubStates(AddStates(s, c), c) == s && AddStates(SubStates(s, c), c) == s
  {
    hide Add, Sub;
    forall i | 0 <= i < |s| ensures Sub(Add(s[i], c[i]), c[i]) == s[i] && Add(Sub(s[i], c[i]), c[i]) == s[i] {
      SubUndoesAdd(s[i], c[i]);
    }
  }

  lemma SBoxUndone(s: State, alpha: nat, beta: nat, full: bool)
    requires |s| >= 1 && InversePowers(alpha, beta)
    ensures SBox(SBox(s, alpha, full), beta, full) == s && SBox(SBox(s, beta, full), alpha, full) == s
  {
    hide Exp;
    forall i | 0 <= i < |s| ensures Exp(Exp(s[i], alpha), beta) == s[i] && Exp(Exp(s[i], beta), alpha) == s[i] {
      PowersUndone(s[i], alpha, beta);
    }
  }

  function UnRound(p: Params, inv: seq<State>, beta: nat, round: nat, s: State): (r: State)
    requires p.Valid() && Square(inv, p.Width())
    requires round < |p.roundConstants| && |s| == p.Width()
    ensures |r| == |s|
  {
    SubStates(SBox(Apply(inv, s), beta, IsFull(p, round)), p.roundConstants[round])
  }

  function UnRounds(p: Params, inv: seq<State>, beta: nat, n: nat, s: State): (r: State)
    requires p.Valid() && Square(inv, p.Width())
    requires n <= |p.roundConstants| && |s| == p.Width()
    ensures |r| == |s|
  {
    if n == 0 then s else UnRounds(p, inv, beta, n - 1, UnRound(p, inv, beta, n - 1, s))
  }

  lemma RoundUndone(p: Params, inv: seq<State>, beta: nat, round: nat, s: State)
    requires p.Valid() && Square(inv, p.Width()) && InverseMatrices(p.mds, inv, p.Width())
    requires InversePowers(p.alpha, beta)
    requires round < |p.roundConstants| && |s| == p.Width()
    ensures UnRound(p, inv, beta, round, Round(p, round, s)) == s
    ensures Round(p, round, UnRound(p, inv, beta, round, s)) == s
  {
    hide Apply, SBox, AddStates, SubStates, InversePowers, ProductIsIdentity;
    var c, full := p.roundConstants[round], IsFull(p, round);
    IdentityUndoes(inv, p.mds, SBox(AddStates(s, c), p.alpha, full));
    IdentityUndoes(p.mds, inv, s);
    ConstantsUndone(s, c);
    SBoxUndone(AddStates(s, c), p.alpha, beta, full);
    var t := Apply(inv, s);
    SBoxUndone(t, p.alpha, beta, full);
    ConstantsUndone(SBox(t, beta, full), c);
  }

  lemma {:induction false} RoundsUndone(p: Params, inv: seq<State>, beta: nat, n: nat, s: State)
    requires p.Valid() && Square(inv, p.Width()) && InverseMatrices(p.mds, inv, p.Width())
    requires InversePowers(p.alpha, beta)
    requires n <= |p.roundConstants| && |s| == p.Width()
    ensures UnRounds(p, inv, beta, n, Rounds(p, n, s)) == s
    ensures Rounds(p, n, UnRounds(p, inv, beta, n, s)) == s
  {
    hide Round, UnRound, InversePowers, InverseMatrices, AllWide;
    if n > 0 {
      var r, t := Rounds(p, n - 1, s), UnRound(p, inv, beta, n - 1, s);
      RoundUndone(p, inv, beta, n - 1, r);
      assert UnRounds(p, inv, beta, n, Round(p, n - 1, r)) == UnRounds(p, inv, beta, n - 1, r);
      RoundsUndone(p, inv, beta, n - 1, s);
      RoundUndone(p, inv, beta, n - 1, s);
      RoundsUndone(p, inv, beta, n - 1, t);
      assert Rounds(p, n - 1, UnRounds(p, inv, beta, n - 1, t)) == t;
    }
  }

  /** The inverse rounds in reverse order undo the permutation on both sides. */
  lemma PermutationIsBijection(p: Params, inv: seq<State>, beta: nat, s: State)
    requires p.Valid() && Square(inv, p.Width()) && InverseMatrices(p.mds, inv, p.Width())
    requires InversePowers(p.alpha, beta) && |s| == p.Width()
    ensures UnRounds(p, inv, beta, |p.roundConstants|, Permutation(p, s)) == s
    ensures Permutation(p, UnRounds(p, inv, beta, |p.roundConstants|, s)) == s
  {
    hide InversePowers, InverseMatrices, UnRounds, Rounds;
    RoundsUndone(p, inv, beta, |p.roundConstants|, s);
  }
}
