/**
 Gadgets over a constraint system (circuits/src/zk_gadgets: comparators.rs, gates.rs, select.rs,
 arithmetic.rs). Each method appends its constraints. Its contract has two parts: what every assignment that
 satisfies the new system obeys, and that an honest assignment obeys it and keeps satisfying the system.
 */
module ZkGadgets {
  import opened Numbers
  import opened ResidueField
  import opened ScalarField
  import opened MpcBits
  import opened ConstraintSystems

  const ONE := Const(1)
  const ZERO := Const(0)

  lemma EvalWire(i: nat, w: Assignment)
    ensures Eval(Wire(i), w) == At(w, i)
  {
  }

  lemma EvalConst(c: Elem, w: Assignment)
    ensures Eval(Const(c), w) == c
  {
  }

  lemma EvalSum(l: LC, r: LC, w: Assignment)
    ensures Eval(Sum(l, r), w) == Add(Eval(l, w), Eval(r, w))
  {
  }

  lemma SubZero(a: Elem, b: Elem)
    ensures Sub(a, b) == 0 <==> a == b
  {
    hide F;
    FSelf(a);
    FSelf(b);
    FSelf(0);
    if Sub(a, b) == 0 {
      FSub(a, a as int - b as int);
      FSub(a, 0);
    }
  }

  lemma EvalDiff(l: LC, r: LC, w: Assignment)
    ensures Eval(Diff(l, r), w) == Sub(Eval(l, w), Eval(r, w))
    ensures Eval(Diff(l, r), w) == 0 <==> Eval(l, w) == Eval(r, w)
  {
    hide Sub;
    SubZero(Eval(l, w), Eval(r, w));
  }

  // ---- primitive gates -----------------------------------------------------------------

  /** cs.multiply: copies of the operands and their product. */
  method Multiply(cs: ConstraintSystem, left: LC, right: LC) returns (l: nat, r: nat, out: nat)
    requires cs.Valid() && Known(left, cs.wires) && Known(right, cs.wires)
    modifies cs
    ensures cs.Valid() && cs.wires == old(cs.wires) + 3 && cs.unchecked == old(cs.unchecked)
    ensures Recorded(old(cs.hints), cs.hints)
    ensures l < cs.wires && r < cs.wires && out < cs.wires
    ensures forall w {:trigger Satisfies(cs.constraints, w)} :: Satisfies(cs.constraints, w) ==>
      && Satisfies(old(cs.constraints), w)
      && At(w, l) == Eval(left, w) && At(w, r) == Eval(right, w) && At(w, out) == Mul(Eval(left, w), Eval(right, w))
    ensures forall w {:trigger Honest(cs.hints, w)} :: Honest(cs.hints, w) ==>
      && Honest(old(cs.hints), w)
      && At(w, l) == Eval(left, w) && At(w, r) == Eval(right, w) && At(w, out) == Mul(Eval(left, w), Eval(right, w))
      && (Satisfies(old(cs.constraints), w) ==> Satisfies(cs.constraints, w))
  {
    hide Eval, Mul, Sub, Known, Satisfies, Honest, At;
    var n := cs.wires;
    KnownMore(left, n, n + 2);
    KnownMore(right, n, n + 1);
    KnownMore(right, n, n + 2);
    l := cs.Allocate(ValueOf(n, left));
    r := cs.Allocate(ValueOf(n + 1, right));
    out := cs.Allocate(ProductOf(n + 2, left, right));
    cs.Constrain(Diff(left, Wire(l)));
    cs.Constrain(Diff(right, Wire(r)));
    cs.AddGate(l, r, out);
    forall w ensures Eval(Diff(left, Wire(l)), w) == 0 <==> Eval(left, w) == At(w, l) {
      EvalDiff(left, Wire(l), w);
      EvalWire(l, w);
    }
    forall w ensures Eval(Diff(right, Wire(r)), w) == 0 <==> Eval(right, w) == At(w, r) {
      EvalDiff(right, Wire(r), w);
      EvalWire(r, w);
    }
  }

  lemma ZeroTestForced(v: Elem, z: Elem, i: Elem)
    requires Add(Sub(z, 1), Mul(v, i)) == 0 && Mul(v, z) == 0
    ensures z == Bit(v == 0)
  {
    hide Add, Sub, Mul;
    if v == 0 {
      MulOne(i);
      AddZero(Sub(z, 1));
      SubZero(z, 1);
    } else {
      NoZeroDivisors(v, z);
    }
  }

  lemma ZeroTestHolds(v: Elem)
    ensures var z := Bit(v == 0); Add(Sub(z, 1), Mul(v, Inv(v))) == 0 && Mul(v, z) == 0
  {
    hide F, Mul, Inv;
    MulOne(v);
    FSelf(0);
    FSelf(1);
    if v != 0 {
      FSub(0, 1);
      FAdd(-1, 1);
      assert Mul(v, Inv(v)) == 1 by { Inverts(v); }
    }
  }

  lemma AddZero(a: Elem)
    ensures Add(a, 0) == a && Add(0, a) == a && Sub(a, 0) == a
  {
    hide F;
    FSelf(a);
  }

  /** EqZeroGadget: an output that is 1 on zero and 0 elsewhere, whatever the prover tries. */
  method EqZero(cs: ConstraintSystem, val: LC) returns (isZero: nat)
    requires cs.Valid() && Known(val, cs.wires)
    modifies cs
    ensures cs.Valid() && cs.wires >= old(cs.wires) && cs.unchecked == old(cs.unchecked) && isZero < cs.wires
    ensures Recorded(old(cs.hints), cs.hints)
    ensures forall w {:trigger Satisfies(cs.constraints, w)} :: Satisfies(cs.constraints, w) ==>
      Satisfies(old(cs.constraints), w) && At(w, isZero) == Bit(Eval(val, w) == 0)
    ensures forall w {:trigger Honest(cs.hints, w)} :: Honest(cs.hints, w) ==>
      && Honest(old(cs.hints), w) && At(w, isZero) == Bit(Eval(val, w) == 0)
      && (Satisfies(old(cs.constraints), w) ==> Satisfies(cs.constraints, w))
  {
    hide Eval, Mul, Add, Sub, Inv, Satisfies, Honest, At, Bit;
    var n := cs.wires;
    isZero := cs.Allocate(ZeroTestOf(n, val));
    KnownMore(val, n, n + 1);
    var inv := cs.Allocate(InverseOf(n + 1, val));
    KnownMore(val, n, n + 2);
    var _, _, valTimesInv := Multiply(cs, val, Wire(inv));
    var check := Sum(Diff(Wire(isZero), ONE), Wire(valTimesInv));
    cs.Constrain(check);
    KnownMore(val, n, cs.wires);
    var _, _, inTimesOut := Multiply(cs, val, Wire(isZero));
    cs.Constrain(Wire(inTimesOut));
    forall w ensures Eval(check, w) == Add(Sub(At(w, isZero), 1), At(w, valTimesInv)) {
      ZeroTestEval(isZero, valTimesInv, w);
    }
    forall w ensures Eval(Wire(inTimesOut), w) == At(w, inTimesOut) && Eval(Wire(inv), w) == At(w, inv)
        && Eval(Wire(isZero), w) == At(w, isZero) {
      EvalWire(inTimesOut, w);
      EvalWire(inv, w);
      EvalWire(isZero, w);
    }
    forall w | Satisfies(cs.constraints, w) ensures At(w, isZero) == Bit(Eval(val, w) == 0) {
      ZeroTestForced(Eval(val, w), At(w, isZero), At(w, inv));
    }
    forall w | Honest(cs.hints, w) && Satisfies(old(cs.constraints), w) ensures Satisfies(cs.constraints, w) {
      ZeroTestHolds(Eval(val, w));
    }
  }

  lemma ZeroTestEval(z: nat, t: nat, w: Assignment)
    ensures Eval(Sum(Diff(Wire(z), ONE), Wire(t)), w) == Add(Sub(At(w, z), 1), At(w, t))
  {
    hide Add, Sub, At;
    EvalSum(Diff(Wire(z), ONE), Wire(t), w);
    EvalDiff(Wire(z), ONE, w);
  }

  /** EqGadget. */
  method Eq(cs: ConstraintSystem, a: LC, b: LC) returns (eq: nat)
    requires cs.Valid() && Known(a, cs.wires) && Known(b, cs.wires)
    modifies cs
    ensures cs.Valid() && cs.wires >= old(cs.wires) && cs.unchecked == old(cs.unchecked) && eq < cs.wires
    ensures Recorded(old(cs.hints), cs.hints)
    ensures forall w {:trigger Satisfies(cs.constraints, w)} :: Satisfies(cs.constraints, w) ==>
      Satisfies(old(cs.constraints), w) && At(w, eq) == Bit(Eval(a, w) == Eval(b, w))
    ensures forall w {:trigger Honest(cs.hints, w)} :: Honest(cs.hints, w) ==>
      && Honest(old(cs.hints), w) && At(w, eq) == Bit(Eval(a, w) == Eval(b, w))
      && (Satisfies(old(cs.constraints), w) ==> Satisfies(cs.constraints, w))
  {
    hide Eval, Satisfies, Honest, At, Bit;
    eq := EqZero(cs, Diff(a, b));
    forall w ensures Eval(Diff(a, b), w) == 0 <==> Eval(a, w) == Eval(b, w) { EvalDiff(a, b, w); }
  }

  /** NotEqualGadget: the complement, as a linear combination. */
  method NotEqual(cs: ConstraintSystem, a: LC, b: LC) returns (ne: LC)
    requires cs.Valid() && Known(a, cs.wires) && Known(b, cs.wires)
    modifies cs
    ensures cs.Valid() && cs.wires >= old(cs.wires) && cs.unchecked == old(cs.unchecked) && Known(ne, cs.wires)
    ensures forall w {:trigger Satisfies(cs.constraints, w)} :: Satisfies(cs.constraints, w) ==>
      Satisfies(old(cs.constraints), w) && Eval(ne, w) == Bit(Eval(a, w) != Eval(b, w))
    ensures forall w {:trigger Honest(cs.hints, w)} :: Honest(cs.hints, w) ==>
      && Honest(old(cs.hints), w) && Eval(ne, w) == Bit(Eval(a, w) != Eval(b, w))
      && (Satisfies(old(cs.constraints), w) ==> Satisfies(cs.constraints, w))
  {
    hide Eval, Satisfies, Honest, At, Bit;
    var eq := Eq(cs, a, b);
    ne := Diff(ONE, Wire(eq));
    forall w, p: bool | At(w, eq) == Bit(p) ensures Eval(ne, w) == Bit(!p) { ComplementEval(eq, p, w); }
  }

  lemma ComplementEval(i: nat, p: bool, w: Assignment)
    requires At(w, i) == Bit(p)
    ensures Eval(Diff(ONE, Wire(i)), w) == Bit(!p)
  {
    hide Sub;
    EvalDiff(ONE, Wire(i), w);
    OneMinusBit(Bit(p));
  }

  /** OrGate: a + b - a b. */
  method Or(cs: ConstraintSystem, a: LC, b: LC) returns (or: LC)
    requires cs.Valid() && Known(a, cs.wires) && Known(b, cs.wires)
    modifies cs
    ensures cs.Valid() && cs.wires >= old(cs.wires) && cs.unchecked == old(cs.unchecked) && Known(or, cs.wires)
    ensures forall w {:trigger Satisfies(cs.constraints, w)} :: Satisfies(cs.constraints, w) ==>
      Satisfies(old(cs.constraints), w) && (Eval(or, w) == 1 <==> Eval(a, w) == 1 || Eval(b, w) == 1)
    ensures forall w {:trigger Honest(cs.hints, w)} :: Honest(cs.hints, w) ==>
      && Honest(old(cs.hints), w) && (Eval(or, w) == 1 <==> Eval(a, w) == 1 || Eval(b, w) == 1)
      && (Satisfies(old(cs.constraints), w) ==> Satisfies(cs.constraints, w))
  {
    hide Eval, Satisfies, Honest, At, Mul, Add, Sub;
    var l, r, lr := Multiply(cs, a, b);
    or := Diff(Sum(Wire(l), Wire(r)), Wire(lr));
    assert Known(Sum(Wire(l), Wire(r)), cs.wires);
    forall w | At(w, l) == Eval(a, w) && At(w, r) == Eval(b, w) && At(w, lr) == Mul(Eval(a, w), Eval(b, w))
      ensures Eval(or, w) == 1 <==> Eval(a, w) == 1 || Eval(b, w) == 1
    {
      EvalDiff(Sum(Wire(l), Wire(r)), Wire(lr), w);
      EvalSum(Wire(l), Wire(r), w);
      EvalWire(l, w);
      EvalWire(r, w);
      EvalWire(lr, w);
      OrIsOne(Eval(a, w), Eval(b, w));
    }
  }

  /** 1 - (x + y - x y) == (1 - x)(1 - y), so the gate outputs 1 iff an input is 1, even off {0, 1}. */
  lemma OrIsOne(x: Elem, y: Elem)
    ensures Sub(Add(x, y), Mul(x, y)) == 1 <==> x == 1 || y == 1
  {
    hide F;
    var a: int, b: int := x, y;
    var c := a + b - a * b;
    FSelf(x);
    FSelf(y);
    FSelf(1);
    FSelf(0);
    FSub(a + b, a * b);
    FSub(1, a);
    FSub(1, b);
    FMul(1 - a, 1 - b);
    FSub(1, c);
    assert (1 - a) * (1 - b) == 1 - c by { MulDistributesOver(1 - a, 1, -b); }
    SubZero(1, F(c));
    SubZero(1, x);
    SubZero(1, y);
    MulOne(Sub(1, x));
    MulOne(Sub(1, y));
    if F(c) == 1 { NoZeroDivisors(Sub(1, x), Sub(1, y)); }
  }

  /** CondSelectGadget: a if the selector is 1, b if it is 0. */
  method Select(cs: ConstraintSystem, a: LC, b: LC, selector: LC) returns (res: LC)
    requires cs.Valid() && Known(a, cs.wires) && Known(b, cs.wires) && Known(selector, cs.wires)
    modifies cs
    ensures cs.Valid() && cs.wires >= old(cs.wires) && cs.unchecked == old(cs.unchecked) && Known(res, cs.wires)
    ensures Recorded(old(cs.hints), cs.hints)
    ensures forall w {:trigger Satisfies(cs.constraints, w)} :: Satisfies(cs.constraints, w) ==>
      Satisfies(old(cs.constraints), w) && Eval(res, w) == Selected(Eval(a, w), Eval(b, w), Eval(selector, w))
    ensures forall w {:trigger Honest(cs.hints, w)} :: Honest(cs.hints, w) ==>
      && Honest(old(cs.hints), w) && Eval(res, w) == Selected(Eval(a, w), Eval(b, w), Eval(selector, w))
      && (Satisfies(old(cs.constraints), w) ==> Satisfies(cs.constraints, w))
  {
    hide Eval, Satisfies, Honest, At, Mul, Add, Sub;
    var n := cs.wires;
    var _, _, o1 := Multiply(cs, a, selector);
    KnownMore(b, n, cs.wires);
    KnownMore(selector, n, cs.wires);
    var _, _, o2 := Multiply(cs, b, Diff(ONE, selector));
    res := Sum(Wire(o1), Wire(o2));
    forall w ensures Eval(res, w) == Add(At(w, o1), At(w, o2))
        && Eval(Diff(ONE, selector), w) == Sub(1, Eval(selector, w)) {
      EvalSum(Wire(o1), Wire(o2), w);
      EvalWire(o1, w);
      EvalWire(o2, w);
      EvalDiff(ONE, selector, w);
      EvalOne(w);
    }
  }

  lemma EvalOne(w: Assignment)
    ensures Eval(ONE, w) == 1 && Eval(ZERO, w) == 0
  {
  }

  // ---- vectors -------------------------------------------------------------------------

  function Evals(lcs: seq<LC>, w: Assignment): (r: seq<Elem>)
    ensures |r| == |lcs|
    ensures forall i :: 0 <= i < |lcs| ==> r[i] == Eval(lcs[i], w)
  {
    seq(|lcs|, i requires 0 <= i < |lcs| => Eval(lcs[i], w))
  }

  lemma WirePairs(a: nat, b: nat, c: nat, d: nat, w: Assignment)
    ensures Evals([Wire(a), Wire(b)], w) == Evals([Wire(c), Wire(d)], w) <==>
      At(w, a) == At(w, c) && At(w, b) == At(w, d)
  {
    hide At;
    var x, y := Evals([Wire(a), Wire(b)], w), Evals([Wire(c), Wire(d)], w);
    assert x == [At(w, a), At(w, b)] && y == [At(w, c), At(w, d)];
  }

  ghost predicate AllKnown(lcs: seq<LC>, n: nat) {
    forall i :: 0 <= i < |lcs| ==> Known(lcs[i], n)
  }

  lemma AllKnownMore(lcs: seq<LC>, n: nat, m: nat)
    requires AllKnown(lcs, n) && n <= m
    ensures AllKnown(lcs, m)
  {
    forall i | 0 <= i < |lcs| { KnownMore(lcs[i], n, m); }
  }

  /** In how many positions two vectors differ. */
  function Differences(a: seq<Elem>, b: seq<Elem>): (n: nat)
    requires |a| == |b|
    ensures n <= |a| && (n == 0 <==> a == b)
  {
    if |a| == 0 then 0
    else
      var last := |a| - 1;
      assert a == a[..last] + [a[last]] && b == b[..last] + [b[last]];
      Differences(a[..last], b[..last]) + (if a[last] != b[last] then 1 else 0)
  }

  /** EqVecGadget: counts the differing positions and tests the count. */
  method EqVec(cs: ConstraintSystem, a: seq<LC>, b: seq<LC>) returns (eq: nat)
    requires cs.Valid() && |a| == |b| < P && AllKnown(a, cs.wires) && AllKnown(b, cs.wires)
    modifies cs
    ensures cs.Valid() && cs.wires >= old(cs.wires) && cs.unchecked == old(cs.unchecked) && eq < cs.wires
    ensures forall w {:trigger Satisfies(cs.constraints, w)} :: Satisfies(cs.constraints, w) ==>
      Satisfies(old(cs.constraints), w) && At(w, eq) == Bit(Evals(a, w) == Evals(b, w))
    ensures forall w {:trigger Honest(cs.hints, w)} :: Honest(cs.hints, w) ==>
      && Honest(old(cs.hints), w) && At(w, eq) == Bit(Evals(a, w) == Evals(b, w))
      && (Satisfies(old(cs.constraints), w) ==> Satisfies(cs.constraints, w))
  {
    hide Eval, Satisfies, Honest, At, Bit, F, Add, Evals;
    var notEqualSum := ZERO;
    assert a[..0] == [] && b[..0] == [];
    forall w ensures Eval(notEqualSum, w) == F(Differences(Evals(a[..0], w), Evals(b[..0], w))) {
      EvalOne(w);
      FSelf(0);
    }
    for i := 0 to |a|
      invariant cs.Valid() && cs.wires >= old(cs.wires) && cs.unchecked == old(cs.unchecked)
      invariant Known(notEqualSum, cs.wires) && AllKnown(a, cs.wires) && AllKnown(b, cs.wires)
      invariant forall w {:trigger Satisfies(cs.constraints, w)} :: Satisfies(cs.constraints, w) ==>
        && Satisfies(old(cs.constraints), w)
        && Eval(notEqualSum, w) == F(Differences(Evals(a[..i], w), Evals(b[..i], w)))
      invariant forall w {:trigger Honest(cs.hints, w)} :: Honest(cs.hints, w) ==>
        && Honest(old(cs.hints), w)
        && Eval(notEqualSum, w) == F(Differences(Evals(a[..i], w), Evals(b[..i], w)))
        && (Satisfies(old(cs.constraints), w) ==> Satisfies(cs.constraints, w))
    {
      var n := cs.wires;
      var ne := NotEqual(cs, a[i], b[i]);
      KnownMore(notEqualSum, n, cs.wires);
      AllKnownMore(a, n, cs.wires);
      AllKnownMore(b, n, cs.wires);
      var sum := Sum(notEqualSum, ne);
      forall w | Eval(notEqualSum, w) == F(Differences(Evals(a[..i], w), Evals(b[..i], w)))
          && Eval(ne, w) == Bit(Eval(a[i], w) != Eval(b[i], w))
        ensures Eval(sum, w) == F(Differences(Evals(a[..i + 1], w), Evals(b[..i + 1], w)))
      {
        DifferenceStep(a, b, i, notEqualSum, ne, w);
      }
      notEqualSum := sum;
    }
    assert a[..|a|] == a && b[..|b|] == b;
    eq := EqZero(cs, notEqualSum);
    forall w | Eval(notEqualSum, w) == F(Differences(Evals(a, w), Evals(b, w)))
      ensures Eval(notEqualSum, w) == 0 <==> Evals(a, w) == Evals(b, w)
    {
      FSelf(Differences(Evals(a, w), Evals(b, w)));
    }
  }

  lemma DifferenceStep(a: seq<LC>, b: seq<LC>, i: nat, sum: LC, ne: LC, w: Assignment)
    requires i < |a| == |b|
    requires Eval(sum, w) == F(Differences(Evals(a[..i], w), Evals(b[..i], w)))
    requires Eval(ne, w) == Bit(Eval(a[i], w) != Eval(b[i], w))
    ensures Eval(Sum(sum, ne), w) == F(Differences(Evals(a[..i + 1], w), Evals(b[..i + 1], w)))
  {
    hide Eval, F, Add;
    var x, y := Evals(a[..i + 1], w), Evals(b[..i + 1], w);
    assert x[..i] == Evals(a[..i], w) && y[..i] == Evals(b[..i], w);
    EvalSum(sum, ne, w);
    FSelf(Bit(x[i] != y[i]));
    FAdd(Differences(x[..i], y[..i]), Bit(x[i] != y[i]));
  }

  /** Constrains two combinations to agree. */
  method ConstrainEqual(cs: ConstraintSystem, a: LC, b: LC)
    requires cs.Valid()
    modifies cs
    ensures cs.Valid() && cs.wires == old(cs.wires) && cs.hints == old(cs.hints) && cs.unchecked == old(cs.unchecked)
    ensures forall w {:trigger Satisfies(cs.constraints, w)} ::
      Satisfies(cs.constraints, w) <==> Satisfies(old(cs.constraints), w) && Eval(a, w) == Eval(b, w)
  {
    hide Eval, Satisfies;
    cs.Constrain(Diff(a, b));
    forall w ensures Eval(Diff(a, b), w) == 0 <==> Eval(a, w) == Eval(b, w) { EvalDiff(a, b, w); }
  }

  ghost predicate AllSelected(res: seq<LC>, a: seq<LC>, b: seq<LC>, selector: LC, w: Assignment) {
    && |res| <= |a| == |b|
    && forall k :: 0 <= k < |res| ==> Eval(res[k], w) == Selected(Eval(a[k], w), Eval(b[k], w), Eval(selector, w))
  }

  /** CondSelectVectorGadget: the mux of two vectors. */
  method SelectVec(cs: ConstraintSystem, a: seq<LC>, b: seq<LC>, selector: LC) returns (res: seq<LC>)
    requires cs.Valid() && AllKnown(a, cs.wires) && AllKnown(b, cs.wires) && Known(selector, cs.wires) && |a| == |b|
    modifies cs
    ensures cs.Valid() && cs.wires >= old(cs.wires) && cs.unchecked == old(cs.unchecked)
    ensures |res| == |a| && AllKnown(res, cs.wires)
    ensures forall w {:trigger Satisfies(cs.constraints, w)} :: Satisfies(cs.constraints, w) ==>
      Satisfies(old(cs.constraints), w) && AllSelected(res, a, b, selector, w)
    ensures forall w {:trigger Honest(cs.hints, w)} :: Honest(cs.hints, w) ==>
      && Honest(old(cs.hints), w) && AllSelected(res, a, b, selector, w)
      && (Satisfies(old(cs.constraints), w) ==> Satisfies(cs.constraints, w))
  {
    hide Eval, Satisfies, Honest, Known, AllSelected;
    res := [];
    forall w ensures AllSelected([], a, b, selector, w) { SelectNothing(a, b, selector, w); }
    for i := 0 to |a|
      invariant cs.Valid() && cs.wires >= old(cs.wires) && cs.unchecked == old(cs.unchecked)
      invariant |res| == i && AllKnown(res, cs.wires)
      invariant forall w {:trigger Satisfies(cs.constraints, w)} :: Satisfies(cs.constraints, w) ==>
        Satisfies(old(cs.constraints), w) && AllSelected(res, a, b, selector, w)
      invariant forall w {:trigger Honest(cs.hints, w)} :: Honest(cs.hints, w) ==>
        && Honest(old(cs.hints), w) && AllSelected(res, a, b, selector, w)
        && (Satisfies(old(cs.constraints), w) ==> Satisfies(cs.constraints, w))
    {
      KnownMore(a[i], old(cs.wires), cs.wires);
      KnownMore(b[i], old(cs.wires), cs.wires);
      KnownMore(selector, old(cs.wires), cs.wires);
      ghost var n := cs.wires;
      var r := Select(cs, a[i], b[i], selector);
      AllKnownMore(res, n, cs.wires);
      ghost var before := res;
      res := res + [r];
      forall w | AllSelected(before, a, b, selector, w)
          && Eval(r, w) == Selected(Eval(a[i], w), Eval(b[i], w), Eval(selector, w))
        ensures AllSelected(res, a, b, selector, w)
      {
        SelectStep(before, a, b, r, selector, w);
      }
    }
  }

  lemma SelectNothing(a: seq<LC>, b: seq<LC>, selector: LC, w: Assignment)
    requires |a| == |b|
    ensures AllSelected([], a, b, selector, w)
  {
  }

  lemma SelectStep(res: seq<LC>, a: seq<LC>, b: seq<LC>, r: LC, selector: LC, w: Assignment)
    requires |res| < |a| == |b| && AllSelected(res, a, b, selector, w)
    requires Eval(r, w) == Selected(Eval(a[|res|], w), Eval(b[|res|], w), Eval(selector, w))
    ensures AllSelected(res + [r], a, b, selector, w)
  {
    hide Eval, Selected;
    var next := res + [r];
    forall k | 0 <= k < |next|
      ensures Eval(next[k], w) == Selected(Eval(a[k], w), Eval(b[k], w), Eval(selector, w))
    {
      if k < |res| {
        assert next[k] == res[k];
      }
    }
  }

  /** EqVecGadget::constrain_eq_vec. */
  method ConstrainEqVec(cs: ConstraintSystem, a: seq<LC>, b: seq<LC>)
    requires cs.Valid() && |a| == |b|
    modifies cs
    ensures cs.Valid() && cs.wires == old(cs.wires) && cs.hints == old(cs.hints) && cs.unchecked == old(cs.unchecked)
    ensures forall w {:trigger Satisfies(cs.constraints, w)} ::
      Satisfies(cs.constraints, w) <==> Satisfies(old(cs.constraints), w) && Evals(a, w) == Evals(b, w)
  {
    hide Eval, Satisfies;
    for i := 0 to |a|
      invariant cs.Valid() && cs.wires == old(cs.wires) && cs.hints == old(cs.hints) && cs.unchecked == old(cs.unchecked)
      invariant forall w {:trigger Satisfies(cs.constraints, w)} ::
        Satisfies(cs.constraints, w) <==> Satisfies(old(cs.constraints), w) && Evals(a, w)[..i] == Evals(b, w)[..i]
    {
      ConstrainEqual(cs, a[i], b[i]);
      forall w ensures Evals(a, w)[..i + 1] == Evals(b, w)[..i + 1] <==>
          (Evals(a, w)[..i] == Evals(b, w)[..i] && Eval(a[i], w) == Eval(b[i], w)) {
        PrefixEqual(Evals(a, w), Evals(b, w), i);
      }
    }
    forall w ensures Evals(a, w)[..|a|] == Evals(a, w) && Evals(b, w)[..|a|] == Evals(b, w) {}
  }

  lemma PrefixEqual(x: seq<Elem>, y: seq<Elem>, i: nat)
    requires i < |x| == |y|
    ensures x[..i + 1] == y[..i + 1] <==> x[..i] == y[..i] && x[i] == y[i]
  {
    assert x[..i + 1] == x[..i] + [x[i]] && y[..i + 1] == y[..i] + [y[i]];
  }

  // ---- ranges --------------------------------------------------------------------------

  function WireValues(bits: seq<nat>, w: Assignment): (r: seq<Elem>)
    ensures |r| == |bits|
    ensures forall i :: 0 <= i < |bits| ==> r[i] == At(w, bits[i])
  {
    seq(|bits|, i requires 0 <= i < |bits| => At(w, bits[i]))
  }

  /** The recomposition of little-endian bit wires. */
  function Recompose(bits: seq<nat>): LC {
    if |bits| == 0 then ZERO else Sum(Scaled(2, Recompose(bits[1..])), Wire(bits[0]))
  }

  lemma {:induction false} RecomposeValue(bits: seq<nat>, w: Assignment)
    ensures Eval(Recompose(bits), w) == FromBits(WireValues(bits, w))
  {
    hide F, Add, Mul, At;
    if |bits| == 0 {
      FSelf(0);
    } else {
      RecomposeValue(bits[1..], w);
      var v := WireValues(bits, w);
      assert v == [v[0]] + WireValues(bits[1..], w);
      HornerStep(v[0], WireValues(bits[1..], w));
      MulCommutative(2, FromBits(WireValues(bits[1..], w)));
    }
  }

  lemma {:induction false} RecomposeKnown(bits: seq<nat>, n: nat)
    requires forall i :: 0 <= i < |bits| ==> bits[i] < n
    ensures Known(Recompose(bits), n)
  {
    if |bits| > 0 { RecomposeKnown(bits[1..], n); }
  }

  lemma {:induction false} BitsOfAt(x: nat, n: nat, k: nat)
    requires k < n
    ensures BitsOf(x, n)[k] == BitAt(x, k)
  {
    if k > 0 {
      BitsOfAt(x / 2, n - 1, k - 1);
      HalveDiv(x, Pow2(k - 1));
    }
  }

  lemma HalveDiv(x: nat, m: nat)
    requires m > 0
    ensures x / (2 * m) == x / 2 / m
  {
    var h := x / 2;
    assert h == m * (h / m) + h % m;
    MulRotates(2, m, h / m);
    DivModUnique(x, h / m, x % 2 + 2 * (h % m), 2 * m);
  }

  /** The prover's bits of a value recompose to its residue modulo 2^d. */
  lemma HonestBits(x: Elem, bits: seq<nat>, w: Assignment)
    requires |bits| < SCALAR_MAX_BITS
    requires forall k :: 0 <= k < |bits| ==> At(w, bits[k]) == BitAt(x, k)
    ensures Eval(Recompose(bits), w) == x as int % Pow2(|bits|)
    ensures Eval(Recompose(bits), w) == x <==> x as int < Pow2(|bits|)
  {
    hide F, At, BitAt, Recompose, BitsOf;
    var d := |bits|;
    RecomposeValue(bits, w);
    forall k | 0 <= k < d ensures BitsOf(x, d)[k] == At(w, bits[k]) { BitsOfAt(x, d, k); }
    assert WireValues(bits, w) == BitsOf(x, d);
    PowerBelowModulus(d);
    FSelf(x as int % Pow2(d));
    if x as int < Pow2(d) { DivModUnique(x, 0, x, Pow2(d)); }
  }

  /** Any bits at all recompose to a value below 2^d. */
  lemma BinaryBitsBound(bits: seq<nat>, w: Assignment)
    requires |bits| < SCALAR_MAX_BITS && (forall k :: 0 <= k < |bits| ==> IsBit(At(w, bits[k])))
    ensures Eval(Recompose(bits), w) as int < Pow2(|bits|)
  {
    hide F, At, Recompose;
    RecomposeValue(bits, w);
    ValueBound(WireValues(bits, w));
    PowerBelowModulus(|bits|);
    FSelf(Value(WireValues(bits, w)));
  }

  /** The bit wires of a range gadget, in order. */
  method Decompose(cs: ConstraintSystem, x: LC, d: nat) returns (bits: seq<nat>)
    requires cs.Valid() && Known(x, cs.wires)
    modifies cs
    ensures cs.Valid() && cs.wires == old(cs.wires) + d && cs.constraints == old(cs.constraints)
    ensures Recorded(old(cs.hints), cs.hints)
    ensures |bits| == d && (forall k :: 0 <= k < d ==> bits[k] < cs.wires)
    ensures forall w {:trigger Plausible(cs.unchecked, w)} :: Plausible(cs.unchecked, w) ==>
      Plausible(old(cs.unchecked), w) && forall k :: 0 <= k < d ==> IsBit(At(w, bits[k]))
    ensures forall w {:trigger Honest(cs.hints, w)} :: Honest(cs.hints, w) ==>
      Honest(old(cs.hints), w) && forall k :: 0 <= k < d ==> At(w, bits[k]) == BitAt(Eval(x, w), k)
  {
    hide Eval, Honest, At, BitAt, Plausible, IsBit;
    bits := [];
    for i := 0 to d
      invariant cs.Valid() && cs.wires == old(cs.wires) + i && cs.constraints == old(cs.constraints)
      invariant Known(x, cs.wires) && Recorded(old(cs.hints), cs.hints)
      invariant |bits| == i && (forall k :: 0 <= k < i ==> bits[k] < cs.wires)
      invariant forall w {:trigger Plausible(cs.unchecked, w)} :: Plausible(cs.unchecked, w) ==>
        Plausible(old(cs.unchecked), w) && forall k :: 0 <= k < i ==> IsBit(At(w, bits[k]))
      invariant forall w {:trigger Honest(cs.hints, w)} :: Honest(cs.hints, w) ==>
        Honest(old(cs.hints), w) && forall k :: 0 <= k < i ==> At(w, bits[k]) == BitAt(Eval(x, w), k)
    {
      KnownMore(x, cs.wires, cs.wires + 1);
      ghost var before, hint := cs.unchecked, BitOf(cs.wires, x, i);
      var bit := cs.Allocate(hint);
      forall w | Plausible(cs.unchecked, w) ensures Plausible(before, w) && IsBit(At(w, bit)) {
        PlausibleParts(before, [hint], w);
        PlausibleBit(hint, w);
      }
      bits := bits + [bit];
    }
  }

  lemma PlausibleBit(hint: Hint, w: Assignment)
    requires hint.BitOf? && Plausible([hint], w)
    ensures IsBit(At(w, hint.wire))
  {
    assert PlausibleHint([hint][0], w);
  }

  /** The bit wires are those of the value, as the prover fills them. */
  ghost predicate BitsFollow(bits: seq<nat>, x: Elem, w: Assignment) {
    forall k :: 0 <= k < |bits| ==> At(w, bits[k]) == BitAt(x, k)
  }

  /**
   GreaterThanEqZeroGadget::constrain_greater_than_zero: the constraint is the recomposition, nothing more, so the
   range follows from binary bit wires only.
   */
  method ConstrainRange(cs: ConstraintSystem, x: LC, d: nat) returns (ghost bits: seq<nat>)
    requires cs.Valid() && Known(x, cs.wires) && d <= 251
    modifies cs
    ensures cs.Valid() && cs.wires >= old(cs.wires) && |bits| == d
    ensures forall w {:trigger Plausible(cs.unchecked, w)} ::
      Plausible(cs.unchecked, w) ==> Plausible(old(cs.unchecked), w)
    ensures forall w {:trigger Satisfies(cs.constraints, w)} :: Satisfies(cs.constraints, w) <==>
      Satisfies(old(cs.constraints), w) && FromBits(WireValues(bits, w)) == Eval(x, w)
    ensures forall w {:trigger Satisfies(cs.constraints, w)} :: Satisfies(cs.constraints, w) ==>
      Satisfies(old(cs.constraints), w) && (Plausible(cs.unchecked, w) ==> Eval(x, w) as int < Pow2(d))
    ensures forall w {:trigger Honest(cs.hints, w)} :: Honest(cs.hints, w) ==>
      && Honest(old(cs.hints), w)
      && (Satisfies(cs.constraints, w) <==> Satisfies(old(cs.constraints), w) && Eval(x, w) as int < Pow2(d))
  {
    hide Eval, Honest, At, BitAt, Satisfies, Plausible, Recompose, Pow2, FromBits;
    var wires := Decompose(cs, x, d);
    bits := wires;
    cs.Constrain(Diff(Recompose(wires), x));
    forall w
      ensures Eval(Diff(Recompose(wires), x), w) == 0 <==> Eval(Recompose(wires), w) == Eval(x, w)
      ensures Eval(Recompose(wires), w) == FromBits(WireValues(wires, w))
    {
      EvalDiff(Recompose(wires), x, w);
      RecomposeValue(wires, w);
    }
    forall w | Plausible(cs.unchecked, w) ensures Eval(Recompose(wires), w) as int < Pow2(d) {
      BinaryBitsBound(wires, w);
    }
    forall w | Honest(cs.hints, w)
      ensures Eval(Recompose(wires), w) == Eval(x, w) <==> Eval(x, w) as int < Pow2(d)
    {
      HonestBits(Eval(x, w), wires, w);
    }
  }

  /** Without binary wires the range constraint of any positive width accepts every field element. */
  lemma RangeAcceptsAll(x: Elem, d: nat)
    requires d >= 1
    ensures FromBits([x] + BitsOf(0, d - 1)) == x
  {
    hide F;
    var s := [x] + BitsOf(0, d - 1);
    assert s[1..] == BitsOf(0, d - 1);
    ZeroBits(d - 1);
    FSelf(x);
  }

  /** greater_than_zero: tests the recomposition, so the output says no more than that the wires recompose to x. */
  method GreaterThanEqZero(cs: ConstraintSystem, x: LC, d: nat) returns (geq: nat, ghost bits: seq<nat>)
    requires cs.Valid() && Known(x, cs.wires) && d <= 251
    modifies cs
    ensures cs.Valid() && cs.wires >= old(cs.wires) && geq < cs.wires && |bits| == d
    ensures Recorded(old(cs.hints), cs.hints)
    ensures forall w {:trigger Plausible(cs.unchecked, w)} ::
      Plausible(cs.unchecked, w) ==> Plausible(old(cs.unchecked), w)
    ensures forall w {:trigger Satisfies(cs.constraints, w)} :: Satisfies(cs.constraints, w) ==>
      && Satisfies(old(cs.constraints), w)
      && At(w, geq) == Bit(FromBits(WireValues(bits, w)) == Eval(x, w))
      && (Plausible(cs.unchecked, w) && At(w, geq) == 1 ==> Eval(x, w) as int < Pow2(d))
      && (BitsFollow(bits, Eval(x, w), w) ==> At(w, geq) == Bit(Eval(x, w) as int < Pow2(d)))
    ensures forall w {:trigger Honest(cs.hints, w)} :: Honest(cs.hints, w) ==>
      && Honest(old(cs.hints), w)
      && At(w, geq) == Bit(Eval(x, w) as int < Pow2(d))
      && (Satisfies(old(cs.constraints), w) ==> Satisfies(cs.constraints, w))
  {
    hide Eval, Honest, At, BitAt, Satisfies, Plausible, Recompose, Pow2, FromBits;
    var n := cs.wires;
    var wires := Decompose(cs, x, d);
    bits := wires;
    RecomposeKnown(wires, cs.wires);
    KnownMore(x, n, cs.wires);
    geq := Eq(cs, Recompose(wires), x);
    forall w ensures Eval(Recompose(wires), w) == FromBits(WireValues(wires, w)) { RecomposeValue(wires, w); }
    forall w | Plausible(cs.unchecked, w) ensures Eval(Recompose(wires), w) as int < Pow2(d) {
      BinaryBitsBound(wires, w);
    }
    forall w | BitsFollow(wires, Eval(x, w), w)
      ensures Eval(Recompose(wires), w) == Eval(x, w) <==> Eval(x, w) as int < Pow2(d)
    {
      HonestBits(Eval(x, w), wires, w);
    }
  }

  // ---- division ------------------------------------------------------------------------

  /** What the division gadget checks when the bit wires of its remainder test are the prover's. */
  ghost predicate DivisionPasses(a: Elem, b: Elem, q: Elem, r: Elem, d: nat) {
    a == Add(Mul(b, q), r) && Sub(r, b) as int >= Pow2(d)
  }

  /** The constraints of DivRemGadget on a chosen quotient and remainder. */
  method CheckDivision(cs: ConstraintSystem, a: LC, b: LC, q: nat, r: nat, d: nat) returns (ghost bits: seq<nat>)
    requires cs.Valid() && Known(a, cs.wires) && Known(b, cs.wires) && q < cs.wires && r < cs.wires && d <= 251
    modifies cs
    ensures cs.Valid() && cs.wires >= old(cs.wires) && |bits| == d
    ensures Recorded(old(cs.hints), cs.hints)
    ensures forall w {:trigger Plausible(cs.unchecked, w)} ::
      Plausible(cs.unchecked, w) ==> Plausible(old(cs.unchecked), w)
    ensures forall w {:trigger Satisfies(cs.constraints, w)} :: Satisfies(cs.constraints, w) ==>
      && Satisfies(old(cs.constraints), w)
      && Eval(a, w) == Add(Mul(Eval(b, w), At(w, q)), At(w, r))
      && FromBits(WireValues(bits, w)) != Sub(At(w, r), Eval(b, w))
      && (BitsFollow(bits, Sub(At(w, r), Eval(b, w)), w) ==>
          DivisionPasses(Eval(a, w), Eval(b, w), At(w, q), At(w, r), d))
    ensures forall w {:trigger Honest(cs.hints, w)} :: Honest(cs.hints, w) ==>
      && Honest(old(cs.hints), w)
      && (Satisfies(cs.constraints, w) <==>
          Satisfies(old(cs.constraints), w) && DivisionPasses(Eval(a, w), Eval(b, w), At(w, q), At(w, r), d))
  {
    hide Eval, Honest, At, Satisfies, Plausible, Mul, Add, Sub, Pow2, IsBit, FromBits, BitsFollow;
    var n := cs.wires;
    var _, _, bq := Multiply(cs, b, Wire(q));
    var total := Diff(Diff(a, Wire(bq)), Wire(r));
    cs.Constrain(total);
    KnownMore(b, n, cs.wires);
    var geq, wires := GreaterThanEqZero(cs, Diff(Wire(r), b), d);
    bits := wires;
    var less := Diff(ONE, Wire(geq));
    cs.Constrain(Diff(ONE, less));
    forall w
      ensures Eval(Wire(q), w) == At(w, q) && Eval(Diff(Wire(r), b), w) == Sub(At(w, r), Eval(b, w))
      ensures Eval(total, w) == 0 <==> Eval(a, w) == Add(At(w, bq), At(w, r))
      ensures Eval(Diff(ONE, less), w) == 0 <==> At(w, geq) == 0
    {
      EvalWire(q, w);
      EvalWire(r, w);
      EvalDiff(Wire(r), b, w);
      DivisionEval(a, bq, r, w);
      LessEval(geq, w);
    }
  }

  /**
   DivRemGadget: the prover chooses quotient and remainder, the constraints are those of CheckDivision. What they
   mean for the quotient is QuotientIff.
   */
  method DivRem(cs: ConstraintSystem, a: LC, b: LC, d: nat) returns (q: nat, r: nat, ghost bits: seq<nat>)
    requires cs.Valid() && Known(a, cs.wires) && Known(b, cs.wires) && d <= 251
    modifies cs
    ensures cs.Valid() && cs.wires >= old(cs.wires) && q < cs.wires && r < cs.wires && |bits| == d
    ensures Recorded(old(cs.hints), cs.hints) && Chosen(q, AsQuotient) in cs.hints && Chosen(r, AsRemainder) in cs.hints
    ensures forall w {:trigger Plausible(cs.unchecked, w)} ::
      Plausible(cs.unchecked, w) ==> Plausible(old(cs.unchecked), w)
    ensures forall w {:trigger Satisfies(cs.constraints, w)} :: Satisfies(cs.constraints, w) ==>
      && Satisfies(old(cs.constraints), w)
      && Eval(a, w) == Add(Mul(Eval(b, w), At(w, q)), At(w, r))
      && (Eval(b, w) != 0 ==>
          (At(w, q) == FloorDiv(Eval(a, w), Eval(b, w)) <==> NoWrap(Eval(b, w), At(w, q), At(w, r))))
      && (BitsFollow(bits, Sub(At(w, r), Eval(b, w)), w) && Eval(b, w) as int <= Pow2(d) ==>
          At(w, r) < Eval(b, w) || At(w, r) as int >= Eval(b, w) as int + Pow2(d))
    ensures forall w {:trigger Honest(cs.hints, w)} :: Honest(cs.hints, w) ==>
      && Honest(old(cs.hints), w)
      && (Satisfies(cs.constraints, w) <==>
          Satisfies(old(cs.constraints), w) && DivisionPasses(Eval(a, w), Eval(b, w), At(w, q), At(w, r), d))
  {
    hide Eval, Honest, At, Satisfies, Plausible, Mul, Add, Sub, FloorDiv, NoWrap, Pow2, FromBits, BitsFollow;
    var n := cs.wires;
    q := cs.Allocate(Chosen(n, AsQuotient));
    r := cs.Allocate(Chosen(n + 1, AsRemainder));
    KnownMore(a, n, n + 2);
    KnownMore(b, n, n + 2);
    var wires := CheckDivision(cs, a, b, q, r, d);
    bits := wires;
    forall w | Eval(b, w) != 0 && Eval(a, w) == Add(Mul(Eval(b, w), At(w, q)), At(w, r))
      ensures At(w, q) == FloorDiv(Eval(a, w), Eval(b, w)) <==> NoWrap(Eval(b, w), At(w, q), At(w, r))
    {
      QuotientIff(Eval(a, w), Eval(b, w), At(w, q), At(w, r));
    }
    forall w | Eval(b, w) as int <= Pow2(d) && Sub(At(w, r), Eval(b, w)) as int >= Pow2(d)
      ensures At(w, r) < Eval(b, w) || At(w, r) as int >= Eval(b, w) as int + Pow2(d)
    {
      RemainderTestIff(Eval(b, w), At(w, r), d);
    }
  }

  /** The remainder is below the divisor and b q + r does not wrap around the modulus. */
  ghost predicate NoWrap(b: Elem, q: Elem, r: Elem) {
    r < b && b as int * q as int + r as int < P
  }

  /** Among all chosen q and r with a == b q + r in the field, q is the floor exactly when r < b and nothing wraps. */
  lemma QuotientIff(a: Elem, b: Elem, q: Elem, r: Elem)
    requires b != 0 && a == Add(Mul(b, q), r)
    ensures q == FloorDiv(a, b) <==> NoWrap(b, q, r)
    ensures NoWrap(b, q, r) ==> r == FloorRem(a, b)
  {
    hide F, Add, Mul, FloorDiv, FloorRem, NoWrap;
    if NoWrap(b, q, r) {
      ExactDivision(a, b, q, r);
    }
    if q == FloorDiv(a, b) {
      DivisionHolds(a, b);
      SubIsEqual(a, Mul(b, q), r);
      SubIsEqual(a, Mul(b, q), FloorRem(a, b));
      FloorNoWrap(a, b);
    }
  }

  lemma FloorNoWrap(a: Elem, b: Elem)
    requires b != 0
    ensures NoWrap(b, FloorDiv(a, b), FloorRem(a, b))
  {
    hide FloorDiv, FloorRem;
    QuotientRemainder(a, b);
    FloorIsDiv(a, b);
  }

  lemma ExactDivision(a: Elem, b: Elem, q: Elem, r: Elem)
    requires b != 0 && a == Add(Mul(b, q), r) && NoWrap(b, q, r)
    ensures q == FloorDiv(a, b) && r == FloorRem(a, b)
  {
    hide F, Add, Mul, FloorDiv, FloorRem;
    ProductFits(b, q, r);
    ExactQuotient(a, b, q, r);
    FloorIsDiv(a, b);
  }

  lemma ProductFits(b: Elem, q: Elem, r: Elem)
    requires b as int * q as int + r as int < P
    ensures Add(Mul(b, q), r) as int == b as int * q as int + r as int
  {
    hide F, Add, Mul;
    var y: int, z: int := b, q;
    FSelf(b);
    FSelf(q);
    FSelf(r);
    FMul(b, q);
    FAdd(y * z, r);
    FSelf(y * z + r as int);
  }

  lemma ExactQuotient(a: int, b: int, q: int, r: int)
    requires a == b * q + r && 0 <= r < b
    ensures a / b == q && a % b == r
  {
    MulCommutes(b, q);
    DivModUnique(a, q, r, b);
  }

  lemma FloorIsDiv(a: Elem, b: Elem)
    requires b != 0
    ensures FloorDiv(a, b) as int == a / b && FloorRem(a, b) as int == a % b
  {
  }

  /** With the prover's bit wires the remainder test excludes only the remainders from b to b + 2^d. */
  lemma RemainderTestIff(b: Elem, r: Elem, d: nat)
    requires b as int <= Pow2(d) && d <= 251
    ensures Sub(r, b) as int >= Pow2(d) <==> r < b || r as int >= b as int + Pow2(d)
  {
    hide F, Pow2;
    Pow2Monotone(d, 251);
    Pow2Add(1, 250);
    Pow2Literals();
    if r < b {
      DivModUnique(r - b, -1, r - b + P, P);
      FIsShift(r - b);
    } else {
      FSelf(r - b);
    }
  }

  /** With binary wires of the prover's choosing the remainder test passes for every remainder. */
  lemma RemainderTestVoid(x: Elem, d: nat) returns (bits: seq<Elem>)
    requires d >= 1
    ensures |bits| == d && AllBits(bits) && FromBits(bits) != x
  {
    hide F;
    if x == 0 {
      bits := [1] + BitsOf(0, d - 1);
      RangeAcceptsAll(1, d);
    } else {
      bits := BitsOf(0, d);
      ZeroBits(d);
      FSelf(0);
    }
  }

  /** The honest quotient and remainder pass, for every divisor of d bits. */
  lemma FloorPasses(a: Elem, b: Elem, d: nat)
    requires 0 < b as int <= Pow2(d) && d <= 251
    ensures DivisionPasses(a, b, FloorDiv(a, b), FloorRem(a, b), d)
  {
    hide Add, Mul, Sub, FloorDiv, FloorRem, Pow2;
    DivisionHolds(a, b);
    FloorIsDiv(a, b);
    RemainderTestIff(b, FloorRem(a, b), d);
  }

  /** Zero divided by 2^32 also passes with quotient P - 2 and remainder 2^33, the remainder's bits being honest. */
  lemma WrongQuotientPasses()
    ensures DivisionPasses(0, 0x1_0000_0000, P - 2, 0x2_0000_0000, 32)
    ensures FloorDiv(0, 0x1_0000_0000) == 0
  {
    hide F, Pow2;
    Pow2Literals();
    var b: int, q: int, r: int := 0x1_0000_0000, P - 2, 0x2_0000_0000;
    FSelf(r);
    FAdd(b * q, r);
    FCongruent(b * q + r, 0, b);
    FSelf(0);
    RemainderTestIff(b, r, 32);
  }

  /** The constraints themselves accept that quotient. */
  method AcceptWrongQuotient() returns (cs: ConstraintSystem, ghost w: Assignment)
    ensures Satisfies(cs.constraints, w) && Honest(cs.hints, w) && Plausible(cs.unchecked, w)
    ensures |w| >= 3 && w[0] == 0 && w[1] == P - 2 && w[2] == 0x2_0000_0000 && FloorDiv(w[0], 0x1_0000_0000) != w[1]
  {
    hide Satisfies, Honest, Plausible, DivisionPasses, Pow2, Recorded, InOrder, F, Mul, Add, Sub;
    cs := new ConstraintSystem(3);
    var _ := CheckDivision(cs, Wire(0), Const(0x1_0000_0000), 1, 2, 32);
    w := HonestAssignment(cs.hints, [0, P - 2, 0x2_0000_0000], seq(|cs.hints|, i => 0));
    HonestIsPlausible(cs.hints, cs.unchecked, w);
    WrongQuotientPasses();
    assert w[..3] == [0, P - 2, 0x2_0000_0000];
    assert w[0] == w[..3][0] && w[1] == w[..3][1] && w[2] == w[..3][2];
    assert Satisfies([], w) by { SatisfiesNothing(w); }
  }

  lemma SatisfiesNothing(w: Assignment)
    ensures Satisfies([], w)
  {
  }

  lemma DivisionEval(a: LC, bq: nat, r: nat, w: Assignment)
    ensures Eval(Diff(Diff(a, Wire(bq)), Wire(r)), w) == 0 <==> Eval(a, w) == Add(At(w, bq), At(w, r))
  {
    hide Eval, Add, Sub, At;
    EvalDiff(Diff(a, Wire(bq)), Wire(r), w);
    EvalDiff(a, Wire(bq), w);
    EvalWire(bq, w);
    EvalWire(r, w);
    SubIsEqual(Eval(a, w), At(w, bq), At(w, r));
  }

  lemma LessEval(geq: nat, w: Assignment)
    ensures Eval(Diff(ONE, Diff(ONE, Wire(geq))), w) == 0 <==> At(w, geq) == 0
  {
    hide Sub, At, Eval;
    EvalDiff(ONE, Diff(ONE, Wire(geq)), w);
    EvalDiff(ONE, Wire(geq), w);
    EvalWire(geq, w);
    EvalOne(w);
    SubIsEqual(1, At(w, geq), 1);
    AddOne(At(w, geq));
  }

  lemma AddOne(x: Elem)
    ensures 1 == Add(x, 1) <==> x == 0
  {
    hide F, Add;
    SubIsEqual(1, 1, x);
    FSelf(1);
    FSelf(0);
    FSelf(x);
    FSub(1, 1);
    FAdd(x, 1);
    FAdd(1, x);
  }

  lemma DivisionHolds(a: Elem, b: Elem)
    requires b != 0
    ensures a == Add(Mul(b, FloorDiv(a, b)), FloorRem(a, b))
  {
    hide F, FloorDiv, FloorRem;
    var q: int, r: int := FloorDiv(a, b), FloorRem(a, b);
    QuotientRemainder(a, b);
    FSelf(r);
    FAdd(b as int * q, r);
    FSelf(a);
  }

  lemma QuotientRemainder(a: Elem, b: Elem)
    requires b != 0
    ensures a as int == b as int * FloorDiv(a, b) as int + FloorRem(a, b) as int
  {
  }
}
