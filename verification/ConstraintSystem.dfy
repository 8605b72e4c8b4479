/**
 Rank-1 constraint systems: the interface of the proof system that the circuits build on. Constraints are
 appended to a mutable system; an assignment of the wires is judged against the list afterwards.

 Two readings matter for every gadget. Soundness quantifies over all assignments that satisfy the
 constraints. Completeness is about honest assignments: those that give every allocated wire the value
 that the prover computes for it, recorded as a hint.
 */
module ConstraintSystems {
  import opened ResidueField
  import opened ScalarField
  import opened MpcBits
  import Numbers
  import Primality

  /** A linear combination of wires. */
  datatype LC =
    | Const(c: Elem)
    | Wire(i: nat)
    | Sum(l: LC, r: LC)
    | Diff(l: LC, r: LC)
    | Scaled(k: Elem, lc: LC)

  /** Values of the wires; a wire beyond the end reads as zero. */
  type Assignment = seq<Elem>

  function At(w: Assignment, i: nat): Elem {
    if i < |w| then w[i] else 0
  }

  function Eval(lc: LC, w: Assignment): Elem {
    match lc
    case Const(c) => c
    case Wire(i) => At(w, i)
    case Sum(l, r) => Add(Eval(l, w), Eval(r, w))
    case Diff(l, r) => Sub(Eval(l, w), Eval(r, w))
    case Scaled(k, lc) => Mul(k, Eval(lc, w))
  }

  datatype Constraint =
    | IsZero(lc: LC)
    | Gate(left: nat, right: nat, out: nat)

  ghost predicate Holds(c: Constraint, w: Assignment) {
    match c
    case IsZero(lc) => Eval(lc, w) == 0
    case Gate(left, right, out) => At(w, out) == Mul(At(w, left), At(w, right))
  }

  ghost predicate Satisfies(cs: seq<Constraint>, w: Assignment) {
    forall i :: 0 <= i < |cs| ==> Holds(cs[i], w)
  }

  /** What a chosen wire stands for. */
  datatype Part = AsQuotient | AsRemainder

  /** How the prover computes the value of an allocated wire; a chosen wire may carry anything. */
  datatype Hint =
    | ValueOf(wire: nat, lc: LC)
    | ProductOf(wire: nat, left: LC, right: LC)
    | ZeroTestOf(wire: nat, lc: LC)
    | InverseOf(wire: nat, lc: LC)
    | BitOf(wire: nat, lc: LC, index: nat)
    | Chosen(wire: nat, part: Part)

  /** The k-th bit of the canonical representative. */
  function BitAt(x: nat, k: nat): Elem {
    x / Numbers.Pow2(k) % 2
  }

  function FloorDiv(a: Elem, b: Elem): Elem {
    if b == 0 then 0 else (Quotient(a, b); a / b)
  }

  function FloorRem(a: Elem, b: Elem): Elem {
    if b == 0 then 0 else a % b
  }

  lemma Quotient(a: nat, b: nat)
    requires b > 0
    ensures a / b <= a
  {
    var q := a / b;
    assert a == b * q + a % b;
    Primality.MulMonotone(1, q, b, q);
  }

  /** Every allocated wire carries the prover's value; chosen wires are free. */
  ghost predicate Honest(hints: seq<Hint>, w: Assignment) {
    forall i :: 0 <= i < |hints| ==> Follows(hints[i], w)
  }

  /** What soundness must assume of the wires that no constraint pins down: bit wires of range gadgets carry bits. */
  ghost predicate Plausible(unchecked: seq<Hint>, w: Assignment) {
    forall i :: 0 <= i < |unchecked| ==> PlausibleHint(unchecked[i], w)
  }

  ghost predicate PlausibleHint(h: Hint, w: Assignment) {
    match h
    case BitOf(i, _, _) => IsBit(At(w, i))
    case _ => true
  }

  // ---- allocation order ----------------------------------------------------------------

  /** Mentions only the first n wires. */
  ghost predicate Known(lc: LC, n: nat) {
    match lc
    case Const(_) => true
    case Wire(i) => i < n
    case Sum(l, r) => Known(l, n) && Known(r, n)
    case Diff(l, r) => Known(l, n) && Known(r, n)
    case Scaled(_, lc) => Known(lc, n)
  }

  ghost predicate HintKnown(h: Hint, n: nat) {
    match h
    case ValueOf(_, lc) => Known(lc, n)
    case ProductOf(_, l, r) => Known(l, n) && Known(r, n)
    case ZeroTestOf(_, lc) => Known(lc, n)
    case InverseOf(_, lc) => Known(lc, n)
    case BitOf(_, lc, _) => Known(lc, n)
    case Chosen(_, _) => true
  }

  /** Hint i fills wire inputs + i from earlier wires. */
  ghost predicate InOrder(hints: seq<Hint>, inputs: nat) {
    forall i :: 0 <= i < |hints| ==> hints[i].wire == inputs + i && HintKnown(hints[i], inputs + i)
  }

  lemma {:induction false} KnownMore(lc: LC, n: nat, m: nat)
    requires Known(lc, n) && n <= m
    ensures Known(lc, m)
  {
    match lc
    case Const(_) =>
    case Wire(i) =>
    case Sum(l, r) => KnownMore(l, n, m); KnownMore(r, n, m);
    case Diff(l, r) => KnownMore(l, n, m); KnownMore(r, n, m);
    case Scaled(_, lc') => KnownMore(lc', n, m);
  }

  lemma {:induction false} EvalExtends(lc: LC, w: Assignment, x: Elem)
    requires Known(lc, |w|)
    ensures Eval(lc, w + [x]) == Eval(lc, w)
  {
    hide Add, Sub, Mul;
    match lc
    case Const(_) =>
    case Wire(i) =>
    case Sum(l, r) => EvalExtends(l, w, x); EvalExtends(r, w, x);
    case Diff(l, r) => EvalExtends(l, w, x); EvalExtends(r, w, x);
    case Scaled(_, lc') => EvalExtends(lc', w, x);
  }

  /** The value that a hint prescribes. */
  function Prescribed(h: Hint, w: Assignment): Elem {
    match h
    case ValueOf(_, lc) => Eval(lc, w)
    case ProductOf(_, l, r) => Mul(Eval(l, w), Eval(r, w))
    case ZeroTestOf(_, lc) => Bit(Eval(lc, w) == 0)
    case InverseOf(_, lc) => Inv(Eval(lc, w))
    case BitOf(_, lc, k) => BitAt(Eval(lc, w), k)
    case Chosen(_, _) => 0
  }

  ghost predicate Follows(h: Hint, w: Assignment) {
    h.Chosen? || At(w, h.wire) == Prescribed(h, w)
  }

  lemma PrescribedExtends(h: Hint, w: Assignment, x: Elem)
    requires HintKnown(h, |w|)
    ensures Prescribed(h, w + [x]) == Prescribed(h, w)
  {
    hide Eval, Mul, Inv, BitAt;
    match h
    case ValueOf(_, lc) => EvalExtends(lc, w, x);
    case ProductOf(_, l, r) => EvalExtends(l, w, x); EvalExtends(r, w, x);
    case ZeroTestOf(_, lc) => EvalExtends(lc, w, x);
    case InverseOf(_, lc) => EvalExtends(lc, w, x);
    case BitOf(_, lc, _) => EvalExtends(lc, w, x);
    case Chosen(_, _) =>
  }

  lemma {:induction false} HintKnownMore(h: Hint, n: nat, m: nat)
    requires HintKnown(h, n) && n <= m
    ensures HintKnown(h, m)
  {
    match h
    case ValueOf(_, lc) => KnownMore(lc, n, m);
    case ProductOf(_, l, r) => KnownMore(l, n, m); KnownMore(r, n, m);
    case ZeroTestOf(_, lc) => KnownMore(lc, n, m);
    case InverseOf(_, lc) => KnownMore(lc, n, m);
    case BitOf(_, lc, _) => KnownMore(lc, n, m);
    case Chosen(_, _) =>
  }

  /** Filling the wires in order turns any inputs and any choices into an honest assignment. */
  lemma {:induction false} HonestAssignment(hints: seq<Hint>, input: Assignment, choice: seq<Elem>) returns (w: Assignment)
    requires InOrder(hints, |input|) && |choice| == |hints|
    ensures |w| == |input| + |hints| && w[..|input|] == input && Honest(hints, w)
    ensures forall i :: 0 <= i < |hints| && hints[i].Chosen? ==> w[|input| + i] == choice[i]
  {
    if hints == [] {
      w := input;
    } else {
      var last := |hints| - 1;
      var front := HonestAssignment(hints[..last], input, choice[..last]);
      var h := hints[last];
      var value := if h.Chosen? then choice[last] else Prescribed(h, front);
      w := front + [value];
      PrescribedExtends(h, front, value);
      forall i | 0 <= i < last ensures Follows(hints[i], w) {
        assert hints[..last][i] == hints[i] && Follows(hints[i], front);
        HintKnownMore(hints[i], |input| + i, |front|);
        PrescribedExtends(hints[i], front, value);
      }
      forall i | 0 <= i < last && hints[i].Chosen? ensures w[|input| + i] == choice[i] {
        assert hints[..last][i] == hints[i] && choice[..last][i] == choice[i];
      }
    }
  }

  /** Every hint of the first list is one of the second. */
  ghost predicate Recorded(some: seq<Hint>, hints: seq<Hint>) {
    forall h :: h in some ==> h in hints
  }

  /** The prover can give every quotient wire one value and every remainder wire another. */
  lemma ChosenAssignment(hints: seq<Hint>, input: Assignment, q: Elem, r: Elem) returns (w: Assignment)
    requires InOrder(hints, |input|)
    ensures |w| == |input| + |hints| && w[..|input|] == input && Honest(hints, w)
    ensures forall h :: h in hints && h.Chosen? ==> At(w, h.wire) == if h.part.AsQuotient? then q else r
  {
    var choice := seq(|hints|, i requires 0 <= i < |hints| =>
      if hints[i].Chosen? && hints[i].part.AsRemainder? then r else q);
    w := HonestAssignment(hints, input, choice);
    forall h | h in hints && h.Chosen? ensures At(w, h.wire) == if h.part.AsQuotient? then q else r {
      var i :| 0 <= i < |hints| && hints[i] == h;
      assert h.wire == |input| + i;
    }
  }

  /** Honest wires are plausible. */
  lemma HonestIsPlausible(hints: seq<Hint>, unchecked: seq<Hint>, w: Assignment)
    requires Recorded(unchecked, hints) && Honest(hints, w)
    ensures Plausible(unchecked, w)
  {
    hide At, Eval;
    forall i | 0 <= i < |unchecked| ensures PlausibleHint(unchecked[i], w) {
      var h := unchecked[i];
      assert h in hints;
      var k :| 0 <= k < |hints| && hints[k] == h;
      assert Follows(hints[k], w);
    }
  }

  // ---- building ------------------------------------------------------------------------

  /** A constraint system under construction. */
  class ConstraintSystem {
    const inputs: nat
    var wires: nat
    var constraints: seq<Constraint>
    ghost var hints: seq<Hint>
    ghost var unchecked: seq<Hint>

    ghost predicate Valid()
      reads this
    {
      wires == inputs + |hints| && InOrder(hints, inputs) && Recorded(unchecked, hints)
    }

    constructor (inputs: nat)
      ensures Valid() && wires == inputs && constraints == [] && hints == [] && unchecked == []
    {
      this.inputs, wires, constraints, hints, unchecked := inputs, inputs, [], [], [];
    }

    /** Adds the constraint lc == 0. */
    method Constrain(lc: LC)
      requires Valid()
      modifies this
      ensures Valid() && wires == old(wires) && hints == old(hints) && unchecked == old(unchecked)
      ensures forall w {:trigger Satisfies(constraints, w)} ::
        Satisfies(constraints, w) <==> Satisfies(old(constraints), w) && Eval(lc, w) == 0
    {
      constraints := constraints + [IsZero(lc)];
      forall w ensures Satisfies(constraints, w) <==> Satisfies(old(constraints), w) && Eval(lc, w) == 0 {
        SatisfiesSnoc(old(constraints), IsZero(lc), w);
      }
    }

    /** Allocates a wire that the prover fills as the hint says. */
    method Allocate(ghost hint: Hint) returns (wire: nat)
      requires Valid() && hint.wire == wires && HintKnown(hint, wires)
      modifies this
      ensures Valid() && wire == old(wires) && wires == old(wires) + 1
      ensures constraints == old(constraints) && Recorded(old(hints), hints) && hint in hints
      ensures unchecked == if hint.BitOf? then old(unchecked) + [hint] else old(unchecked)
      ensures forall w {:trigger Honest(hints, w)} ::
        Honest(hints, w) <==> Honest(old(hints), w) && (hint.Chosen? || At(w, wire) == Prescribed(hint, w))
    {
      hide Prescribed, At;
      wire := wires;
      wires := wires + 1;
      hints := hints + [hint];
      unchecked := if hint.BitOf? then unchecked + [hint] else unchecked;
      forall w ensures Honest(hints, w) <==> Honest(old(hints), w) && (hint.Chosen? || At(w, wire) == Prescribed(hint, w)) {
        HonestSnoc(old(hints), hint, w);
      }
    }

    /** Adds the multiplication gate out == l * r. */
    method AddGate(l: nat, r: nat, out: nat)
      requires Valid()
      modifies this
      ensures Valid() && wires == old(wires) && hints == old(hints) && unchecked == old(unchecked)
      ensures forall w {:trigger Satisfies(constraints, w)} ::
        Satisfies(constraints, w) <==> Satisfies(old(constraints), w) && At(w, out) == Mul(At(w, l), At(w, r))
    {
      constraints := constraints + [Gate(l, r, out)];
      forall w ensures Satisfies(constraints, w) <==>
          (Satisfies(old(constraints), w) && At(w, out) == Mul(At(w, l), At(w, r))) {
        SatisfiesSnoc(old(constraints), Gate(l, r, out), w);
      }
    }
  }

  lemma SatisfiesSnoc(cs: seq<Constraint>, c: Constraint, w: Assignment)
    ensures Satisfies(cs + [c], w) <==> Satisfies(cs, w) && Holds(c, w)
  {
    hide Holds;
    assert (cs + [c])[|cs|] == c;
    if Satisfies(cs + [c], w) {
      forall i | 0 <= i < |cs| ensures Holds(cs[i], w) { assert (cs + [c])[i] == cs[i]; }
    }
  }

  lemma HonestSnoc(hs: seq<Hint>, h: Hint, w: Assignment)
    ensures Honest(hs + [h], w) <==> Honest(hs, w) && Follows(h, w)
  {
    hide Follows;
    assert (hs + [h])[|hs|] == h;
    if Honest(hs + [h], w) {
      forall i | 0 <= i < |hs| ensures Follows(hs[i], w) { assert (hs + [h])[i] == hs[i]; }
    }
  }

  lemma PlausibleParts(a: seq<Hint>, b: seq<Hint>, w: Assignment)
    ensures Plausible(a + b, w) <==> Plausible(a, w) && Plausible(b, w)
  {
    hide PlausibleHint;
    if Plausible(a + b, w) {
      forall i | 0 <= i < |a| ensures PlausibleHint(a[i], w) { assert (a + b)[i] == a[i]; }
      forall i | 0 <= i < |b| ensures PlausibleHint(b[i], w) { assert (a + b)[|a| + i] == b[i]; }
    }
  }
}
