/** Merkle openings in the constraint system (circuits/src/zk_gadgets/merkle.rs), against complete hash trees. */
module ZkMerkle {
  import opened ResidueField
  import opened ScalarField
  import opened MpcBits
  import opened ConstraintSystems
  import opened ZkGadgets
  import opened PoseidonSponge
  import opened ZkPoseidon

  // ---- the fold ------------------------------------------------------------------------

  /** The left child by the field formula; the right child is what remains of the sum. */
  function LeftChild(current: Elem, sister: Elem, select: Elem): Elem {
    Add(Mul(current, Sub(1, select)), Mul(sister, select))
  }

  function PairHash(p: Params, left: Elem, right: Elem): Elem
    requires p.Valid()
  {
    HashOf(p, [left, right])
  }

  function Parent(p: Params, current: Elem, sister: Elem, select: Elem): Elem
    requires p.Valid()
  {
    var left := LeftChild(current, sister, select);
    PairHash(p, left, Sub(Add(current, sister), left))
  }

  /** The root computed from a leaf hash along its opening. */
  function Climb(p: Params, leaf: Elem, sisters: seq<Elem>, selects: seq<Elem>): Elem
    requires p.Valid() && |sisters| == |selects|
    decreases |sisters|
  {
    if |sisters| == 0 then leaf
    else Climb(p, Parent(p, leaf, sisters[0], selects[0]), sisters[1..], selects[1..])
  }

  lemma ChildrenByBit(current: Elem, sister: Elem, select: Elem)
    requires IsBit(select)
    ensures var left := LeftChild(current, sister, select);
      var right := Sub(Add(current, sister), left);
      if select == 0 then left == current && right == sister else left == sister && right == current
  {
    hide F, Mul, Add, Sub;
    OneMinusBit(select);
    MulOne(current);
    MulOne(sister);
    AddZero(current);
    AddZero(sister);
    FSelf(current);
    FSelf(sister);
    FAdd(current, sister);
    FSub(current + sister, current);
    FSub(current + sister, sister);
  }

  lemma ParentByBit(p: Params, current: Elem, sister: Elem, select: Elem)
    requires p.Valid() && IsBit(select)
    ensures Parent(p, current, sister, select) ==
      if select == 0 then PairHash(p, current, sister) else PairHash(p, sister, current)
  {
    hide Add, Sub, LeftChild, PairHash;
    ChildrenByBit(current, sister, select);
  }

  lemma {:induction false} ClimbSnoc(p: Params, leaf: Elem, sisters: seq<Elem>, selects: seq<Elem>, sister: Elem, select: Elem)
    requires p.Valid() && |sisters| == |selects|
    ensures Climb(p, leaf, sisters + [sister], selects + [select]) ==
      Parent(p, Climb(p, leaf, sisters, selects), sister, select)
    decreases |sisters|
  {
    hide Parent, AllWide;
    if |sisters| == 0 {
      assert Climb(p, Parent(p, leaf, sister, select), [], []) == Parent(p, leaf, sister, select);
      assert (sisters + [sister])[1..] == [] && (selects + [select])[1..] == [];
    } else {
      ClimbSnoc(p, Parent(p, leaf, sisters[0], selects[0]), sisters[1..], selects[1..], sister, select);
      assert (sisters + [sister])[1..] == sisters[1..] + [sister] && (selects + [select])[1..] == selects[1..] + [select];
    }
  }

  // ---- complete trees ------------------------------------------------------------------

  datatype Tree = Leaf(value: Elem) | Node(left: Tree, right: Tree)

  predicate Complete(t: Tree, height: nat) {
    match t
    case Leaf(_) => height == 0
    case Node(l, r) => height > 0 && Complete(l, height - 1) && Complete(r, height - 1)
  }

  function Root(p: Params, t: Tree): Elem
    requires p.Valid()
  {
    match t
    case Leaf(v) => v
    case Node(l, r) => PairHash(p, Root(p, l), Root(p, r))
  }

  function Child(t: Tree, select: Elem): Tree
    requires t.Node?
  {
    if select == 0 then t.left else t.right
  }

  function Other(t: Tree, select: Elem): Tree
    requires t.Node?
  {
    if select == 0 then t.right else t.left
  }

  /** The leaf at an index, least significant bit first. */
  function LeafAt(t: Tree, bits: seq<Elem>): Elem
    requires Complete(t, |bits|)
  {
    if t.Leaf? then t.value
    else
      var n := |bits| - 1;
      LeafAt(Child(t, bits[n]), bits[..n])
  }

  /** The opening of the leaf at an index. */
  function Sisters(p: Params, t: Tree, bits: seq<Elem>): (s: seq<Elem>)
    requires p.Valid() && Complete(t, |bits|)
    ensures |s| == |bits|
  {
    if t.Leaf? then []
    else
      var n := |bits| - 1;
      Sisters(p, Child(t, bits[n]), bits[..n]) + [Root(p, Other(t, bits[n]))]
  }

  /** Folding a leaf over its opening gives the root of every complete tree. */
  lemma {:induction false} OpeningClimbs(p: Params, t: Tree, bits: seq<Elem>)
    requires p.Valid() && Complete(t, |bits|) && AllBits(bits)
    ensures Climb(p, LeafAt(t, bits), Sisters(p, t, bits), bits) == Root(p, t)
    decreases t
  {
    hide Parent, PairHash, Climb, AllWide;
    if t.Leaf? {
      ClimbNothing(p, t.value);
      assert bits == [] && Sisters(p, t, bits) == [];
    } else {
      var n := |bits| - 1;
      var child, other := Child(t, bits[n]), Other(t, bits[n]);
      OpeningClimbs(p, child, bits[..n]);
      assert bits == bits[..n] + [bits[n]];
      ClimbSnoc(p, LeafAt(child, bits[..n]), Sisters(p, child, bits[..n]), bits[..n], Root(p, other), bits[n]);
      ParentByBit(p, Root(p, child), Root(p, other), bits[n]);
    }
  }

  lemma ClimbNothing(p: Params, leaf: Elem)
    requires p.Valid()
    ensures Climb(p, leaf, [], []) == leaf
  {
  }

  /** Two different pairs with one hash. */
  ghost predicate Collision(p: Params, a: (Elem, Elem), b: (Elem, Elem))
    requires p.Valid()
  {
    a != b && PairHash(p, a.0, a.1) == PairHash(p, b.0, b.1)
  }

  /** An opening to the root of the same height either is the tree's own or exhibits a hash collision. */
  lemma {:induction false} OpeningBinds(p: Params, t: Tree, leaf: Elem, sisters: seq<Elem>, bits: seq<Elem>)
    returns (a: (Elem, Elem), b: (Elem, Elem))
    requires p.Valid() && Complete(t, |bits|) && AllBits(bits) && |sisters| == |bits|
    requires Climb(p, leaf, sisters, bits) == Root(p, t)
    ensures (leaf == LeafAt(t, bits) && sisters == Sisters(p, t, bits)) || Collision(p, a, b)
    decreases t
  {
    hide Parent, PairHash, Climb, AllWide;
    if t.Leaf? {
      ClimbNothing(p, leaf);
      assert bits == [] && sisters == [];
      a, b := (0, 0), (0, 0);
    } else {
      var n := |bits| - 1;
      var child, other := Child(t, bits[n]), Other(t, bits[n]);
      var below := Climb(p, leaf, sisters[..n], bits[..n]);
      assert bits == bits[..n] + [bits[n]] && sisters == sisters[..n] + [sisters[n]];
      ClimbSnoc(p, leaf, sisters[..n], bits[..n], sisters[n], bits[n]);
      ParentByBit(p, below, sisters[n], bits[n]);
      if below == Root(p, child) && sisters[n] == Root(p, other) {
        a, b := OpeningBinds(p, child, leaf, sisters[..n], bits[..n]);
      } else {
        a := if bits[n] == 0 then (below, sisters[n]) else (sisters[n], below);
        b := (Root(p, t.left), Root(p, t.right));
      }
    }
  }

  // ---- the gadget ----------------------------------------------------------------------

  /** The two children in order, with one multiplication pair. */
  method SelectLeftRight(cs: ConstraintSystem, current: LC, sister: LC, select: LC) returns (left: LC, right: LC)
    requires cs.Valid() && Known(current, cs.wires) && Known(sister, cs.wires) && Known(select, cs.wires)
    modifies cs
    ensures cs.Valid() && cs.wires >= old(cs.wires) && cs.unchecked == old(cs.unchecked)
    ensures Known(left, cs.wires) && Known(right, cs.wires)
    ensures forall w {:trigger Satisfies(cs.constraints, w)} :: Satisfies(cs.constraints, w) ==>
      && Satisfies(old(cs.constraints), w)
      && Eval(left, w) == LeftChild(Eval(current, w), Eval(sister, w), Eval(select, w))
      && Eval(right, w) == Sub(Add(Eval(current, w), Eval(sister, w)), Eval(left, w))
    ensures forall w {:trigger Honest(cs.hints, w)} :: Honest(cs.hints, w) ==>
      && Honest(old(cs.hints), w)
      && Eval(left, w) == LeftChild(Eval(current, w), Eval(sister, w), Eval(select, w))
      && Eval(right, w) == Sub(Add(Eval(current, w), Eval(sister, w)), Eval(left, w))
      && (Satisfies(old(cs.constraints), w) ==> Satisfies(cs.constraints, w))
  {
    hide Eval, Satisfies, Honest, At, Mul, Add, Sub;
    var n := cs.wires;
    var _, _, o1 := Multiply(cs, current, Diff(ONE, select));
    KnownMore(sister, n, cs.wires);
    KnownMore(select, n, cs.wires);
    var _, _, o2 := Multiply(cs, sister, select);
    KnownMore(current, n, cs.wires);
    KnownMore(sister, n, cs.wires);
    left := Sum(Wire(o1), Wire(o2));
    right := Diff(Sum(current, sister), left);
    forall w
      ensures Eval(left, w) == Add(At(w, o1), At(w, o2)) && Eval(Diff(ONE, select), w) == Sub(1, Eval(select, w))
      ensures Eval(right, w) == Sub(Add(Eval(current, w), Eval(sister, w)), Eval(left, w))
    {
      EvalSum(Wire(o1), Wire(o2), w);
      EvalWire(o1, w);
      EvalWire(o2, w);
      EvalDiff(ONE, select, w);
      EvalOne(w);
      EvalDiff(Sum(current, sister), left, w);
      EvalSum(current, sister, w);
    }
  }

  /** What remains to be climbed from the current hash leads where the whole path does. */
  ghost predicate OnPath(p: Params, current: LC, i: nat, leaf: LC, elems: seq<nat>, indices: seq<nat>, w: Assignment)
    requires p.Valid() && i <= |elems| == |indices|
  {
    Climb(p, Eval(current, w), WireValues(elems[i..], w), WireValues(indices[i..], w)) ==
    Climb(p, Eval(leaf, w), WireValues(elems, w), WireValues(indices, w))
  }

  lemma PathStep(p: Params, current: LC, next: LC, i: nat, leaf: LC, elems: seq<nat>, indices: seq<nat>, w: Assignment)
    requires p.Valid() && i < |elems| == |indices| && OnPath(p, current, i, leaf, elems, indices, w)
    requires Eval(next, w) == Parent(p, Eval(current, w), At(w, elems[i]), At(w, indices[i]))
    ensures OnPath(p, next, i + 1, leaf, elems, indices, w)
  {
    hide Eval, At, Parent, AllWide;
    var e, s := WireValues(elems[i..], w), WireValues(indices[i..], w);
    assert e[1..] == WireValues(elems[i + 1..], w) && s[1..] == WireValues(indices[i + 1..], w);
    assert e[0] == At(w, elems[i]) && s[0] == At(w, indices[i]);
  }

  lemma PathEnds(p: Params, current: LC, leaf: LC, elems: seq<nat>, indices: seq<nat>, w: Assignment)
    requires p.Valid() && |elems| == |indices|
    ensures OnPath(p, leaf, 0, leaf, elems, indices, w)
    ensures OnPath(p, current, |elems|, leaf, elems, indices, w) ==>
      Eval(current, w) == Climb(p, Eval(leaf, w), WireValues(elems, w), WireValues(indices, w))
  {
    hide Eval, At, Parent, AllWide;
    assert elems[0..] == elems && indices[0..] == indices;
    assert elems[|elems|..] == [] && indices[|elems|..] == [];
    assert WireValues([], w) == [];
    ClimbNothing(p, Eval(current, w));
  }

  method HashChildren(cs: ConstraintSystem, p: Params, current: LC, sister: nat, select: nat) returns (parent: LC)
    requires cs.Valid() && p.Valid() && Known(current, cs.wires) && sister < cs.wires && select < cs.wires
    modifies cs
    ensures cs.Valid() && cs.wires >= old(cs.wires) && cs.unchecked == old(cs.unchecked) && Known(parent, cs.wires)
    ensures forall w {:trigger Satisfies(cs.constraints, w)} :: Satisfies(cs.constraints, w) ==>
      Satisfies(old(cs.constraints), w) && Eval(parent, w) == Parent(p, Eval(current, w), At(w, sister), At(w, select))
    ensures forall w {:trigger Honest(cs.hints, w)} :: Honest(cs.hints, w) ==>
      && Honest(old(cs.hints), w) && Eval(parent, w) == Parent(p, Eval(current, w), At(w, sister), At(w, select))
      && (Satisfies(old(cs.constraints), w) ==> Satisfies(cs.constraints, w))
  {
    hide Eval, Satisfies, Honest, At, Add, Sub, LeftChild, HashOf, AllWide;
    var left, right := SelectLeftRight(cs, current, Wire(sister), Wire(select));
    parent := Hash(cs, p, [left, right]);
    forall w
      ensures Eval(Wire(sister), w) == At(w, sister) && Eval(Wire(select), w) == At(w, select)
      ensures Evals([left, right], w) == [Eval(left, w), Eval(right, w)]
    {
      EvalWire(sister, w);
      EvalWire(select, w);
    }
  }

  /** Openings are paired up to the shorter vector. */
  function Paired(elems: seq<nat>, indices: seq<nat>): (n: nat)
    ensures n <= |elems| && n <= |indices|
  {
    if |elems| < |indices| then |elems| else |indices|
  }

  /** compute_root_prehashed. */
  method ComputeRoot(cs: ConstraintSystem, p: Params, leaf: LC, elems: seq<nat>, indices: seq<nat>) returns (root: LC)
    requires cs.Valid() && p.Valid() && Known(leaf, cs.wires)
    requires forall i :: 0 <= i < Paired(elems, indices) ==> elems[i] < cs.wires && indices[i] < cs.wires
    modifies cs
    ensures cs.Valid() && cs.wires >= old(cs.wires) && cs.unchecked == old(cs.unchecked) && Known(root, cs.wires)
    ensures forall w {:trigger Satisfies(cs.constraints, w)} :: Satisfies(cs.constraints, w) ==>
      && Satisfies(old(cs.constraints), w)
      && Eval(root, w) ==
         Climb(p, Eval(leaf, w), WireValues(elems[..Paired(elems, indices)], w), WireValues(indices[..Paired(elems, indices)], w))
    ensures forall w {:trigger Honest(cs.hints, w)} :: Honest(cs.hints, w) ==>
      && Honest(old(cs.hints), w)
      && Eval(root, w) ==
         Climb(p, Eval(leaf, w), WireValues(elems[..Paired(elems, indices)], w), WireValues(indices[..Paired(elems, indices)], w))
      && (Satisfies(old(cs.constraints), w) ==> Satisfies(cs.constraints, w))
  {
    hide Eval, Satisfies, Honest, At, Parent, Climb, OnPath, AllWide;
    var n := Paired(elems, indices);
    var es, ss := elems[..n], indices[..n];
    root := leaf;
    forall w ensures OnPath(p, leaf, 0, leaf, es, ss, w) { PathEnds(p, leaf, leaf, es, ss, w); }
    for i := 0 to n
      invariant cs.Valid() && cs.wires >= old(cs.wires) && cs.unchecked == old(cs.unchecked) && Known(root, cs.wires)
      invariant forall w {:trigger Satisfies(cs.constraints, w)} :: Satisfies(cs.constraints, w) ==>
        Satisfies(old(cs.constraints), w) && OnPath(p, root, i, leaf, es, ss, w)
      invariant forall w {:trigger Honest(cs.hints, w)} :: Honest(cs.hints, w) ==>
        && Honest(old(cs.hints), w) && OnPath(p, root, i, leaf, es, ss, w)
        && (Satisfies(old(cs.constraints), w) ==> Satisfies(cs.constraints, w))
    {
      ghost var current := root;
      root := HashChildren(cs, p, root, es[i], ss[i]);
      forall w | OnPath(p, current, i, leaf, es, ss, w)
          && Eval(root, w) == Parent(p, Eval(current, w), At(w, es[i]), At(w, ss[i]))
        ensures OnPath(p, root, i + 1, leaf, es, ss, w)
      {
        PathStep(p, current, root, i, leaf, es, ss, w);
      }
    }
    forall w | OnPath(p, root, n, leaf, es, ss, w)
      ensures Eval(root, w) == Climb(p, Eval(leaf, w), WireValues(es, w), WireValues(ss, w))
    {
      PathEnds(p, root, leaf, es, ss, w);
    }
  }
}
