/**
 The Poseidon hash gadget (circuits/src/zk_gadgets/poseidon.rs): the sponge over linear combinations, proved to
 compute the block sponge in every satisfying assignment.
 */
module ZkPoseidon {
  import opened ResidueField
  import opened ScalarField
  import opened ConstraintSystems
  import opened ZkGadgets
  import opened PoseidonSponge
  import Arith = MpcArithmetic
  import ZkExponent

  // ---- linear layers -------------------------------------------------------------------

  function PlusConstants(state: seq<LC>, c: State): (r: seq<LC>)
    requires |state| == |c|
    ensures |r| == |state|
  {
    seq(|state|, i requires 0 <= i < |state| => Sum(state[i], Const(c[i])))
  }

  function MixRow(row: State, state: seq<LC>): LC
    requires |row| == |state|
  {
    if |row| == 0 then ZERO
    else
      var n := |row| - 1;
      Sum(MixRow(row[..n], state[..n]), Scaled(row[n], state[n]))
  }

  function Mix(m: seq<State>, state: seq<LC>): (r: seq<LC>)
    requires AllWide(m, |state|)
    ensures |r| == |m|
  {
    seq(|m|, i requires 0 <= i < |m| => MixRow(m[i], state))
  }

  lemma PlusConstantsEval(state: seq<LC>, c: State, w: Assignment)
    requires |state| == |c|
    ensures Evals(PlusConstants(state, c), w) == AddStates(Evals(state, w), c)
  {
    hide Add;
    forall i | 0 <= i < |state| ensures Eval(Sum(state[i], Const(c[i])), w) == Add(Eval(state[i], w), c[i]) {
    }
  }

  lemma {:induction false} MixRowEval(row: State, state: seq<LC>, w: Assignment)
    requires |row| == |state|
    ensures Eval(MixRow(row, state), w) == Dot(row, Evals(state, w))
  {
    hide Add, Mul;
    if |row| > 0 {
      var n := |row| - 1;
      MixRowEval(row[..n], state[..n], w);
      assert Evals(state, w)[..n] == Evals(state[..n], w);
    }
  }

  lemma MixEval(m: seq<State>, state: seq<LC>, w: Assignment)
    requires AllWide(m, |state|)
    ensures Evals(Mix(m, state), w) == Apply(m, Evals(state, w))
  {
    hide Eval, Dot, MixRow;
    forall i | 0 <= i < |m| ensures Eval(MixRow(m[i], state), w) == Dot(m[i], Evals(state, w)) {
      MixRowEval(m[i], state, w);
    }
  }

  lemma {:induction false} MixRowKnown(row: State, state: seq<LC>, n: nat)
    requires |row| == |state| && AllKnown(state, n)
    ensures Known(MixRow(row, state), n)
  {
    if |row| > 0 {
      MixRowKnown(row[..|row| - 1], state[..|row| - 1], n);
    }
  }

  // ---- the s-box layer -----------------------------------------------------------------

  /** The first i elements are powered. */
  ghost predicate Powered(next: seq<LC>, state: seq<LC>, i: nat, alpha: nat, w: Assignment) {
    && |next| == |state| && i <= |state|
    && (forall k :: 0 <= k < i ==> Eval(next[k], w) == Arith.Exp(Eval(state[k], w), alpha))
    && (forall k :: i <= k < |state| ==> next[k] == state[k])
  }

  lemma PoweredStep(next: seq<LC>, state: seq<LC>, i: nat, alpha: nat, power: LC, w: Assignment)
    requires i < |state| && Powered(next, state, i, alpha, w) && Eval(power, w) == Arith.Exp(Eval(state[i], w), alpha)
    ensures Powered(next[i := power], state, i + 1, alpha, w)
  {
    hide Eval, Arith.Exp;
  }

  lemma PoweredAll(next: seq<LC>, state: seq<LC>, alpha: nat, full: bool, w: Assignment)
    requires |state| >= 1 && Powered(next, state, if full then |state| else 1, alpha, w)
    ensures Evals(next, w) == SBox(Evals(state, w), alpha, full)
  {
    hide Eval, Arith.Exp;
  }

  // ---- the gadget ----------------------------------------------------------------------

  /** The state combinations carry the sponge over the absorbed combinations. */
  ghost predicate Tracks(p: Params, state: seq<LC>, absorbed: seq<LC>, inSqueeze: bool, w: Assignment)
    requires p.Valid()
  {
    Evals(state, w) == if inSqueeze then BlockSponge(p, Zeros(p), Evals(absorbed, w)) else Pending(p, Zeros(p), Evals(absorbed, w))
  }

  class PoseidonGadget {
    const params: Params
    var state: seq<LC>
    var nextIndex: nat
    var inSqueeze: bool
    ghost var absorbed: seq<LC>

    ghost predicate Shaped(n: nat)
      reads this`state
    {
      params.Valid() && |state| == params.Width() && AllKnown(state, n)
    }

    ghost predicate Valid(n: nat)
      reads this
    {
      && Shaped(n)
      && nextIndex == if inSqueeze then 0 else |absorbed| - LastBlock(|absorbed|, params.rate)
    }

    constructor (params: Params)
      requires params.Valid()
      ensures this.params == params && Valid(0) && !inSqueeze && absorbed == []
      ensures forall w :: Tracks(params, state, absorbed, inSqueeze, w)
    {
      this.params, nextIndex, inSqueeze, absorbed := params, 0, false, [];
      state := seq(params.Width(), i => ZERO);
      new;
      hide Pending, LastBlock, AllWide;
      forall w ensures Tracks(params, state, absorbed, inSqueeze, w) {
        assert Evals(state, w) == Zeros(params);
        BeforeNothing(params, Zeros(params));
        assert Evals([], w) == [];
      }
    }

    method AddRoundConstants(round: nat, ghost n: nat)
      requires Shaped(n) && round < |params.roundConstants|
      modifies this`state
      ensures Shaped(n) && state == PlusConstants(old(state), params.roundConstants[round])
    {
      var c := params.roundConstants[round];
      for i := 0 to |state|
        invariant |state| == |old(state)|
        invariant forall k :: 0 <= k < i ==> state[k] == Sum(old(state)[k], Const(c[k]))
        invariant forall k :: i <= k < |state| ==> state[k] == old(state)[k]
      {
        state := state[i := Sum(state[i], Const(c[i]))];
      }
    }

    method ApplyMds(ghost n: nat)
      requires Shaped(n)
      modifies this`state
      ensures Shaped(n) && state == Mix(params.mds, old(state))
    {
      hide Known;
      var next: seq<LC> := [];
      for i := 0 to |params.mds|
        invariant state == old(state) && |next| == i && AllKnown(next, n)
        invariant forall k :: 0 <= k < i ==> next[k] == MixRow(params.mds[k], state)
      {
        var row := params.mds[i];
        var inner: LC := ZERO;
        for j := 0 to |row|
          invariant state == old(state) && inner == MixRow(row[..j], state[..j])
        {
          assert row[..j + 1][..j] == row[..j] && state[..j + 1][..j] == state[..j];
          inner := Sum(inner, Scaled(row[j], state[j]));
        }
        assert row[..|row|] == row && state[..|row|] == state;
        MixRowKnown(row, state, n);
        next := next + [inner];
      }
      state := next;
    }

    method ApplySBox(cs: ConstraintSystem, full: bool)
      requires cs.Valid() && Shaped(cs.wires)
      modifies cs, this`state
      ensures cs.Valid() && cs.wires >= old(cs.wires) && cs.unchecked == old(cs.unchecked) && Shaped(cs.wires)
      ensures forall w {:trigger Satisfies(cs.constraints, w)} :: Satisfies(cs.constraints, w) ==>
        Satisfies(old(cs.constraints), w) && Evals(state, w) == SBox(Evals(old(state), w), params.alpha, full)
      ensures forall w {:trigger Honest(cs.hints, w)} :: Honest(cs.hints, w) ==>
        && Honest(old(cs.hints), w) && Evals(state, w) == SBox(Evals(old(state), w), params.alpha, full)
        && (Satisfies(old(cs.constraints), w) ==> Satisfies(cs.constraints, w))
    {
      hide Eval, Known, Satisfies, Honest, Powered, SBox, Evals, Arith.Exp, AllWide;
      var count := if full then |state| else 1;
      forall w ensures Powered(state, state, 0, params.alpha, w) { PoweredNone(state, params.alpha, w); }
      for i := 0 to count
        invariant cs.Valid() && cs.wires >= old(cs.wires) && cs.unchecked == old(cs.unchecked) && Shaped(cs.wires)
        invariant forall k :: i <= k < |state| ==> state[k] == old(state)[k]
        invariant forall w {:trigger Satisfies(cs.constraints, w)} :: Satisfies(cs.constraints, w) ==>
          Satisfies(old(cs.constraints), w) && Powered(state, old(state), i, params.alpha, w)
        invariant forall w {:trigger Honest(cs.hints, w)} :: Honest(cs.hints, w) ==>
          && Honest(old(cs.hints), w) && Powered(state, old(state), i, params.alpha, w)
          && (Satisfies(old(cs.constraints), w) ==> Satisfies(cs.constraints, w))
      {
        ghost var n, before := cs.wires, state;
        var power := ZkExponent.Exp(cs, state[i], params.alpha);
        AllKnownMore(state, n, cs.wires);
        state := state[i := power];
        forall w | Powered(before, old(state), i, params.alpha, w) && Eval(power, w) == Arith.Exp(Eval(before[i], w), params.alpha)
          ensures Powered(state, old(state), i + 1, params.alpha, w)
        {
          PoweredStep(before, old(state), i, params.alpha, power, w);
        }
      }
      forall w | Powered(state, old(state), count, params.alpha, w)
        ensures Evals(state, w) == SBox(Evals(old(state), w), params.alpha, full)
      {
        PoweredAll(state, old(state), params.alpha, full, w);
      }
    }

    method RunRound(cs: ConstraintSystem, round: nat, full: bool)
      requires cs.Valid() && Shaped(cs.wires) && round < |params.roundConstants| && full == IsFull(params, round)
      modifies cs, this`state
      ensures cs.Valid() && cs.wires >= old(cs.wires) && cs.unchecked == old(cs.unchecked) && Shaped(cs.wires)
      ensures forall w {:trigger Satisfies(cs.constraints, w)} :: Satisfies(cs.constraints, w) ==>
        Satisfies(old(cs.constraints), w) && Evals(state, w) == Round(params, round, Evals(old(state), w))
      ensures forall w {:trigger Honest(cs.hints, w)} :: Honest(cs.hints, w) ==>
        && Honest(old(cs.hints), w) && Evals(state, w) == Round(params, round, Evals(old(state), w))
        && (Satisfies(old(cs.constraints), w) ==> Satisfies(cs.constraints, w))
    {
      hide Eval, Known, Satisfies, Honest, SBox, Evals, Apply, AddStates, PlusConstants, Mix, AllKnown;
      AddRoundConstants(round, cs.wires);
      ghost var added := state;
      ApplySBox(cs, full);
      ghost var powered := state;
      ApplyMds(cs.wires);
      forall w ensures Evals(added, w) == AddStates(Evals(old(state), w), params.roundConstants[round]) {
        PlusConstantsEval(old(state), params.roundConstants[round], w);
      }
      forall w ensures Evals(state, w) == Apply(params.mds, Evals(powered, w)) {
        MixEval(params.mds, powered, w);
      }
    }

    /** All rounds in order, as in the native sponge. */
    method Permute(cs: ConstraintSystem)
      requires cs.Valid() && Shaped(cs.wires)
      modifies cs, this`state
      ensures cs.Valid() && cs.wires >= old(cs.wires) && cs.unchecked == old(cs.unchecked) && Shaped(cs.wires)
      ensures forall w {:trigger Satisfies(cs.constraints, w)} :: Satisfies(cs.constraints, w) ==>
        Satisfies(old(cs.constraints), w) && Evals(state, w) == Permutation(params, Evals(old(state), w))
      ensures forall w {:trigger Honest(cs.hints, w)} :: Honest(cs.hints, w) ==>
        && Honest(old(cs.hints), w) && Evals(state, w) == Permutation(params, Evals(old(state), w))
        && (Satisfies(old(cs.constraints), w) ==> Satisfies(cs.constraints, w))
    {
      hide Eval, Known, Satisfies, Honest, Evals, Round, AllWide, AllKnown;
      var half := params.fullRounds / 2;
      RunRounds(cs, 0, half, true);
      ghost var first := state;
      RunRounds(cs, half, half + params.partialRounds, false);
      ghost var second := state;
      RunRounds(cs, half + params.partialRounds, params.partialRounds + params.fullRounds, true);
      forall w ensures Permutation(params, Evals(old(state), w)) ==
          RoundRange(params, half + params.partialRounds, |params.roundConstants|,
            RoundRange(params, half, half + params.partialRounds, RoundRange(params, 0, half, Evals(old(state), w)))) {
        RangesCompose(params, half, half + params.partialRounds, Evals(old(state), w));
      }
    }

    method RunRounds(cs: ConstraintSystem, first: nat, end: nat, full: bool)
      requires cs.Valid() && Shaped(cs.wires) && first <= end <= |params.roundConstants|
      requires forall i :: first <= i < end ==> full == IsFull(params, i)
      modifies cs, this`state
      ensures cs.Valid() && cs.wires >= old(cs.wires) && cs.unchecked == old(cs.unchecked) && Shaped(cs.wires)
      ensures forall w {:trigger Satisfies(cs.constraints, w)} :: Satisfies(cs.constraints, w) ==>
        Satisfies(old(cs.constraints), w) && Evals(state, w) == RoundRange(params, first, end, Evals(old(state), w))
      ensures forall w {:trigger Honest(cs.hints, w)} :: Honest(cs.hints, w) ==>
        && Honest(old(cs.hints), w) && Evals(state, w) == RoundRange(params, first, end, Evals(old(state), w))
        && (Satisfies(old(cs.constraints), w) ==> Satisfies(cs.constraints, w))
    {
      hide Eval, Known, Satisfies, Honest, Evals, Round, AllWide, AllKnown, IsFull;
      for round := first to end
        invariant cs.Valid() && cs.wires >= old(cs.wires) && cs.unchecked == old(cs.unchecked) && Shaped(cs.wires)
        invariant forall w {:trigger Satisfies(cs.constraints, w)} :: Satisfies(cs.constraints, w) ==>
          Satisfies(old(cs.constraints), w) && Evals(state, w) == RoundRange(params, first, round, Evals(old(state), w))
        invariant forall w {:trigger Honest(cs.hints, w)} :: Honest(cs.hints, w) ==>
          && Honest(old(cs.hints), w) && Evals(state, w) == RoundRange(params, first, round, Evals(old(state), w))
          && (Satisfies(old(cs.constraints), w) ==> Satisfies(cs.constraints, w))
      {
        RunRound(cs, round, full);
      }
    }

    /** Panics once squeezing has begun. */
    method Absorb(cs: ConstraintSystem, a: LC)
      requires cs.Valid() && Valid(cs.wires) && Known(a, cs.wires) && !inSqueeze
      modifies cs, this
      ensures cs.Valid() && cs.wires >= old(cs.wires) && cs.unchecked == old(cs.unchecked)
      ensures Valid(cs.wires) && !inSqueeze && absorbed == old(absorbed) + [a]
      ensures forall w {:trigger Satisfies(cs.constraints, w)} :: Satisfies(cs.constraints, w) ==>
        && Satisfies(old(cs.constraints), w)
        && (Tracks(params, old(state), old(absorbed), false, w) ==> Tracks(params, state, absorbed, false, w))
      ensures forall w {:trigger Honest(cs.hints, w)} :: Honest(cs.hints, w) ==>
        && Honest(old(cs.hints), w)
        && (Tracks(params, old(state), old(absorbed), false, w) ==> Tracks(params, state, absorbed, false, w))
        && (Satisfies(old(cs.constraints), w) ==> Satisfies(cs.constraints, w))
    {
      hide Eval, Known, Satisfies, Honest, Evals, Permutation, AllWide, Tracks, LastBlock, Pending;
      LastBlockStarts(|absorbed|, params.rate);
      if nextIndex == params.rate {
        Permute(cs);
        nextIndex := 0;
      }
      KnownMore(a, old(cs.wires), cs.wires);
      ghost var before := state;
      var i := nextIndex + params.capacity;
      assert Known(Sum(state[i], a), cs.wires) by { KnownSum(state[i], a, cs.wires); }
      state := state[i := Sum(state[i], a)];
      nextIndex := nextIndex + 1;
      absorbed := absorbed + [a];
      forall w | Tracks(params, old(state), old(absorbed), false, w)
          && (old(nextIndex) == params.rate ==> Evals(before, w) == Permutation(params, Evals(old(state), w)))
        ensures Tracks(params, state, absorbed, false, w)
      {
        AbsorbTracks(params, old(state), old(absorbed), before, i - params.capacity, a, w);
      }
    }

    method BatchAbsorb(cs: ConstraintSystem, a: seq<LC>)
      requires cs.Valid() && Valid(cs.wires) && AllKnown(a, cs.wires) && !inSqueeze
      modifies cs, this
      ensures cs.Valid() && cs.wires >= old(cs.wires) && cs.unchecked == old(cs.unchecked)
      ensures Valid(cs.wires) && !inSqueeze && absorbed == old(absorbed) + a
      ensures forall w {:trigger Satisfies(cs.constraints, w)} :: Satisfies(cs.constraints, w) ==>
        && Satisfies(old(cs.constraints), w)
        && (Tracks(params, old(state), old(absorbed), false, w) ==> Tracks(params, state, absorbed, false, w))
      ensures forall w {:trigger Honest(cs.hints, w)} :: Honest(cs.hints, w) ==>
        && Honest(old(cs.hints), w)
        && (Tracks(params, old(state), old(absorbed), false, w) ==> Tracks(params, state, absorbed, false, w))
        && (Satisfies(old(cs.constraints), w) ==> Satisfies(cs.constraints, w))
    {
      hide Known, Satisfies, Honest, AllWide, Tracks, LastBlock;
      for i := 0 to |a|
        invariant cs.Valid() && cs.wires >= old(cs.wires) && cs.unchecked == old(cs.unchecked)
        invariant Valid(cs.wires) && !inSqueeze && absorbed == old(absorbed) + a[..i]
        invariant forall w {:trigger Satisfies(cs.constraints, w)} :: Satisfies(cs.constraints, w) ==>
          && Satisfies(old(cs.constraints), w)
          && (Tracks(params, old(state), old(absorbed), false, w) ==> Tracks(params, state, absorbed, false, w))
        invariant forall w {:trigger Honest(cs.hints, w)} :: Honest(cs.hints, w) ==>
          && Honest(old(cs.hints), w)
          && (Tracks(params, old(state), old(absorbed), false, w) ==> Tracks(params, state, absorbed, false, w))
          && (Satisfies(old(cs.constraints), w) ==> Satisfies(cs.constraints, w))
      {
        KnownMore(a[i], old(cs.wires), cs.wires);
        Absorb(cs, a[i]);
        assert a[..i + 1] == a[..i] + [a[i]];
      }
      assert a[..|a|] == a;
    }

    /** Every squeeze returns the first output: this sponge never moves past it. */
    method Squeeze(cs: ConstraintSystem) returns (out: LC)
      requires cs.Valid() && Valid(cs.wires)
      modifies cs, this
      ensures cs.Valid() && cs.wires >= old(cs.wires) && cs.unchecked == old(cs.unchecked)
      ensures Valid(cs.wires) && inSqueeze && absorbed == old(absorbed) && Known(out, cs.wires)
      ensures forall w {:trigger Satisfies(cs.constraints, w)} :: Satisfies(cs.constraints, w) ==>
        && Satisfies(old(cs.constraints), w)
        && (Tracks(params, old(state), absorbed, old(inSqueeze), w) ==>
            Tracks(params, state, absorbed, true, w) && Eval(out, w) == Output(params, Evals(absorbed, w), 0))
      ensures forall w {:trigger Honest(cs.hints, w)} :: Honest(cs.hints, w) ==>
        && Honest(old(cs.hints), w)
        && (Tracks(params, old(state), absorbed, old(inSqueeze), w) ==>
            Tracks(params, state, absorbed, true, w) && Eval(out, w) == Output(params, Evals(absorbed, w), 0))
        && (Satisfies(old(cs.constraints), w) ==> Satisfies(cs.constraints, w))
    {
      hide Eval, Known, Satisfies, Honest, Evals, Permutation, AllWide, Tracks, LastBlock, Pending, Output;
      if !inSqueeze || nextIndex == params.rate {
        Permute(cs);
        nextIndex := 0;
        inSqueeze := true;
      }
      out := state[params.capacity + nextIndex];
      forall w | Tracks(params, old(state), absorbed, old(inSqueeze), w)
          && Evals(state, w) == (if old(inSqueeze) then Evals(old(state), w) else Permutation(params, Evals(old(state), w)))
        ensures Tracks(params, state, absorbed, true, w) && Eval(out, w) == Output(params, Evals(absorbed, w), 0)
      {
        SqueezeTracks(params, old(state), absorbed, old(inSqueeze), state, w);
      }
    }
  }

  /** The sponge hash of a vector. */
  function HashOf(p: Params, xs: seq<Elem>): Elem
    requires p.Valid()
  {
    Output(p, xs, 0)
  }

  /** A fresh gadget that absorbs the inputs and squeezes one output, as every commitment and node hash does. */
  method Hash(cs: ConstraintSystem, p: Params, inputs: seq<LC>) returns (out: LC)
    requires cs.Valid() && p.Valid() && AllKnown(inputs, cs.wires)
    modifies cs
    ensures cs.Valid() && cs.wires >= old(cs.wires) && cs.unchecked == old(cs.unchecked) && Known(out, cs.wires)
    ensures forall w {:trigger Satisfies(cs.constraints, w)} :: Satisfies(cs.constraints, w) ==>
      Satisfies(old(cs.constraints), w) && Eval(out, w) == HashOf(p, Evals(inputs, w))
    ensures forall w {:trigger Honest(cs.hints, w)} :: Honest(cs.hints, w) ==>
      && Honest(old(cs.hints), w) && Eval(out, w) == HashOf(p, Evals(inputs, w))
      && (Satisfies(old(cs.constraints), w) ==> Satisfies(cs.constraints, w))
  {
    hide Eval, Known, Satisfies, Honest, Evals, AllWide, Tracks, LastBlock, Output;
    var gadget := new PoseidonGadget(p);
    AllKnownMore(gadget.state, 0, cs.wires);
    gadget.BatchAbsorb(cs, inputs);
    assert gadget.absorbed == inputs;
    out := gadget.Squeeze(cs);
  }

  lemma KnownSum(a: LC, b: LC, n: nat)
    requires Known(a, n) && Known(b, n)
    ensures Known(Sum(a, b), n)
  {
  }

  /** Rounds first..end of the permutation. */
  function RoundRange(p: Params, first: nat, end: nat, s: State): (r: State)
    requires p.Valid() && first <= end <= |p.roundConstants| && |s| == p.Width()
    ensures |r| == |s|
    decreases end
  {
    if first == end then s else Round(p, end - 1, RoundRange(p, first, end - 1, s))
  }

  lemma {:induction false} RangesJoin(p: Params, mid: nat, end: nat, s: State)
    requires p.Valid() && mid <= end <= |p.roundConstants| && |s| == p.Width()
    ensures Rounds(p, end, s) == RoundRange(p, mid, end, Rounds(p, mid, s))
    decreases end
  {
    hide Round, AllWide;
    if mid < end {
      RangesJoin(p, mid, end - 1, s);
    }
  }

  lemma RangesCompose(p: Params, i: nat, j: nat, s: State)
    requires p.Valid() && i <= j <= |p.roundConstants| && |s| == p.Width()
    ensures Permutation(p, s) == RoundRange(p, j, |p.roundConstants|, RoundRange(p, i, j, RoundRange(p, 0, i, s)))
  {
    hide Round, AllWide, RoundRange;
    RangesJoin(p, 0, i, s);
    RangesJoin(p, i, j, s);
    RangesJoin(p, j, |p.roundConstants|, s);
  }

  lemma AbsorbTracks(p: Params, state: seq<LC>, absorbed: seq<LC>, before: seq<LC>, j: nat, a: LC, w: Assignment)
    requires p.Valid() && |state| == |before| == p.Width() && Tracks(p, state, absorbed, false, w)
    requires var index := |absorbed| - LastBlock(|absorbed|, p.rate);
      if index == p.rate then j == 0 && Evals(before, w) == Permutation(p, Evals(state, w)) else j == index && before == state
    ensures Tracks(p, before[p.capacity + j := Sum(before[p.capacity + j], a)], absorbed + [a], false, w)
  {
    hide Eval, Evals, Permutation, AllWide, LastBlock, Pending, Bump, Zeros;
    EvalsSnoc(absorbed, a, w);
    EvalsBump(p, before, j, a, w);
    PendingStep(p, Evals(absorbed, w), Eval(a, w), Evals(before, w), j);
  }

  lemma PendingStep(p: Params, xs: seq<Elem>, x: Elem, s: State, j: nat)
    requires p.Valid() && |s| == p.Width()
    requires var index := |xs| - LastBlock(|xs|, p.rate);
      if index == p.rate then j == 0 && s == Permutation(p, Pending(p, Zeros(p), xs))
      else j == index && s == Pending(p, Zeros(p), xs)
    ensures Bump(p, s, j, x) == Pending(p, Zeros(p), xs + [x])
  {
    hide Permutation, AllWide, LastBlock, Pending, Bump, Zeros;
    if |xs| - LastBlock(|xs|, p.rate) == p.rate {
      PendingStartsBlock(p, Zeros(p), xs, x);
    } else {
      PendingFillsBlock(p, Zeros(p), xs, x);
    }
  }

  lemma EvalsSnoc(lcs: seq<LC>, a: LC, w: Assignment)
    ensures Evals(lcs + [a], w) == Evals(lcs, w) + [Eval(a, w)]
  {
    hide Eval;
  }

  lemma EvalsBump(p: Params, state: seq<LC>, i: nat, a: LC, w: Assignment)
    requires |state| == p.Width() && i < p.rate
    ensures Evals(state[p.capacity + i := Sum(state[p.capacity + i], a)], w) == Bump(p, Evals(state, w), i, Eval(a, w))
  {
    hide Eval, Add;
    EvalSum(state[p.capacity + i], a, w);
  }

  lemma SqueezeTracks(p: Params, state: seq<LC>, absorbed: seq<LC>, inSqueeze: bool, next: seq<LC>, w: Assignment)
    requires p.Valid() && |state| == |next| == p.Width() && Tracks(p, state, absorbed, inSqueeze, w)
    requires Evals(next, w) == if inSqueeze then Evals(state, w) else Permutation(p, Evals(state, w))
    ensures Tracks(p, next, absorbed, true, w) && Eval(next[p.capacity], w) == Output(p, Evals(absorbed, w), 0)
  {
    hide Eval, Permutation, AllWide, LastBlock, Pending, BlockSponge;
    PendingIsBlockSponge(p, Zeros(p), Evals(absorbed, w));
    StepIndex(0, p.rate);
  }

  lemma PoweredNone(state: seq<LC>, alpha: nat, w: Assignment)
    ensures Powered(state, state, 0, alpha, w)
  {
  }
}
