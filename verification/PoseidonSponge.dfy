/**
 The stateful Poseidon sponge (circuits/src/mpc_gadgets/poseidon.rs; the construction of eprint 2019/458): lazy
 permutation on absorb and squeeze, proved against the block sponge.
 */
module PoseidonSponge {
  import Numbers
  import opened ResidueField
  import opened ScalarField
  import opened MpcArithmetic

  type State = seq<Elem>

  datatype Params = Params(
    roundConstants: seq<State>, mds: seq<State>, alpha: nat, rate: nat, capacity: nat, fullRounds: nat, partialRounds: nat)
  {
    function Width(): nat {
      rate + capacity
    }

    /** The assertions of the parameter constructor; a sponge also needs a non-empty rate. */
    predicate Valid() {
      && rate >= 1 && fullRounds % 2 == 0
      && |roundConstants| == fullRounds + partialRounds && AllWide(roundConstants, Width())
      && |mds| == Width() && AllWide(mds, Width())
    }
  }

  predicate AllWide(rows: seq<State>, width: nat) {
    forall i :: 0 <= i < |rows| ==> |rows[i]| == width
  }

  // ---- the permutation -----------------------------------------------------------------

  function AddStates(s: State, c: State): (r: State)
    requires |s| == |c|
    ensures |r| == |s|
  {
    seq(|s|, i requires 0 <= i < |s| => Add(s[i], c[i]))
  }

  function SBoxAll(s: State, alpha: nat): (r: State)
    ensures |r| == |s|
  {
    seq(|s|, i requires 0 <= i < |s| => Exp(s[i], alpha))
  }

  /** A full round powers every element, a partial round the first. */
  function SBox(s: State, alpha: nat, full: bool): (r: State)
    requires |s| >= 1
    ensures |r| == |s|
  {
    if full then SBoxAll(s, alpha) else s[0 := Exp(s[0], alpha)]
  }

  function Dot(a: State, b: State): Elem
    requires |a| == |b|
  {
    if |a| == 0 then 0 else Add(Dot(a[..|a| - 1], b[..|b| - 1]), Mul(a[|a| - 1], b[|b| - 1]))
  }

  function Apply(m: seq<State>, s: State): (r: State)
    requires AllWide(m, |s|)
    ensures |r| == |m|
  {
    seq(|m|, i requires 0 <= i < |m| => Dot(m[i], s))
  }

  predicate IsFull(p: Params, round: nat) {
    round < p.fullRounds / 2 || round >= p.fullRounds / 2 + p.partialRounds
  }

  function Round(p: Params, round: nat, s: State): (r: State)
    requires p.Valid() && round < |p.roundConstants| && |s| == p.Width()
    ensures |r| == |s|
  {
    Apply(p.mds, SBox(AddStates(s, p.roundConstants[round]), p.alpha, IsFull(p, round)))
  }

  /** The s-box powers the whole state in the first and last half of the full rounds, and one element in between. */
  lemma RoundShape(p: Params, i: nat, s: State)
    requires p.Valid() && i < |p.roundConstants| && |s| == p.Width()
    ensures Round(p, i, s) == Apply(p.mds, seq(|s|, j requires 0 <= j < |s| =>
      if j == 0 || i < p.fullRounds / 2 || p.fullRounds / 2 + p.partialRounds <= i
      then Exp(Add(s[j], p.roundConstants[i][j]), p.alpha) else Add(s[j], p.roundConstants[i][j])))
  {
    hide Exp, Add, Apply;
    assert SBox(AddStates(s, p.roundConstants[i]), p.alpha, IsFull(p, i)) == seq(|s|, j requires 0 <= j < |s| =>
      if j == 0 || i < p.fullRounds / 2 || p.fullRounds / 2 + p.partialRounds <= i
      then Exp(Add(s[j], p.roundConstants[i][j]), p.alpha) else Add(s[j], p.roundConstants[i][j]));
  }

  /** The first n rounds: round i uses constant i and no other. */
  function Rounds(p: Params, n: nat, s: State): (r: State)
    requires p.Valid() && n <= |p.roundConstants| && |s| == p.Width()
    ensures |r| == |s|
  {
    if n == 0 then s else Round(p, n - 1, Rounds(p, n - 1, s))
  }

  function Permutation(p: Params, s: State): (r: State)
    requires p.Valid() && |s| == p.Width()
    ensures |r| == |s|
  {
    Rounds(p, |p.roundConstants|, s)
  }

  // ---- the block sponge ----------------------------------------------------------------

  function Zeros(p: Params): (r: State)
    ensures |r| == p.Width()
  {
    seq(p.Width(), i => 0)
  }

  /** Adds inputs to the rate part of a state. */
  function AddAt(p: Params, s: State, xs: seq<Elem>): (r: State)
    requires |s| == p.Width() && |xs| <= p.rate
    ensures |r| == |s|
  {
    seq(|s|, i requires 0 <= i < |s| =>
      if p.capacity <= i < p.capacity + |xs| then Add(s[i], xs[i - p.capacity]) else s[i])
  }

  /** The reference: add each rate-sized block, then permute; even an empty input is permuted once. */
  function BlockSponge(p: Params, s: State, xs: seq<Elem>): (r: State)
    requires p.Valid() && |s| == p.Width()
    ensures |r| == p.Width()
    decreases |xs|
  {
    if |xs| <= p.rate then Permutation(p, AddAt(p, s, xs))
    else BlockSponge(p, Permutation(p, AddAt(p, s, xs[..p.rate])), xs[p.rate..])
  }

  function Iterated(p: Params, n: nat, s: State): (r: State)
    requires p.Valid() && |s| == p.Width()
    ensures |r| == |s|
  {
    if n == 0 then s else Permutation(p, Iterated(p, n - 1, s))
  }

  /** The i-th output of the block sponge on xs. */
  function Output(p: Params, xs: seq<Elem>, i: nat): Elem
    requires p.Valid()
  {
    Iterated(p, i / p.rate, BlockSponge(p, Zeros(p), xs))[p.capacity + i % p.rate]
  }

  /** An input of one block is added behind the capacity of the zero state; its hash is the element there, permuted. */
  lemma ShortHash(p: Params, xs: seq<Elem>)
    requires p.Valid() && |xs| <= p.rate
    ensures Output(p, xs, 0) ==
      Permutation(p, seq(p.capacity, _ => 0) + xs + seq(p.rate - |xs|, _ => 0))[p.capacity]
  {
    hide Permutation, F, AllWide;
    var s := seq(p.capacity, _ => 0) + xs + seq(p.rate - |xs|, _ => 0);
    forall i | 0 <= i < p.Width() ensures AddAt(p, Zeros(p), xs)[i] == s[i] {
      if p.capacity <= i < p.capacity + |xs| { ZeroPlus(xs[i - p.capacity]); }
    }
    assert AddAt(p, Zeros(p), xs) == s;
    FirstOutput(p.rate);
  }

  lemma ZeroPlus(x: Elem)
    ensures Add(0, x) == x
  {
    hide F;
    FSelf(x);
  }

  lemma FirstOutput(rate: nat)
    requires rate >= 1
    ensures 0 / rate == 0 && 0 % rate == 0
  {
    Numbers.DivModUnique(0, 0, 0, rate);
  }

  // ---- the lazy state ------------------------------------------------------------------

  /** Where the last, possibly partial, block of n inputs starts. */
  function LastBlock(n: nat, rate: nat): (k: nat)
    requires rate >= 1
    ensures k <= n && n - k <= rate && (n > 0 ==> k < n)
    ensures n <= rate ==> k == 0
  {
    if n <= rate then 0 else rate + LastBlock(n - rate, rate)
  }

  /** The lazy state: the last block is added but not yet permuted. */
  function Pending(p: Params, s: State, xs: seq<Elem>): (r: State)
    requires p.Valid() && |s| == p.Width()
    ensures |r| == p.Width()
    decreases |xs|, 0
  {
    if xs == [] then s
    else
      var k := LastBlock(|xs|, p.rate);
      AddAt(p, Before(p, s, xs[..k]), xs[k..])
  }

  /** The state that a block is added to. */
  function Before(p: Params, s: State, ys: seq<Elem>): (r: State)
    requires p.Valid() && |s| == p.Width()
    ensures |r| == p.Width()
    decreases |ys|, 1
  {
    if ys == [] then s else Permutation(p, Pending(p, s, ys))
  }

  /** The lazy state splits xs into the permuted blocks and the last one. */
  lemma PendingUnfolds(p: Params, s: State, xs: seq<Elem>, done: seq<Elem>, last: seq<Elem>)
    requires p.Valid() && |s| == p.Width() && |done| == LastBlock(|xs|, p.rate)
    requires done == xs[..|done|] && last == xs[|done|..]
    ensures Pending(p, s, xs) == AddAt(p, Before(p, s, done), last)
  {
    hide Permutation, AddAt, LastBlock, Before, AllWide;
    if xs == [] {
      assert done == [] && last == [];
      BeforeNothing(p, s);
    }
  }

  lemma BeforeNothing(p: Params, s: State)
    requires p.Valid() && |s| == p.Width()
    ensures Before(p, s, []) == s && AddAt(p, s, []) == s && Pending(p, s, []) == s
  {
    AddAtNothing(p, s);
  }

  lemma {:induction false} LastBlockStarts(n: nat, rate: nat)
    requires rate >= 1
    ensures LastBlock(LastBlock(n, rate), rate) == if n <= rate then 0 else LastBlock(n, rate) - rate
    ensures n > rate ==> LastBlock(n, rate) >= rate
    ensures LastBlock(n + 1, rate) == if n - LastBlock(n, rate) == rate then n else LastBlock(n, rate)
  {
    if n > rate {
      LastBlockStarts(n - rate, rate);
    }
  }

  lemma {:induction false} PendingShift(p: Params, s: State, xs: seq<Elem>)
    requires p.Valid() && |s| == p.Width() && |xs| > p.rate
    ensures Pending(p, s, xs) == Pending(p, Permutation(p, AddAt(p, s, xs[..p.rate])), xs[p.rate..])
    decreases |xs|
  {
    hide AllWide, Permutation, AddAt, Pending, LastBlock;
    var k, head, rest := LastBlock(|xs|, p.rate), xs[..p.rate], xs[p.rate..];
    LastBlockStarts(|xs|, p.rate);
    LastBlockRest(|xs|, p.rate);
    var s' := Permutation(p, AddAt(p, s, head));
    PendingUnfolds(p, s, xs, xs[..k], xs[k..]);
    PendingUnfolds(p, s', rest, xs[p.rate..k], xs[k..]);
    if k == p.rate {
      PendingUnfolds(p, s, head, [], head);
    } else {
      assert xs[..k][..p.rate] == head && xs[..k][p.rate..] == xs[p.rate..k];
      PendingShift(p, s, xs[..k]);
    }
  }

  lemma LastBlockRest(n: nat, rate: nat)
    requires n > rate >= 1
    ensures LastBlock(n - rate, rate) == LastBlock(n, rate) - rate
  {
  }

  /** Permuting the lazy state gives the block sponge. */
  lemma {:induction false} PendingIsBlockSponge(p: Params, s: State, xs: seq<Elem>)
    requires p.Valid() && |s| == p.Width()
    ensures Permutation(p, Pending(p, s, xs)) == BlockSponge(p, s, xs)
    decreases |xs|
  {
    hide AllWide, Permutation, AddAt, Pending;
    if |xs| <= p.rate {
      PendingUnfolds(p, s, xs, [], xs);
    } else {
      PendingShift(p, s, xs);
      PendingIsBlockSponge(p, Permutation(p, AddAt(p, s, xs[..p.rate])), xs[p.rate..]);
    }
  }

  lemma AddAtNothing(p: Params, s: State)
    requires |s| == p.Width()
    ensures AddAt(p, s, []) == s
  {
  }

  /** Adds one input at index i of the rate part. */
  function Bump(p: Params, s: State, i: nat, x: Elem): (r: State)
    requires |s| == p.Width() && i < p.rate
    ensures |r| == |s|
  {
    s[p.capacity + i := Add(s[p.capacity + i], x)]
  }

  lemma AddAtBump(p: Params, s: State, xs: seq<Elem>, x: Elem)
    requires |s| == p.Width() && |xs| < p.rate
    ensures AddAt(p, s, xs + [x]) == Bump(p, AddAt(p, s, xs), |xs|, x)
  {
    hide Add;
  }

  lemma PendingStartsBlock(p: Params, s: State, xs: seq<Elem>, x: Elem)
    requires p.Valid() && |s| == p.Width() && xs != [] && |xs| - LastBlock(|xs|, p.rate) == p.rate
    ensures Pending(p, s, xs + [x]) == Bump(p, Permutation(p, Pending(p, s, xs)), 0, x)
  {
    hide AllWide, Permutation, AddAt, Bump, Pending, LastBlock;
    var t := Permutation(p, Pending(p, s, xs));
    LastBlockStarts(|xs|, p.rate);
    PendingUnfolds(p, s, xs + [x], xs, [x]);
    AddAtNothing(p, t);
    AddAtBump(p, t, [], x);
    assert [] + [x] == [x];
  }

  lemma SnocSplits(xs: seq<Elem>, x: Elem, k: nat)
    requires k <= |xs|
    ensures (xs + [x])[..k] == xs[..k] && (xs + [x])[k..] == xs[k..] + [x]
  {
  }

  lemma PendingParts(p: Params, s: State, xs: seq<Elem>, x: Elem, k: nat)
    requires p.Valid() && |s| == p.Width() && k == LastBlock(|xs|, p.rate) && |xs| - k < p.rate
    ensures Pending(p, s, xs) == AddAt(p, Before(p, s, xs[..k]), xs[k..])
    ensures Pending(p, s, xs + [x]) == AddAt(p, Before(p, s, xs[..k]), xs[k..] + [x])
  {
    hide AllWide, Permutation, AddAt, Pending, LastBlock, Before;
    SnocSplits(xs, x, k);
    LastBlockStarts(|xs|, p.rate);
    PendingUnfolds(p, s, xs, xs[..k], xs[k..]);
    PendingUnfolds(p, s, xs + [x], xs[..k], xs[k..] + [x]);
  }

  lemma PendingFillsBlock(p: Params, s: State, xs: seq<Elem>, x: Elem)
    requires p.Valid() && |s| == p.Width() && |xs| - LastBlock(|xs|, p.rate) < p.rate
    ensures Pending(p, s, xs + [x]) == Bump(p, Pending(p, s, xs), |xs| - LastBlock(|xs|, p.rate), x)
  {
    hide AllWide, Permutation, AddAt, Bump, Pending, LastBlock, Before;
    var k := LastBlock(|xs|, p.rate);
    PendingParts(p, s, xs, x, k);
    AddAtBump(p, Before(p, s, xs[..k]), xs[k..], x);
  }

  // ---- the hasher ----------------------------------------------------------------------

  class Hasher {
    const params: Params
    var state: State
    var nextIndex: nat
    var inSqueeze: bool
    /** The inputs absorbed and the number of outputs squeezed so far. */
    ghost var absorbed: seq<Elem>
    ghost var squeezed: nat

    ghost predicate Valid()
      reads this
    {
      && params.Valid() && |state| == params.Width()
      && (!inSqueeze ==>
          && squeezed == 0
          && nextIndex == |absorbed| - LastBlock(|absorbed|, params.rate)
          && state == Pending(params, Zeros(params), absorbed))
      && (inSqueeze ==>
          && 1 <= nextIndex <= params.rate && squeezed >= 1
          && nextIndex == (squeezed - 1) % params.rate + 1
          && state == Iterated(params, (squeezed - 1) / params.rate, BlockSponge(params, Zeros(params), absorbed)))
    }

    constructor (params: Params)
      requires params.Valid()
      ensures Valid() && this.params == params && !inSqueeze && absorbed == []
    {
      this.params, state, nextIndex, inSqueeze := params, Zeros(params), 0, false;
      absorbed, squeezed := [], 0;
    }

    /** Panics once squeezing has begun. */
    method Absorb(a: Elem)
      requires Valid() && !inSqueeze
      modifies this
      ensures Valid() && !inSqueeze && absorbed == old(absorbed) + [a]
    {
      hide AllWide, Permutation, Pending, Zeros, LastBlock, BlockSponge, Add;
      LastBlockStarts(|absorbed|, params.rate);
      if nextIndex == params.rate {
        PendingStartsBlock(params, Zeros(params), absorbed, a);
        Permute();
        nextIndex := 0;
      } else {
        PendingFillsBlock(params, Zeros(params), absorbed, a);
      }
      state := state[params.capacity + nextIndex := Add(state[params.capacity + nextIndex], a)];
      nextIndex := nextIndex + 1;
      absorbed := absorbed + [a];
    }

    method AbsorbBatch(a: seq<Elem>)
      requires Valid() && !inSqueeze
      modifies this
      ensures Valid() && !inSqueeze && absorbed == old(absorbed) + a
    {
      for i := 0 to |a|
        invariant Valid() && !inSqueeze && absorbed == old(absorbed) + a[..i]
      {
        Absorb(a[i]);
        assert a[..i + 1] == a[..i] + [a[i]];
      }
      assert a[..|a|] == a;
    }

    /** The next output of the block sponge on everything absorbed. */
    method Squeeze() returns (out: Elem)
      requires Valid()
      modifies this
      ensures Valid() && inSqueeze && absorbed == old(absorbed) && squeezed == old(squeezed) + 1
      ensures out == Output(params, absorbed, old(squeezed))
    {
      hide AllWide, Permutation, Pending, Zeros, LastBlock, BlockSponge;
      if !inSqueeze || nextIndex == params.rate {
        if !inSqueeze {
          PendingIsBlockSponge(params, Zeros(params), absorbed);
        }
        StepIndex(squeezed, params.rate);
        Permute();
        nextIndex := 0;
        inSqueeze := true;
      } else {
        StepIndex(squeezed, params.rate);
      }
      nextIndex := nextIndex + 1;
      out := state[params.capacity + nextIndex - 1];
      squeezed := squeezed + 1;
    }

    method SqueezeBatch(n: nat) returns (out: seq<Elem>)
      requires Valid()
      modifies this
      ensures Valid() && absorbed == old(absorbed) && squeezed == old(squeezed) + n && |out| == n
      ensures forall i :: 0 <= i < n ==> out[i] == Output(params, absorbed, old(squeezed) + i)
    {
      out := [];
      for i := 0 to n
        invariant Valid() && absorbed == old(absorbed) && squeezed == old(squeezed) + i && |out| == i
        invariant forall j :: 0 <= j < i ==> out[j] == Output(params, absorbed, old(squeezed) + j)
      {
        var x := Squeeze();
        out := out + [x];
      }
    }

    /** All rounds in order, each with its own constants. */
    method Permute()
      requires params.Valid() && |state| == params.Width()
      modifies this`state
      ensures |state| == params.Width() && state == Permutation(params, old(state))
    {
      hide Params.Width, AllWide, Round, Apply, SBox, AddStates;
      var half := params.fullRounds / 2;
      for round := 0 to half
        invariant |state| == params.Width() && state == Rounds(params, round, old(state))
      {
        RunRound(round, true);
      }
      for round := half to half + params.partialRounds
        invariant |state| == params.Width() && state == Rounds(params, round, old(state))
      {
        RunRound(round, false);
      }
      for round := half + params.partialRounds to params.partialRounds + params.fullRounds
        invariant |state| == params.Width() && state == Rounds(params, round, old(state))
      {
        RunRound(round, true);
      }
    }

    method RunRound(round: nat, full: bool)
      requires params.Valid() && |state| == params.Width() && round < |params.roundConstants|
      requires full == IsFull(params, round)
      modifies this`state
      ensures |state| == params.Width() && state == Round(params, round, old(state))
    {
      AddRoundConstants(round);
      ApplySBox(full);
      ApplyMds();
    }

    method AddRoundConstants(round: nat)
      requires params.Valid() && |state| == params.Width() && round < |params.roundConstants|
      modifies this`state
      ensures |state| == params.Width() && state == AddStates(old(state), params.roundConstants[round])
    {
      hide Add;
      var c := params.roundConstants[round];
      for i := 0 to |state|
        invariant |state| == |old(state)|
        invariant forall k :: 0 <= k < i ==> state[k] == Add(old(state)[k], c[k])
        invariant forall k :: i <= k < |state| ==> state[k] == old(state)[k]
      {
        state := state[i := Add(state[i], c[i])];
      }
    }

    method ApplySBox(full: bool)
      requires params.Valid() && |state| == params.Width()
      modifies this`state
      ensures |state| == params.Width() && state == SBox(old(state), params.alpha, full)
    {
      hide Exp, ScalarExp;
      if full {
        for i := 0 to |state|
          invariant |state| == |old(state)|
          invariant forall k :: 0 <= k < i ==> state[k] == Exp(old(state)[k], params.alpha)
          invariant forall k :: i <= k < |state| ==> state[k] == old(state)[k]
        {
          ScalarExpIsExp(state[i], params.alpha);
          state := state[i := ScalarExp(state[i], params.alpha)];
        }
      } else {
        ScalarExpIsExp(state[0], params.alpha);
        state := state[0 := ScalarExp(state[0], params.alpha)];
      }
    }

    method ApplyMds()
      requires params.Valid() && |state| == params.Width()
      modifies this`state
      ensures |state| == params.Width() && state == Apply(params.mds, old(state))
    {
      hide Add, Mul;
      var res: State := [];
      for i := 0 to |params.mds|
        invariant state == old(state) && |res| == i
        invariant forall k :: 0 <= k < i ==> res[k] == Dot(params.mds[k], state)
      {
        var row := params.mds[i];
        var inner: Elem := 0;
        for j := 0 to |row|
          invariant state == old(state) && inner == Dot(row[..j], state[..j])
        {
          DotSnoc(row, state, j);
          inner := Add(inner, Mul(row[j], state[j]));
        }
        assert row[..|row|] == row && state[..|row|] == state;
        res := res + [inner];
      }
      for i := 0 to |state|
        invariant |state| == |old(state)|
        invariant forall k :: 0 <= k < i ==> state[k] == res[k]
      {
        state := state[i := res[i]];
      }
    }
  }

  lemma DotSnoc(a: State, b: State, j: nat)
    requires j < |a| == |b|
    ensures Dot(a[..j + 1], b[..j + 1]) == Add(Dot(a[..j], b[..j]), Mul(a[j], b[j]))
  {
    assert a[..j + 1][..j] == a[..j] && b[..j + 1][..j] == b[..j];
  }

  /** Moving from output n - 1 to output n, a new permutation is due exactly at multiples of the rate. */
  lemma StepIndex(n: nat, rate: nat)
    requires rate >= 1
    ensures n == 0 ==> n / rate == 0 && n % rate == 0
    ensures n >= 1 && (n - 1) % rate + 1 == rate ==> n / rate == (n - 1) / rate + 1 && n % rate == 0
    ensures n >= 1 && (n - 1) % rate + 1 < rate ==> n / rate == (n - 1) / rate && n % rate == (n - 1) % rate + 1
  {
    if n >= 1 {
      var q, r := (n - 1) / rate, (n - 1) % rate;
      if r + 1 == rate {
        Numbers.DivModUnique(n, q + 1, 0, rate);
      } else {
        Numbers.DivModUnique(n, q, r + 1, rate);
      }
    } else {
      Numbers.DivModUnique(0, 0, 0, rate);
    }
  }
}
