/**
  The Poseidon-style permutation of the merkle pallet and the hashes built on
  it, both as plain evaluation over the scalar field and as a constraint
  system gadget.

  This variant departs from the published Poseidon design in two ways that
  the model keeps: the round keys are generated but never added to the state,
  and the mixing layer multiplies each element by the sum of its matrix row
  instead of computing a matrix-vector product.
 */
module PoseidonHash {
  import opened Field
  import opened R1cs
  import Hex

  /** The domain-separation constant placed in the padding slot of the hash inputs. */
  const PADDING_CONST: Scalar := 101
  const ZERO_CONST: Scalar := 0

  type Matrix = seq<seq<Scalar>>

  datatype Poseidon = Poseidon(
    width: nat,
    fullRounds: nat,       // rounds with the S-box on every element, half before and half after the partial rounds
    partialRounds: nat,    // rounds with the S-box on element 0 only
    roundKeys: seq<Scalar>,
    mdsMatrix: Matrix)

  function Min(a: nat, b: nat): nat { if a <= b then a else b }

  // ---------------------------------------------------------------------------
  // The mixing layer

  /** The sum of a matrix row, added up from left to right. */
  function RowSum(row: seq<Scalar>): Scalar
  {
    if |row| == 0 then 0 else Add(RowSum(row[..|row| - 1]), row[|row| - 1])
  }

  /** `row.iter().fold(0, |sum, row_i| sum + val * row_i)`. */
  function RowFold(row: seq<Scalar>, val: Scalar): Scalar
  {
    if |row| == 0 then 0 else Add(RowFold(row[..|row| - 1], val), Mul(val, row[|row| - 1]))
  }

  /** `mat_mul`: rows and vector elements are zipped, and each row is folded against its own element. */
  function MatMul(m: Matrix, v: seq<Scalar>): (r: seq<Scalar>)
    ensures |r| == Min(|m|, |v|)
  {
    seq(Min(|m|, |v|), i requires 0 <= i < Min(|m|, |v|) => RowFold(m[i], v[i]))
  }

  lemma {:induction false} RowFoldScales(row: seq<Scalar>, val: Scalar)
    ensures RowFold(row, val) == Mul(val, RowSum(row))
  {
    if |row| > 0 {
      var init, last := row[..|row| - 1], row[|row| - 1];
      RowFoldScales(init, val);
      MulAddDistrib(val, RowSum(init), last);
    }
  }

  /** `mat_mul` scales element i by the sum of row i; it is not a matrix-vector product. */
  lemma MatMulScalesByRowSum(m: Matrix, v: seq<Scalar>)
    ensures |MatMul(m, v)| == Min(|m|, |v|)
    ensures forall i :: 0 <= i < Min(|m|, |v|) ==> MatMul(m, v)[i] == Mul(v[i], RowSum(m[i]))
  {
    forall i | 0 <= i < Min(|m|, |v|) ensures MatMul(m, v)[i] == Mul(v[i], RowSum(m[i])) {
      RowFoldScales(m[i], v[i]);
    }
  }

  /** The same fold over linear combinations: `sum + new_val * row_i`, where adding concatenates terms. */
  function RowFoldLc(row: seq<Scalar>, newVal: LinearCombination): LinearCombination
  {
    if |row| == 0 then [] else RowFoldLc(row[..|row| - 1], newVal) + Scale(newVal, row[|row| - 1])
  }

  /** `mat_mul_lc`: each linear combination is simplified, then folded against its row. */
  function MatMulLc(m: Matrix, lcs: seq<LinearCombination>): (r: seq<LinearCombination>)
    ensures |r| == Min(|m|, |lcs|)
  {
    seq(Min(|m|, |lcs|), i requires 0 <= i < Min(|m|, |lcs|) => RowFoldLc(m[i], Simplified(lcs[i])))
  }

  lemma {:induction false} RowFoldLcEval(row: seq<Scalar>, newVal: LinearCombination, a: Variable -> Scalar)
    ensures Eval(RowFoldLc(row, newVal), a) == RowFold(row, Eval(newVal, a))
  {
    if |row| > 0 {
      var init, last := row[..|row| - 1], row[|row| - 1];
      RowFoldLcEval(init, newVal, a);
      EvalConcat(RowFoldLc(init, newVal), Scale(newVal, last), a);
      EvalScale(newVal, last, a);
    }
  }

  /**
    `mat_mul_lc` has the shape of `mat_mul`: under every assignment its
    outputs evaluate to `mat_mul` of the evaluated inputs, so output i is
    input i scaled by the sum of row i.
   */
  lemma MatMulLcEval(m: Matrix, lcs: seq<LinearCombination>, a: Variable -> Scalar)
    ensures EvalAll(MatMulLc(m, lcs), a) == MatMul(m, EvalAll(lcs, a))
    ensures forall i :: 0 <= i < Min(|m|, |lcs|) ==> Eval(MatMulLc(m, lcs)[i], a) == Mul(Eval(lcs[i], a), RowSum(m[i]))
  {
    var n := Min(|m|, |lcs|);
    forall i | 0 <= i < n ensures Eval(MatMulLc(m, lcs)[i], a) == MatMul(m, EvalAll(lcs, a))[i] {
      SimplifiedCorrect(lcs[i]);
      RowFoldLcEval(m[i], Simplified(lcs[i]), a);
    }
    MatMulScalesByRowSum(m, EvalAll(lcs, a));
  }

  // ---------------------------------------------------------------------------
  // Parameters from the constant tables

  /** `gen_round_keys`: the first `width * total_rounds` table constants, in table order. */
  method GenRoundKeys(roundConsts: seq<string>, width: nat, totalRounds: nat) returns (rc: seq<Scalar>)
    requires |roundConsts| >= totalRounds * width
    requires forall i :: 0 <= i < totalRounds * width ==> Hex.IsScalarHex(roundConsts[i])
    ensures |rc| == totalRounds * width
    ensures forall i :: 0 <= i < |rc| ==> rc[i] == Hex.ScalarFromHex(roundConsts[i])
  {
    var cap := totalRounds * width;
    rc := [];
    for i := 0 to cap
      invariant |rc| == i
      invariant forall k :: 0 <= k < i ==> rc[k] == Hex.ScalarFromHex(roundConsts[k])
    {
      rc := rc + [Hex.ScalarFromHex(roundConsts[i])];
    }
  }

  /** `gen_mds_matrix`: the table as a `width` by `width` matrix of scalars. */
  method GenMdsMatrix(mdsEntries: seq<seq<string>>, width: nat) returns (mds: Matrix)
    requires |mdsEntries| == width
    requires forall i :: 0 <= i < width ==> |mdsEntries[i]| == width
    requires forall i, j :: 0 <= i < width && 0 <= j < width ==> Hex.IsScalarHex(mdsEntries[i][j])
    ensures |mds| == width
    ensures forall i :: 0 <= i < width ==> |mds[i]| == width
    ensures forall i, j :: 0 <= i < width && 0 <= j < width ==> mds[i][j] == Hex.ScalarFromHex(mdsEntries[i][j])
  {
    mds := seq(width, _ => seq(width, _ => 0));
    for i := 0 to width
      invariant |mds| == width
      invariant forall r :: 0 <= r < width ==> |mds[r]| == width
      invariant forall r, j :: 0 <= r < i && 0 <= j < width ==> mds[r][j] == Hex.ScalarFromHex(mdsEntries[r][j])
    {
      for j := 0 to width
        invariant |mds| == width
        invariant forall r :: 0 <= r < width ==> |mds[r]| == width
        invariant forall r, c :: 0 <= r < i && 0 <= c < width ==> mds[r][c] == Hex.ScalarFromHex(mdsEntries[r][c])
        invariant forall c :: 0 <= c < j ==> mds[i][c] == Hex.ScalarFromHex(mdsEntries[i][c])
      {
        var row: seq<Scalar> := mds[i][j := Hex.ScalarFromHex(mdsEntries[i][j])];
        mds := mds[i := row];
      }
    }
  }

  /**
    `Poseidon::new`: round keys for every round and a square MDS matrix of the
    given width. The round counts are the crate's configured constants, here
    parameters.
   */
  method New(width: nat, fullRounds: nat, partialRounds: nat, roundConsts: seq<string>, mdsEntries: seq<seq<string>>)
    returns (p: Poseidon)
    requires |roundConsts| >= (fullRounds + partialRounds) * width
    requires forall i :: 0 <= i < (fullRounds + partialRounds) * width ==> Hex.IsScalarHex(roundConsts[i])
    requires |mdsEntries| == width
    requires forall i :: 0 <= i < width ==> |mdsEntries[i]| == width
    requires forall i, j :: 0 <= i < width && 0 <= j < width ==> Hex.IsScalarHex(mdsEntries[i][j])
    ensures p.width == width && p.fullRounds == fullRounds && p.partialRounds == partialRounds
    ensures |p.roundKeys| == Total(p) * width
    ensures |p.mdsMatrix| == width
    ensures forall i :: 0 <= i < width ==> |p.mdsMatrix[i]| == width
    ensures forall i :: 0 <= i < |p.roundKeys| ==> p.roundKeys[i] == Hex.ScalarFromHex(roundConsts[i])
    ensures forall i, j :: 0 <= i < width && 0 <= j < width ==> p.mdsMatrix[i][j] == Hex.ScalarFromHex(mdsEntries[i][j])
  {
    var totalRounds := fullRounds + partialRounds;
    var roundKeys := GenRoundKeys(roundConsts, width, totalRounds);
    var matrix := GenMdsMatrix(mdsEntries, width);
    p := Poseidon(width, fullRounds, partialRounds, roundKeys, matrix);
  }

  // ---------------------------------------------------------------------------
  // The permutation

  /** `apply_sbox`: the cube map. */
  function ApplySbox(x: Scalar): (r: Scalar)
    ensures r == (x * x * x) % L
  {
    ModMulLeft(x * x, x);
    Mul(Mul(x, x), x)
  }

  function Total(p: Poseidon): nat { p.fullRounds + p.partialRounds }

  /** Full rounds are the first and the last `full_rounds / 2` rounds. */
  predicate IsFullRound(p: Poseidon, round: nat)
  {
    round < p.fullRounds / 2 || round >= Total(p) - p.fullRounds / 2
  }

  /** The length of the state entering `round`, for an input of length `n`: mixing truncates it to the number of matrix rows. */
  function StateLen(p: Poseidon, n: nat, round: nat): nat
  {
    if round == 0 then n else Min(|p.mdsMatrix|, n)
  }

  /** No partial round meets an empty state (where `current[0]` would panic). */
  predicate PartialRoundsSafe(p: Poseidon, n: nat)
  {
    forall round :: 0 <= round < Total(p) && !IsFullRound(p, round) ==> StateLen(p, n, round) > 0
  }

  /** The S-box layer of a round: every element in a full round, element 0 only in a partial one. */
  function SboxLayer(s: seq<Scalar>, full: bool): (r: seq<Scalar>)
    requires full || |s| > 0
    ensures |r| == |s|
    ensures forall i :: 0 <= i < |s| ==> r[i] == if full || i == 0 then ApplySbox(s[i]) else s[i]
  {
    if full then seq(|s|, i requires 0 <= i < |s| => ApplySbox(s[i])) else s[0 := ApplySbox(s[0])]
  }

  /** One round: the S-box layer, then mixing. No round key is added. */
  function Round(p: Poseidon, s: seq<Scalar>, round: nat): seq<Scalar>
    requires IsFullRound(p, round) || |s| > 0
  {
    MatMul(p.mdsMatrix, SboxLayer(s, IsFullRound(p, round)))
  }

  /** The state after the first `k` rounds. */
  function Rounds(p: Poseidon, s: seq<Scalar>, k: nat): (r: seq<Scalar>)
    requires k <= Total(p)
    requires PartialRoundsSafe(p, |s|)
    ensures |r| == StateLen(p, |s|, k)
  {
    if k == 0 then s else Round(p, Rounds(p, s, k - 1), k - 1)
  }

  /** What `permute` computes. */
  function Permutation(p: Poseidon, s: seq<Scalar>): seq<Scalar>
    requires PartialRoundsSafe(p, |s|)
  {
    Rounds(p, s, Total(p))
  }

  /** `permute`: the round loop, updating the state in place. */
  method Permute(p: Poseidon, inputs: seq<Scalar>) returns (current: seq<Scalar>)
    requires |inputs| == p.width
    requires p.fullRounds % 2 == 0
    requires PartialRoundsSafe(p, |inputs|)
    ensures current == Permutation(p, inputs)
    ensures |current| == StateLen(p, p.width, Total(p))
    ensures |p.mdsMatrix| == p.width ==> |current| == p.width
  {
    var rounds := p.fullRounds + p.partialRounds;
    var fullRoundsPerSide := p.fullRounds / 2;
    current := inputs;
    for round := 0 to rounds
      invariant current == Rounds(p, inputs, round)
    {
      var full := round < fullRoundsPerSide || round >= rounds - fullRoundsPerSide;
      if full {
        current := seq(|current|, i requires 0 <= i < |current| => ApplySbox(current[i]));
      } else {
        current := current[0 := ApplySbox(current[0])];
      }
      current := MatMul(p.mdsMatrix, current);
    }
  }

  lemma {:induction false} RoundsIgnoreRoundKeys(p: Poseidon, keys: seq<Scalar>, s: seq<Scalar>, k: nat)
    requires k <= Total(p)
    requires PartialRoundsSafe(p, |s|)
    ensures PartialRoundsSafe(p.(roundKeys := keys), |s|)
    ensures Rounds(p.(roundKeys := keys), s, k) == Rounds(p, s, k)
  {
    var q := p.(roundKeys := keys);
    assert forall round :: IsFullRound(q, round) == IsFullRound(p, round);
    if k > 0 {
      RoundsIgnoreRoundKeys(p, keys, s, k - 1);
    }
  }

  /** The round keys are never used: any other round keys give the same permutation. */
  lemma PermutationIgnoresRoundKeys(p: Poseidon, keys: seq<Scalar>, s: seq<Scalar>)
    requires PartialRoundsSafe(p, |s|)
    ensures PartialRoundsSafe(p.(roundKeys := keys), |s|)
    ensures Permutation(p.(roundKeys := keys), s) == Permutation(p, s)
  {
    RoundsIgnoreRoundKeys(p, keys, s, Total(p));
  }

  // ---------------------------------------------------------------------------
  // The round schedule and the S-box count

  /** How many of the first `k` rounds are full rounds. */
  function FullRoundsBelow(p: Poseidon, k: nat): nat
  {
    if k == 0 then 0 else FullRoundsBelow(p, k - 1) + (if IsFullRound(p, k - 1) then 1 else 0)
  }

  lemma {:induction false} FullRoundsBelowClosed(p: Poseidon, k: nat)
    requires k <= Total(p)
    ensures FullRoundsBelow(p, k) ==
      Min(k, p.fullRounds / 2) + (if k > Total(p) - p.fullRounds / 2 then k - (Total(p) - p.fullRounds / 2) else 0)
  {
    if k > 0 {
      FullRoundsBelowClosed(p, k - 1);
    }
  }

  /** An even number of full rounds splits into equal halves: exactly `full_rounds` rounds are full. */
  lemma FullRoundCount(p: Poseidon)
    requires p.fullRounds % 2 == 0
    ensures FullRoundsBelow(p, Total(p)) == p.fullRounds
  {
    FullRoundsBelowClosed(p, Total(p));
  }

  /** How many S-boxes the first `k` rounds apply to a state that starts with `n` elements. */
  function SboxCount(p: Poseidon, n: nat, k: nat): nat
  {
    if k == 0 then 0
    else SboxCount(p, n, k - 1) + (if IsFullRound(p, k - 1) then StateLen(p, n, k - 1) else 1)
  }

  lemma {:induction false} SboxCountSplit(p: Poseidon, n: nat, k: nat)
    requires n <= |p.mdsMatrix|
    ensures SboxCount(p, n, k) == n * FullRoundsBelow(p, k) + (k - FullRoundsBelow(p, k))
  {
    if k > 0 {
      SboxCountSplit(p, n, k - 1);
      assert FullRoundsBelow(p, k - 1) <= k - 1 by {
        FullRoundsBelowBound(p, k - 1);
      }
      if IsFullRound(p, k - 1) {
        assert n * (FullRoundsBelow(p, k - 1) + 1) == n * FullRoundsBelow(p, k - 1) + n;
      }
    }
  }

  lemma {:induction false} FullRoundsBelowBound(p: Poseidon, k: nat)
    ensures FullRoundsBelow(p, k) <= k
  {
    if k > 0 {
      FullRoundsBelowBound(p, k - 1);
    }
  }

  /** A permutation over a square matrix applies `full_rounds * width + partial_rounds` S-boxes. */
  lemma SboxCountTotal(p: Poseidon)
    requires p.fullRounds % 2 == 0
    requires p.width <= |p.mdsMatrix|
    ensures SboxCount(p, p.width, Total(p)) == p.fullRounds * p.width + p.partialRounds
  {
    SboxCountSplit(p, p.width, Total(p));
    FullRoundCount(p);
  }

  // ---------------------------------------------------------------------------
  // The constraint-system twin

  /** Two gates that square `x` and then multiply the square by `x` produce the S-box of `x`. */
  lemma SboxGadgetSound(gates: seq<Gate>, n: nat, x: LinearCombination, a: Variable -> Scalar)
    requires n + 1 < |gates|
    requires gates[n] == Gate(x, x)
    requires gates[n + 1] == Gate(FromVariable(MultiplierOutput(n)), FromVariable(MultiplierLeft(n)))
    requires Satisfies(gates, a)
    ensures Eval(FromVariable(MultiplierOutput(n + 1)), a) == ApplySbox(Eval(x, a))
  {
    assert GateHolds(gates, n, a);
    assert GateHolds(gates, n + 1, a);
    EvalFromVariable(MultiplierOutput(n), a);
    EvalFromVariable(MultiplierLeft(n), a);
    EvalFromVariable(MultiplierOutput(n + 1), a);
  }

  /** `synthesize_sbox`: two multiplication gates, square then cube. */
  method SynthesizeSbox(cs: ConstraintSystem, input: LinearCombination) returns (cube: LinearCombination)
    modifies cs
    ensures cs.committed == old(cs.committed)
    ensures cs.gates == old(cs.gates) + [
      Gate(input, input),
      Gate(FromVariable(MultiplierOutput(|old(cs.gates)|)), FromVariable(MultiplierLeft(|old(cs.gates)|)))]
    ensures cube == FromVariable(MultiplierOutput(|old(cs.gates)| + 1))
    ensures forall a :: Satisfies(cs.gates, a) ==> Eval(cube, a) == ApplySbox(Eval(input, a))
  {
    var n := |cs.gates|;
    var i, r0, sqr := cs.Multiply(input, input);
    var l1, r1, c := cs.Multiply(FromVariable(sqr), FromVariable(i));
    cube := FromVariable(c);
    forall a | Satisfies(cs.gates, a) ensures Eval(cube, a) == ApplySbox(Eval(input, a)) {
      SboxGadgetSound(cs.gates, n, input, a);
    }
  }

  // ---------------------------------------------------------------------------
  // The gates the permutation gadget allocates

  /** The two gates `synthesize_sbox` allocates for `x` when `n` gates exist: the square of `x`, then the square times `x`. */
  function SboxGates(x: LinearCombination, n: nat): seq<Gate>
  {
    [Gate(x, x), Gate(FromVariable(MultiplierOutput(n)), FromVariable(MultiplierLeft(n)))]
  }

  /** What `synthesize_sbox` returns when `n` gates existed: the output wire of its second gate. */
  function SboxWire(n: nat): LinearCombination
  {
    FromVariable(MultiplierOutput(n + 1))
  }

  /** The gates after a full S-box layer over `xs` is synthesised behind `gates`: one pair per element, in element order. */
  function FullLayerGates(gates: seq<Gate>, xs: seq<LinearCombination>): (r: seq<Gate>)
    ensures |r| == |gates| + 2 * |xs|
    decreases |xs|
  {
    if |xs| == 0 then gates
    else
      var before := FullLayerGates(gates, xs[..|xs| - 1]);
      before + SboxGates(xs[|xs| - 1], |before|)
  }

  /** The S-box layer of a round synthesised behind `gates`: the gates after it, and its outputs. */
  function LayerSynthesis(gates: seq<Gate>, xs: seq<LinearCombination>, full: bool): (r: (seq<Gate>, seq<LinearCombination>))
    requires full || |xs| > 0
    ensures |r.0| == |gates| + (if full then 2 * |xs| else 2)
    ensures |r.1| == |xs|
  {
    if full then (FullLayerGates(gates, xs), seq(|xs|, i requires 0 <= i < |xs| => SboxWire(|gates| + 2 * i)))
    else (gates + SboxGates(xs[0], |gates|), xs[0 := SboxWire(|gates|)])
  }

  /** One round synthesised behind `gates`: the gates after its S-box layer, and that layer's outputs after mixing. */
  function RoundSynthesis(p: Poseidon, gates: seq<Gate>, s: seq<LinearCombination>, round: nat): (r: (seq<Gate>, seq<LinearCombination>))
    requires IsFullRound(p, round) || |s| > 0
    ensures |r.1| == Min(|p.mdsMatrix|, |s|)
  {
    var layer := LayerSynthesis(gates, s, IsFullRound(p, round));
    (layer.0, MatMulLc(p.mdsMatrix, layer.1))
  }

  /** The first `k` rounds of `permute_constraints` synthesised behind `gates`: the gates after them, and the state they leave. */
  function RoundsSynthesis(p: Poseidon, gates: seq<Gate>, inputs: seq<LinearCombination>, k: nat): (r: (seq<Gate>, seq<LinearCombination>))
    requires k <= Total(p)
    requires PartialRoundsSafe(p, |inputs|)
    ensures |r.1| == StateLen(p, |inputs|, k)
  {
    if k == 0 then (gates, inputs)
    else
      var prev := RoundsSynthesis(p, gates, inputs, k - 1);
      RoundSynthesis(p, prev.0, prev.1, k - 1)
  }

  /** `permute_constraints` synthesised behind `gates`: the gates after it, and the outputs it returns. */
  function PermuteSynthesis(p: Poseidon, gates: seq<Gate>, inputs: seq<LinearCombination>): (seq<Gate>, seq<LinearCombination>)
    requires PartialRoundsSafe(p, |inputs|)
  {
    RoundsSynthesis(p, gates, inputs, Total(p))
  }

  /** Round `k - 1` is `RoundSynthesis` behind the first `k - 1` rounds. */
  lemma RoundsSynthesisUnfold(p: Poseidon, gates: seq<Gate>, inputs: seq<LinearCombination>, k: nat)
    requires 0 < k <= Total(p)
    requires PartialRoundsSafe(p, |inputs|)
    ensures IsFullRound(p, k - 1) || |RoundsSynthesis(p, gates, inputs, k - 1).1| > 0
    ensures RoundsSynthesis(p, gates, inputs, k) ==
      RoundSynthesis(p, RoundsSynthesis(p, gates, inputs, k - 1).0, RoundsSynthesis(p, gates, inputs, k - 1).1, k - 1)
  {
    assert IsFullRound(p, k - 1) || StateLen(p, |inputs|, k - 1) > 0;
  }

  lemma {:induction false} FullLayerGatesExtends(gates: seq<Gate>, xs: seq<LinearCombination>)
    ensures gates <= FullLayerGates(gates, xs)
  {
    if |xs| > 0 {
      FullLayerGatesExtends(gates, xs[..|xs| - 1]);
    }
  }

  lemma {:induction false} FullLayerGatesAt(gates: seq<Gate>, xs: seq<LinearCombination>, i: nat)
    requires i < |xs|
    ensures FullLayerGates(gates, xs)[|gates| + 2 * i] == Gate(xs[i], xs[i])
    ensures FullLayerGates(gates, xs)[|gates| + 2 * i + 1] ==
      Gate(FromVariable(MultiplierOutput(|gates| + 2 * i)), FromVariable(MultiplierLeft(|gates| + 2 * i)))
  {
    var init := xs[..|xs| - 1];
    if i < |xs| - 1 {
      FullLayerGatesAt(gates, init, i);
      assert init[i] == xs[i];
    }
  }

  /** Synthesis only appends: the gates that existed before a round are a prefix of the gates after it. */
  lemma RoundSynthesisExtends(p: Poseidon, gates: seq<Gate>, s: seq<LinearCombination>, round: nat)
    requires IsFullRound(p, round) || |s| > 0
    ensures gates <= RoundSynthesis(p, gates, s, round).0
    ensures |RoundSynthesis(p, gates, s, round).0| == |gates| + (if IsFullRound(p, round) then 2 * |s| else 1 * 2)
  {
    if IsFullRound(p, round) {
      FullLayerGatesExtends(gates, s);
    }
  }

  /** Two gates per S-box, appended behind the existing gates. */
  lemma {:induction false} RoundsSynthesisExtends(p: Poseidon, gates: seq<Gate>, inputs: seq<LinearCombination>, k: nat)
    requires k <= Total(p)
    requires PartialRoundsSafe(p, |inputs|)
    ensures gates <= RoundsSynthesis(p, gates, inputs, k).0
    ensures |RoundsSynthesis(p, gates, inputs, k).0| == |gates| + 2 * SboxCount(p, |inputs|, k)
  {
    if k > 0 {
      RoundsSynthesisExtends(p, gates, inputs, k - 1);
      RoundsSynthesisExtendsStep(p, gates, inputs, k);
    }
  }

  lemma RoundsSynthesisExtendsStep(p: Poseidon, gates: seq<Gate>, inputs: seq<LinearCombination>, k: nat)
    requires 0 < k <= Total(p)
    requires PartialRoundsSafe(p, |inputs|)
    requires gates <= RoundsSynthesis(p, gates, inputs, k - 1).0
    requires |RoundsSynthesis(p, gates, inputs, k - 1).0| == |gates| + 2 * SboxCount(p, |inputs|, k - 1)
    ensures gates <= RoundsSynthesis(p, gates, inputs, k).0
    ensures |RoundsSynthesis(p, gates, inputs, k).0| == |gates| + 2 * SboxCount(p, |inputs|, k)
  {
    var prev := RoundsSynthesis(p, gates, inputs, k - 1);
    RoundsSynthesisUnfold(p, gates, inputs, k);
    RoundSynthesisExtends(p, prev.0, prev.1, k - 1);
  }

  // ---------------------------------------------------------------------------
  // Soundness: satisfied gates force the permutation

  /** Under an assignment satisfying the gates after an S-box layer, its outputs evaluate to the S-box layer of its inputs' values. */
  lemma LayerSynthesisSound(gates: seq<Gate>, xs: seq<LinearCombination>, full: bool, a: Variable -> Scalar)
    requires full || |xs| > 0
    requires Satisfies(LayerSynthesis(gates, xs, full).0, a)
    ensures EvalAll(LayerSynthesis(gates, xs, full).1, a) == SboxLayer(EvalAll(xs, a), full)
  {
    var n := |gates|;
    var all := LayerSynthesis(gates, xs, full).0;
    var outs := LayerSynthesis(gates, xs, full).1;
    if full {
      forall i | 0 <= i < |xs| ensures Eval(outs[i], a) == ApplySbox(Eval(xs[i], a)) {
        FullLayerGatesAt(gates, xs, i);
        SboxGadgetSound(all, n + 2 * i, xs[i], a);
      }
    } else {
      SboxGadgetSound(all, n, xs[0], a);
    }
  }

  /** Under an assignment satisfying the gates after a round, its outputs evaluate to the plain round of its inputs' values. */
  lemma RoundSynthesisSound(p: Poseidon, gates: seq<Gate>, s: seq<LinearCombination>, round: nat, a: Variable -> Scalar)
    requires IsFullRound(p, round) || |s| > 0
    requires Satisfies(RoundSynthesis(p, gates, s, round).0, a)
    ensures EvalAll(RoundSynthesis(p, gates, s, round).1, a) == Round(p, EvalAll(s, a), round)
  {
    var layer := LayerSynthesis(gates, s, IsFullRound(p, round));
    LayerSynthesisSound(gates, s, IsFullRound(p, round), a);
    MatMulLcEval(p.mdsMatrix, layer.1, a);
  }

  lemma RoundsStep(p: Poseidon, s: seq<Scalar>, k: nat)
    requires 0 < k <= Total(p)
    requires PartialRoundsSafe(p, |s|)
    ensures IsFullRound(p, k - 1) || |Rounds(p, s, k - 1)| > 0
    ensures Rounds(p, s, k) == Round(p, Rounds(p, s, k - 1), k - 1)
  {
    assert IsFullRound(p, k - 1) || StateLen(p, |s|, k - 1) > 0;
  }

  lemma RoundsSynthesisSoundStep(p: Poseidon, gates: seq<Gate>, inputs: seq<LinearCombination>, k: nat, a: Variable -> Scalar)
    requires 0 < k <= Total(p)
    requires PartialRoundsSafe(p, |inputs|)
    requires Satisfies(RoundsSynthesis(p, gates, inputs, k).0, a)
    requires Satisfies(RoundsSynthesis(p, gates, inputs, k - 1).0, a) ==>
      EvalAll(RoundsSynthesis(p, gates, inputs, k - 1).1, a) == Rounds(p, EvalAll(inputs, a), k - 1)
    ensures Satisfies(RoundsSynthesis(p, gates, inputs, k - 1).0, a)
    ensures EvalAll(RoundsSynthesis(p, gates, inputs, k).1, a) == Rounds(p, EvalAll(inputs, a), k)
  {
    var prev := RoundsSynthesis(p, gates, inputs, k - 1);
    RoundsSynthesisUnfold(p, gates, inputs, k);
    RoundSynthesisExtends(p, prev.0, prev.1, k - 1);
    SatisfiesPrefix(prev.0, RoundSynthesis(p, prev.0, prev.1, k - 1).0, a);
    RoundSynthesisSound(p, prev.0, prev.1, k - 1, a);
    RoundsStep(p, EvalAll(inputs, a), k);
  }

  /** Under an assignment satisfying the gates after `k` rounds, their state evaluates to the first `k` plain rounds of the inputs' values. */
  lemma {:induction false} RoundsSynthesisSound(p: Poseidon, gates: seq<Gate>, inputs: seq<LinearCombination>, k: nat, a: Variable -> Scalar)
    requires k <= Total(p)
    requires PartialRoundsSafe(p, |inputs|)
    requires Satisfies(RoundsSynthesis(p, gates, inputs, k).0, a)
    ensures EvalAll(RoundsSynthesis(p, gates, inputs, k).1, a) == Rounds(p, EvalAll(inputs, a), k)
  {
    if k > 0 {
      if Satisfies(RoundsSynthesis(p, gates, inputs, k - 1).0, a) {
        RoundsSynthesisSound(p, gates, inputs, k - 1, a);
      }
      RoundsSynthesisSoundStep(p, gates, inputs, k, a);
    }
  }

  /** Soundness of `permute_constraints`: whatever satisfies its gates gives its outputs the plain permutation of its inputs' values. */
  lemma PermuteSynthesisSound(p: Poseidon, gates: seq<Gate>, inputs: seq<LinearCombination>, a: Variable -> Scalar)
    requires PartialRoundsSafe(p, |inputs|)
    requires Satisfies(PermuteSynthesis(p, gates, inputs).0, a)
    ensures EvalAll(PermuteSynthesis(p, gates, inputs).1, a) == Permutation(p, EvalAll(inputs, a))
  {
    RoundsSynthesisSound(p, gates, inputs, Total(p), a);
  }

  // ---------------------------------------------------------------------------
  // Completeness: the prover can always satisfy the gates

  lemma SboxGatesCausal(x: LinearCombination, n: nat)
    requires LcBelow(x, n)
    ensures CausalFrom(SboxGates(x, n), n)
    ensures LcBelow(SboxWire(n), n + 2)
  {
    var g := SboxGates(x, n);
    assert LcBelow(g[1].left, n + 1) && LcBelow(g[1].right, n + 1);
  }

  lemma {:induction false} FullLayerCausal(gates: seq<Gate>, xs: seq<LinearCombination>)
    requires CausalFrom(gates, 0)
    requires AllBelow(xs, |gates|)
    ensures CausalFrom(FullLayerGates(gates, xs), 0)
  {
    if |xs| > 0 {
      var m := |xs| - 1;
      var before := FullLayerGates(gates, xs[..m]);
      FullLayerCausal(gates, xs[..m]);
      LcBelowMono(xs[m], |gates|, |before|);
      SboxGatesCausal(xs[m], |before|);
      CausalConcat(before, SboxGates(xs[m], |before|), 0);
    }
  }

  /** An S-box layer over inputs known before it binds each gate to earlier wires only, and its outputs are known once it is done. */
  lemma LayerSynthesisCausal(gates: seq<Gate>, xs: seq<LinearCombination>, full: bool)
    requires full || |xs| > 0
    requires CausalFrom(gates, 0)
    requires AllBelow(xs, |gates|)
    ensures CausalFrom(LayerSynthesis(gates, xs, full).0, 0)
    ensures AllBelow(LayerSynthesis(gates, xs, full).1, |LayerSynthesis(gates, xs, full).0|)
  {
    var n := |gates|;
    var r := LayerSynthesis(gates, xs, full);
    if full {
      FullLayerCausal(gates, xs);
      forall i | 0 <= i < |xs| ensures LcBelow(r.1[i], |r.0|) {
        assert r.1[i] == SboxWire(n + 2 * i);
      }
    } else {
      SboxGatesCausal(xs[0], n);
      CausalConcat(gates, SboxGates(xs[0], n), 0);
      forall i | 0 <= i < |xs| ensures LcBelow(r.1[i], n + 2) {
        if i > 0 {
          LcBelowMono(xs[i], n, n + 2);
        }
      }
    }
  }

  lemma {:induction false} RowFoldLcBelow(row: seq<Scalar>, x: LinearCombination, n: nat)
    requires LcBelow(x, n)
    ensures LcBelow(RowFoldLc(row, x), n)
  {
    if |row| > 0 {
      RowFoldLcBelow(row[..|row| - 1], x, n);
      var y, z := RowFoldLc(row[..|row| - 1], x), Scale(x, row[|row| - 1]);
      assert forall t :: 0 <= t < |z| ==> z[t].variable == x[t].variable;
      assert forall t :: 0 <= t < |y + z| ==> (y + z)[t] == if t < |y| then y[t] else z[t - |y|];
    }
  }

  /** Mixing only rearranges and rescales terms: it refers to nothing its inputs do not. */
  lemma MatMulLcBelow(m: Matrix, lcs: seq<LinearCombination>, n: nat)
    requires AllBelow(lcs, n)
    ensures AllBelow(MatMulLc(m, lcs), n)
  {
    forall i | 0 <= i < |MatMulLc(m, lcs)| ensures LcBelow(MatMulLc(m, lcs)[i], n) {
      var s := Simplified(lcs[i]);
      SimplifiedCorrect(lcs[i]);
      forall t | 0 <= t < |s| ensures WireBelow(s[t].variable, n) {
        assert s[t].variable in Vars(s);
        var k :| 0 <= k < |lcs[i]| && lcs[i][k].variable == s[t].variable;
      }
      RowFoldLcBelow(m[i], s, n);
    }
  }

  lemma RoundSynthesisCausal(p: Poseidon, gates: seq<Gate>, s: seq<LinearCombination>, round: nat)
    requires IsFullRound(p, round) || |s| > 0
    requires CausalFrom(gates, 0)
    requires AllBelow(s, |gates|)
    ensures CausalFrom(RoundSynthesis(p, gates, s, round).0, 0)
    ensures AllBelow(RoundSynthesis(p, gates, s, round).1, |RoundSynthesis(p, gates, s, round).0|)
  {
    var layer := LayerSynthesis(gates, s, IsFullRound(p, round));
    LayerSynthesisCausal(gates, s, IsFullRound(p, round));
    MatMulLcBelow(p.mdsMatrix, layer.1, |layer.0|);
  }

  /** Rounds over inputs known before them bind every gate to earlier wires only, and leave a state known once they are done. */
  lemma {:induction false} RoundsSynthesisCausal(p: Poseidon, gates: seq<Gate>, inputs: seq<LinearCombination>, k: nat)
    requires k <= Total(p)
    requires PartialRoundsSafe(p, |inputs|)
    requires CausalFrom(gates, 0)
    requires AllBelow(inputs, |gates|)
    ensures CausalFrom(RoundsSynthesis(p, gates, inputs, k).0, 0)
    ensures AllBelow(RoundsSynthesis(p, gates, inputs, k).1, |RoundsSynthesis(p, gates, inputs, k).0|)
  {
    if k > 0 {
      var prev := RoundsSynthesis(p, gates, inputs, k - 1);
      RoundsSynthesisCausal(p, gates, inputs, k - 1);
      RoundsSynthesisUnfold(p, gates, inputs, k);
      RoundSynthesisCausal(p, prev.0, prev.1, k - 1);
    }
  }

  /** The prover's assignment after `permute_constraints` behind `gates`: `a` with every square and cube wire filled in. */
  function ProverWitness(p: Poseidon, gates: seq<Gate>, inputs: seq<LinearCombination>, a: Variable -> Scalar): Variable -> Scalar
    requires PartialRoundsSafe(p, |inputs|)
  {
    var all := PermuteSynthesis(p, gates, inputs).0;
    Witness(all, a, |gates|, |all|)
  }

  /**
    Completeness of `permute_constraints`: when the earlier gates hold under
    `a` and bind only earlier wires, and the inputs are known, the prover's
    witness satisfies every gate, keeps every value that existed before, and
    gives the outputs the plain permutation of the inputs' values.
   */
  lemma PermuteSynthesisComplete(p: Poseidon, gates: seq<Gate>, inputs: seq<LinearCombination>, a: Variable -> Scalar)
    requires PartialRoundsSafe(p, |inputs|)
    requires CausalFrom(gates, 0) && Satisfies(gates, a)
    requires AllBelow(inputs, |gates|)
    ensures Satisfies(PermuteSynthesis(p, gates, inputs).0, ProverWitness(p, gates, inputs, a))
    ensures forall v :: WireBelow(v, |gates|) ==> ProverWitness(p, gates, inputs, a)(v) == a(v)
    ensures EvalAll(PermuteSynthesis(p, gates, inputs).1, ProverWitness(p, gates, inputs, a)) == Permutation(p, EvalAll(inputs, a))
  {
    var all := PermuteSynthesis(p, gates, inputs).0;
    var w := ProverWitness(p, gates, inputs, a);
    RoundsSynthesisCausal(p, gates, inputs, Total(p));
    RoundsSynthesisExtends(p, gates, inputs, Total(p));
    assert all[..|gates|] == gates;
    WitnessSatisfies(all, a, |gates|);
    RoundsSynthesisSound(p, gates, inputs, Total(p), w);
    forall i | 0 <= i < |inputs| ensures Eval(inputs[i], w) == Eval(inputs[i], a) {
      EvalBelow(inputs[i], |gates|, w, a);
    }
    assert EvalAll(inputs, w) == EvalAll(inputs, a);
  }

  /** The S-box layer of one round of `permute_constraints`: every element on a full round, element 0 on a partial one. */
  method SboxLayerConstraints(cs: ConstraintSystem, xs: seq<LinearCombination>, full: bool) returns (next: seq<LinearCombination>)
    requires full || |xs| > 0
    modifies cs
    ensures cs.committed == old(cs.committed)
    ensures cs.gates == LayerSynthesis(old(cs.gates), xs, full).0
    ensures next == LayerSynthesis(old(cs.gates), xs, full).1
  {
    ghost var g0 := cs.gates;
    if full {
      next := [];
      var j := 0;
      while j < |xs|
        invariant 0 <= j <= |xs|
        invariant cs.committed == old(cs.committed)
        invariant cs.gates == FullLayerGates(g0, xs[..j])
        invariant |next| == j
        invariant forall i :: 0 <= i < j ==> next[i] == SboxWire(|g0| + 2 * i)
      {
        var y := SynthesizeSbox(cs, xs[j]);
        assert xs[..j + 1][..j] == xs[..j];
        next := next + [y];
        j := j + 1;
      }
      assert xs[..j] == xs;
    } else {
      var y := SynthesizeSbox(cs, xs[0]);
      next := xs[0 := y];
    }
  }

  /** One round of `permute_constraints`: the S-box layer the round calls for, then mixing. */
  method RoundConstraints(p: Poseidon, cs: ConstraintSystem, current: seq<LinearCombination>, round: nat)
    returns (next: seq<LinearCombination>)
    requires round < Total(p)
    requires IsFullRound(p, round) || |current| > 0
    modifies cs
    ensures cs.committed == old(cs.committed)
    ensures cs.gates == RoundSynthesis(p, old(cs.gates), current, round).0
    ensures next == RoundSynthesis(p, old(cs.gates), current, round).1
  {
    var rounds := p.fullRounds + p.partialRounds;
    var fullRoundsPerSide := p.fullRounds / 2;
    var full := round < fullRoundsPerSide || round >= rounds - fullRoundsPerSide;
    var layer := SboxLayerConstraints(cs, current, full);
    next := MatMulLc(p.mdsMatrix, layer);
  }

  /**
    `permute_constraints`: the round loop of `permute` over linear
    combinations, leaving exactly the gates and outputs of `PermuteSynthesis`.
   */
  method PermuteConstraints(p: Poseidon, cs: ConstraintSystem, inputs: seq<LinearCombination>)
    returns (current: seq<LinearCombination>)
    requires |inputs| == p.width
    requires p.fullRounds % 2 == 0
    requires PartialRoundsSafe(p, p.width)
    modifies cs
    ensures cs.committed == old(cs.committed)
    ensures cs.gates == PermuteSynthesis(p, old(cs.gates), inputs).0
    ensures current == PermuteSynthesis(p, old(cs.gates), inputs).1
    ensures |cs.gates| == |old(cs.gates)| + 2 * SboxCount(p, p.width, Total(p))
    ensures forall a :: Satisfies(cs.gates, a) ==> EvalAll(current, a) == Permutation(p, EvalAll(inputs, a))
  {
    ghost var g0 := cs.gates;
    var rounds := p.fullRounds + p.partialRounds;
    current := inputs;
    for round := 0 to rounds
      invariant cs.committed == old(cs.committed)
      invariant cs.gates == RoundsSynthesis(p, g0, inputs, round).0
      invariant current == RoundsSynthesis(p, g0, inputs, round).1
    {
      RoundsSynthesisUnfold(p, g0, inputs, round + 1);
      current := RoundConstraints(p, cs, current, round);
    }
    RoundsSynthesisExtends(p, g0, inputs, Total(p));
    forall a | Satisfies(cs.gates, a) ensures EvalAll(current, a) == Permutation(p, EvalAll(inputs, a)) {
      PermuteSynthesisSound(p, g0, inputs, a);
    }
  }

  /** `constrain`: element 1 of the constrained permutation. */
  method Constrain(p: Poseidon, cs: ConstraintSystem, inputs: seq<LinearCombination>) returns (out: LinearCombination)
    requires |inputs| == p.width
    requires p.fullRounds % 2 == 0
    requires PartialRoundsSafe(p, p.width)
    requires StateLen(p, p.width, Total(p)) > 1
    modifies cs
    ensures cs.committed == old(cs.committed)
    ensures cs.gates == PermuteSynthesis(p, old(cs.gates), inputs).0
    ensures out == PermuteSynthesis(p, old(cs.gates), inputs).1[1]
    ensures |cs.gates| == |old(cs.gates)| + 2 * SboxCount(p, p.width, Total(p))
    ensures forall a :: Satisfies(cs.gates, a) ==> Eval(out, a) == Permutation(p, EvalAll(inputs, a))[1]
  {
    var permutationOutput := PermuteConstraints(p, cs, inputs);
    out := permutationOutput[1];
  }

  // ---------------------------------------------------------------------------
  // The hashes

  /** The parameters `hash_2` and `hash_4` run with: six-element state, symmetric full rounds, an output element 1. */
  predicate HashReady(p: Poseidon)
  {
    && p.width == 6
    && p.fullRounds % 2 == 0
    && PartialRoundsSafe(p, 6)
    && StateLen(p, 6, Total(p)) > 1
  }

  /** `hash_2`: element 1 of the permutation of `[0, xl, xr, 101, 0, 0]`. */
  method Hash2(p: Poseidon, xl: Scalar, xr: Scalar) returns (r: Scalar)
    requires HashReady(p)
    ensures r == Permutation(p, [ZERO_CONST, xl, xr, PADDING_CONST, ZERO_CONST, ZERO_CONST])[1]
  {
    var input := [ZERO_CONST, xl, xr, PADDING_CONST, ZERO_CONST, ZERO_CONST];
    var output := Permute(p, input);
    r := output[1];
  }

  /** `hash_4`: element 1 of the permutation of `[0, x1, x2, x3, x4, 101]`. */
  method Hash4(p: Poseidon, x1: Scalar, x2: Scalar, x3: Scalar, x4: Scalar) returns (r: Scalar)
    requires HashReady(p)
    ensures r == Permutation(p, [ZERO_CONST, x1, x2, x3, x4, PADDING_CONST])[1]
  {
    var input := [ZERO_CONST, x1, x2, x3, x4, PADDING_CONST];
    var output := Permute(p, input);
    r := output[1];
  }

  /** `Hasher::hash` for Poseidon is `hash_2`. */
  method Hash(p: Poseidon, xl: Scalar, xr: Scalar) returns (r: Scalar)
    requires HashReady(p)
    ensures r == Permutation(p, [ZERO_CONST, xl, xr, PADDING_CONST, ZERO_CONST, ZERO_CONST])[1]
  {
    r := Hash2(p, xl, xr);
  }


  /** The inputs `prover_constrain_inputs` lays out when `n` values are already committed: the four constants it commits, around `xl` and `xr`. */
  function ProverInputs(xl: LinearCombination, xr: LinearCombination, n: nat): seq<LinearCombination>
  {
    [FromVariable(Committed(n)), xl, xr, FromVariable(Committed(n + 1)), FromVariable(Committed(n + 2)), FromVariable(Committed(n + 3))]
  }

  /** The values `prover_constrain_inputs` commits, in commitment order. */
  const PROVER_CONSTANTS: seq<Scalar> := [ZERO_CONST, PADDING_CONST, ZERO_CONST, ZERO_CONST]

  /** Under an assignment that opens the commitments, the laid-out inputs are `[0, xl, xr, 101, 0, 0]`. */
  lemma ProverInputsOpen(xl: LinearCombination, xr: LinearCombination, committed: seq<Scalar>, a: Variable -> Scalar)
    requires Opens(committed + PROVER_CONSTANTS, a)
    ensures EvalAll(ProverInputs(xl, xr, |committed|), a) == [ZERO_CONST, Eval(xl, a), Eval(xr, a), PADDING_CONST, ZERO_CONST, ZERO_CONST]
  {
    var n := |committed|;
    var all := committed + PROVER_CONSTANTS;
    assert all[n] == ZERO_CONST && all[n + 1] == PADDING_CONST && all[n + 2] == ZERO_CONST && all[n + 3] == ZERO_CONST;
    assert a(Committed(n)) == ZERO_CONST && a(Committed(n + 1)) == PADDING_CONST;
    assert a(Committed(n + 2)) == ZERO_CONST && a(Committed(n + 3)) == ZERO_CONST;
    EvalFromVariable(Committed(n), a);
    EvalFromVariable(Committed(n + 1), a);
    EvalFromVariable(Committed(n + 2), a);
    EvalFromVariable(Committed(n + 3), a);
  }

  /** `prover_constrain_inputs`: commit the constant slots and lay out `[0, xl, xr, 101, 0, 0]`. */
  method ProverConstrainInputs(cs: ConstraintSystem, xl: LinearCombination, xr: LinearCombination)
    returns (inputs: seq<LinearCombination>)
    modifies cs
    ensures cs.committed == old(cs.committed) + PROVER_CONSTANTS
    ensures cs.gates == old(cs.gates)
    ensures inputs == ProverInputs(xl, xr, |old(cs.committed)|)
    ensures forall a :: Opens(cs.committed, a) ==>
      EvalAll(inputs, a) == [ZERO_CONST, Eval(xl, a), Eval(xr, a), PADDING_CONST, ZERO_CONST, ZERO_CONST]
  {
    var var1 := cs.Commit(ZERO_CONST);
    var var4 := cs.Commit(PADDING_CONST);
    var var5 := cs.Commit(ZERO_CONST);
    var var6 := cs.Commit(ZERO_CONST);
    inputs := [FromVariable(var1), xl, xr, FromVariable(var4), FromVariable(var5), FromVariable(var6)];
    forall a | Opens(cs.committed, a)
      ensures EvalAll(inputs, a) == [ZERO_CONST, Eval(xl, a), Eval(xr, a), PADDING_CONST, ZERO_CONST, ZERO_CONST]
    {
      ProverInputsOpen(xl, xr, old(cs.committed), a);
    }
  }

  /**
    `Hasher::constrain_prover`: under every assignment that opens the prover's
    commitments and satisfies the gates, the output evaluates to `hash_2` of
    the values of the two inputs.
   */
  method ConstrainProver(p: Poseidon, cs: ConstraintSystem, xl: LinearCombination, xr: LinearCombination)
    returns (out: LinearCombination)
    requires HashReady(p)
    modifies cs
    ensures cs.committed == old(cs.committed) + PROVER_CONSTANTS
    ensures cs.gates == PermuteSynthesis(p, old(cs.gates), ProverInputs(xl, xr, |old(cs.committed)|)).0
    ensures out == PermuteSynthesis(p, old(cs.gates), ProverInputs(xl, xr, |old(cs.committed)|)).1[1]
    ensures |cs.gates| == |old(cs.gates)| + 2 * SboxCount(p, 6, Total(p))
    ensures forall a :: Satisfies(cs.gates, a) && Opens(cs.committed, a) ==>
      Eval(out, a) == Permutation(p, [ZERO_CONST, Eval(xl, a), Eval(xr, a), PADDING_CONST, ZERO_CONST, ZERO_CONST])[1]
  {
    var inputs := ProverConstrainInputs(cs, xl, xr);
    out := Constrain(p, cs, inputs);
  }

  /**
    Completeness of `constrain_prover`: from any assignment that satisfies the
    earlier gates and opens the commitments, with `xl` and `xr` known, the
    prover's witness satisfies every gate, still opens the commitments, and
    makes the output `hash_2` of the values of `xl` and `xr`.
   */
  lemma ConstrainProverComplete(
    p: Poseidon, gates: seq<Gate>, committed: seq<Scalar>, xl: LinearCombination, xr: LinearCombination, a: Variable -> Scalar)
    requires HashReady(p)
    requires CausalFrom(gates, 0) && Satisfies(gates, a)
    requires LcBelow(xl, |gates|) && LcBelow(xr, |gates|)
    requires Opens(committed + PROVER_CONSTANTS, a)
    ensures Satisfies(PermuteSynthesis(p, gates, ProverInputs(xl, xr, |committed|)).0,
                      ProverWitness(p, gates, ProverInputs(xl, xr, |committed|), a))
    ensures Opens(committed + PROVER_CONSTANTS, ProverWitness(p, gates, ProverInputs(xl, xr, |committed|), a))
    ensures Eval(PermuteSynthesis(p, gates, ProverInputs(xl, xr, |committed|)).1[1], ProverWitness(p, gates, ProverInputs(xl, xr, |committed|), a))
      == Permutation(p, [ZERO_CONST, Eval(xl, a), Eval(xr, a), PADDING_CONST, ZERO_CONST, ZERO_CONST])[1]
  {
    var inputs := ProverInputs(xl, xr, |committed|);
    var w := ProverWitness(p, gates, inputs, a);
    assert AllBelow(inputs, |gates|);
    PermuteSynthesisComplete(p, gates, inputs, a);
    forall k | 0 <= k < |committed + PROVER_CONSTANTS| ensures w(Committed(k)) == (committed + PROVER_CONSTANTS)[k] {
      assert WireBelow(Committed(k), |gates|);
    }
    ProverInputsOpen(xl, xr, committed, a);
  }
}
