/** The Groth16 verification gadget: `verify_with_processed_vk`, `verify` and
    `verifier_size`.

    Verification first folds the public inputs into the commitment
    g_ic = gamma_abc[0] + sum_i gamma_abc[i + 1] * x[i], then runs one Miller
    loop over (A, B), (g_ic, -gamma), (C, -delta), one final exponentiation, and
    compares the result with the precomputed e(alpha, beta). Because gamma and
    delta are negated, this single product stands for Groth16's equation
    e(A, B) = e(alpha, beta) * e(g_ic, gamma) * e(C, delta). */
module Verifier {
  import opened Results
  import opened ModArith
  import opened Algebra
  import opened Backend
  import opened Keys
  import opened Allocation
  import opened Preparation

  function Min(a: int, b: int): int {
    if a < b then a else b
  }

  // ---------------------------------------------------------------------------
  // The public-input commitment

  /** The raw sum gamma_abc[1] * x[0] + ... + gamma_abc[k] * x[k - 1] of the first k input terms. */
  function InputSum(gammaAbc: seq<G1>, x: seq<seq<bool>>, k: nat): int
    requires k <= |x| && k < |gammaAbc|
  {
    if k == 0 then 0 else InputSum(gammaAbc, x, k - 1) + gammaAbc[k] * BitsValue(x[k - 1])
  }

  /** The commitment g_ic to the public inputs x, each read as a little-endian scalar. */
  function Commitment(gammaAbc: seq<G1>, x: seq<seq<bool>>): G1
    requires |gammaAbc| == |x| + 1
  {
    (gammaAbc[0] + InputSum(gammaAbc, x, |x|)) % R
  }

  /** The accumulator after the first k iterations of the loop over the public inputs. */
  function AccumulatePrefix(be: Backend, gammaAbc: seq<G1>, x: seq<seq<bool>>, k: nat): Result<G1>
    requires 0 < |gammaAbc| && k <= |x| && k < |gammaAbc|
  {
    if k == 0 then Success(gammaAbc[0])
    else
      var acc :- AccumulatePrefix(be, gammaAbc, x, k - 1);
      var bits :- ToBitsLe(be, x[k - 1]);
      var term :- ScalarMulLe(be, gammaAbc[k], bits);
      Success(AddG1(acc, term))
  }

  /** The g_ic block of `verify_with_processed_vk` with the length check as intended:
      exactly one public input per entry of gamma_abc after the first. */
  function Accumulate(be: Backend, gammaAbc: seq<G1>, x: seq<seq<bool>>): Outcome<G1> {
    if |gammaAbc| == 0 then Aborted(IndexOutOfBounds)
    else
      match AccumulatePrefix(be, gammaAbc, x, Min(|x|, |gammaAbc| - 1))
      case Failure(e) => Failed(e)
      case Success(g) => if |x| == |gammaAbc| - 1 then Done(g) else Aborted(LengthMismatch)
  }

  /** The g_ic block as written. `zip` takes the next public input before it finds gamma_abc
      exhausted, so when there are more inputs than terms one input is consumed and
      dropped before `public_inputs.next().is_none()` looks at the rest. */
  function AccumulateAsWritten(be: Backend, gammaAbc: seq<G1>, x: seq<seq<bool>>): Outcome<G1> {
    if |gammaAbc| == 0 then Aborted(IndexOutOfBounds)
    else
      var n := Min(|x|, |gammaAbc| - 1);
      var pulled := if |x| > n then n + 1 else n;
      match AccumulatePrefix(be, gammaAbc, x, n)
      case Failure(e) => Failed(e)
      case Success(g) => if n + 1 == |gammaAbc| && pulled == |x| then Done(g) else Aborted(LengthMismatch)
  }

  /** Once an iteration fails, the fold keeps that error. */
  lemma {:induction false} PrefixFailurePersists(be: Backend, gammaAbc: seq<G1>, x: seq<seq<bool>>, k: nat, n: nat)
    requires 0 < |gammaAbc| && k <= n <= |x| && n < |gammaAbc|
    requires AccumulatePrefix(be, gammaAbc, x, k).Failure?
    ensures AccumulatePrefix(be, gammaAbc, x, n) == AccumulatePrefix(be, gammaAbc, x, k)
    decreases n - k
  {
    if k < n {
      PrefixFailurePersists(be, gammaAbc, x, k, n - 1);
    }
  }

  /** The interface calls of the first k iterations of the input loop, in order. */
  function FoldOps(gammaAbc: seq<G1>, x: seq<seq<bool>>, k: nat): seq<Op>
    requires k <= |x| && k < |gammaAbc|
  {
    if k == 0 then [] else FoldOps(gammaAbc, x, k - 1) + [ToBitsOp(x[k - 1]), ScalarMulOp(gammaAbc[k], x[k - 1])]
  }

  /** The first k iterations fail exactly when one of their calls fails, and then with the
      error of the first failing call. */
  lemma {:induction false} PrefixFailsAtFirstFault(be: Backend, gammaAbc: seq<G1>, x: seq<seq<bool>>, k: nat)
    requires 0 < |gammaAbc| && k <= |x| && k < |gammaAbc|
    ensures AccumulatePrefix(be, gammaAbc, x, k).Success? <==> FirstFault(be, FoldOps(gammaAbc, x, k)).None?
    ensures (AccumulatePrefix(be, gammaAbc, x, k).Failure? ==>
               AccumulatePrefix(be, gammaAbc, x, k).error == FirstFault(be, FoldOps(gammaAbc, x, k)).value)
  {
    if k > 0 {
      PrefixFailsAtFirstFault(be, gammaAbc, x, k - 1);
      var toBits, mul := ToBitsOp(x[k - 1]), ScalarMulOp(gammaAbc[k], x[k - 1]);
      FirstFaultAppend(be, FoldOps(gammaAbc, x, k - 1), [toBits, mul]);
      FirstFaultCons(be, mul, []);
      FirstFaultCons(be, toBits, [mul]);
      assert [toBits] + [mul] == [toBits, mul];
    }
  }

  /** The fold computes gamma_abc[0] + sum of the first k terms, and cannot fail when
      nothing in the backend fails. */
  lemma {:induction false} PrefixIsLinearCombination(be: Backend, gammaAbc: seq<G1>, x: seq<seq<bool>>, k: nat)
    requires 0 < |gammaAbc| && k <= |x| && k < |gammaAbc|
    ensures (AccumulatePrefix(be, gammaAbc, x, k).Success? ==>
               AccumulatePrefix(be, gammaAbc, x, k).value == (gammaAbc[0] + InputSum(gammaAbc, x, k)) % R)
    ensures NoFaults(be) ==> AccumulatePrefix(be, gammaAbc, x, k).Success?
  {
    if k == 0 {
      ModOfRange(gammaAbc[0], R);
    } else {
      PrefixIsLinearCombination(be, gammaAbc, x, k - 1);
      if AccumulatePrefix(be, gammaAbc, x, k).Success? {
        var s := gammaAbc[0] + InputSum(gammaAbc, x, k - 1);
        var t := gammaAbc[k] * BitsValue(x[k - 1]);
        calc {
          AccumulatePrefix(be, gammaAbc, x, k).value;
          AddG1(s % R, t % R);
          (s % R + t % R) % R;
          { ModSum(s, t % R, R); }
          (s + t % R) % R;
          { ModSum(t, s, R); }
          (s + t) % R;
        }
      }
    }
  }

  /** The loop of `verify_with_processed_vk` with the intended length check. */
  method AccumulateInputs(be: Backend, gammaAbc: seq<G1>, x: seq<seq<bool>>) returns (out: Outcome<G1>)
    ensures out == Accumulate(be, gammaAbc, x)
  {
    if |gammaAbc| == 0 {
      return Aborted(IndexOutOfBounds);
    }
    var gIc := gammaAbc[0];
    var inputLen := 1;
    var i := 0;
    while i < |x| && inputLen < |gammaAbc|
      invariant 0 <= i <= |x| && inputLen == i + 1 <= |gammaAbc|
      invariant AccumulatePrefix(be, gammaAbc, x, i) == Success(gIc)
    {
      var bits := ToBitsLe(be, x[i]);
      if bits.Failure? {
        PrefixFailurePersists(be, gammaAbc, x, i + 1, Min(|x|, |gammaAbc| - 1));
        return Failed(bits.error);
      }
      var term := ScalarMulLe(be, gammaAbc[inputLen], bits.value);
      if term.Failure? {
        PrefixFailurePersists(be, gammaAbc, x, i + 1, Min(|x|, |gammaAbc| - 1));
        return Failed(term.error);
      }
      gIc := AddG1(gIc, term.value);
      inputLen := inputLen + 1;
      i := i + 1;
    }
    if inputLen == |gammaAbc| && i == |x| {
      return Done(gIc);
    }
    return Aborted(LengthMismatch);
  }

  /** The loop of `verify_with_processed_vk` exactly as written: the `zip` over
      `public_inputs.by_ref()` pulls an input before it looks at gamma_abc. */
  method AccumulateInputsAsWritten(be: Backend, gammaAbc: seq<G1>, x: seq<seq<bool>>) returns (out: Outcome<G1>)
    ensures out == AccumulateAsWritten(be, gammaAbc, x)
  {
    if |gammaAbc| == 0 {
      return Aborted(IndexOutOfBounds);
    }
    var gIc := gammaAbc[0];
    var inputLen := 1;
    var pulled := 0;  // inputs taken from the public-input iterator
    var zipping := true;
    while zipping
      invariant 0 <= pulled <= |x| && 1 <= inputLen <= |gammaAbc|
      invariant zipping ==> pulled + 1 == inputLen
      invariant !zipping ==> (pulled == |x| && inputLen == pulled + 1) || (pulled == inputLen == |gammaAbc|)
      invariant AccumulatePrefix(be, gammaAbc, x, inputLen - 1) == Success(gIc)
      decreases |x| - pulled + (if zipping then 1 else 0)
    {
      if pulled == |x| {
        zipping := false;  // the inputs are exhausted
      } else {
        var input := x[pulled];
        pulled := pulled + 1;
        if inputLen == |gammaAbc| {
          zipping := false;  // gamma_abc is exhausted, after `input` was taken
        } else {
          var bits := ToBitsLe(be, input);
          if bits.Failure? {
            PrefixFailurePersists(be, gammaAbc, x, inputLen, Min(|x|, |gammaAbc| - 1));
            return Failed(bits.error);
          }
          var term := ScalarMulLe(be, gammaAbc[inputLen], bits.value);
          if term.Failure? {
            PrefixFailurePersists(be, gammaAbc, x, inputLen, Min(|x|, |gammaAbc| - 1));
            return Failed(term.error);
          }
          gIc := AddG1(gIc, term.value);
          inputLen := inputLen + 1;
        }
      }
    }
    if inputLen == |gammaAbc| && pulled == |x| {
      return Done(gIc);
    }
    return Aborted(LengthMismatch);
  }

  /** Without faults the corrected fold succeeds exactly when there is one input per
      entry of gamma_abc after the first, and then it yields the commitment; whenever it
      yields a value at all, that value is the commitment. */
  lemma AccumulateIsCommitment(be: Backend, gammaAbc: seq<G1>, x: seq<seq<bool>>)
    ensures Accumulate(be, gammaAbc, x).Done? ==> |gammaAbc| == |x| + 1
    ensures Accumulate(be, gammaAbc, x).Done? ==> Accumulate(be, gammaAbc, x).value == Commitment(gammaAbc, x)
    ensures NoFaults(be) ==> (Accumulate(be, gammaAbc, x).Done? <==> |gammaAbc| == |x| + 1)
    ensures (NoFaults(be) && |gammaAbc| != |x| + 1 ==>
               Accumulate(be, gammaAbc, x) == Aborted(if |gammaAbc| == 0 then IndexOutOfBounds else LengthMismatch))
    ensures (Accumulate(be, gammaAbc, x).Failed? ==>
               0 < |gammaAbc| && FirstFault(be, FoldOps(gammaAbc, x, Min(|x|, |gammaAbc| - 1))) == Some(Accumulate(be, gammaAbc, x).error))
  {
    if 0 < |gammaAbc| {
      PrefixIsLinearCombination(be, gammaAbc, x, Min(|x|, |gammaAbc| - 1));
      PrefixFailsAtFirstFault(be, gammaAbc, x, Min(|x|, |gammaAbc| - 1));
    }
  }

  /** gamma_abc[1] * s[0] + ... + gamma_abc[k] * s[k - 1] for public inputs given as scalars. */
  function ScalarSum(gammaAbc: seq<G1>, s: seq<nat>, k: nat): int
    requires k <= |s| && k < |gammaAbc|
  {
    if k == 0 then 0 else ScalarSum(gammaAbc, s, k - 1) + gammaAbc[k] * s[k - 1]
  }

  lemma {:induction false} InputSumOfScalars(gammaAbc: seq<G1>, s: seq<nat>, x: seq<seq<bool>>, w: nat, k: nat)
    requires |gammaAbc| == |s| + 1 && |x| == |s| && k <= |s|
    requires forall i :: 0 <= i < |s| ==> s[i] < Pow2(w) && x[i] == BitsLe(s[i], w)
    ensures InputSum(gammaAbc, x, k) == ScalarSum(gammaAbc, s, k)
  {
    if k > 0 {
      InputSumOfScalars(gammaAbc, s, x, w, k - 1);
      BitsLeRoundTrip(s[k - 1], w);
    }
  }

  /** Public inputs given as the w-bit little-endian decompositions of scalars s commit to
      gamma_abc[0] + sum of gamma_abc[i + 1] * s[i]: `scalar_mul_le` reads the bits back
      as the scalar they decompose. */
  lemma CommitmentOfScalarInputs(gammaAbc: seq<G1>, s: seq<nat>, x: seq<seq<bool>>, w: nat)
    requires |gammaAbc| == |s| + 1 && |x| == |s|
    requires forall i :: 0 <= i < |s| ==> s[i] < Pow2(w) && x[i] == BitsLe(s[i], w)
    ensures Commitment(gammaAbc, x) == (gammaAbc[0] + ScalarSum(gammaAbc, s, |s|)) % R
  {
    InputSumOfScalars(gammaAbc, s, x, w, |s|);
  }

  /** Without faults the as-written fold accepts whenever the inputs number |gamma_abc| - 1
      or |gamma_abc|: one surplus input passes the length check. */
  lemma AsWrittenAcceptsOneSurplusInput(be: Backend, gammaAbc: seq<G1>, x: seq<seq<bool>>)
    requires NoFaults(be)
    ensures AccumulateAsWritten(be, gammaAbc, x).Done? <==> 0 < |gammaAbc| && |gammaAbc| - 1 <= |x| <= |gammaAbc|
    ensures (AccumulateAsWritten(be, gammaAbc, x).Done? ==>
               AccumulateAsWritten(be, gammaAbc, x).value == Commitment(gammaAbc, x[..|gammaAbc| - 1]))
  {
    if 0 < |gammaAbc| {
      var n := Min(|x|, |gammaAbc| - 1);
      PrefixIsLinearCombination(be, gammaAbc, x, n);
      if n == |gammaAbc| - 1 {
        PrefixOnlyReadsItsInputs(be, gammaAbc, x, x[..n], n);
        PrefixIsLinearCombination(be, gammaAbc, x[..n], n);
      }
    }
  }

  /** The fold over the first k inputs looks at no other input. */
  lemma {:induction false} PrefixOnlyReadsItsInputs(be: Backend, gammaAbc: seq<G1>, x: seq<seq<bool>>, y: seq<seq<bool>>, k: nat)
    requires 0 < |gammaAbc| && k <= |x| && k <= |y| && k < |gammaAbc|
    requires x[..k] == y[..k]
    ensures AccumulatePrefix(be, gammaAbc, x, k) == AccumulatePrefix(be, gammaAbc, y, k)
  {
    if k > 0 {
      assert x[k - 1] == x[..k][k - 1] == y[..k][k - 1] == y[k - 1];
      assert x[..k - 1] == x[..k][..k - 1] && y[..k - 1] == y[..k][..k - 1];
      PrefixOnlyReadsItsInputs(be, gammaAbc, x, y, k - 1);
    }
  }

  /** The surplus input as a concrete case: with gamma_abc = [g0, g1], the inputs [x0, x1]
      are accepted as written, with the same commitment as [x0] alone, while the corrected
      check rejects them. */
  lemma SurplusInputIgnored(be: Backend, g0: G1, g1: G1, x0: seq<bool>, x1: seq<bool>)
    requires NoFaults(be)
    ensures AccumulateAsWritten(be, [g0, g1], [x0, x1]) == AccumulateAsWritten(be, [g0, g1], [x0])
    ensures AccumulateAsWritten(be, [g0, g1], [x0]) == Done(AddG1(g0, ScalarMulBits(g1, x0)))
    ensures Accumulate(be, [g0, g1], [x0, x1]) == Aborted(LengthMismatch)
  {
    PrefixOnlyReadsItsInputs(be, [g0, g1], [x0, x1], [x0], 1);
    assert Fault(be, ToBitsOp(x0)).None? && Fault(be, ScalarMulOp(g1, x0)).None?;
  }

  // ---------------------------------------------------------------------------
  // The pairing check

  /** The pairing of a G1 point with a G2 point. */
  function Pair(p: G1, q: G2): GT {
    PairingValue(G1Prepared(p), G2Prepared(q))
  }

  /** Groth16's verification equation e(A, B) = e(alpha, beta) * e(IC, gamma) * e(C, delta),
      IC being the commitment to the public inputs. */
  predicate Groth16Equation(vk: VerifyingKeyVar, x: seq<seq<bool>>, proof: ProofVar)
    requires |vk.gammaAbc| == |x| + 1
  {
    Pair(proof.a, proof.b)
      == GtMul(GtMul(Pair(vk.alpha, vk.beta), Pair(Commitment(vk.gammaAbc, x), vk.gamma)), Pair(proof.c, vk.delta))
  }

  /** The Miller loop's left and right arguments. */
  function MillerLeft(gIc: G1, proof: ProofVar): seq<G1Prepared> {
    [G1Prepared(proof.a), G1Prepared(gIc), G1Prepared(proof.c)]
  }

  function MillerRight(pvk: PreparedVerifyingKeyVar, proof: ProofVar): seq<G2Prepared> {
    [G2Prepared(proof.b), pvk.gammaNegPc, pvk.deltaNegPc]
  }

  /** The interface calls of the pairing check, in order. */
  function EquationOps(pvk: PreparedVerifyingKeyVar, gIc: G1, proof: ProofVar): seq<Op> {
    var f := MillerValue(MillerLeft(gIc, proof), MillerRight(pvk, proof));
    [PrepareG1Op(proof.a), PrepareG2Op(proof.b), PrepareG1Op(proof.c), PrepareG1Op(gIc),
     MillerLoopOp(MillerLeft(gIc, proof), MillerRight(pvk, proof)), FinalExpOp(f), IsEqOp(FinalExpValue(f), pvk.alphaBeta)]
  }

  /** The `test_exp` block and the final comparison of `verify_with_processed_vk`: the
      result says whether e(A, B) * e(g_ic, -gamma) * e(C, -delta) equals e(alpha, beta). */
  function CheckEquation(be: Backend, pvk: PreparedVerifyingKeyVar, gIc: G1, proof: ProofVar): (r: Result<bool>)
    ensures r.Success? <==> FirstFault(be, EquationOps(pvk, gIc, proof)).None?
    ensures r.Failure? ==> r.error == FirstFault(be, EquationOps(pvk, gIc, proof)).value
    ensures r.Success? ==> (r.value <==> PairingProduct(MillerLeft(gIc, proof), MillerRight(pvk, proof)) == pvk.alphaBeta)
  {
    var ops := EquationOps(pvk, gIc, proof);
    FirstFaultCons(be, ops[6], []);
    FirstFaultCons(be, ops[5], ops[6..]);
    FirstFaultCons(be, ops[4], ops[5..]);
    FirstFaultCons(be, ops[3], ops[4..]);
    FirstFaultCons(be, ops[2], ops[3..]);
    FirstFaultCons(be, ops[1], ops[2..]);
    FirstFaultCons(be, ops[0], ops[1..]);
    assert ops[6..] == [ops[6]] && ops[5..] == [ops[5]] + ops[6..] && ops[4..] == [ops[4]] + ops[5..];
    assert ops[3..] == [ops[3]] + ops[4..] && ops[2..] == [ops[2]] + ops[3..] && ops[1..] == [ops[1]] + ops[2..];
    assert ops == [ops[0]] + ops[1..];
    MultiPairing(MillerLeft(gIc, proof), MillerRight(pvk, proof));
    var aPc :- PrepareG1(be, proof.a);
    var bPc :- PrepareG2(be, proof.b);
    var cPc :- PrepareG1(be, proof.c);
    var gPc :- PrepareG1(be, gIc);
    var testExp :- MillerLoop(be, [aPc, gPc, cPc], [bPc, pvk.gammaNegPc, pvk.deltaNegPc]);
    var test :- FinalExponentiation(be, testExp);
    IsEq(be, test, pvk.alphaBeta)
  }

  /** The product of three pairings, unfolded. */
  lemma PairingProductOfThree(p0: G1Prepared, p1: G1Prepared, p2: G1Prepared, q0: G2Prepared, q1: G2Prepared, q2: G2Prepared)
    ensures PairingProduct([p0, p1, p2], [q0, q1, q2])
         == GtMul(GtMul(PairingValue(p0, q0), PairingValue(p1, q1)), PairingValue(p2, q2))
  {
    var ps, qs := [p0, p1, p2], [q0, q1, q2];
    assert ps[..2] == [p0, p1] && [p0, p1][..1] == [p0] && [p0][..0] == [];
    assert qs[..2] == [q0, q1] && [q0, q1][..1] == [q0] && [q0][..0] == [];
    ModOfRange(PairingValue(p0, q0), R);
    assert PairingProduct([p0], [q0]) == PairingValue(p0, q0);
    assert PairingProduct([p0, p1], [q0, q1]) == GtMul(PairingValue(p0, q0), PairingValue(p1, q1));
  }

  /** With gamma and delta negated, the single product check is Groth16's equation. */
  lemma NegatedProductIsGroth16(vk: VerifyingKeyVar, x: seq<seq<bool>>, proof: ProofVar)
    requires |vk.gammaAbc| == |x| + 1
    ensures (PairingProduct(MillerLeft(Commitment(vk.gammaAbc, x), proof),
                            [G2Prepared(proof.b), G2Prepared(NegateG2(vk.gamma)), G2Prepared(NegateG2(vk.delta))])
               == Pair(vk.alpha, vk.beta))
        <==> Groth16Equation(vk, x, proof)
  {
    var ic := Commitment(vk.gammaAbc, x);
    PairingProductOfThree(G1Prepared(proof.a), G1Prepared(ic), G1Prepared(proof.c),
                          G2Prepared(proof.b), G2Prepared(NegateG2(vk.gamma)), G2Prepared(NegateG2(vk.delta)));
    PairingNegateRight(ic, vk.gamma);
    PairingNegateRight(proof.c, vk.delta);
    GtRearrange(Pair(proof.a, proof.b), Pair(ic, vk.gamma), Pair(proof.c, vk.delta), Pair(vk.alpha, vk.beta));
  }

  // ---------------------------------------------------------------------------
  // Verification

  /** What `verify_with_processed_vk` returns. */
  function ProcessedVerdict(be: Backend, pvk: PreparedVerifyingKeyVar, x: seq<seq<bool>>, proof: ProofVar): Outcome<bool> {
    match Accumulate(be, pvk.gammaAbc, x)
    case Done(gIc) => Lift(CheckEquation(be, pvk, gIc, proof))
    case Failed(e) => Failed(e)
    case Aborted(a) => Aborted(a)
  }

  /** `verify_with_processed_vk`. */
  method VerifyWithProcessedVk(be: Backend, pvk: PreparedVerifyingKeyVar, x: seq<seq<bool>>, proof: ProofVar)
    returns (out: Outcome<bool>)
    ensures out == ProcessedVerdict(be, pvk, x, proof)
  {
    var gIc := AccumulateInputs(be, pvk.gammaAbc, x);
    match gIc {
      case Done(g) =>
        out := Lift(CheckEquation(be, pvk, g, proof));
      case Failed(e) =>
        out := Failed(e);
      case Aborted(a) =>
        out := Aborted(a);
    }
  }

  /** What `verify` returns: prepare the key, then verify with the prepared key. */
  function Verdict(be: Backend, vk: VerifyingKeyVar, x: seq<seq<bool>>, proof: ProofVar): Outcome<bool> {
    match Prepare(be, vk)
    case Failure(e) => Failed(e)
    case Success(pvk) => ProcessedVerdict(be, pvk, x, proof)
  }

  /** `verify`. */
  method Verify(be: Backend, vk: VerifyingKeyVar, x: seq<seq<bool>>, proof: ProofVar) returns (out: Outcome<bool>)
    ensures out == Verdict(be, vk, x, proof)
  {
    var pvk := Prepare(be, vk);
    if pvk.Failure? {
      return Failed(pvk.error);
    }
    out := VerifyWithProcessedVk(be, pvk.value, x, proof);
  }

  /** Soundness and completeness of `verify` with respect to Groth16's equation: a verdict,
      when one is returned, is whether the equation holds for the commitment to exactly
      |gamma_abc| - 1 inputs; without faults a verdict is returned exactly for that many
      inputs, and otherwise the gadget panics. */
  lemma VerifyDecidesGroth16(be: Backend, vk: VerifyingKeyVar, x: seq<seq<bool>>, proof: ProofVar)
    ensures Verdict(be, vk, x, proof).Done? ==> |vk.gammaAbc| == |x| + 1
    ensures (Verdict(be, vk, x, proof).Done? ==>
               (Verdict(be, vk, x, proof).value <==> Groth16Equation(vk, x, proof)))
    ensures NoFaults(be) ==> (Verdict(be, vk, x, proof).Done? <==> |vk.gammaAbc| == |x| + 1)
    ensures (NoFaults(be) && |vk.gammaAbc| != |x| + 1 ==>
               Verdict(be, vk, x, proof) == Aborted(if |vk.gammaAbc| == 0 then IndexOutOfBounds else LengthMismatch))
  {
    var prepared := Prepare(be, vk);
    if NoFaults(be) {
      FirstFaultSome(be, PrepareOps(vk));
    }
    if prepared.Success? {
      var pvk := prepared.value;
      AccumulateIsCommitment(be, pvk.gammaAbc, x);
      if Accumulate(be, pvk.gammaAbc, x).Done? {
        var ic := Accumulate(be, pvk.gammaAbc, x).value;
        NegatedProductIsGroth16(vk, x, proof);
        assert MillerRight(pvk, proof)
            == [G2Prepared(proof.b), G2Prepared(NegateG2(vk.gamma)), G2Prepared(NegateG2(vk.delta))];
        if NoFaults(be) {
          FirstFaultSome(be, EquationOps(pvk, ic, proof));
        }
      }
    }
  }

  /** Verifying with an allocated key and verifying with the allocated natively processed
      key give the same outcome. */
  lemma {:induction false} VerifyAgreesWithProcessedKey(
    be: Backend, vk: VerifyingKey, vkMode: AllocationMode, pvkMode: AllocationMode, x: seq<seq<bool>>, proof: ProofVar)
    requires NoFaults(be)
    ensures NewVerifyingKey(be, Success(vk), vkMode).Success?
    ensures NewPreparedVerifyingKey(be, Success(ProcessVk(vk)), pvkMode).Success?
    ensures Verdict(be, NewVerifyingKey(be, Success(vk), vkMode).value.vars, x, proof)
         == ProcessedVerdict(be, NewPreparedVerifyingKey(be, Success(ProcessVk(vk)), pvkMode).value.vars, x, proof)
  {
    PrepareAgreesWithNativeProcessing(be, vk, vkMode, pvkMode);
  }

  /** `verifier_size`: the length of gamma_abc. */
  function VerifierSize(vk: VerifyingKey): nat {
    |vk.gammaAbc|
  }

  /** `verifier_size` is one more than the number of public inputs `verify` accepts for the
      allocated key. */
  lemma VerifierSizeCountsInputs(be: Backend, vk: VerifyingKey, mode: AllocationMode, x: seq<seq<bool>>, proof: ProofVar)
    requires NoFaults(be)
    ensures NewVerifyingKey(be, Success(vk), mode).Success?
    ensures Verdict(be, NewVerifyingKey(be, Success(vk), mode).value.vars, x, proof).Done? <==> VerifierSize(vk) == |x| + 1
  {
    FirstFaultSome(be, VkAllocOps(vk, mode, true));
    VerifyDecidesGroth16(be, NewVerifyingKey(be, Success(vk), mode).value.vars, x, proof);
  }
}
