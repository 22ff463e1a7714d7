/** Lifting native proofs and keys into circuit variables (`AllocVar::new_variable`
    and the `*_unchecked` allocators of the verifier gadget).

    The producer closure `f` is called once, first; its failure is returned
    before anything is allocated. Otherwise every element is allocated, in the
    native struct's field order, under the requested mode, and the result
    records the allocations made. */
module Allocation {
  import opened Results
  import opened Algebra
  import opened Backend
  import opened Keys

  /** Variables together with the allocations that created them. */
  datatype Allocated<V> = Allocated(vars: V, log: seq<Allocation>)

  /** The calls that allocate the G1 points `gs`, in order. */
  function AllocG1Ops(gs: seq<G1>, mode: AllocationMode, check: bool): (ops: seq<Op>)
    ensures |ops| == |gs|
    ensures forall i :: 0 <= i < |gs| ==> ops[i] == AllocOp(G1Slot, gs[i], mode, check)
  {
    if gs == [] then [] else AllocG1Ops(gs[..|gs| - 1], mode, check) + [AllocOp(G1Slot, gs[|gs| - 1], mode, check)]
  }

  /** Allocates a vector of G1 points left to right; the first failure aborts the rest
      (`map(..).collect::<Result<Vec<_>, _>>()` and `Vec::new_variable`). */
  function AllocG1s(be: Backend, gs: seq<G1>, mode: AllocationMode, check: bool): (r: Result<Allocated<seq<G1>>>)
    ensures r.Success? <==> FirstFault(be, AllocG1Ops(gs, mode, check)).None?
    ensures r.Failure? ==> r.error == FirstFault(be, AllocG1Ops(gs, mode, check)).value
    ensures r.Success? ==> r.value.vars == gs
    ensures r.Success? ==> (|r.value.log| == |gs|
                        && forall i :: 0 <= i < |gs| ==> r.value.log[i] == Allocation(G1Slot, mode, check))
  {
    if gs == [] then Success(Allocated([], []))
    else
      var last := gs[|gs| - 1];
      FirstFaultAppend(be, AllocG1Ops(gs[..|gs| - 1], mode, check), [AllocOp(G1Slot, last, mode, check)]);
      var init :- AllocG1s(be, gs[..|gs| - 1], mode, check);
      var a :- AllocElement(be, G1Slot, last, mode, check);
      assert gs == gs[..|gs| - 1] + [last];
      Success(Allocated(init.vars + [last], init.log + [a]))
  }

  /** The calls that allocate a proof's elements. */
  function ProofAllocOps(proof: Proof, mode: AllocationMode, check: bool): seq<Op> {
    [AllocOp(G1Slot, proof.a, mode, check), AllocOp(G2Slot, proof.b, mode, check), AllocOp(G1Slot, proof.c, mode, check)]
  }

  /** Allocates A, B and C in order, through the checked allocator when `check` holds. */
  function LiftProof(be: Backend, f: Result<Proof>, mode: AllocationMode, check: bool): (r: Result<Allocated<ProofVar>>)
    ensures f.Failure? ==> r == Failure(f.error)
    ensures f.Success? ==> (r.Success? <==> FirstFault(be, ProofAllocOps(f.value, mode, check)).None?)
    ensures f.Success? && r.Failure? ==> r.error == FirstFault(be, ProofAllocOps(f.value, mode, check)).value
    ensures r.Success? ==> r.value.vars == ProofVar(f.value.a, f.value.b, f.value.c)
    ensures r.Success? ==> r.value.log == [Allocation(G1Slot, mode, check), Allocation(G2Slot, mode, check), Allocation(G1Slot, mode, check)]
  {
    var proof :- f;
    var opA, opB, opC := AllocOp(G1Slot, proof.a, mode, check), AllocOp(G2Slot, proof.b, mode, check), AllocOp(G1Slot, proof.c, mode, check);
    FirstFaultCons(be, opC, []);
    FirstFaultCons(be, opB, [opC]);
    FirstFaultCons(be, opA, [opB, opC]);
    assert [opA] + ([opB] + [opC]) == ProofAllocOps(proof, mode, check);
    var la :- AllocElement(be, G1Slot, proof.a, mode, check);
    var lb :- AllocElement(be, G2Slot, proof.b, mode, check);
    var lc :- AllocElement(be, G1Slot, proof.c, mode, check);
    Success(Allocated(ProofVar(proof.a, proof.b, proof.c), [la, lb, lc]))
  }

  /** `Groth16VerifierGadget::new_proof_unchecked`. */
  function NewProofUnchecked(be: Backend, f: Result<Proof>, mode: AllocationMode): (r: Result<Allocated<ProofVar>>)
    ensures f.Failure? ==> r == Failure(f.error)
    ensures f.Success? ==> (r.Success? <==> FirstFault(be, ProofAllocOps(f.value, mode, false)).None?)
    ensures f.Success? && r.Failure? ==> r.error == FirstFault(be, ProofAllocOps(f.value, mode, false)).value
    ensures r.Success? ==> r.value.vars == ProofVar(f.value.a, f.value.b, f.value.c)
    ensures r.Success? ==> r.value.log == [Allocation(G1Slot, mode, false), Allocation(G2Slot, mode, false), Allocation(G1Slot, mode, false)]
  {
    LiftProof(be, f, mode, false)
  }

  /** `ProofVar::new_variable`: the same, with the prime-order check enforced. */
  function NewProof(be: Backend, f: Result<Proof>, mode: AllocationMode): (r: Result<Allocated<ProofVar>>)
    ensures f.Failure? ==> r == Failure(f.error)
    ensures f.Success? ==> (r.Success? <==> FirstFault(be, ProofAllocOps(f.value, mode, true)).None?)
    ensures f.Success? && r.Failure? ==> r.error == FirstFault(be, ProofAllocOps(f.value, mode, true)).value
    ensures r.Success? ==> r.value.vars == ProofVar(f.value.a, f.value.b, f.value.c)
    ensures r.Success? ==> r.value.log == [Allocation(G1Slot, mode, true), Allocation(G2Slot, mode, true), Allocation(G1Slot, mode, true)]
  {
    LiftProof(be, f, mode, true)
  }

  /** The calls that allocate a verifying key's elements. */
  function VkAllocOps(vk: VerifyingKey, mode: AllocationMode, check: bool): seq<Op> {
    [AllocOp(G1Slot, vk.alpha, mode, check), AllocOp(G2Slot, vk.beta, mode, check),
     AllocOp(G2Slot, vk.gamma, mode, check), AllocOp(G2Slot, vk.delta, mode, check)]
    + AllocG1Ops(vk.gammaAbc, mode, check)
  }

  /** The allocations a verifying key with `n` public-input terms makes. */
  function VkLog(n: nat, mode: AllocationMode, check: bool): (log: seq<Allocation>)
    ensures |log| == 4 + n
  {
    [Allocation(G1Slot, mode, check), Allocation(G2Slot, mode, check),
     Allocation(G2Slot, mode, check), Allocation(G2Slot, mode, check)]
    + seq(n, _ => Allocation(G1Slot, mode, check))
  }

  function LiftVerifyingKey(be: Backend, f: Result<VerifyingKey>, mode: AllocationMode, check: bool)
    : (r: Result<Allocated<VerifyingKeyVar>>)
    ensures f.Failure? ==> r == Failure(f.error)
    ensures f.Success? ==> (r.Success? <==> FirstFault(be, VkAllocOps(f.value, mode, check)).None?)
    ensures f.Success? && r.Failure? ==> r.error == FirstFault(be, VkAllocOps(f.value, mode, check)).value
    ensures r.Success? ==> r.value.vars == VerifyingKeyVar(f.value.alpha, f.value.beta, f.value.gamma, f.value.delta, f.value.gammaAbc)
    ensures r.Success? ==> r.value.log == VkLog(|f.value.gammaAbc|, mode, check)
  {
    var vk :- f;
    var op1, op2 := AllocOp(G1Slot, vk.alpha, mode, check), AllocOp(G2Slot, vk.beta, mode, check);
    var op3, op4 := AllocOp(G2Slot, vk.gamma, mode, check), AllocOp(G2Slot, vk.delta, mode, check);
    var tail := AllocG1Ops(vk.gammaAbc, mode, check);
    FirstFaultCons(be, op4, tail);
    FirstFaultCons(be, op3, [op4] + tail);
    FirstFaultCons(be, op2, [op3] + ([op4] + tail));
    FirstFaultCons(be, op1, [op2] + ([op3] + ([op4] + tail)));
    assert [op1] + ([op2] + ([op3] + ([op4] + tail))) == VkAllocOps(vk, mode, check);
    var l1 :- AllocElement(be, G1Slot, vk.alpha, mode, check);
    var l2 :- AllocElement(be, G2Slot, vk.beta, mode, check);
    var l3 :- AllocElement(be, G2Slot, vk.gamma, mode, check);
    var l4 :- AllocElement(be, G2Slot, vk.delta, mode, check);
    var abc :- AllocG1s(be, vk.gammaAbc, mode, check);
    Success(Allocated(VerifyingKeyVar(vk.alpha, vk.beta, vk.gamma, vk.delta, abc.vars), [l1, l2, l3, l4] + abc.log))
  }

  /** `Groth16VerifierGadget::new_verification_key_unchecked`. */
  function NewVerificationKeyUnchecked(be: Backend, f: Result<VerifyingKey>, mode: AllocationMode)
    : (r: Result<Allocated<VerifyingKeyVar>>)
    ensures f.Failure? ==> r == Failure(f.error)
    ensures f.Success? ==> (r.Success? <==> FirstFault(be, VkAllocOps(f.value, mode, false)).None?)
    ensures f.Success? && r.Failure? ==> r.error == FirstFault(be, VkAllocOps(f.value, mode, false)).value
    ensures r.Success? ==> r.value.vars == VerifyingKeyVar(f.value.alpha, f.value.beta, f.value.gamma, f.value.delta, f.value.gammaAbc)
    ensures r.Success? ==> r.value.log == VkLog(|f.value.gammaAbc|, mode, false)
  {
    LiftVerifyingKey(be, f, mode, false)
  }

  /** `VerifyingKeyVar::new_variable`. */
  function NewVerifyingKey(be: Backend, f: Result<VerifyingKey>, mode: AllocationMode)
    : (r: Result<Allocated<VerifyingKeyVar>>)
    ensures f.Failure? ==> r == Failure(f.error)
    ensures f.Success? ==> (r.Success? <==> FirstFault(be, VkAllocOps(f.value, mode, true)).None?)
    ensures f.Success? && r.Failure? ==> r.error == FirstFault(be, VkAllocOps(f.value, mode, true)).value
    ensures r.Success? ==> r.value.vars == VerifyingKeyVar(f.value.alpha, f.value.beta, f.value.gamma, f.value.delta, f.value.gammaAbc)
    ensures r.Success? ==> r.value.log == VkLog(|f.value.gammaAbc|, mode, true)
  {
    LiftVerifyingKey(be, f, mode, true)
  }

  /** The calls that allocate a prepared key's elements: e(alpha, beta), the two prepared
      negations, then gamma_abc, all through the checked allocator. */
  function PvkAllocOps(pvk: PreparedVerifyingKey, mode: AllocationMode): seq<Op> {
    [AllocOp(GTSlot, pvk.alphaBeta, mode, true), AllocOp(G2PreparedSlot, pvk.gammaNegPc.point, mode, true),
     AllocOp(G2PreparedSlot, pvk.deltaNegPc.point, mode, true)]
    + AllocG1Ops(pvk.vk.gammaAbc, mode, true)
  }

  /** `PreparedVerifyingKeyVar::new_variable`: always through the checked allocator. */
  function NewPreparedVerifyingKey(be: Backend, f: Result<PreparedVerifyingKey>, mode: AllocationMode)
    : (r: Result<Allocated<PreparedVerifyingKeyVar>>)
    ensures f.Failure? ==> r == Failure(f.error)
    ensures f.Success? ==> (r.Success? <==> FirstFault(be, PvkAllocOps(f.value, mode)).None?)
    ensures f.Success? && r.Failure? ==> r.error == FirstFault(be, PvkAllocOps(f.value, mode)).value
    ensures f.Success? && NoFaults(be) ==> r.Success?
    ensures r.Success? ==> r.value.vars == PreparedVerifyingKeyVar(
      f.value.alphaBeta, f.value.gammaNegPc, f.value.deltaNegPc, f.value.vk.gammaAbc)
    ensures r.Success? ==> (|r.value.log| == 3 + |f.value.vk.gammaAbc|
                        && r.value.log[..3] == [Allocation(GTSlot, mode, true), Allocation(G2PreparedSlot, mode, true), Allocation(G2PreparedSlot, mode, true)]
                        && forall i :: 3 <= i < |r.value.log| ==> r.value.log[i] == Allocation(G1Slot, mode, true))
  {
    var pvk :- f;
    var op1, op2 := AllocOp(GTSlot, pvk.alphaBeta, mode, true), AllocOp(G2PreparedSlot, pvk.gammaNegPc.point, mode, true);
    var op3 := AllocOp(G2PreparedSlot, pvk.deltaNegPc.point, mode, true);
    var tail := AllocG1Ops(pvk.vk.gammaAbc, mode, true);
    FirstFaultCons(be, op3, tail);
    FirstFaultCons(be, op2, [op3] + tail);
    FirstFaultCons(be, op1, [op2] + ([op3] + tail));
    assert [op1] + ([op2] + ([op3] + tail)) == PvkAllocOps(pvk, mode);
    FirstFaultSome(be, PvkAllocOps(pvk, mode));
    var l1 :- AllocElement(be, GTSlot, pvk.alphaBeta, mode, true);
    var l2 :- AllocElement(be, G2PreparedSlot, pvk.gammaNegPc.point, mode, true);
    var l3 :- AllocElement(be, G2PreparedSlot, pvk.deltaNegPc.point, mode, true);
    var abc :- AllocG1s(be, pvk.vk.gammaAbc, mode, true);
    Success(Allocated(PreparedVerifyingKeyVar(pvk.alphaBeta, pvk.gammaNegPc, pvk.deltaNegPc, abc.vars), [l1, l2, l3] + abc.log))
  }

  // ---------------------------------------------------------------------------
  // Checked and unchecked allocation

  /** The same allocations with the prime-order check flag cleared. */
  function WithoutCheck(log: seq<Allocation>): (r: seq<Allocation>)
    ensures |r| == |log|
    ensures forall i :: 0 <= i < |log| ==> r[i] == log[i].(primeOrderChecked := false)
  {
    seq(|log|, i requires 0 <= i < |log| => log[i].(primeOrderChecked := false))
  }

  /** When nothing fails, the unchecked proof allocator yields the same variables as the
      checked one and the same allocations, only without the prime-order checks. */
  lemma UncheckedProofSkipsOnlySubgroupChecks(be: Backend, proof: Proof, mode: AllocationMode)
    requires NoFaults(be)
    ensures NewProofUnchecked(be, Success(proof), mode).Success?
    ensures NewProof(be, Success(proof), mode).Success?
    ensures NewProofUnchecked(be, Success(proof), mode).value.vars == NewProof(be, Success(proof), mode).value.vars
    ensures NewProofUnchecked(be, Success(proof), mode).value.log == WithoutCheck(NewProof(be, Success(proof), mode).value.log)
  {
    var ops := ProofAllocOps(proof, mode, true);
    var ops' := ProofAllocOps(proof, mode, false);
    FirstFaultSome(be, ops);
    FirstFaultSome(be, ops');
  }

  /** When nothing fails, the unchecked key allocator yields the same variables as the
      checked one and the same allocations, only without the prime-order checks. */
  lemma UncheckedKeySkipsOnlySubgroupChecks(be: Backend, vk: VerifyingKey, mode: AllocationMode)
    requires NoFaults(be)
    ensures NewVerificationKeyUnchecked(be, Success(vk), mode).Success?
    ensures NewVerifyingKey(be, Success(vk), mode).Success?
    ensures NewVerificationKeyUnchecked(be, Success(vk), mode).value.vars == NewVerifyingKey(be, Success(vk), mode).value.vars
    ensures NewVerificationKeyUnchecked(be, Success(vk), mode).value.log == WithoutCheck(NewVerifyingKey(be, Success(vk), mode).value.log)
  {
    FirstFaultSome(be, VkAllocOps(vk, mode, true));
    FirstFaultSome(be, VkAllocOps(vk, mode, false));
    var checked := NewVerifyingKey(be, Success(vk), mode).value.log;
    var unchecked := NewVerificationKeyUnchecked(be, Success(vk), mode).value.log;
    assert unchecked == WithoutCheck(checked) by {
      forall i | 0 <= i < |checked|
        ensures unchecked[i] == WithoutCheck(checked)[i]
      {
      }
    }
  }
}
