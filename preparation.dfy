/** Key preparation (`VerifyingKeyVar::prepare`): pair alpha with beta once,
    negate and prepare gamma and delta, and keep gamma_abc as it is. */
module Preparation {
  import opened Results
  import opened Algebra
  import opened Backend
  import opened Keys
  import opened Allocation

  /** The interface calls `prepare` makes, in order. */
  function PrepareOps(vk: VerifyingKeyVar): seq<Op> {
    [PrepareG1Op(vk.alpha), PrepareG2Op(vk.beta), PairingOp(G1Prepared(vk.alpha), G2Prepared(vk.beta)),
     NegateOp(vk.gamma), PrepareG2Op(NegateG2(vk.gamma)), NegateOp(vk.delta), PrepareG2Op(NegateG2(vk.delta))]
  }

  /** `VerifyingKeyVar::prepare`. */
  function Prepare(be: Backend, vk: VerifyingKeyVar): (r: Result<PreparedVerifyingKeyVar>)
    ensures r.Success? <==> FirstFault(be, PrepareOps(vk)).None?
    ensures r.Failure? ==> r.error == FirstFault(be, PrepareOps(vk)).value
    ensures r.Success? ==> r.value.alphaBeta == PairingValue(G1Prepared(vk.alpha), G2Prepared(vk.beta))
    ensures r.Success? ==> r.value.gammaNegPc.point == NegateG2(vk.gamma) && r.value.deltaNegPc.point == NegateG2(vk.delta)
    ensures r.Success? ==> r.value.gammaAbc == vk.gammaAbc
  {
    var ops := PrepareOps(vk);
    FirstFaultCons(be, ops[6], []);
    FirstFaultCons(be, ops[5], ops[6..]);
    FirstFaultCons(be, ops[4], ops[5..]);
    FirstFaultCons(be, ops[3], ops[4..]);
    FirstFaultCons(be, ops[2], ops[3..]);
    FirstFaultCons(be, ops[1], ops[2..]);
    FirstFaultCons(be, ops[0], ops[1..]);
    assert ops[6..] == [ops[6]] && ops[5..] == [ops[5]] + ops[6..] && ops[4..] == [ops[4]] + ops[5..];
    assert ops[3..] == [ops[3]] + ops[4..] && ops[2..] == [ops[2]] + ops[3..] && ops[1..] == [ops[1]] + ops[2..];
    assert ops == [ops[0]] + ops[1..];
    var alphaPc :- PrepareG1(be, vk.alpha);
    var betaPc :- PrepareG2(be, vk.beta);
    var alphaBeta :- Pairing(be, alphaPc, betaPc);
    var gammaNeg :- Negate(be, vk.gamma);
    var gammaNegPc :- PrepareG2(be, gammaNeg);
    var deltaNeg :- Negate(be, vk.delta);
    var deltaNegPc :- PrepareG2(be, deltaNeg);
    Success(PreparedVerifyingKeyVar(alphaBeta, gammaNegPc, deltaNegPc, vk.gammaAbc))
  }

  /** Preparing an allocated key gives exactly what allocating the natively processed key
      gives: the two routes to a prepared key variable agree, whatever the allocation modes. */
  lemma {:induction false} PrepareAgreesWithNativeProcessing(
    be: Backend, vk: VerifyingKey, vkMode: AllocationMode, pvkMode: AllocationMode)
    requires NoFaults(be)
    ensures NewVerifyingKey(be, Success(vk), vkMode).Success?
    ensures NewPreparedVerifyingKey(be, Success(ProcessVk(vk)), pvkMode).Success?
    ensures Prepare(be, NewVerifyingKey(be, Success(vk), vkMode).value.vars)
         == Success(NewPreparedVerifyingKey(be, Success(ProcessVk(vk)), pvkMode).value.vars)
  {
    FirstFaultSome(be, VkAllocOps(vk, vkMode, true));
    var vkVar := NewVerifyingKey(be, Success(vk), vkMode).value.vars;
    FirstFaultSome(be, PrepareOps(vkVar));
  }
}
