/** The proof and verifying-key values, native and in-circuit.

    A circuit variable is represented by the group element it carries; the
    native structs and their variable counterparts therefore have the same
    fields, in the same order. */
module Keys {
  import opened Algebra

  /** A native Groth16 proof (A, B, C). */
  datatype Proof = Proof(a: G1, b: G2, c: G1)

  /** A native verifying key; `gammaAbc[0]` is the constant term, one more entry per public input. */
  datatype VerifyingKey = VerifyingKey(alpha: G1, beta: G2, gamma: G2, delta: G2, gammaAbc: seq<G1>)

  /** A native prepared verifying key, as the native verifier's key processing produces it. */
  datatype PreparedVerifyingKey = PreparedVerifyingKey(
    vk: VerifyingKey,
    alphaBeta: GT,
    gammaNegPc: G2Prepared,
    deltaNegPc: G2Prepared)

  /** `ProofVar`. */
  datatype ProofVar = ProofVar(a: G1, b: G2, c: G1)

  /** `VerifyingKeyVar`. */
  datatype VerifyingKeyVar = VerifyingKeyVar(alpha: G1, beta: G2, gamma: G2, delta: G2, gammaAbc: seq<G1>)

  /** `PreparedVerifyingKeyVar`: e(alpha, beta), the prepared negations of gamma and delta, and gamma_abc. */
  datatype PreparedVerifyingKeyVar = PreparedVerifyingKeyVar(
    alphaBeta: GT,
    gammaNegPc: G2Prepared,
    deltaNegPc: G2Prepared,
    gammaAbc: seq<G1>)

  /** The native key processing (outside the gadget): the prepared key a valid key processes into. */
  function ProcessVk(vk: VerifyingKey): (pvk: PreparedVerifyingKey)
    ensures pvk.vk == vk
    ensures pvk.alphaBeta == PairingValue(G1Prepared(vk.alpha), G2Prepared(vk.beta))
    ensures (pvk.gammaNegPc.point + vk.gamma) % R == 0 && (pvk.deltaNegPc.point + vk.delta) % R == 0
  {
    PreparedVerifyingKey(
      vk,
      PairingValue(G1Prepared(vk.alpha), G2Prepared(vk.beta)),
      G2Prepared(NegateG2(vk.gamma)),
      G2Prepared(NegateG2(vk.delta)))
  }
}
