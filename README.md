# Groth16 in-circuit verifier — Dafny model

This project models the constraint-system Groth16 verifier gadget of
`src/constraints.rs`. The gadget lets one circuit check a Groth16 proof of
another. It covers:

- allocating proofs and verifying keys as circuit variables, with and without
  the prime-order (subgroup) check;
- preparing a key: e(alpha, beta), and the prepared negations of gamma and delta;
- folding the public inputs into the commitment
  `g_ic = gamma_abc[0] + sum_i gamma_abc[i+1] * x[i]`;
- the single Miller-loop / final-exponentiation check against e(alpha, beta);
- the three key serialisations (`to_sponge_bytes`, `to_sponge_field_elements`,
  `to_bytes_le`);
- `verifier_size`.

How things are represented:

- **Groups.** G1, G2 and GT are written in discrete-logarithm form: integers
  modulo R, the BLS12-381 scalar modulus (`algebra.dfy`). A pairing is therefore
  a product mod R, and the Miller loop is the unreduced sum of products.
  Bilinearity (linearity in each argument) and the multi-pairing law are
  proved there, not assumed.
- **Failures.** Every call into the pairing interface can fail with a
  `SynthesisError`. A `Backend` value (`backend.dfy`) says which calls fail.
  For every allocator, key preparation, the input loop and the pairing check,
  the error is proved to be the first fault among the calls made, in source
  order.
- **Panics.** The two panics of `verify_with_processed_vk` are the outcome
  `Aborted`. They are the index `gamma_abc_g1[0]` on an empty key and the
  `assert!` on the number of inputs.
- **Allocation.** Allocating a variable records a log entry: its kind, its
  mode, and whether the subgroup check was enforced.
- **Imperative parts.** The input-folding loop and the key serialisation loops
  are methods with loop invariants. Each is proved equal to a specification
  function, and the properties are proved about those functions.

The main results:

- `Verifier.VerifyDecidesGroth16`: whenever `verify`, with the corrected length
  check (see Findings), returns a verdict, the
  verdict is whether Groth16's equation
  e(A, B) = e(alpha, beta) · e(IC, gamma) · e(C, delta) holds, where IC is the
  commitment to the public inputs.
  - Without faults, a verdict is returned exactly when there are |gamma_abc| - 1
    inputs.
- `Preparation.PrepareAgreesWithNativeProcessing` and
  `Verifier.VerifyAgreesWithProcessedKey`: preparing an allocated key, and
  allocating the natively processed key, give the same prepared key and the
  same verdict.
- `Allocation.UncheckedProofSkipsOnlySubgroupChecks` and
  `Allocation.UncheckedKeySkipsOnlySubgroupChecks`: the `_unchecked` allocators
  differ from `new_variable` only in the subgroup-check flag.
- `Encoding.KeyEncodingInjective`: with fixed-width, injective point encodings,
  a key's serialisation determines the key.

## Model

| member | source | states |
|---|---|---|
| Algebra.NegateG2 | src/constraints.rs:66-67 | the negation of a G2 point adds up with it to the identity |
| Algebra.GtInverse | src/constraints.rs:66-67 | the inverse of a GT element multiplies with it to the identity |
| Algebra.PairingIsProduct | src/constraints.rs:65 | the pairing of p and q is p·q in the discrete-log form |
| Algebra.PairingNegateRight | src/constraints.rs:66-67 | pairing with a negated G2 point gives the inverse pairing, which is why the prepared key stores -gamma and -delta |
| Algebra.PairingLinearLeft | src/constraints.rs:280-291 | the pairing is linear in its G1 argument (half of the bilinearity the pairing check relies on) |
| Algebra.PairingLinearRight | src/constraints.rs:280-291 | the pairing is linear in its G2 argument (the other half of bilinearity) |
| Algebra.MultiPairing | src/constraints.rs:280-291 | one multi-Miller loop followed by one final exponentiation equals the product of the individual pairings |
| Algebra.GtInverseUnique | src/constraints.rs:66-67 | a GT element has exactly one inverse |
| Algebra.GtRearrange | src/constraints.rs:280-291 | x / y / z = w holds exactly when x = w · y · z (used to move the negated gamma and delta terms across the equation) |
| Allocation.AllocG1s | src/constraints.rs:225-235 | allocating gamma_abc point by point keeps the points in order, logs one entry per point, and fails exactly with the first failing allocation |
| Allocation.LiftProof | src/constraints.rs:172-190 | a failing producer's error is returned; otherwise the three allocations keep A, B, C, log three entries in order, and fail with the first failing one |
| Allocation.LiftVerifyingKey | src/constraints.rs:203-244 | the key allocations keep every field and fail with the first failing one, in field order then gamma_abc order |
| Allocation.NewProofUnchecked | src/constraints.rs:165-191 | a failing producer's error is returned; otherwise the variables are A, B, C, three allocations logged without the subgroup check, and the error is the first failing allocation's |
| Allocation.NewProof | src/constraints.rs:414-429 | as the unchecked allocator, with the subgroup check enforced on all three points |
| Allocation.NewVerificationKeyUnchecked | src/constraints.rs:196-245 | a failing producer's error is returned; otherwise alpha, beta, gamma, delta and gamma_abc, 4 + \|gamma_abc\| allocations logged without the subgroup check; errors as the first failing allocation |
| Allocation.NewVerifyingKey | src/constraints.rs:371-405 | as the unchecked key allocator, with the subgroup check enforced on every point |
| Allocation.NewPreparedVerifyingKey | src/constraints.rs:321-362 | a failing producer's error is returned; otherwise it fails exactly with the first failing call among the GT, the two prepared-G2 and the gamma_abc allocations; on success the variables are e(alpha, beta), the two prepared negations and gamma_abc, logged as a GT, two prepared G2 and \|gamma_abc\| checked G1 allocations |
| Allocation.UncheckedProofSkipsOnlySubgroupChecks | src/constraints.rs:165-191 | without faults, the unchecked proof allocator gives the same variables as `new_variable` and the same log except for the subgroup-check flags |
| Allocation.UncheckedKeySkipsOnlySubgroupChecks | src/constraints.rs:196-245 | the same for the verifying-key allocator |
| Preparation.Prepare | src/constraints.rs:61-75 | fails exactly with the first failing call of the seven it makes; on success alphaBeta is e(alpha, beta), the stored G2 points are the negations of gamma and delta, and gamma_abc is unchanged |
| Preparation.PrepareAgreesWithNativeProcessing | src/constraints.rs:61-75 | without faults, preparing the allocated key gives exactly the allocated natively prepared key, whatever the allocation modes |
| Verifier.PrefixFailurePersists | src/constraints.rs:259-266 | once a step of the input fold fails with an error (`?`), the fold's result is that error |
| Verifier.PrefixFailsAtFirstFault | src/constraints.rs:259-266 | the first k iterations of the input loop fail exactly when one of their `to_bits_le` / `scalar_mul_le` calls fails, and then with the first failing call's error |
| Verifier.PrefixIsLinearCombination | src/constraints.rs:256-267 | after k steps the accumulator is gamma_abc[0] + sum of gamma_abc[i+1]·x[i] over the first k inputs, and no step fails without faults |
| Verifier.CommitmentOfScalarInputs | src/constraints.rs:259-265 | when each public input is the w-bit little-endian decomposition of a scalar s[i], the commitment is gamma_abc[0] + sum of gamma_abc[i+1]·s[i]: `scalar_mul_le` reads the bits back as the scalar |
| Verifier.AccumulateInputs | src/constraints.rs:256-271 | the input fold with the length check as intended equals its specification: a panic on an empty gamma_abc, the first failing step's error, a panic unless there are exactly \|gamma_abc\| - 1 inputs, otherwise the accumulator |
| Verifier.AccumulateIsCommitment | src/constraints.rs:256-271 | the corrected fold yields a point only for \|gamma_abc\| - 1 inputs, and that point is the commitment; its error is the first failing call of the loop; without faults it yields a point exactly then, and otherwise panics |
| Verifier.AccumulateInputsAsWritten | src/constraints.rs:256-271 | the fold as written, with `zip` taking an input before it sees gamma_abc exhausted, equals its specification |
| Verifier.AsWrittenAcceptsOneSurplusInput | src/constraints.rs:259-269 | without faults, the fold as written accepts exactly when there are \|gamma_abc\| - 1 or \|gamma_abc\| inputs, and the commitment is then over the first \|gamma_abc\| - 1 inputs only |
| Verifier.SurplusInputIgnored | src/constraints.rs:259-269 | with gamma_abc = [g0, g1], the inputs [x0, x1] are accepted as written, with the same commitment as [x0], while the corrected check panics |
| Verifier.CheckEquation | src/constraints.rs:273-291 | fails exactly with the first failing call among the four preparations, the Miller loop, the final exponentiation and the comparison; otherwise it says whether e(A, B)·e(g_ic, -gamma)·e(C, -delta) equals the stored e(alpha, beta) |
| Verifier.NegatedProductIsGroth16 | src/constraints.rs:280-291 | the product check with negated gamma and delta holds exactly when Groth16's equation e(A, B) = e(alpha, beta)·e(IC, gamma)·e(C, delta) holds |
| Verifier.VerifyWithProcessedVk | src/constraints.rs:248-292 | returns the fold's panic or error, or else the pairing check's result |
| Verifier.Verify | src/constraints.rs:295-302 | returns the preparation's error, or else what verifying with the prepared key returns |
| Verifier.VerifyDecidesGroth16 | src/constraints.rs:248-302 | for `verify` with the corrected length check: a verdict is only returned for \|gamma_abc\| - 1 inputs, and it is true exactly when Groth16's equation holds for the commitment to them; without faults a verdict is returned exactly for that many inputs, and otherwise the gadget panics |
| Verifier.VerifyAgreesWithProcessedKey | src/constraints.rs:295-302 | without faults, `verify` with an allocated key and `verify_with_processed_vk` with the allocated natively processed key give the same outcome |
| Verifier.VerifierSizeCountsInputs | src/constraints.rs:156-160 | `verifier_size` (Verifier.VerifierSize, the length of gamma_abc) is one more than the number of public inputs for which the corrected `verify` returns a verdict on the allocated key |
| Encoding.EncodeAllAppend | src/constraints.rs:90-93 | encoding two point lists one after the other is encoding each, with the first failure winning |
| Encoding.EncodeAllFailsAtFirstBadPoint | src/constraints.rs:90-93 | encoding gamma_abc fails exactly when some point's encoding fails, and then with the error of the first such point |
| Encoding.EncodeAllLength | src/constraints.rs:90-93 | with a fixed-width point encoding, n points of gamma_abc encode to n·w elements |
| Encoding.EncodeAllInjective | src/constraints.rs:90-93 | with fixed-width injective point encodings, equal encodings of point lists come from equal lists |
| Encoding.KeyEncodingInjective | src/constraints.rs:85-95 | with fixed-width injective point encodings, the key serialisation determines the key: alpha, beta, gamma, delta and every gamma_abc entry |
| Encoding.EncodeKey | src/constraints.rs:85-95 | the field-by-field, point-by-point serialisation loop equals its specification: the encodings of alpha, beta, gamma, delta and gamma_abc in order, or the first failing encoding's error |
| Encoding.ToSpongeBytes | src/constraints.rs:85-95 | `to_sponge_bytes` is the key serialisation under the backend's sponge-byte encoding |
| Encoding.ToSpongeFieldElements | src/constraints.rs:97-109 | `to_sponge_field_elements` is the key serialisation under the backend's field-element encoding |
| Encoding.ToBytesLe | src/constraints.rs:439-449 | `to_bytes_le` is the key serialisation under the backend's little-endian byte encoding |
| Encoding.EncodingIgnoresAllocation | src/constraints.rs:85-95 | a key allocated with or without subgroup checks, in any mode, serialises the same |

## Left out

- Curve, field and pairing arithmetic are modelled in the discrete-log form modulo R. Point coordinates, the actual Miller loop, and the hardness of the pairing groups are not modelled. The proofs use only the group laws.
- Subgroup (prime-order) checks: every modelled point lies in the order-R group, so a check can only be recorded as a flag in the allocation log. Its effect on the constraints is not modelled.
- Constraint counts, namespaces, tracing and the constraint-system handle are not modelled. Allocation is reduced to its log entry and its possible failure.
- Which calls of the pairing interface fail is decided by the `Backend` value; the reasons (missing assignments and the like) are not modelled.
- The producer closure `f` is a `Result` value, since it is called exactly once.
- Public inputs are taken to be given as bit vectors (`BooleanInputVar`). The conversion of field elements into those bits happens outside `src/constraints.rs` and is not part of this model.
- The per-point encodings behind `to_sponge_bytes`, `to_sponge_field_elements` and `to_bytes_le` are supplied by the backend and left abstract.
- The native key processing (`Keys.ProcessVk`) and the native verifier live outside `src/constraints.rs`. They are not part of this model beyond the prepared key the native processing produces.
- The test module (`src/constraints.rs:452-589`) is not modelled. It runs a concrete setup and proof, which needs real curve arithmetic.
- Public inputs reach the gadget as bits; how field elements are decomposed into them happens outside `src/constraints.rs`. Verifier.CommitmentOfScalarInputs states what the commitment is when they are little-endian decompositions of scalars.
- Verifier.VerifyWithProcessedVk: it uses the corrected length check (see Findings), so for exactly \|gamma_abc\| inputs it panics where the source returns a verdict on the first \|gamma_abc\| - 1 of them. The check as written is modelled separately by Verifier.AccumulateInputsAsWritten.
- Verifier.Verify: it calls Verifier.VerifyWithProcessedVk and so inherits the corrected length check.

## Findings

| source | as written | input that shows it | evidently intended | confidence | as-written member | corrected member |
|---|---|---|---|---|---|---|
| src/constraints.rs:259-269 | `zip` over `public_inputs.by_ref()` takes the next public input before it finds gamma_abc exhausted. That input is dropped, and `public_inputs.next().is_none()` then looks only at the rest. So a vector with one surplus input passes the `assert!`, and the surplus input is ignored. | gamma_abc = [g0, g1] and inputs [x0, x1]: the check passes and g_ic = g0 + x0·g1, the same as for [x0] | exactly \|gamma_abc\| - 1 inputs are accepted; any other count is rejected | high; not executed | Verifier.AccumulateInputsAsWritten, Verifier.SurplusInputIgnored | Verifier.AccumulateInputs, Verifier.AccumulateIsCommitment |
