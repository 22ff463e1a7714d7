/** The group/pairing capability interface the verifier gadget is generic over.

    Each operation of the interface either returns its mathematical value
    (module Algebra) or fails with a synthesis error. Which calls fail is the
    backend's business: a `Backend` carries a total function naming, for every
    call with its arguments, whether that call fails and with which error. The
    per-element encodings of points into bytes and base-field elements are
    likewise supplied by the backend. */
module Backend {
  import opened Results
  import opened Algebra

  datatype AllocationMode = Constant | Input | Witness

  /** What kind of circuit variable an allocation creates. */
  datatype Slot = G1Slot | G2Slot | GTSlot | G2PreparedSlot

  /** One call into the interface, with its arguments. */
  datatype Op =
    | PrepareG1Op(p: G1)
    | PrepareG2Op(q: G2)
    | NegateOp(q: G2)
    | PairingOp(pp: G1Prepared, qp: G2Prepared)
    | ToBitsOp(input: seq<bool>)
    | ScalarMulOp(base: G1, bits: seq<bool>)
    | MillerLoopOp(ps: seq<G1Prepared>, qs: seq<G2Prepared>)
    | FinalExpOp(f: int)
    | IsEqOp(lhs: GT, rhs: GT)
    | AllocOp(slot: Slot, value: int, mode: AllocationMode, primeOrderCheck: bool)

  /** Little-endian bytes of an in-circuit `UInt8`. */
  type Byte = b: int | 0 <= b < 256

  /** The value of an in-circuit base-field element. */
  type BaseFieldElement = nat

  /** How single points are encoded; the key encodings are built from these. */
  datatype ElementEncoding<T> = ElementEncoding(g1: G1 -> Result<seq<T>>, g2: G2 -> Result<seq<T>>)

  datatype Backend = Backend(
    fault: Op -> Option<SynthesisError>,
    spongeBytes: ElementEncoding<Byte>,
    spongeFieldElements: ElementEncoding<BaseFieldElement>,
    bytesLe: ElementEncoding<Byte>)

  function Fault(be: Backend, op: Op): Option<SynthesisError> {
    be.fault(op)
  }

  /** A backend whose operations all succeed. */
  ghost predicate NoFaults(be: Backend) {
    forall op :: Fault(be, op).None?
  }

  /** The error of the first failing call of `ops`, performed in order. */
  function FirstFault(be: Backend, ops: seq<Op>): Option<SynthesisError> {
    if ops == [] then None
    else if Fault(be, ops[0]).Some? then Fault(be, ops[0])
    else FirstFault(be, ops[1..])
  }

  /** The calls of `a + b` fail first where those of `a` do, and otherwise where those of `b` do. */
  lemma {:induction false} FirstFaultAppend(be: Backend, a: seq<Op>, b: seq<Op>)
    ensures FirstFault(be, a + b) == if FirstFault(be, a).Some? then FirstFault(be, a) else FirstFault(be, b)
  {
    if a != [] {
      assert (a + b)[0] == a[0];
      assert (a + b)[1..] == a[1..] + b;
      FirstFaultAppend(be, a[1..], b);
    } else {
      assert a + b == b;
    }
  }

  /** Unfolds `FirstFault` over a call sequence given as its first call and the rest. */
  lemma FirstFaultCons(be: Backend, op: Op, rest: seq<Op>)
    ensures FirstFault(be, [op] + rest) == if Fault(be, op).Some? then Fault(be, op) else FirstFault(be, rest)
  {
    assert ([op] + rest)[1..] == rest;
  }

  /** A call sequence fails somewhere exactly when one of its calls fails. */
  lemma {:induction false} FirstFaultSome(be: Backend, ops: seq<Op>)
    ensures FirstFault(be, ops).Some? <==> exists i :: 0 <= i < |ops| && Fault(be, ops[i]).Some?
  {
    if ops != [] {
      FirstFaultSome(be, ops[1..]);
      if Fault(be, ops[0]).None? {
        forall i | 0 <= i < |ops| && Fault(be, ops[i]).Some?
          ensures exists j :: 0 <= j < |ops[1..]| && Fault(be, ops[1..][j]).Some?
        {
          assert ops[1..][i - 1] == ops[i];
        }
      }
    }
  }

  /** Performs the call `op`, whose mathematical value is `value`. */
  function Run<T>(be: Backend, op: Op, value: T): (r: Result<T>)
    ensures r.Success? <==> Fault(be, op).None?
    ensures r.Success? ==> r.value == value
    ensures r.Failure? ==> r.error == Fault(be, op).value
  {
    match Fault(be, op)
    case None => Success(value)
    case Some(e) => Failure(e)
  }

  function PrepareG1(be: Backend, p: G1): Result<G1Prepared> {
    Run(be, PrepareG1Op(p), G1Prepared(p))
  }

  function PrepareG2(be: Backend, q: G2): Result<G2Prepared> {
    Run(be, PrepareG2Op(q), G2Prepared(q))
  }

  function Negate(be: Backend, q: G2): Result<G2> {
    Run(be, NegateOp(q), NegateG2(q))
  }

  function Pairing(be: Backend, p: G1Prepared, q: G2Prepared): Result<GT> {
    Run(be, PairingOp(p, q), PairingValue(p, q))
  }

  /** `to_bits_le` of a public input that is already a vector of bits. */
  function ToBitsLe(be: Backend, input: seq<bool>): Result<seq<bool>> {
    Run(be, ToBitsOp(input), input)
  }

  function ScalarMulLe(be: Backend, base: G1, bits: seq<bool>): Result<G1> {
    Run(be, ScalarMulOp(base, bits), ScalarMulBits(base, bits))
  }

  function MillerLoop(be: Backend, ps: seq<G1Prepared>, qs: seq<G2Prepared>): Result<int>
    requires |ps| == |qs|
  {
    Run(be, MillerLoopOp(ps, qs), MillerValue(ps, qs))
  }

  function FinalExponentiation(be: Backend, f: int): Result<GT> {
    Run(be, FinalExpOp(f), FinalExpValue(f))
  }

  function IsEq(be: Backend, a: GT, b: GT): Result<bool> {
    Run(be, IsEqOp(a, b), a == b)
  }

  /** One allocation in the constraint system: the kind of variable, its mode, and
      whether it went through the checked allocator (`new_variable`) rather than
      `new_variable_omit_prime_order_check`. Which constraints the checked allocator adds
      in each mode is the library's business and is not modelled. */
  datatype Allocation = Allocation(slot: Slot, mode: AllocationMode, primeOrderChecked: bool)

  /** `new_variable` (check = true) or `new_variable_omit_prime_order_check` (check = false)
      of one element whose value is `value`. */
  function AllocElement(be: Backend, slot: Slot, value: int, mode: AllocationMode, check: bool): Result<Allocation> {
    Run(be, AllocOp(slot, value, mode, check), Allocation(slot, mode, check))
  }
}
