/** Failure-compatible result types of the verifier gadget.

    Every fallible operation of the gadget returns `Result<T>`, the counterpart of
    `Result<T, SynthesisError>`; `Outcome<T>` adds the third way a call can end,
    an `assert!` or an out-of-bounds index that aborts circuit construction. */
module Results {

  datatype Option<+T> = None | Some(value: T)

  /** The synthesis-failure kinds that the constraint library can report. */
  datatype SynthesisError =
    | AssignmentMissing
    | DivisionByZero
    | Unsatisfiable
    | UnexpectedIdentity
    | MalformedVerifyingKey
    | UnconstrainedVariable

  datatype Result<+T> = Success(value: T) | Failure(error: SynthesisError) {
    predicate IsFailure() {
      Failure?
    }

    function PropagateFailure<U>(): Result<U>
      requires Failure?
    {
      Failure(error)
    }

    function Extract(): T
      requires Success?
    {
      value
    }
  }

  /** Why circuit construction panicked instead of returning. */
  datatype Abort =
    | IndexOutOfBounds  // `gamma_abc_g1[0]` on an empty vector
    | LengthMismatch    // the `assert!` on the number of public inputs

  datatype Outcome<+T> = Done(value: T) | Failed(error: SynthesisError) | Aborted(reason: Abort)

  function Lift<T>(r: Result<T>): (o: Outcome<T>)
    ensures o.Done? <==> r.Success?
    ensures r.Success? ==> o.value == r.value
    ensures r.Failure? ==> o == Failed(r.error)
  {
    match r
    case Success(v) => Done(v)
    case Failure(e) => Failed(e)
  }
}
