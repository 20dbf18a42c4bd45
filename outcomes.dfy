/** Success/failure values shared by the integrator and the probability drivers.

    The source returns `Result<f64, String>` from its integrator and aborts the
    program with `expect` when a caller cannot continue.  Both are modelled as
    values here: a failure of the integrator is `FailedToConverge`, and a panic
    raised by `expect` (possibly inside an integrand) is `Panic(msg)`, which
    every enclosing computation passes on unchanged, just as an unwinding panic
    passes through every enclosing Rust frame.
 */
module Outcomes {

  datatype Error = FailedToConverge | Panic(msg: string)

  datatype Result<+T> = Ok(value: T) | Err(error: Error) {

    predicate IsFailure() {
      Err?
    }

    function PropagateFailure<U>(): Result<U>
      requires Err?
    {
      Err(error)
    }

    function Extract(): T
      requires Ok?
    {
      value
    }
  }

  /** `Result::expect(msg)`: a value passes through; an integrator failure
      becomes a panic carrying `msg`; a panic already under way stays as it is. */
  function Expect<T>(r: Result<T>, msg: string): (e: Result<T>)
    ensures r.Ok? ==> e == r
    ensures r.Err? ==> e.Err? && e.error.Panic?
    ensures r.Err? && r.error.Panic? ==> e == r
    ensures r == Err(FailedToConverge) ==> e == Err(Panic(msg))
  {
    match r
    case Ok(_) => r
    case Err(FailedToConverge) => Err(Panic(msg))
    case Err(Panic(_)) => r
  }
}
