/** Failure-carrying datatypes shared by the model of Interpolation.py.

    The Python code never catches an exception: a zero divisor raises
    ZeroDivisionError and reading past the end of a list raises IndexError.
    Both are modelled as values of `Fault`, returned inside a `Result`.
 */
module Outcomes {

  /** The exceptions the interpolation core can raise. */
  datatype Fault =
    | ZeroDivisionError  // a float divided by 0.0
    | IndexError         // y_values indexed past its end

  datatype Option<+T> = None | Some(value: T)

  /** Either the value the Python function returns or the exception it raises. */
  datatype Result<+T> = Ok(value: T) | Err(fault: Fault) {
    predicate IsFailure() {
      Err?
    }

    function PropagateFailure<U>(): Result<U>
      requires Err?
    {
      Err(fault)
    }

    function Extract(): T
      requires Ok?
    {
      value
    }
  }
}
