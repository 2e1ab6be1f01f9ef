/** Outcomes shared by the modules of the model. */
module Prelude {

  datatype Option<+T> = None | Some(value: T)

  /** `Err` is an error the linker reports; `Panic` is a Rust panic, which ends the process. */
  datatype Outcome<+T> = Ok(value: T) | Err | Panic
  {
    predicate IsFailure() {
      !Ok?
    }

    function PropagateFailure<U>(): (r: Outcome<U>)
      requires IsFailure()
    {
      if Err? then Err else Panic
    }

    function Extract(): T
      requires Ok?
    {
      value
    }
  }
}
