/** A value, or none where the original fails. */
module Options {

  datatype Option<T> = None | Some(value: T) {
    predicate IsFailure() { None? }

    function PropagateFailure<U>(): Option<U> { None }

    function Extract(): T
      requires Some?
    {
      value
    }
  }
}
