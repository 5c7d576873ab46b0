/** Failure-compatible result types shared by every module of the model.
    The C++ code reports failure through `false`, NULL or sentinel values;
    the model makes those paths explicit with these datatypes. */
module Results {

  /** A value that may be absent (a NULL pointer, a missing map entry). */
  datatype Option<+T> = None | Some(value: T) {
    predicate IsFailure() { None? }

    function PropagateFailure<U>(): Option<U>
      requires None?
    {
      None
    }

    function Extract(): T
      requires Some?
    {
      value
    }

    /** The carried value, or `default` when absent. */
    function GetOr(default: T): T {
      match this
      case Some(v) => v
      case None => default
    }
  }
}
