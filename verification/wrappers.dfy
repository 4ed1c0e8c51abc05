/** Failure-compatible wrappers and the error kinds the modelled code raises. */
module Wrappers {

  /** An optional value. */
  datatype Option<+T> = None | Some(value: T)

  /** Either a value or the error the Python code would have raised instead. */
  datatype Result<+T, +E> = Ok(value: T) | Err(error: E) {

    predicate IsFailure() {
      Err?
    }

    function PropagateFailure<U>(): Result<U, E>
      requires Err?
    {
      Err(error)
    }

    function Extract(): T
      requires Ok?
    {
      value
    }
  }

  /** The exceptions raised along the modelled code paths. */
  datatype Error =
    | UnknownColumn(name: string)     // KeyError from a column-name lookup
    | RolesNotInColumns               // ValueError: role lists are not a subset of the columns
    | AdjustedGraphCyclic             // RuntimeError: the adjusted graph is not a DAG
    | NotAcyclic                      // AssertionError: the layered graph is not a DAG
    | EmptyGraph                      // ValueError: max() over the layers of a graph without nodes
    | UnknownEffect(effect: string)   // ValueError: effect is neither 'total' nor 'direct'
}
