/**
 * Failure modelling shared by every module.
 *
 * The library signals failures by throwing (an ArgumentNullException for a
 * null argument, an InvalidOperationException for an unregistered component,
 * its own NEconomiconException for everything else).  Here each throwing
 * operation returns a `Result` instead, and the C# `null` reference that the
 * guards test for is made explicit with `Nullable`.
 */
module Results {

  /** The reasons an operation of the library can fail. */
  datatype Error =
    | ArgumentNull(argument: string)          // Ensure.NotNull
    | BlankArgument(argument: string)         // Ensure.NotBlank
    | ValueMissing                            // Opt.Get on None
    | IndexTooBig(index: int)                 // BitSet.Set/Clear/Check beyond 511
    | NextOfSymbolic                          // EntityId.Next on a symbolic id
    | ComponentNotRegistered(typeName: string) // Scheme.GetComponentInfo
    | EntityNotAlive(context: string)         // Entity.EnsureIsAlive
    | AlreadyIncluded(typeName: string)       // QueryBuilder.Exclude
    | NullReference                           // a member access through null

  datatype Result<T> = Ok(value: T) | Err(error: Error)
  {
    predicate IsFailure() { Err? }

    function PropagateFailure<U>(): Result<U>
      requires Err?
    {
      Err(error)
    }

    function Extract(): T
      requires Ok?
    {
      value
    }
  }

  /** A C# reference that may be `null`. */
  datatype Nullable<T> = Null | NonNull(target: T)
}
