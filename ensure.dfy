/**
 * The argument guards of src/NEconomicon/Ensure.cs.  A guard returns its
 * argument unchanged or fails; the failure is an `Err` here instead of a
 * thrown exception.
 */
module Ensure {
  import opened Results
  import opened Text

  /** `NotNull(value, name)`. */
  function NotNull<T>(value: Nullable<T>, name: string): (r: Result<T>)
    ensures value.NonNull? ==> r == Ok(value.target)
    ensures value.Null? ==> r == Err(ArgumentNull(name))
  {
    match value
    case Null => Err(ArgumentNull(name))
    case NonNull(v) => Ok(v)
  }

  /** A non-null string with at least one character that is not white space. */
  predicate HasNonBlank(value: Nullable<string>)
  {
    value.NonNull? && exists i | 0 <= i < |value.target| :: !IsWhiteSpace(value.target[i])
  }

  /** `NotBlank(value, name)`: null, empty and all-white-space strings fail. */
  function NotBlank(value: Nullable<string>, name: string): (r: Result<string>)
    ensures r.Ok? <==> HasNonBlank(value)
    ensures r.Ok? ==> value == NonNull(r.value)
    ensures r.Err? ==> r.error == BlankArgument(name)
  {
    AllWhiteSpaceMeaning(if value.NonNull? then value.target else "");
    if IsNullOrWhiteSpace(value) then Err(BlankArgument(name)) else Ok(value.target)
  }
}
