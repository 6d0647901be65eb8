/**
 * The optional value `Opt<T>` of src/NEconomicon/Opt.cs: a readonly struct
 * holding a value and a `HasValue` flag.  `None` is the struct with no value,
 * `Some(v)` the one built by `new Opt<T>(v)` (also `Opt.Some(v)`).
 */
module Opts {
  import opened Results

  datatype Opt<T> = None | Some(value: T)
  {
    /** `HasValue`. */
    predicate HasValue()
    {
      Some?
    }

    /** `Get()`: the value if there is one; otherwise an error. */
    function Get(): (r: Result<T>)
      ensures r.Ok? <==> HasValue()
      ensures r.Ok? ==> this == Some(r.value)
      ensures r.Err? ==> r.error == ValueMissing
    {
      if HasValue() then Ok(value) else Err(ValueMissing)
    }

    /** `GetOr(defaultValue)`: the value, or defaultValue when there is none. */
    function GetOr(defaultValue: T): (r: T)
      ensures this == Some(r) || (this == None && r == defaultValue)
    {
      if HasValue() then value else defaultValue
    }

    /**
     * `GetOrCalc(f)`: the value, or what f computes when there is none.  A
     * Dafny function value has no side effects, so whether f runs is not
     * observable here.
     */
    function GetOrCalc(f: () -> T): (r: T)
      ensures this == Some(r) || (this == None && r == f())
    {
      if HasValue() then value else f()
    }

    /**
     * `TryGet(out value)`: reports `HasValue` and hands out the value; with no
     * value it hands out `default(T)`, passed here as `defaultOfT`.
     */
    function TryGet(defaultOfT: T): (r: (bool, T))
      ensures r.0 == HasValue()
      ensures r.0 ==> this == Some(r.1)
      ensures !r.0 ==> r.1 == defaultOfT
    {
      if HasValue() then (true, value) else (false, defaultOfT)
    }

    /** `Map(map)`: None stays None, Some(v) becomes Some(map(v)). */
    function Map<R>(f: T -> R): (r: Opt<R>)
      ensures r.HasValue() == HasValue()
      ensures HasValue() ==> r.value == f(value)
    {
      if HasValue() then Some(f(value)) else None
    }

    /** `FlatMap(map)`: None stays None, Some(v) becomes map(v). */
    function FlatMap<R>(f: T -> Opt<R>): (r: Opt<R>)
      ensures !HasValue() ==> r == None
      ensures HasValue() ==> r == f(value)
    {
      if HasValue() then f(value) else None
    }

    /**
     * `Equals(Opt<T>)` as written: two empty values are equal, and the early
     * return for "either has a value" comes before the comparison of the
     * values, so that comparison is never reached.
     */
    function EqualsAsWritten(other: Opt<T>): (r: bool)
      ensures r <==> this == None && other == None
    {
      if !HasValue() && !other.HasValue() then true
      else if HasValue() || other.HasValue() then false
      else assert false; false
    }

    /** `GetHashCode()`, given the hash code of the held value. */
    function HashCode(hash: T -> int): (h: int)
      ensures !HasValue() ==> h == 0
      ensures HasValue() ==> h == hash(value)
    {
      if HasValue() then hash(value) else 0
    }

    /** `ToString()`, given the rendering of the held value. */
    function ToString(show: T -> string): (r: string)
      ensures !HasValue() ==> r == "None()"
      ensures HasValue() ==> |r| == |show(value)| + 6 && r[..5] == "Some(" && r[5..|r| - 1] == show(value) && r[|r| - 1] == ')'
    {
      if HasValue() then "Some(" + show(value) + ")" else "None()"
    }

    /** `GetEnumerator()`: yields the value once if there is one. */
    function Enumerate(): (r: seq<T>)
      ensures |r| <= 1
      ensures |r| == 1 <==> HasValue()
      ensures forall i | 0 <= i < |r| :: this == Some(r[i])
    {
      if HasValue() then [value] else []
    }
  }

  /** `Equals(Opt<T>)` as evidently intended: both empty, or equal values. */
  function Equals<T(==)>(a: Opt<T>, b: Opt<T>): (r: bool)
    ensures r <==> a == b
  {
    if !a.HasValue() && !b.HasValue() then true
    else if !a.HasValue() || !b.HasValue() then false
    else a.value == b.value
  }

  /**
   * `Equals(object)` as written: never equal to a null reference, and
   * otherwise the as-written `Equals(Opt<T>)`, so only two empty values are
   * equal.
   */
  function EqualsObjectAsWritten<T>(a: Opt<T>, other: Nullable<Opt<T>>): (r: bool)
    ensures r <==> a == None && other == NonNull(None)
  {
    match other
    case Null => false
    case NonNull(o) => a.EqualsAsWritten(o)
  }

  /** `Equals(object)` on the corrected `Equals(Opt<T>)`: never equal to a null reference. */
  function EqualsObject<T(==)>(a: Opt<T>, other: Nullable<Opt<T>>): (r: bool)
    ensures r <==> other == NonNull(a)
  {
    match other
    case Null => false
    case NonNull(o) => Equals(a, o)
  }

  /** `Opt.Some(v)` has a value, and it is v; `Opt.None()` has none. */
  lemma SomeAndNone<T>(v: T)
    ensures Some(v).HasValue() && Some(v).Get() == Ok(v)
    ensures !Opt<T>.None.HasValue() && Opt<T>.None.Get() == Err(ValueMissing)
  {
  }

  /** As written, no value with a value equals itself, whether compared directly or boxed. */
  lemma SomeNeverEqualsAsWritten<T>(v: T)
    ensures !Some(v).EqualsAsWritten(Some(v))
    ensures !EqualsObjectAsWritten(Some(v), NonNull(Some(v)))
  {
  }

  /** The intended equality agrees with the hash code. */
  lemma EqualsHashCode<T>(a: Opt<T>, b: Opt<T>, hash: T -> int)
    requires Equals(a, b)
    ensures a.HashCode(hash) == b.HashCode(hash)
  {
  }

  lemma MapIdentity<T>(o: Opt<T>)
    ensures o.Map(x => x) == o
  {
  }

  lemma MapCompose<T, R, S>(o: Opt<T>, f: T -> R, g: R -> S)
    ensures o.Map(f).Map(g) == o.Map(x => g(f(x)))
  {
  }

  /** FlatMap of a function that always has a value is Map. */
  lemma FlatMapOfSome<T, R>(o: Opt<T>, f: T -> R)
    ensures o.FlatMap(x => Some(f(x))) == o.Map(f)
  {
  }

  /** Get, GetOr and TryGet agree. */
  lemma AccessorsAgree<T>(o: Opt<T>, d: T)
    ensures o.Get().Ok? ==> o.GetOr(d) == o.Get().value && o.TryGet(d) == (true, o.Get().value)
    ensures o.Get().Err? ==> o.GetOr(d) == d && o.TryGet(d) == (false, d)
    ensures o.Enumerate() == if o.HasValue() then [o.GetOr(d)] else []
  {
  }

  /** Rendering tells None from Some, and distinct values apart when show does. */
  lemma ToStringInjective<T>(a: Opt<T>, b: Opt<T>, show: T -> string)
    requires forall x, y :: show(x) == show(y) ==> x == y
    ensures a.ToString(show) == b.ToString(show) ==> a == b
  {
    if a.HasValue() != b.HasValue() {
      assert a.ToString(show)[0] != b.ToString(show)[0];
    } else if a.HasValue() && a.ToString(show) == b.ToString(show) {
      var sa, sb := show(a.value), show(b.value);
      assert ("Some(" + sa + ")")[5..|sa| + 5] == sa;
      assert ("Some(" + sb + ")")[5..|sb| + 5] == sb;
    }
  }
}
