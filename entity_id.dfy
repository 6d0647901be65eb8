/**
 * Entity identifiers (src/NEconomicon/Storage/EntityId.cs): a readonly struct
 * holding either a non-null, lower-cased symbolic string (with numeric part
 * 0) or a 32-bit unsigned number (with no symbolic part).
 */
module EntityIds {
  import opened Results
  import opened Text
  import Ensure

  /** The range of a C# `uint`. */
  const UIntLimit: nat := 0x1_0000_0000
  type UInt = n: nat | n < UIntLimit

  /** The two private fields `_symbolicValue` and `_numericValue`. */
  datatype EntityId = EntityId(symbolic: Nullable<string>, numeric: UInt)
  {
    /** Both constructors leave the numeric part 0 in a symbolic identifier. */
    predicate WellFormed()
    {
      IsSymbolic() ==> numeric == 0
    }

    /** `IsSymbolic`. */
    predicate IsSymbolic()
    {
      symbolic.NonNull?
    }

    /** `IsNumeric`. */
    predicate IsNumeric()
    {
      !IsSymbolic()
    }

    /**
     * `Next()`: the following numeric identifier; the C# addition is
     * unchecked, so the successor of the largest `uint` is 0.  A symbolic
     * identifier has no successor.
     */
    function Next(): (r: Result<EntityId>)
      ensures r.Ok? <==> IsNumeric()
      ensures r.Ok? ==> r.value.WellFormed() && r.value.IsNumeric() && r.value.numeric == (numeric + 1) % UIntLimit
      ensures r.Err? ==> r.error == NextOfSymbolic
    {
      if IsSymbolic() then Err(NextOfSymbolic) else Ok(Numeric((numeric + 1) % UIntLimit))
    }

    /** `Equals(EntityId)`: both fields compare equal. */
    function Equals(other: EntityId): (r: bool)
      ensures r <==> this == other
    {
      symbolic == other.symbolic && numeric == other.numeric
    }

    /** `Equals(object)`: a null reference is never equal. */
    function EqualsObject(other: Nullable<EntityId>): (r: bool)
      ensures r <==> other == NonNull(this)
    {
      match other
      case Null => false
      case NonNull(o) => Equals(o)
    }

    /**
     * `GetHashCode()`: the string's hash code for a symbolic identifier
     * (given as stringHash, since .NET randomises it per process) and
     * `uint.GetHashCode()`, the number reinterpreted as a signed `int`,
     * for a numeric one.
     */
    function HashCode(stringHash: string -> int): (h: int)
      ensures IsNumeric() ==> -0x8000_0000 <= h < 0x8000_0000
      ensures IsNumeric() ==> h % UIntLimit == numeric
    {
      if IsSymbolic() then stringHash(symbolic.target)
      else if numeric < 0x8000_0000 then numeric else numeric - UIntLimit
    }

    /** `ToString()`: `EntityId('name')` or `EntityId(number)`. */
    function ToString(): (s: string)
      ensures IsSymbolic() ==> s == "EntityId('" + symbolic.target + "')"
      ensures IsNumeric() ==> s == "EntityId(" + Decimal(numeric) + ")"
    {
      if IsSymbolic() then "EntityId('" + symbolic.target + "')"
      else "EntityId(" + Decimal(numeric) + ")"
    }
  }

  /** `new EntityId(uint)`. */
  function Numeric(value: UInt): (id: EntityId)
    ensures id.IsNumeric() && !id.IsSymbolic() && id.numeric == value && id.WellFormed()
  {
    EntityId(Null, value)
  }

  /** `default(EntityId)`: the numeric identifier 0. */
  const Default: EntityId := EntityId(Null, 0)

  /**
   * `new EntityId(string)`: the argument must hold a character that is not
   * white space; it is stored lower-cased.
   */
  function Symbolic(value: Nullable<string>): (r: Result<EntityId>)
    ensures r.Ok? <==> Ensure.HasNonBlank(value)
    ensures r.Ok? ==> r.value.IsSymbolic() && !r.value.IsNumeric() && r.value.WellFormed()
    ensures r.Ok? ==> r.value == EntityId(NonNull(ToLower(value.target)), 0)
    ensures r.Err? ==> r.error == BlankArgument("value")
  {
    var s :- Ensure.NotBlank(value, "value");
    Ok(EntityId(NonNull(ToLower(s)), 0))
  }

  /** `operator ==`. */
  function EqualOp(a: EntityId, b: EntityId): (r: bool)
    ensures r <==> a.symbolic == b.symbolic && a.numeric == b.numeric
  {
    a.Equals(b)
  }

  /** `operator !=`. */
  function NotEqualOp(a: EntityId, b: EntityId): (r: bool)
    ensures r <==> !EqualOp(a, b)
  {
    !a.Equals(b)
  }

  /** The default identifier is numeric 0. */
  lemma DefaultIsNumericZero()
    ensures Default.IsNumeric() && Default == Numeric(0)
  {
  }

  /** A symbolic identifier is never equal to a numeric one. */
  lemma SymbolicNeverNumeric(value: Nullable<string>, n: UInt)
    requires Symbolic(value).Ok?
    ensures !EqualOp(Symbolic(value).value, Numeric(n))
  {
  }

  /**
   * Every identifier is of exactly one kind: the numeric constructor makes
   * numeric ones and the symbolic one symbolic ones, and `Next` keeps only
   * numeric ones going.
   */
  lemma IdentifierKinds(id: EntityId, n: UInt, value: Nullable<string>)
    ensures id.IsSymbolic() != id.IsNumeric()
    ensures Numeric(n).IsNumeric()
    ensures Symbolic(value).Ok? ==> Symbolic(value).value.IsSymbolic()
    ensures id.IsNumeric() <==> id.Next().Ok?
  {
  }

  /** Equal identifiers have equal hash codes. */
  lemma EqualsHashCode(a: EntityId, b: EntityId, stringHash: string -> int)
    requires a.Equals(b)
    ensures a.HashCode(stringHash) == b.HashCode(stringHash)
  {
  }

  /** Symbolic identifiers ignore case: two names equal up to case give equal identifiers. */
  lemma SymbolicIgnoresCase(a: string, b: string)
    requires Ensure.HasNonBlank(NonNull(a)) && Ensure.HasNonBlank(NonNull(b))
    ensures Symbolic(NonNull(a)) == Symbolic(NonNull(b)) <==> ToLower(a) == ToLower(b)
  {
  }

  /** The identifiers of the library's own tests. */
  lemma Examples()
    ensures Symbolic(NonNull("A")).Ok? && Symbolic(NonNull("A")) == Symbolic(NonNull("a"))
    ensures Symbolic(NonNull("A")) != Symbolic(NonNull("B"))
    ensures Symbolic(NonNull("A")).value.ToString() == "EntityId('a')"
    ensures Numeric(1).ToString() == "EntityId(1)"
    ensures Numeric(1).Next() == Ok(Numeric(2))
    ensures Symbolic(Null).Err? && Symbolic(NonNull(" \t")).Err? && Symbolic(NonNull("")).Err?
  {
    assert Ensure.HasNonBlank(NonNull("A")) by {
      assert !IsWhiteSpace("A"[0]);
    }
    assert ToLower("A") == "a";
    assert ToLower("B") == "b";
    assert Ensure.HasNonBlank(NonNull("B")) by {
      assert !IsWhiteSpace("B"[0]);
    }
  }

  /** Which position first tells the two renderings apart. */
  lemma {:induction false} ToStringInjective(a: EntityId, b: EntityId)
    requires a.WellFormed() && b.WellFormed()
    ensures a.ToString() == b.ToString() <==> a == b
  {
    var sa, sb := a.ToString(), b.ToString();
    if a.IsSymbolic() && b.IsNumeric() {
      assert sa[9] == '\'' && IsDigit(sb[9]);
    } else if a.IsNumeric() && b.IsSymbolic() {
      assert sb[9] == '\'' && IsDigit(sa[9]);
    } else if a.IsSymbolic() && sa == sb {
      var x, y := a.symbolic.target, b.symbolic.target;
      assert sa[10..|sa| - 2] == x;
      assert sb[10..|sb| - 2] == y;
    } else if a.IsNumeric() && sa == sb {
      assert sa[9..|sa| - 1] == Decimal(a.numeric);
      assert sb[9..|sb| - 1] == Decimal(b.numeric);
      DecimalInjective(a.numeric, b.numeric);
    }
  }

  /** The identifier reached from id after k calls of `Next`. */
  function Successor(id: EntityId, k: nat): (r: EntityId)
    requires id.IsNumeric()
    ensures r.IsNumeric()
  {
    if k == 0 then id else Successor(id, k - 1).Next().value
  }

  lemma {:induction false} SuccessorValue(id: EntityId, k: nat)
    requires id.IsNumeric()
    ensures Successor(id, k) == Numeric((id.numeric + k) % UIntLimit)
  {
    if k > 0 {
      SuccessorValue(id, k - 1);
      StepMod(id.numeric + k - 1);
    }
  }

  /** Adding one after reducing modulo 2^32 is adding one before. */
  lemma StepMod(a: nat)
    ensures (a % UIntLimit + 1) % UIntLimit == (a + 1) % UIntLimit
  {
    var q, r := a / UIntLimit, a % UIntLimit;
    assert a == q * UIntLimit + r;
    if r + 1 < UIntLimit {
      ModOf(a + 1, q, r + 1);
    } else {
      ModOf(a + 1, q + 1, 0);
    }
  }

  /** The remainder of q * 2^32 + r is r. */
  lemma ModOf(a: nat, q: nat, r: nat)
    requires r < UIntLimit && a == q * UIntLimit + r
    ensures a % UIntLimit == r
  {
  }

  /** Numbers less than 2^32 apart have different remainders. */
  lemma ModDistinct(a: nat, d: nat)
    requires 0 < d < UIntLimit
    ensures a % UIntLimit != (a + d) % UIntLimit
  {
    var q, r := a / UIntLimit, a % UIntLimit;
    assert a == q * UIntLimit + r;
    if r + d < UIntLimit {
      ModOf(a + d, q, r + d);
    } else {
      ModOf(a + d, q + 1, r + d - UIntLimit);
    }
  }

  /** Counting on from a numeric identifier repeats only after 2^32 steps. */
  lemma SuccessorsDistinct(id: EntityId, i: nat, j: nat)
    requires id.IsNumeric() && i < j < i + UIntLimit
    ensures Successor(id, i) != Successor(id, j)
    ensures Successor(id, UIntLimit) == id
  {
    var a := id.numeric + i;
    SuccessorValue(id, i);
    SuccessorValue(id, j);
    ModDistinct(a, j - i);
    assert a + (j - i) == id.numeric + j;
    assert Successor(id, i).numeric != Successor(id, j).numeric;
    SuccessorValue(id, UIntLimit);
    ModOf(id.numeric + UIntLimit, 1, id.numeric);
    assert Successor(id, UIntLimit).numeric == id.numeric;
  }
}
