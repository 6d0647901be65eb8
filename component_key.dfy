/**
 * Component keys (src/NEconomicon/Storage/ComponentKey.cs): a readonly
 * struct around one `ulong`.
 */
module ComponentKeys {
  import opened Results
  import opened Words
  import opened Text

  datatype ComponentKey = ComponentKey(value: Word)
  {
    /** `Equals(ComponentKey)`: the values compare equal. */
    function Equals(other: ComponentKey): (r: bool)
      ensures r <==> this == other
    {
      value == other.value
    }

    /** `Equals(object)`: a null reference is never equal. */
    function EqualsObject(other: Nullable<ComponentKey>): (r: bool)
      ensures r <==> other == NonNull(this)
    {
      match other
      case Null => false
      case NonNull(o) => Equals(o)
    }

    /** `GetHashCode()`: `ulong.GetHashCode()` of the value. */
    function HashCode(): (h: nat)
      ensures h < HashLimit
    {
      UlongHash(value)
    }

    /** `ToString()`: `CompKey(value)`. */
    function ToString(): (s: string)
      ensures |s| > |"CompKey()"| && s[..8] == "CompKey(" && s[|s| - 1] == ')'
      ensures forall i | 8 <= i < |s| - 1 :: IsDigit(s[i])
    {
      "CompKey(" + Decimal(value) + ")"
    }
  }

  /** `operator ==`. */
  function EqualOp(a: ComponentKey, b: ComponentKey): (r: bool)
    ensures r <==> a.Equals(b)
  {
    a.value == b.value
  }

  /** `operator !=`. */
  function NotEqualOp(a: ComponentKey, b: ComponentKey): (r: bool)
    ensures r <==> !a.Equals(b)
  {
    a.value != b.value
  }

  /** Equal keys have equal hash codes. */
  lemma EqualsHashCode(a: ComponentKey, b: ComponentKey)
    requires a.Equals(b)
    ensures a.HashCode() == b.HashCode()
  {
  }

  /** The rendering is the decimal value in `CompKey(...)`, and tells keys apart. */
  lemma ToStringInjective(a: ComponentKey, b: ComponentKey)
    ensures a.ToString()[8..|a.ToString()| - 1] == Decimal(a.value)
    ensures a.ToString() == b.ToString() <==> a == b
  {
    var sa, sb := a.ToString(), b.ToString();
    assert sa[8..|sa| - 1] == Decimal(a.value);
    assert sb[8..|sb| - 1] == Decimal(b.value);
    DecimalInjective(a.value, b.value);
  }
}
