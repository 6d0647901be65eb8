/**
 * Query cache keys (src/NEconomicon/Storage/QueryKey.cs): the include and
 * exclude bitsets of a query.  The key holds the two bitsets' values; the
 * library holds references to the builder's `BitSet` objects, which nothing
 * changes after the key is made.
 */
module QueryKeys {
  import opened Results
  import opened Words
  import opened BitSets

  datatype QueryKey = QueryKey(includes: Bits, excludes: Bits)
  {
    /**
     * `IsMatch(bitSet)`: the bitset shares an index with `Include` and none
     * with `Exclude`.  Unlike a query's own test, one included index is
     * enough.
     */
    function IsMatch(b: Bits): (r: bool)
      ensures r <==> b.Elems() * includes.Elems() != {} && b.Elems() * excludes.Elems() == {}
    {
      b.CheckAnyFrom(includes) && !b.CheckAnyFrom(excludes)
    }

    /**
     * `Equals(QueryKey?)`: both bitsets are equal.  The argument is
     * dereferenced without a test, so a null argument fails.
     */
    function Equals(other: Nullable<QueryKey>): (r: Result<bool>)
      ensures other.Null? ==> r == Err(NullReference)
      ensures other.NonNull? ==> r.Ok? && (r.value <==> this == other.target)
      ensures other.NonNull? ==>
        (r.value <==> (includes.Elems() == other.target.includes.Elems() && excludes.Elems() == other.target.excludes.Elems()))
    {
      match other
      case Null => Err(NullReference)
      case NonNull(o) => Ok(EqualOp(includes, o.includes) && EqualOp(excludes, o.excludes))
    }

    /** `Equals(object)`: a null reference is never equal. */
    function EqualsObject(other: Nullable<QueryKey>): (r: bool)
      ensures r <==> other == NonNull(this)
    {
      match other
      case Null => false
      case NonNull(_) => Equals(other).value
    }

    /** `GetHashCode()`: two FNV steps over the bitsets' hash codes, modulo 2^32. */
    function HashCode(): (h: nat)
      ensures h < HashLimit
    {
      FnvStep(FnvStep(HashSeed, includes.HashCode()), excludes.HashCode())
    }
  }

  /** Equal keys have equal hash codes. */
  lemma EqualsHashCode(a: QueryKey, b: QueryKey)
    requires a.Equals(NonNull(b)) == Ok(true)
    ensures a.HashCode() == b.HashCode()
  {
  }

  /** A key with an empty `Include` matches no bitset. */
  lemma EmptyIncludeNeverMatches(excludes: Bits, b: Bits)
    ensures !QueryKey(EmptyBits, excludes).IsMatch(b)
  {
    EmptyElems();
  }
}
