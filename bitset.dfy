/**
 * The 512-bit membership vector of src/NEconomicon/BitSet.cs.
 *
 * The vector is kept as eight unsigned 64-bit words: word n holds the bits of
 * indexes 64*n .. 64*n+63, and index i is checked with the mask
 * `1UL << (i - 64*n)`.  The reading operations (Check, CheckAllFrom,
 * CheckAnyFrom, Equals, the hash code) are functions on the value `Bits` of
 * the eight words; the mutable `BitSet` object updates its eight fields in
 * place.  Both are related to the set of indexes `Elems()` whose bits are set.
 */
module BitSets {
  import opened Results
  import opened Words

  /** Number of indexes; valid indexes are MinIndex .. MaxIndex. */
  const IndexesCount: int := 512
  const MinIndex: int := 0
  const MaxIndex: int := IndexesCount - 1

  /** Number of words. */
  const Blocks: nat := 8

  /** Every valid index. */
  ghost const AllIndexes: set<int> := set i | MinIndex <= i <= MaxIndex

  /** Index i lies in word n at offset r. */
  lemma DivideIndex(i: int, n: int, r: int)
    requires 0 <= r < WordSize && i == WordSize * n + r
    ensures i / WordSize == n && i % WordSize == r
  {
  }

  /** The value of a bitset: its eight words, `_f1` .. `_f8`. */
  datatype Bits = Bits(f1: Word, f2: Word, f3: Word, f4: Word,
                       f5: Word, f6: Word, f7: Word, f8: Word)
  {
    /** Word n, for n in 0 .. 7. */
    function Block(n: nat): Word
      requires n < Blocks
    {
      if n == 0 then f1
      else if n == 1 then f2
      else if n == 2 then f3
      else if n == 3 then f4
      else if n == 4 then f5
      else if n == 5 then f6
      else if n == 6 then f7
      else f8
    }

    /** The same bits with word n replaced by w. */
    function WithBlock(n: nat, w: Word): (b: Bits)
      requires n < Blocks
      ensures b.Block(n) == w
      ensures forall m: nat | m < Blocks && m != n :: b.Block(m) == Block(m)
    {
      if n == 0 then this.(f1 := w)
      else if n == 1 then this.(f2 := w)
      else if n == 2 then this.(f3 := w)
      else if n == 3 then this.(f4 := w)
      else if n == 4 then this.(f5 := w)
      else if n == 5 then this.(f6 := w)
      else if n == 6 then this.(f7 := w)
      else this.(f8 := w)
    }

    /** Index i is valid and its bit is set. */
    predicate Has(i: int)
    {
      MinIndex <= i <= MaxIndex && Bit(Block(i / WordSize), i % WordSize)
    }

    /** The indexes whose bits are set. */
    ghost function Elems(): set<int>
    {
      set i | MinIndex <= i <= MaxIndex && Has(i)
    }

    /**
     * `Check(index)`: whether the bit of a valid index is set; an index
     * above MaxIndex is an error.
     */
    function Check(index: int): (r: Result<bool>)
      requires MinIndex <= index
      ensures index <= MaxIndex ==> r == Ok(index in Elems())
      ensures MaxIndex < index ==> r == Err(IndexTooBig(index))
    {
      if index < 64 then
        MaskTest(f1, index); DivideIndex(index, 0, index);
        Ok(WordAnd(f1, Mask(index)) != 0)
      else if index < 128 then
        MaskTest(f2, index - 64); DivideIndex(index, 1, index - 64);
        Ok(WordAnd(f2, Mask(index - 64)) != 0)
      else if index < 192 then
        MaskTest(f3, index - 128); DivideIndex(index, 2, index - 128);
        Ok(WordAnd(f3, Mask(index - 128)) != 0)
      else if index < 256 then
        MaskTest(f4, index - 192); DivideIndex(index, 3, index - 192);
        Ok(WordAnd(f4, Mask(index - 192)) != 0)
      else if index < 320 then
        MaskTest(f5, index - 256); DivideIndex(index, 4, index - 256);
        Ok(WordAnd(f5, Mask(index - 256)) != 0)
      else if index < 384 then
        MaskTest(f6, index - 320); DivideIndex(index, 5, index - 320);
        Ok(WordAnd(f6, Mask(index - 320)) != 0)
      else if index < 448 then
        MaskTest(f7, index - 384); DivideIndex(index, 6, index - 384);
        Ok(WordAnd(f7, Mask(index - 384)) != 0)
      else if index < 512 then
        MaskTest(f8, index - 448); DivideIndex(index, 7, index - 448);
        Ok(WordAnd(f8, Mask(index - 448)) != 0)
      else
        Err(IndexTooBig(index))
    }

    /**
     * `CheckAllFrom(other)`: every index of other is an index of this.  The
     * source tests `(_fn & other._fn) == other._fn` for the eight words and
     * takes the conjunction; here the conjunction is a recursion over words.
     */
    function CheckAllFrom(other: Bits): (r: bool)
      ensures r <==> other.Elems() <= Elems()
    {
      AllFromBlocks(this, other, Blocks);
      ContainsByBlocks(this, other);
      AllFrom(other, Blocks)
    }

    /** Words 0 .. n-1 of other are covered by those of this. */
    function AllFrom(other: Bits, n: nat): bool
      requires n <= Blocks
    {
      n == 0 || (WordAnd(Block(n - 1), other.Block(n - 1)) == other.Block(n - 1) && AllFrom(other, n - 1))
    }

    /**
     * `CheckAnyFrom(other)`: this and other share an index.  The source tests
     * `(_fn & other._fn) != 0` for the eight words and takes the disjunction.
     */
    function CheckAnyFrom(other: Bits): (r: bool)
      ensures r <==> Elems() * other.Elems() != {}
    {
      AnyFromBlocks(this, other, Blocks);
      MeetsByBlocks(this, other);
      AnyFrom(other, Blocks)
    }

    /** Some word among 0 .. n-1 of other meets the same word of this. */
    function AnyFrom(other: Bits, n: nat): bool
      requires n <= Blocks
    {
      n != 0 && (WordAnd(Block(n - 1), other.Block(n - 1)) != 0 || AnyFrom(other, n - 1))
    }

    /** `Equals(BitSet)`: word-wise equality, which is equality of the sets. */
    function Equals(other: Bits): (r: bool)
      ensures r <==> this == other
      ensures r <==> Elems() == other.Elems()
    {
      ElemsDetermine(this, other);
      f1 == other.f1 && f2 == other.f2 && f3 == other.f3 && f4 == other.f4
      && f5 == other.f5 && f6 == other.f6 && f7 == other.f7 && f8 == other.f8
    }

    /**
     * `Equals(object)`: the same reference, or a bitset equal to this one;
     * never a null reference.
     */
    function EqualsObject(other: Nullable<Bits>): (r: bool)
      ensures r <==> other == NonNull(this)
    {
      match other
      case Null => false
      case NonNull(o) => Equals(o)
    }

    /**
     * `GetHashCode()`: FNV-1 over the eight words, with 32-bit wrap-around
     * of the product; the result is the 32-bit pattern of the C# `int`.
     */
    function HashCode(): (h: nat)
      ensures h < HashLimit
    {
      var h1 := FnvStep(HashSeed, UlongHash(f1));
      var h2 := FnvStep(h1, UlongHash(f2));
      var h3 := FnvStep(h2, UlongHash(f3));
      var h4 := FnvStep(h3, UlongHash(f4));
      var h5 := FnvStep(h4, UlongHash(f5));
      var h6 := FnvStep(h5, UlongHash(f6));
      var h7 := FnvStep(h6, UlongHash(f7));
      FnvStep(h7, UlongHash(f8))
    }
  }

  /** `BitSet.Empty()`. */
  const EmptyBits: Bits := Bits(0, 0, 0, 0, 0, 0, 0, 0)

  /** `BitSet.Full()`. */
  const FullBits: Bits :=
    Bits(MaxWord, MaxWord, MaxWord, MaxWord, MaxWord, MaxWord, MaxWord, MaxWord)

  /** `operator ==`. */
  function EqualOp(a: Bits, b: Bits): (r: bool)
    ensures r <==> a.Elems() == b.Elems()
  {
    a.Equals(b)
  }

  /** `operator !=`. */
  function NotEqualOp(a: Bits, b: Bits): (r: bool)
    ensures r <==> a.Elems() != b.Elems()
  {
    !a.Equals(b)
  }

  /** Bitsets that are Equals have the same hash code. */
  lemma EqualsHashCode(a: Bits, b: Bits)
    requires a.Equals(b)
    ensures a.HashCode() == b.HashCode()
  {
  }

  // ---------------------------------------------------------------------
  // From words to sets of indexes
  // ---------------------------------------------------------------------

  /** Index 64*n + r is valid, and it is in x exactly when bit r of word n is. */
  lemma HasAt(x: Bits, n: nat, r: nat)
    requires n < Blocks && r < WordSize
    ensures MinIndex <= WordSize * n + r <= MaxIndex
    ensures x.Has(WordSize * n + r) == Bit(x.Block(n), r)
  {
    DivideIndex(WordSize * n + r, n, r);
  }

  /** The word tests of CheckAllFrom on words 0 .. n-1 are containment word by word. */
  lemma {:induction false} AllFromBlocks(x: Bits, y: Bits, n: nat)
    requires n <= Blocks
    ensures x.AllFrom(y, n) <==> forall m: nat | m < n :: Covers(x.Block(m), y.Block(m))
  {
    if n > 0 {
      WordContains(x.Block(n - 1), y.Block(n - 1));
      AllFromBlocks(x, y, n - 1);
    }
  }

  /** Word-wise containment on all eight words is containment of the index sets. */
  lemma ContainsByBlocks(x: Bits, y: Bits)
    ensures (forall n: nat | n < Blocks :: Covers(x.Block(n), y.Block(n)))
            <==> y.Elems() <= x.Elems()
  {
    if forall n: nat | n < Blocks :: Covers(x.Block(n), y.Block(n)) {
      forall i | i in y.Elems()
        ensures i in x.Elems()
      {
        var n, r := i / WordSize, i % WordSize;
        assert Covers(x.Block(n), y.Block(n));
      }
    } else {
      var n: nat :| n < Blocks && !Covers(x.Block(n), y.Block(n));
      var r: nat :| r < WordSize && Bit(y.Block(n), r) && !Bit(x.Block(n), r);
      HasAt(x, n, r);
      HasAt(y, n, r);
      assert WordSize * n + r in y.Elems();
    }
  }

  /** The word tests of CheckAnyFrom on words 0 .. n-1 find a word where both meet. */
  lemma {:induction false} AnyFromBlocks(x: Bits, y: Bits, n: nat)
    requires n <= Blocks
    ensures x.AnyFrom(y, n) <==> exists m: nat | m < n :: Overlaps(x.Block(m), y.Block(m))
  {
    if n > 0 {
      WordMeets(x.Block(n - 1), y.Block(n - 1));
      AnyFromBlocks(x, y, n - 1);
    }
  }

  /** Some word where both meet is a shared index. */
  lemma MeetsByBlocks(x: Bits, y: Bits)
    ensures (exists n: nat | n < Blocks :: Overlaps(x.Block(n), y.Block(n)))
            <==> x.Elems() * y.Elems() != {}
  {
    if exists n: nat | n < Blocks :: Overlaps(x.Block(n), y.Block(n)) {
      var n: nat :| n < Blocks && Overlaps(x.Block(n), y.Block(n));
      var r: nat :| r < WordSize && Bit(x.Block(n), r) && Bit(y.Block(n), r);
      HasAt(x, n, r);
      HasAt(y, n, r);
      assert WordSize * n + r in x.Elems() * y.Elems();
    }
    if x.Elems() * y.Elems() != {} {
      var i :| i in x.Elems() * y.Elems();
      var n: nat, r: nat := i / WordSize, i % WordSize;
      assert Overlaps(x.Block(n), y.Block(n));
    }
  }

  /** The set of indexes determines the words. */
  lemma ElemsDetermine(x: Bits, y: Bits)
    ensures x.Elems() == y.Elems() <==> x == y
  {
    if x.Elems() == y.Elems() {
      forall n: nat | n < Blocks
        ensures x.Block(n) == y.Block(n)
      {
        forall r: nat | r < WordSize
          ensures Bit(x.Block(n), r) == Bit(y.Block(n), r)
        {
          HasAt(x, n, r);
          HasAt(y, n, r);
          assert x.Has(WordSize * n + r) == (WordSize * n + r in x.Elems());
        }
        WordExtensionality(x.Block(n), y.Block(n));
      }
      assert x.Block(0) == y.Block(0) && x.Block(1) == y.Block(1);
      assert x.Block(2) == y.Block(2) && x.Block(3) == y.Block(3);
      assert x.Block(4) == y.Block(4) && x.Block(5) == y.Block(5);
      assert x.Block(6) == y.Block(6) && x.Block(7) == y.Block(7);
    }
  }

  // ---------------------------------------------------------------------
  // How the updates change the set of indexes
  // ---------------------------------------------------------------------

  /** `_fn |= 1UL << j` adds index 64*n + j. */
  lemma SetBlockElems(x: Bits, n: nat, j: nat)
    requires n < Blocks && j < WordSize
    ensures x.WithBlock(n, WordOr(x.Block(n), Mask(j))).Elems() == x.Elems() + {WordSize * n + j}
  {
    var y := x.WithBlock(n, WordOr(x.Block(n), Mask(j)));
    HasAt(y, n, j);
    forall i | MinIndex <= i <= MaxIndex
      ensures y.Has(i) == (x.Has(i) || i == WordSize * n + j)
    {
      var m, r := i / WordSize, i % WordSize;
      if m == n {
        SetBitOfWord(x.Block(n), j, r);
      }
    }
  }

  /** `_fn &= ~(1UL << j)` removes index 64*n + j. */
  lemma ClearBlockElems(x: Bits, n: nat, j: nat)
    requires n < Blocks && j < WordSize
    ensures x.WithBlock(n, WordAnd(x.Block(n), Not(Mask(j)))).Elems() == x.Elems() - {WordSize * n + j}
  {
    var y := x.WithBlock(n, WordAnd(x.Block(n), Not(Mask(j))));
    forall i | MinIndex <= i <= MaxIndex
      ensures y.Has(i) == (x.Has(i) && i != WordSize * n + j)
    {
      var m, r := i / WordSize, i % WordSize;
      if m == n {
        ClearBitOfWord(x.Block(n), j, r);
      }
    }
  }

  /** Word-wise `|` is the union of the index sets. */
  lemma UnionElems(x: Bits, y: Bits, z: Bits)
    requires forall n: nat | n < Blocks :: z.Block(n) == WordOr(x.Block(n), y.Block(n))
    ensures z.Elems() == x.Elems() + y.Elems()
  {
    forall i | MinIndex <= i <= MaxIndex
      ensures z.Has(i) == (x.Has(i) || y.Has(i))
    {
      var n: nat := i / WordSize;
      assert z.Block(n) == WordOr(x.Block(n), y.Block(n));
    }
  }

  /** The empty bitset has no index. */
  lemma EmptyElems()
    ensures EmptyBits.Elems() == {}
  {
    forall i | MinIndex <= i <= MaxIndex
      ensures !EmptyBits.Has(i)
    {
      ZeroWordBits(i % WordSize);
    }
  }

  /** The full bitset has every index. */
  lemma FullElems()
    ensures FullBits.Elems() == AllIndexes
  {
    forall i | MinIndex <= i <= MaxIndex
      ensures FullBits.Has(i)
    {
      MaxWordBits(i % WordSize);
    }
  }

  // ---------------------------------------------------------------------
  // The mutable object
  // ---------------------------------------------------------------------

  class BitSet {
    var f1: Word
    var f2: Word
    var f3: Word
    var f4: Word
    var f5: Word
    var f6: Word
    var f7: Word
    var f8: Word

    /** The current eight words. */
    function Value(): Bits
      reads this
    {
      Bits(f1, f2, f3, f4, f5, f6, f7, f8)
    }

    /** The indexes currently set. */
    ghost function Contents(): set<int>
      reads this
    {
      Value().Elems()
    }

    constructor (w1: Word, w2: Word, w3: Word, w4: Word,
                 w5: Word, w6: Word, w7: Word, w8: Word)
      ensures Value() == Bits(w1, w2, w3, w4, w5, w6, w7, w8)
    {
      f1, f2, f3, f4 := w1, w2, w3, w4;
      f5, f6, f7, f8 := w5, w6, w7, w8;
    }

    /** `BitSet.Empty()`: a new bitset with no index. */
    static method Empty() returns (b: BitSet)
      ensures fresh(b)
      ensures b.Value() == EmptyBits && b.Contents() == {}
    {
      b := new BitSet(0, 0, 0, 0, 0, 0, 0, 0);
      EmptyElems();
    }

    /** `BitSet.Full()`: a new bitset with every index. */
    static method Full() returns (b: BitSet)
      ensures fresh(b)
      ensures b.Value() == FullBits && b.Contents() == AllIndexes
    {
      b := new BitSet(MaxWord, MaxWord, MaxWord, MaxWord, MaxWord, MaxWord, MaxWord, MaxWord);
      FullElems();
    }

    /** `Set(index)`: adds a valid index; an index above MaxIndex is an error. */
    method Set(index: int) returns (r: Result<()>)
      requires MinIndex <= index
      modifies this
      ensures index <= MaxIndex ==> r == Ok(()) && Contents() == old(Contents()) + {index}
      ensures MaxIndex < index ==> r == Err(IndexTooBig(index)) && Value() == old(Value())
    {
      ghost var before := Value();
      ghost var n: nat := 0;
      var j: nat := 0;
      if index < 64 {
        n, j := 0, index;
        f1 := WordOr(f1, Mask(j));
      } else if index < 128 {
        n, j := 1, index - 64;
        f2 := WordOr(f2, Mask(j));
      } else if index < 192 {
        n, j := 2, index - 128;
        f3 := WordOr(f3, Mask(j));
      } else if index < 256 {
        n, j := 3, index - 192;
        f4 := WordOr(f4, Mask(j));
      } else if index < 320 {
        n, j := 4, index - 256;
        f5 := WordOr(f5, Mask(j));
      } else if index < 384 {
        n, j := 5, index - 320;
        f6 := WordOr(f6, Mask(j));
      } else if index < 448 {
        n, j := 6, index - 384;
        f7 := WordOr(f7, Mask(j));
      } else if index < 512 {
        n, j := 7, index - 448;
        f8 := WordOr(f8, Mask(j));
      } else {
        return Err(IndexTooBig(index));
      }
      assert Value() == before.WithBlock(n, WordOr(before.Block(n), Mask(j)));
      SetBlockElems(before, n, j);
      r := Ok(());
    }

    /** `Clear(index)`: removes a valid index; an index above MaxIndex is an error. */
    method Clear(index: int) returns (r: Result<()>)
      requires MinIndex <= index
      modifies this
      ensures index <= MaxIndex ==> r == Ok(()) && Contents() == old(Contents()) - {index}
      ensures MaxIndex < index ==> r == Err(IndexTooBig(index)) && Value() == old(Value())
    {
      ghost var before := Value();
      ghost var n: nat := 0;
      var j: nat := 0;
      if index < 64 {
        n, j := 0, index;
        f1 := WordAnd(f1, Not(Mask(j)));
      } else if index < 128 {
        n, j := 1, index - 64;
        f2 := WordAnd(f2, Not(Mask(j)));
      } else if index < 192 {
        n, j := 2, index - 128;
        f3 := WordAnd(f3, Not(Mask(j)));
      } else if index < 256 {
        n, j := 3, index - 192;
        f4 := WordAnd(f4, Not(Mask(j)));
      } else if index < 320 {
        n, j := 4, index - 256;
        f5 := WordAnd(f5, Not(Mask(j)));
      } else if index < 384 {
        n, j := 5, index - 320;
        f6 := WordAnd(f6, Not(Mask(j)));
      } else if index < 448 {
        n, j := 6, index - 384;
        f7 := WordAnd(f7, Not(Mask(j)));
      } else if index < 512 {
        n, j := 7, index - 448;
        f8 := WordAnd(f8, Not(Mask(j)));
      } else {
        return Err(IndexTooBig(index));
      }
      assert Value() == before.WithBlock(n, WordAnd(before.Block(n), Not(Mask(j))));
      ClearBlockElems(before, n, j);
      r := Ok(());
    }

    /**
     * `SetAllFrom(other)`: adds every index of other.  Only other's eight
     * words are read, so it is passed by value.
     */
    method SetAllFrom(other: Bits)
      modifies this
      ensures Contents() == old(Contents()) + other.Elems()
      ensures Value() == Bits(WordOr(old(f1), other.f1), WordOr(old(f2), other.f2),
                              WordOr(old(f3), other.f3), WordOr(old(f4), other.f4),
                              WordOr(old(f5), other.f5), WordOr(old(f6), other.f6),
                              WordOr(old(f7), other.f7), WordOr(old(f8), other.f8))
    {
      ghost var x := Value();
      f1 := WordOr(f1, other.f1);
      f2 := WordOr(f2, other.f2);
      f3 := WordOr(f3, other.f3);
      f4 := WordOr(f4, other.f4);
      f5 := WordOr(f5, other.f5);
      f6 := WordOr(f6, other.f6);
      f7 := WordOr(f7, other.f7);
      f8 := WordOr(f8, other.f8);
      UnionElems(x, other, Value());
    }

    /** `ClearAll()`: removes every index. */
    method ClearAll()
      modifies this
      ensures Value() == EmptyBits && Contents() == {}
    {
      f1, f2, f3, f4, f5, f6, f7, f8 := 0, 0, 0, 0, 0, 0, 0, 0;
      EmptyElems();
    }
  }
}
