/** The two bin maps.  A binmap_t is one 32-bit word; bit i says that bin i is
    not empty.  Each macro is kept bit for bit, and each is tied to the set of
    indices the word stands for. */
module Bitmaps {

  type Binmap = bv32

  /** The bin index i (0..31) as a word, and back. */
  function Word(i: int): bv32
    requires 0 <= i < 32
  {
    (if i % 2 == 1 then 1 else 0) | (if i / 2 % 2 == 1 then 2 else 0) | (if i / 4 % 2 == 1 then 4 else 0)
    | (if i / 8 % 2 == 1 then 8 else 0) | (if i / 16 == 1 then 16 else 0)
  }

  function Index(b: bv32): (i: int)
    ensures 0 <= i < 32
  {
    (if b & 1 == 1 then 1 else 0) + (if b & 2 == 2 then 2 else 0) + (if b & 4 == 4 then 4 else 0)
    + (if b & 8 == 8 then 8 else 0) + (if b & 16 == 16 then 16 else 0)
  }

  lemma IndexOfWord(i: int)
    requires 0 <= i < 32
    ensures Word(i) < 32 && Index(Word(i)) == i
  {
    WordBits(i % 2 == 1, i / 2 % 2 == 1, i / 4 % 2 == 1, i / 8 % 2 == 1, i / 16 == 1);
  }

  lemma WordBits(b0: bool, b1: bool, b2: bool, b3: bool, b4: bool)
    ensures var b: bv32 := (if b0 then 1 else 0) | (if b1 then 2 else 0) | (if b2 then 4 else 0) | (if b3 then 8 else 0)
                           | (if b4 then 16 else 0);
            && b < 32 && (b & 1 == 1 <==> b0) && (b & 2 == 2 <==> b1) && (b & 4 == 4 <==> b2)
            && (b & 8 == 8 <==> b3) && (b & 16 == 16 <==> b4)
  {
  }

  lemma WordOfIndex(b: bv32)
    requires b < 32
    ensures Word(Index(b)) == b
  {
  }

  lemma WordOrder(i: int, j: int)
    requires 0 <= i < 32 && 0 <= j < 32
    ensures Word(i) < Word(j) <==> i < j
    ensures Word(i) == Word(j) <==> i == j
  {
    hide Word, Index;
    IndexOfWord(i);
    IndexOfWord(j);
    IndexOrder(Word(i), Word(j));
  }

  lemma IndexOrder(b: bv32, c: bv32)
    requires b < 32 && c < 32
    ensures b < c <==> Index(b) < Index(c)
  {
  }

  lemma IndexSum(b: bv32, c: bv32)
    requires b < 32 && c < 32 && b + c < 32
    ensures Index(b + c) == Index(b) + Index(c)
  {
  }

  // ---- the macros ----

  function Shl(x: bv32, k: bv32): bv32 {
    if k < 32 then x << k else 0
  }

  function Shr(x: bv32, k: bv32): bv32 {
    if k < 32 then x >> k else 0
  }

  function Idx2Bit(k: bv32): bv32 {
    Shl(1, k)
  }

  function LeastBit(x: bv32): bv32 {
    x & (0 - x)
  }

  function LeftBits(x: bv32): bv32 {
    (x << 1) | (0 - (x << 1))
  }

  /** left_bits(idx2bit(k)) & m */
  function Above(m: bv32, k: bv32): bv32 {
    LeftBits(Idx2Bit(k)) & m
  }

  /** compute_bit2idx, the portable version. */
  function Bit2Idx(x: bv32): bv32 {
    var y0 := x - 1;
    var k0 := (y0 >> 12) & 16;
    var y1 := Shr(y0, k0);
    var k1 := (y1 >> 5) & 8;
    var y2 := Shr(y1, k1);
    var k2 := (y2 >> 2) & 4;
    var y3 := Shr(y2, k2);
    var k3 := (y3 >> 1) & 2;
    var y4 := Shr(y3, k3);
    var k4 := y4 & 1;
    k0 + k1 + k2 + k3 + k4 + Shr(y4, k4)
  }

  // ---- bits of a word ----

  predicate Bit(m: Binmap, k: bv32) {
    Shr(m, k) & 1 == 1
  }

  predicate At(m: Binmap, i: int)
    requires 0 <= i < 32
  {
    Bit(m, Word(i))
  }

  /** s is the set of the indices marked in m. */
  ghost predicate Means(m: Binmap, s: set<int>) {
    && (forall i :: i in s ==> 0 <= i < 32)
    && (forall i {:trigger At(m, i)} :: 0 <= i < 32 ==> (At(m, i) <==> i in s))
  }

  /** compute_bit2idx undoes idx2bit, on each of the 32 bits. */
  lemma Bit2IdxInvertsIdx2Bit(k: bv32)
    requires k < 32
    ensures Bit2Idx(Idx2Bit(k)) == k
  {
  }

  /** least_bit followed by compute_bit2idx finds the lowest set bit. */
  lemma LeastBitIndex(x: bv32, k: bv32)
    requires x != 0 && k < 32
    ensures Bit2Idx(LeastBit(x)) < 32
    ensures Bit(x, Bit2Idx(LeastBit(x)))
    ensures Bit(x, k) ==> Bit2Idx(LeastBit(x)) <= k
  {
  }

  /** left_bits(idx2bit(i)) selects exactly the bits above i. */
  lemma LeftBitsAt(m: bv32, i: bv32, k: bv32)
    requires i < 32 && k < 32
    ensures Bit(Above(m, i), k) <==> i < k && Bit(m, k)
  {
  }

  lemma SomeBit(m: bv32) returns (k: bv32)
    requires m != 0
    ensures k < 32 && Bit(m, k)
  {
    LeastBitIndex(m, 0);
    k := Bit2Idx(LeastBit(m));
  }

  method Mark(m: Binmap, i: int, ghost s: set<int>) returns (m': Binmap)
    requires Means(m, s) && 0 <= i < 32
    ensures Means(m', s + {i})
  {
    hide Word, Index, Idx2Bit, Bit;
    m' := m | Idx2Bit(Word(i));
    forall j | 0 <= j < 32 ensures At(m', j) <==> j in s + {i} {
      IndexOfWord(j);
      IndexOfWord(i);
      WordOrder(i, j);
      MarkBit(m, Word(i), Word(j));
      assert At(m, j) <==> j in s;
    }
  }

  lemma MarkBit(m: Binmap, i: bv32, j: bv32)
    requires i < 32 && j < 32
    ensures Bit(m | Idx2Bit(i), j) <==> i == j || Bit(m, j)
  {
  }

  lemma ClearBit(m: Binmap, i: bv32, j: bv32)
    requires i < 32 && j < 32
    ensures Bit(m & !Idx2Bit(i), j) <==> i != j && Bit(m, j)
  {
  }

  lemma TestBit(m: Binmap, i: bv32)
    requires i < 32
    ensures m & Idx2Bit(i) != 0 <==> Bit(m, i)
  {
  }

  method Clear(m: Binmap, i: int, ghost s: set<int>) returns (m': Binmap)
    requires Means(m, s) && 0 <= i < 32
    ensures Means(m', s - {i})
  {
    hide Word, Index, Idx2Bit, Bit;
    m' := m & !Idx2Bit(Word(i));
    forall j | 0 <= j < 32 ensures At(m', j) <==> j in s - {i} {
      IndexOfWord(j);
      IndexOfWord(i);
      WordOrder(i, j);
      ClearBit(m, Word(i), Word(j));
      assert At(m, j) <==> j in s;
    }
  }

  method IsMarked(m: Binmap, i: int, ghost s: set<int>) returns (b: bool)
    requires Means(m, s) && 0 <= i < 32
    ensures b <==> i in s
  {
    hide Word, Index, Idx2Bit, Bit;
    b := m & Idx2Bit(Word(i)) != 0;
    IndexOfWord(i);
    TestBit(m, Word(i));
    assert At(m, i) <==> i in s;
  }

  lemma EmptyMeans()
    ensures Means(0, {})
  {
  }

  lemma NonZero(m: Binmap, s: set<int>)
    requires Means(m, s)
    ensures m != 0 <==> s != {}
  {
    hide Word, Index;
    if m != 0 {
      var k := SomeBit(m);
      WordOfIndex(k);
      assert At(m, Index(k));
    } else if s != {} {
      var i := Member(s);
      assert At(m, i);
      NoBit(Word(i));
    }
  }

  lemma Member<T>(s: set<T>) returns (i: T)
    requires s != {}
    ensures i in s
  {
    i :| i in s;
  }

  lemma NoBit(k: bv32)
    ensures !Bit(0, k)
  {
  }

  /** compute_bit2idx(least_bit(m)): the first non-empty bin. */
  method First(m: Binmap, ghost s: set<int>) returns (i: int)
    requires Means(m, s) && s != {}
    ensures i in s && forall j :: j in s ==> i <= j
  {
    NonZero(m, s);
    hide Word, Index, Bit2Idx, LeastBit;
    var k := Bit2Idx(LeastBit(m));
    i := Index(k);
    FirstIsLeast(m, s);
  }

  lemma FirstIsLeast(m: Binmap, s: set<int>)
    requires Means(m, s) && m != 0
    ensures var i := Index(Bit2Idx(LeastBit(m)));
            i in s && forall j :: j in s ==> i <= j
  {
    hide Word, Index, Bit2Idx, LeastBit, Bit;
    var k := Bit2Idx(LeastBit(m));
    LeastBitIndex(m, 0);
    WordOfIndex(k);
    assert At(m, Index(k));
    forall j | j in s ensures Index(k) <= j {
      assert At(m, j);
      IndexOfWord(j);
      LeastBitIndex(m, Word(j));
      IndexOrder(Word(j), k);
    }
  }

  /** leftbits = left_bits(idx2bit(idx)) & m; when it is not zero, its first bin. */
  method FirstAbove(m: Binmap, idx: int, ghost s: set<int>) returns (found: bool, i: int)
    requires Means(m, s) && 0 <= idx < 32
    ensures found <==> exists j :: j in s && j > idx
    ensures found ==> i in s && i > idx && forall j :: j in s && j > idx ==> i <= j
  {
    hide Word, Index, Above, Bit;
    var leftbits := Above(m, Word(idx));
    ghost var above := set j | j in s && j > idx;
    LeftBitsMean(m, idx, s, above);
    NonZero(leftbits, above);
    found := leftbits != 0;
    i := 0;
    assert forall j :: j in s && j > idx <==> j in above;
    if found {
      i := First(leftbits, above);
    }
  }

  lemma LeftBitsMean(m: Binmap, idx: int, s: set<int>, above: set<int>)
    requires Means(m, s) && 0 <= idx < 32
    requires above == set j | j in s && j > idx
    ensures Means(Above(m, Word(idx)), above)
  {
    hide Word, Index, Above, Bit;
    forall j | 0 <= j < 32 ensures At(Above(m, Word(idx)), j) <==> j in above {
      LeftBitsAtIndex(m, idx, j);
      assert At(m, j) <==> j in s;
    }
  }

  lemma LeftBitsAtIndex(m: Binmap, idx: int, j: int)
    requires 0 <= idx < 32 && 0 <= j < 32
    ensures At(Above(m, Word(idx)), j) <==> idx < j && At(m, j)
  {
    hide Word, Index, Above, Bit;
    IndexOfWord(idx);
    IndexOfWord(j);
    LeftBitsAt(m, Word(idx), Word(j));
    WordOrder(idx, j);
  }

  /** The tests dlmalloc makes on smallbits = smallmap >> idx. */
  lemma SmallBits(m: Binmap, idx: int, s: set<int>)
    requires Means(m, s) && 0 <= idx < 32
    ensures var smallbits := Shr(m, Word(idx));
            && (smallbits & 3 != 0 <==> idx in s || idx + 1 in s)
            && (!smallbits & 1 == 1 <==> idx !in s)
            && (smallbits & 3 == 0 ==> (smallbits != 0 <==> exists j :: j in s && j > idx))
            && Above(Shl(smallbits, Word(idx)), Word(idx)) == Above(m, Word(idx))
  {
    hide Word, Index, Above, Bit, Shl, Shr;
    assert At(m, idx) <==> idx in s;
    if idx < 31 {
      WordSucc(idx);
      assert At(m, idx + 1) <==> idx + 1 in s;
      LowTest(m, Word(idx));
      FirstTest(m, Word(idx));
      if Shr(m, Word(idx)) & 3 == 0 {
        RestTest(m, Word(idx));
      }
      RestMask(m, Word(idx));
    } else {
      LastWord();
      LastTests(m);
    }
    var above := set j | j in s && j > idx;
    AboveTest(m, idx, s, above);
    assert forall j :: j in s && j > idx <==> j in above;
  }

  lemma AboveTest(m: Binmap, idx: int, s: set<int>, above: set<int>)
    requires Means(m, s) && 0 <= idx < 32
    requires above == set j | j in s && j > idx
    ensures Above(m, Word(idx)) != 0 <==> above != {}
  {
    hide Word, Above, At;
    LeftBitsMean(m, idx, s, above);
    NonZero(Above(m, Word(idx)), above);
  }

  lemma WordSucc(i: int)
    requires 0 <= i < 31
    ensures Word(i) < 31 && Word(i + 1) == Word(i) + 1
  {
    IndexOfWord(i);
    var k := Word(i);
    TopWord();
    IndexOrder(k, 31);
    IndexSum(k, 1);
    WordOfIndex(k + 1);
  }

  lemma TopWord()
    ensures Index(31) == 31 && Index(1) == 1
  {
  }

  lemma LastWord()
    ensures Word(31) == 31
  {
    TopWord();
    WordOfIndex(31);
  }

  lemma LastTests(m: Binmap)
    ensures Shr(m, 31) & 3 != 0 <==> Bit(m, 31)
    ensures !Shr(m, 31) & 1 == 1 <==> !Bit(m, 31)
    ensures Shr(m, 31) & 3 == 0 ==> Shr(m, 31) == 0
    ensures Above(m, 31) == 0 && Above(Shl(Shr(m, 31), 31), 31) == 0
  {
    LastShift(m);
    NoneAbove(m);
    NoneAbove(Shl(Shr(m, 31), 31));
    hide Above, Shl;
  }

  lemma LastShift(m: Binmap)
    ensures Shr(m, 31) == 0 || Shr(m, 31) == 1
  {
  }

  lemma NoneAbove(m: Binmap)
    ensures Above(m, 31) == 0
  {
    assert LeftBits(0x8000_0000) == 0;
    assert Idx2Bit(31) == 0x8000_0000;
  }

  lemma LowTest(m: Binmap, k: bv32)
    requires k < 31
    ensures Shr(m, k) & 3 != 0 <==> Bit(m, k) || Bit(m, k + 1)
  {
  }

  lemma FirstTest(m: Binmap, k: bv32)
    requires k < 31
    ensures !Shr(m, k) & 1 == 1 <==> !Bit(m, k)
  {
  }

  lemma RestTest(m: Binmap, k: bv32)
    requires k < 31 && Shr(m, k) & 3 == 0
    ensures Shr(m, k) != 0 <==> Above(m, k) != 0
  {
    hide Shr, Shl, Above;
    LeftPart(m, k);
    ShiftBack(m, k + 1);
    ShiftOnce(m, k);
  }

  lemma LeftPart(m: Binmap, k: bv32)
    requires k < 31
    ensures Above(m, k) == Shl(Shr(m, k + 1), k + 1)
  {
  }

  lemma ShiftBack(m: Binmap, k: bv32)
    ensures Shl(Shr(m, k), k) == 0 <==> Shr(m, k) == 0
  {
    assert Shr(Shl(Shr(m, k), k), k) == Shr(m, k);
  }

  lemma ShiftOnce(m: Binmap, k: bv32)
    requires k < 31
    ensures Shr(m, k + 1) == Shr(m, k) >> 1
  {
  }

  lemma RestMask(m: Binmap, k: bv32)
    requires k < 31
    ensures Above(Shl(Shr(m, k), k), k) == Above(m, k)
  {
  }
}
