/** The portable compute_tree_index, on machine words, against its mathematical meaning. */
module TreeIndexBits {
  import opened Words
  import opened Bitmaps
  import opened WordValues
  import opened BinIndex

  /** What the macro computes in K for X = S >> TREEBIN_SHIFT. */
  function TopBit(x: bv32): bv32 {
    var n0 := ((x - 0x100) >> 16) & 8;
    var y1 := Shl(x, n0);
    var k1 := ((y1 - 0x1000) >> 16) & 4;
    var n1 := n0 + k1;
    var y2 := Shl(y1, k1);
    var k2 := ((y2 - 0x4000) >> 16) & 2;
    var n2 := n1 + k2;
    var y3 := Shl(y2, k2);
    14 - n2 + (y3 >> 15)
  }

  /** compute_tree_index, the version without bsrl. */
  function PortableIndex(s: bv32): bv32 {
    var x := s >> 8;
    if x == 0 then 0
    else if x > 0xFFFF then 31
    else
      var k := TopBit(x);
      (k << 1) + (Shr(s, k + 7) & 1)
  }

  lemma TopBitFound(x: bv32)
    requires 1 <= x <= 0xFFFF
    ensures TopBit(x) < 16 && Shr(x, TopBit(x)) == 1
  {
  }

  /** The macro's tests on X see what they are meant to see. */
  lemma SizeClass(s: bv32)
    ensures Val(s >> 8) == Val(s) / 256
    ensures s >> 8 == 0 <==> Val(s) / 256 == 0
    ensures s >> 8 > 0xFFFF <==> Val(s) / 256 > 0xFFFF
  {
    Constants();
    ShrDivides(s, 8);
    Halve(s >> 8);
    ShrDivides(s >> 8, 16);
    Halve((s >> 8) >> 16);
    Upper(s >> 8);
    hide Val, Index, Pow2;
    assert Val((s >> 8) >> 16) == Val(s >> 8) / 0x1_0000;
  }

  lemma Upper(x: bv32)
    ensures x > 0xFFFF <==> x >> 16 != 0
  {
  }

  lemma Constants()
    ensures Index(8) == 8 && Pow2(8) == 256 && Index(16) == 16 && Pow2(16) == 0x1_0000
  {
    Pow2Values();
  }

  lemma Combine(k: bv32, bit: bv32)
    requires k < 16 && (bit == 0 || bit == 1)
    ensures (k << 1) + bit < 32 && Index((k << 1) + bit) == 2 * Index(k) + (if bit == 1 then 1 else 0)
    ensures k + 7 < 32 && Index(k + 7) == Index(k) + 7
  {
  }

  /** The portable macro gives the index that the one with bsrl gives, for every word. */
  lemma PortableIsTreeIndex(s: bv32)
    ensures PortableIndex(s) < 32 && Index(PortableIndex(s)) == TreeIndex(Val(s))
  {
    SizeClass(s);
    var x := s >> 8;
    if x == 0 {
      Small();
    } else if x <= 0xFFFF {
      Middle(s, x);
    } else {
      Large();
    }
  }

  lemma Small()
    ensures Index(0) == 0
  {
  }

  lemma Large()
    ensures Index(31) == NTREEBINS - 1
  {
  }

  lemma Middle(s: bv32, x: bv32)
    requires x == s >> 8 && 1 <= x <= 0xFFFF && Val(x) == Val(s) / 256 && 1 <= Val(x) <= 0xFFFF
    ensures PortableIndex(s) < 32 && Index(PortableIndex(s)) == TreeIndex(Val(s))
  {
    hide TopBit, Val, Index, Shr, Log2, Pow2;
    TopBitFound(x);
    var k := TopBit(x);
    ShrDivides(x, k);
    One();
    LogIs(Val(x), Index(k));
    LowBit(Shr(s, k + 7));
    Combine(k, Shr(s, k + 7) & 1);
    ShrDivides(s, k + 7);
    Halve(Shr(s, k + 7));
  }

  lemma One()
    ensures Val(1) == 1
  {
    assert Val(0) == 0;
    assert (1 as bv32) >> 1 == 0;
  }

  lemma LogIs(x: int, k: nat)
    requires x >= 1 && x / Pow2(k) == 1
    ensures Log2(x) == k
  {
    DivMod(x, Pow2(k));
    Log2Unique(x, k);
  }

  /** So the macro is right about every size. */
  lemma PortableForSize(s: nat)
    requires s < WORD
    ensures PortableIndex(Bits(s)) < 32 && Index(PortableIndex(Bits(s))) == TreeIndex(s)
  {
    ValOfBits(s);
    PortableIsTreeIndex(Bits(s));
  }
}
