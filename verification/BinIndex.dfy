/** Which tree bin a chunk size belongs to, and which bits of the size steer the walk in it. */
module BinIndex {
  import opened Words
  import Bitmaps

  const NTREEBINS: int := 32

  /** compute_tree_index: twice the position of the top bit of S >> 8, plus the next bit. */
  function TreeIndex(s: int): (i: int)
    requires s >= 0
    ensures 0 <= i < NTREEBINS
  {
    var x := s / 256;
    if x == 0 then 0
    else if x > 0xFFFF then NTREEBINS - 1
    else
      var k := Log2(x);
      Log2Below(x);
      2 * k + BitOf(s, k + 7)
  }

  /** (s >> k) & 1 */
  function BitOf(s: int, k: nat): (b: int)
    ensures 0 <= b <= 1
  {
    s / Pow2(k) % 2
  }

  lemma Log2Below(x: int)
    requires 1 <= x <= 0xFFFF
    ensures Log2(x) <= 15
  {
    if Log2(x) >= 16 {
      Pow2Monotone(16, Log2(x));
      Pow2Values();
    }
  }

  /** minsize_for_tree_index */
  function MinSize(i: int): int
    requires 0 <= i < NTREEBINS
  {
    Pow2(i / 2 + 8) + (if i % 2 == 1 then Pow2(i / 2 + 7) else 0)
  }

  /** The bits below the two that select the bin: its sizes span 2^BinBits(i) (bin 31 is open above). */
  function BinBits(i: int): (k: nat)
    requires 0 <= i < NTREEBINS
    ensures k <= 32
  {
    if i == NTREEBINS - 1 then 32 else i / 2 + 7
  }

  function BinLo(i: int): int
    requires 0 <= i < NTREEBINS
  {
    if i == NTREEBINS - 1 then 0 else MinSize(i)
  }

  /** leftshift_for_tree_index brings the first steering bit to the sign position. */
  function LeftShift(i: int): (k: nat)
    requires 0 <= i < NTREEBINS
  {
    if i == NTREEBINS - 1 then 0 else 31 - (i / 2 + 8 - 2)
  }

  lemma MinSizeStep(i: int)
    requires 0 <= i < NTREEBINS - 1
    ensures MinSize(i + 1) == MinSize(i) + Pow2(i / 2 + 7)
  {
  }

  lemma {:induction false} MinSizeMonotone(i: int, j: int)
    requires 0 <= i <= j < NTREEBINS
    ensures MinSize(i) <= MinSize(j)
    decreases j
  {
    if i < j {
      MinSizeMonotone(i, j - 1);
      MinSizeStep(j - 1);
    }
  }

  /** The bins partition the large sizes: s is in bin i iff it lies between its minimum and the next bin's. */
  lemma TreeIndexRange(s: int)
    requires 256 <= s < WORD
    ensures var i := TreeIndex(s); MinSize(i) <= s && (i < NTREEBINS - 1 ==> s < MinSize(i + 1))
  {
    var x := s / 256;
    if x > 0xFFFF {
      LastBin();
    } else {
      Log2Below(x);
      MiddleBin(s, Log2(x));
    }
  }

  lemma MiddleBin(s: int, k: nat)
    requires 256 <= s && s / 256 <= 0xFFFF && k == Log2(s / 256) && k <= 15
    ensures var i := 2 * k + BitOf(s, k + 7);
            i == TreeIndex(s) && MinSize(i) <= s && (i < NTREEBINS - 1 ==> s < MinSize(i + 1))
  {
    hide Log2, BitOf;
    Times256(k);
    Doubling(k + 7);
    Doubling(k);
    var p, b := Pow2(k + 7), BitOf(s, k + 7);
    var i := 2 * k + b;
    assert i / 2 == k && i % 2 == b;
    assert Pow2(i / 2 + 7) == p && Pow2(i / 2 + 8) == 2 * p;
    hide Pow2;
    assert 2 * p <= s < 4 * p;
    NextBit(s, k + 7, p);
    assert MinSize(i) == if b == 1 then 3 * p else 2 * p;
    if i < NTREEBINS - 1 {
      MinSizeStep(i);
    }
    hide MinSize;
  }

  lemma Times256(k: nat)
    ensures Pow2(k + 8) == 256 * Pow2(k)
  {
    Pow2Add(k, 8);
    Pow2Values();
  }

  lemma Doubling(k: nat)
    ensures Pow2(k + 1) == 2 * Pow2(k) && Pow2(k + 2) == 4 * Pow2(k)
  {
  }

  lemma LastBin()
    ensures MinSize(NTREEBINS - 1) == 0xC0_0000
  {
    Pow2Values();
    Doubling(22);
  }

  /** Between 2p and 4p, the bit of weight p says which half s is in. */
  lemma NextBit(s: int, k: nat, p: int)
    requires p == Pow2(k) && 2 * p <= s < 4 * p
    ensures BitOf(s, k) == if s >= 3 * p then 1 else 0
  {
    hide Pow2;
    QuotientIs(s, p, if s >= 3 * p then 3 else 2);
  }

  lemma QuotientIs(s: int, p: int, q: int)
    requires p >= 1 && q * p <= s < q * p + p
    ensures s / p == q
  {
    var t := s / p;
    if t < q {
      ScaleOrder(t + 1, q, p);
    } else if t > q {
      ScaleOrder(q + 1, t, p);
    }
  }

  lemma ScaleOrder(a: int, b: int, p: int)
    requires a <= b && p >= 0
    ensures a * p <= b * p
  {
  }

  lemma TreeIndexUnique(s: int, i: int)
    requires 256 <= s < WORD && 0 <= i < NTREEBINS
    requires MinSize(i) <= s && (i < NTREEBINS - 1 ==> s < MinSize(i + 1))
    ensures TreeIndex(s) == i
  {
    TreeIndexRange(s);
    var j := TreeIndex(s);
    if j < i {
      MinSizeMonotone(j + 1, i);
    } else if i < j {
      MinSizeMonotone(i + 1, j);
    }
  }

  /** In the form the trie uses. */
  lemma BinRange(s: int)
    requires 256 <= s < WORD
    ensures var i := TreeIndex(s); BinLo(i) <= s < BinLo(i) + Pow2(BinBits(i)) && MinSize(i) <= s
  {
    TreeIndexRange(s);
    var i := TreeIndex(s);
    hide TreeIndex, MinSize;
    if i == NTREEBINS - 1 {
      Pow2Values();
    } else {
      MinSizeStep(i);
    }
  }

  /** Every size in a later bin is larger. */
  lemma LaterBinLarger(s: int, s': int)
    requires 256 <= s < WORD && 256 <= s' < WORD && TreeIndex(s) < TreeIndex(s')
    ensures s < s'
  {
    TreeIndexRange(s);
    TreeIndexRange(s');
    MinSizeMonotone(TreeIndex(s) + 1, TreeIndex(s'));
  }

  // ---- the steering bits ----

  /** S << leftshift, as a word: the offset of S in its bin's range, moved up to the sign bit. */
  lemma FirstKey(s: int)
    requires 256 <= s < WORD
    ensures var i := TreeIndex(s); Wrap(s * Pow2(LeftShift(i))) == (s - BinLo(i)) * Pow2(32 - BinBits(i))
  {
    hide TreeIndex, MinSize, LeftShift, BinLo, BinBits, Pow2, Wrap;
    var i := TreeIndex(s);
    BinRange(s);
    if i < NTREEBINS - 1 {
      MiddleKey(s, i);
    } else {
      LastKey(s);
    }
  }

  lemma MiddleKey(s: int, i: int)
    requires 0 <= i < NTREEBINS - 1 && BinLo(i) <= s < BinLo(i) + Pow2(BinBits(i))
    ensures Wrap(s * Pow2(LeftShift(i))) == (s - BinLo(i)) * Pow2(32 - BinBits(i))
  {
    var k := BinBits(i);
    assert LeftShift(i) == 32 - k;
    Pow2Add(k, 32 - k);
    Pow2Values();
    BinLoForm(i);
    hide *;
    FirstKeyArith(s, BinLo(i), 2 + i % 2, Pow2(k), Pow2(32 - k));
  }

  lemma LastKey(s: int)
    requires 0 <= s < WORD
    ensures Wrap(s * Pow2(LeftShift(NTREEBINS - 1)))
         == (s - BinLo(NTREEBINS - 1)) * Pow2(32 - BinBits(NTREEBINS - 1))
  {
    assert Pow2(0) == 1;
  }

  lemma BinLoForm(i: int)
    requires 0 <= i < NTREEBINS - 1
    ensures BinLo(i) == (2 + i % 2) * Pow2(BinBits(i))
  {
    Doubling(BinBits(i));
    assert i % 2 == 0 || i % 2 == 1;
  }

  lemma FirstKeyArith(s: int, lo: int, c: int, q: int, p: int)
    requires q * p == WORD && p >= 1 && lo == c * q && lo <= s < lo + q
    ensures Wrap(s * p) == (s - lo) * p
  {
    var d := s - lo;
    Spread(c * q, d, p);
    Regroup(c, q, p);
    ScaleBound(d, q, p);
    WrapMultiple(c, d * p);
  }

  lemma ScaleBound(d: int, q: int, p: int)
    requires 0 <= d < q && p >= 1
    ensures 0 <= d * p < q * p
  {
  }

  lemma WrapMultiple(c: int, x: int)
    requires 0 <= x < WORD
    ensures Wrap(c * WORD + x) == x
  {
  }

  /** The sign bit of the key says which half of the range holds the offset d, and shifting the key
      left by one gives the key for that half. */
  lemma KeyStep(d: int, k: nat)
    requires 1 <= k <= 32 && 0 <= d < Pow2(k)
    ensures var key := d * Pow2(32 - k);
            && 0 <= key < WORD
            && (key / 0x8000_0000 % 2 == 1 <==> d >= Pow2(k - 1))
            && Wrap(2 * key) == (if d >= Pow2(k - 1) then d - Pow2(k - 1) else d) * Pow2(32 - (k - 1))
  {
    Pow2Add(k - 1, 32 - k);
    Pow2Values();
    Doubling(k - 1);
    Doubling(32 - k);
    KeyStepArith(d, Pow2(k - 1), Pow2(32 - k));
  }

  lemma KeyStepArith(d: int, h: int, p: int)
    requires h * p == 0x8000_0000 && h >= 1 && p >= 1 && 0 <= d < 2 * h
    ensures var key := d * p;
            && 0 <= key < WORD
            && (key / 0x8000_0000 % 2 == 1 <==> d >= h)
            && Wrap(2 * key) == (if d >= h then d - h else d) * (2 * p)
  {
    var e := if d >= h then d - h else d;
    ScaleBound(e, h, p);
    if d >= h {
      Spread(h, e, p);
    }
    SignBit(d * p, e * p, d >= h);
    assert e * (2 * p) == 2 * (e * p);
  }

  lemma SignBit(key: int, rest: int, high: bool)
    requires 0 <= rest < 0x8000_0000 && key == rest + if high then 0x8000_0000 else 0
    ensures 0 <= key < WORD && (key / 0x8000_0000 % 2 == 1 <==> high) && Wrap(2 * key) == 2 * rest
  {
  }
}
