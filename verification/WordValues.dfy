/** The numbers that 32-bit machine words stand for, and what shifts and or do to them. */
module WordValues {
  import opened Words
  import opened Bitmaps

  /** The number a word stands for. */
  function Val(b: bv32): nat {
    if b == 0 then 0 else 2 * Val(b >> 1) + (if b & 1 == 1 then 1 else 0)
  }

  /** The word for a number; only the low 32 bits count. */
  function Bits(n: nat): bv32 {
    if n == 0 then 0 else (Bits(n / 2) << 1) | (if n % 2 == 1 then 1 else 0)
  }

  lemma ShrStep(x: bv32, k: bv32)
    requires 0 < k < 32
    ensures Shr(x, k) == Shr(x, k - 1) >> 1 && Index(k) == Index(k - 1) + 1
  {
  }

  lemma ShrNone(x: bv32)
    ensures Shr(x, 0) == x && Index(0) == 0
  {
  }

  /** A right shift divides by a power of two. */
  lemma {:induction false} ShrDivides(x: bv32, k: bv32)
    requires k < 32
    ensures Val(Shr(x, k)) == Val(x) / Pow2(Index(k))
    decreases k
  {
    hide Index, Shr;
    if k == 0 {
      ShrNone(x);
    } else {
      ShrStep(x, k);
      ShrDivides(x, k - 1);
      Halve(Shr(x, k - 1));
      DivTwice(Val(x), Pow2(Index(k - 1)));
    }
  }

  lemma Halve(b: bv32)
    ensures Val(b >> 1) == Val(b) / 2 && (Val(b) % 2 == 1 <==> b & 1 == 1)
    ensures b == 0 <==> Val(b) == 0
  {
    LowBit(b);
    if b != 0 {
      if b == 1 {
      } else {
        Positive(b >> 1);
      }
    }
  }

  lemma LowBit(b: bv32)
    ensures b & 1 == 0 || b & 1 == 1
    ensures b > 1 ==> b >> 1 != 0
    ensures b == 1 ==> b >> 1 == 0
  {
  }

  lemma {:induction false} Positive(b: bv32)
    requires b != 0
    ensures Val(b) > 0
    decreases b
  {
    LowBit(b);
    if b != 1 {
      Positive(b >> 1);
    }
  }

  lemma DivTwice(n: nat, p: int)
    requires p >= 1
    ensures n / (2 * p) == n / p / 2
  {
    var q, r := n / p, n % p;
    DivMod(n, p);
    DivMod(q, 2);
    var e := q % 2;
    assert n == (q / 2) * (2 * p) + (e * p + r);
    DivUnique(n, 2 * p, q / 2, e * p + r);
  }

  // ---- every number below 2^32 has a word ----

  lemma {:induction false} ValOfBits(n: nat)
    requires n < WORD
    ensures Val(Bits(n)) == n
  {
    hide Pow2, Index, Shr, Val;
    if n > 0 {
      ValOfBits(n / 2);
      OneMore(Bits(n / 2), n / 2, n % 2 == 1);
    } else {
      Halve(0);
    }
  }

  lemma OneMore(m: bv32, n: nat, bit: bool)
    requires Val(m) == n < 0x8000_0000
    ensures Val((m << 1) | (if bit then 1 else 0)) == 2 * n + if bit then 1 else 0
  {
    hide Pow2, Index, Shr;
    Highest();
    ShrDivides(m, 31);
    Halve(Shr(m, 31));
    Append(m, bit);
    Halve((m << 1) | (if bit then 1 else 0));
  }

  lemma Highest()
    ensures Index(31) == 31 && Pow2(31) == 0x8000_0000
  {
    Pow2Values();
  }

  lemma Append(m: bv32, bit: bool)
    requires Shr(m, 31) == 0
    ensures var b := (m << 1) | (if bit then 1 else 0); b >> 1 == m && (b & 1 == 1 <==> bit) && (b == 0 <==> m == 0 && !bit)
  {
  }

  // ---- or and shifts to the left ----

  /** z has the bits of x and those of y, which have none in common. */
  predicate Joined(x: bv32, y: bv32, z: bv32) {
    x & y == 0 && z == x | y
  }

  /** Words with no bit in common: or adds. */
  lemma {:induction false} OrAdds(x: bv32, y: bv32, z: bv32)
    requires Joined(x, y, z)
    ensures Val(z) == Val(x) + Val(y)
    decreases Val(z)
  {
    hide Val, Joined, Odd, Half;
    HalfVal(x);
    HalfVal(y);
    HalfVal(z);
    JoinedNone(x, y, z);
    if z != 0 {
      JoinedHalves(x, y, z);
      JoinedLow(x, y, z);
      OrAdds(Half(x), Half(y), Half(z));
      SumOfHalves(Val(x), Val(y), Val(z));
    }
  }

  predicate Odd(b: bv32) {
    b & 1 == 1
  }

  function Half(b: bv32): bv32 {
    b >> 1
  }

  lemma HalfVal(b: bv32)
    ensures Val(Half(b)) == Val(b) / 2 && (Val(b) % 2 == 1 <==> Odd(b)) && (b == 0 <==> Val(b) == 0)
  {
    Halve(b);
  }

  lemma SumOfHalves(a: nat, b: nat, n: nat)
    requires n / 2 == a / 2 + b / 2 && (n % 2 == 1 <==> a % 2 == 1 || b % 2 == 1) && !(a % 2 == 1 && b % 2 == 1)
    ensures n == a + b
  {
  }

  lemma JoinedNone(x: bv32, y: bv32, z: bv32)
    requires Joined(x, y, z)
    ensures z == 0 <==> x == 0 && y == 0
  {
  }

  lemma JoinedHalves(x: bv32, y: bv32, z: bv32)
    requires Joined(x, y, z)
    ensures Joined(Half(x), Half(y), Half(z))
  {
    assert (x >> 1) & (y >> 1) == (x & y) >> 1;
  }

  lemma JoinedLow(x: bv32, y: bv32, z: bv32)
    requires Joined(x, y, z)
    ensures Odd(z) <==> Odd(x) || Odd(y)
    ensures !(Odd(x) && Odd(y))
  {
    assert (x & y) & 1 == (x & 1) & (y & 1);
  }

  /** A shift by one doubles, and drops what does not fit. */
  lemma ShlOnce(b: bv32)
    ensures Val(b << 1) == Wrap(2 * Val(b))
  {
    hide Val, Joined, Wrap;
    SplitTop(b, b & 0x7FFF_FFFF, b & 0x8000_0000);
    OrAdds(b & 0x7FFF_FFFF, b & 0x8000_0000, b);
    LowDoubled(b);
    TopOf(b);
    WrapTop(Val(b & 0x7FFF_FFFF));
  }

  lemma LowDoubled(b: bv32)
    ensures var low := b & 0x7FFF_FFFF; Val(low) < 0x8000_0000 && Val(b << 1) == 2 * Val(low)
  {
    hide Val, Shr, Pow2, Index;
    var low := b & 0x7FFF_FFFF;
    LowFits(b);
    TopLost(b);
    Highest();
    ShrDivides(low, 31);
    Halve(Shr(low, 31));
    LowHalf(Val(low), Val(Shr(low, 31)));
    OneMore(low, Val(low), false);
  }

  lemma TopOf(b: bv32)
    ensures Val(b & 0x8000_0000) == 0 || Val(b & 0x8000_0000) == 0x8000_0000
  {
    TopAlone(b);
    TopValue();
    Halve(0);
  }

  lemma LowHalf(n: nat, t: int)
    requires t == n / 0x8000_0000 == 0
    ensures n < 0x8000_0000
  {
  }

  lemma SplitTop(b: bv32, low: bv32, top: bv32)
    requires low == b & 0x7FFF_FFFF && top == b & 0x8000_0000
    ensures Joined(low, top, b)
  {
    assert low & top == b & (0x7FFF_FFFF as bv32 & 0x8000_0000);
    assert low | top == b & (0x7FFF_FFFF as bv32 | 0x8000_0000);
  }

  lemma TopAlone(b: bv32)
    ensures b & 0x8000_0000 == 0 || b & 0x8000_0000 == 0x8000_0000
  {
  }

  lemma LowFits(b: bv32)
    ensures Shr(b & 0x7FFF_FFFF, 31) == 0
  {
  }

  lemma TopLost(b: bv32)
    ensures b << 1 == ((b & 0x7FFF_FFFF) << 1) | 0
  {
  }

  lemma TopValue()
    ensures Val(0x8000_0000) == 0x8000_0000
  {
    hide Pow2, Index, Val;
    Highest();
    OneBit(31);
    TopShifted();
  }

  lemma TopShifted()
    ensures Shl(1, 31) == 0x8000_0000
  {
  }

  /** 1 << k */
  lemma {:induction false} OneBit(k: bv32)
    requires k < 32
    ensures Val(Shl(1, k)) == Pow2(Index(k))
    decreases k
  {
    hide Val, Index, Shl;
    ShlNone(1);
    if k == 0 {
      Halve(1);
      Halve(0);
      LowBit(1);
    } else {
      OneBit(k - 1);
      ShlStep(1, k);
      Halve(Shl(1, k));
      OneHalved(k);
    }
  }

  lemma OneHalved(k: bv32)
    requires 0 < k < 32
    ensures Shl(1, k) >> 1 == Shl(1, k - 1) && Shl(1, k) & 1 == 0
  {
  }

  lemma ShlNone(x: bv32)
    ensures Shl(x, 0) == x && Index(0) == 0
  {
  }

  lemma ShlStep(x: bv32, k: bv32)
    requires 0 < k < 32
    ensures Shl(x, k) == Shl(x, k - 1) << 1 && Index(k) == Index(k - 1) + 1
  {
  }

  /** A left shift multiplies, modulo 2^32. */
  lemma {:induction false} ShlMultiplies(x: bv32, k: bv32)
    requires k < 32
    ensures Val(Shl(x, k)) == Wrap(Val(x) * Pow2(Index(k)))
    decreases k
  {
    hide Val, Index, Shl, Wrap;
    if k == 0 {
      ShlNone(x);
      Bounded(x);
    } else {
      ShlMultiplies(x, k - 1);
      ShlStep(x, k);
      ShlOnce(Shl(x, k - 1));
      var a := Val(x) * Pow2(Index(k - 1));
      WrapDouble(a);
      assert 2 * a == Val(x) * (2 * Pow2(Index(k - 1)));
    }
  }

  lemma WrapDouble(a: int)
    ensures Wrap(2 * Wrap(a)) == Wrap(2 * a)
  {
    DivMod(a, WORD);
    var r := a % WORD;
    DivMod(2 * r, WORD);
    DivUnique(2 * a, WORD, 2 * (a / WORD) + 2 * r / WORD, 2 * r % WORD);
  }

  lemma Bounded(x: bv32)
    ensures Val(x) < WORD && Wrap(Val(x)) == Val(x)
  {
    hide Val, Index;
    Highest();
    ShrDivides(x, 31);
    LowestOnly(x);
    Halve(Shr(x, 31));
    Halve(1);
    Halve(0);
    Halved(Val(x), Val(Shr(x, 31)));
    WrapSmall(Val(x));
  }

  lemma LowestOnly(x: bv32)
    ensures Shr(x, 31) == 0 || Shr(x, 31) == 1
    ensures (1 as bv32) >> 1 == 0
  {
  }

  lemma Halved(n: nat, t: int)
    requires t == n / 0x8000_0000 && t <= 1
    ensures n < WORD
  {
  }

  lemma WrapTop(n: int)
    requires 0 <= n < 0x8000_0000
    ensures Wrap(2 * n) == 2 * n && Wrap(2 * (n + 0x8000_0000)) == 2 * n
  {
  }
}
