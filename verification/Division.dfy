/** 64-bit division by 32-bit words: __udivmoddi4, __udivdi3 and __umoddi3. */
module Division {
  import opened Words
  import Bitmaps
  import opened WordValues

  const WORD64: int := WORD * WORD

  predicate IsWord(x: int) {
    0 <= x < WORD
  }

  /** Two words as one number. */
  function Two(high: int, low: int): int {
    high * WORD + low
  }

  // ---- the machine's operations ----

  /** x << count; the processor uses only the low five bits of the count */
  function Shl(x: int, count: nat): (y: int)
    ensures 0 <= y < WORD
  {
    Wrap(Scale(x, count % 32))
  }

  /** x >> count */
  function Shr(x: int, count: nat): int {
    Down(x, count % 32)
  }

  /** x times, and divided by, a power of two */
  function Scale(x: int, k: nat): int {
    x * Pow2(k)
  }

  function Down(x: int, k: nat): int {
    x / Pow2(k)
  }

  /** udiv_qrnnd: the divl instruction, which faults unless the quotient fits a word. */
  method Divl(n1: int, n0: int, dv: int) returns (q: int, r: int)
    requires IsWord(n1) && IsWord(n0) && IsWord(dv) && n1 < dv
    ensures IsWord(q) && 0 <= r < dv && Two(n1, n0) == q * dv + r
  {
    q, r := Two(n1, n0) / dv, Two(n1, n0) % dv;
    QuotientFits(Two(n1, n0), dv, q, r, n1, n0);
  }

  lemma QuotientFits(n: int, dv: int, q: int, r: int, n1: int, n0: int)
    requires n == Two(n1, n0) && 0 <= n1 < dv && 0 <= n0 < WORD && q == n / dv && r == n % dv
    ensures 0 <= q < WORD && 0 <= r < dv && n == q * dv + r
  {
    DivMod(n, dv);
    assert n <= (dv - 1) * WORD + n0;
    BelowProduct(q, dv, r, n);
  }

  lemma BelowProduct(q: int, dv: int, r: int, n: int)
    requires dv > 0 && 0 <= n < dv * WORD && n == q * dv + r && 0 <= r < dv
    ensures 0 <= q < WORD
  {
    if q < 0 {
      assert q * dv <= -dv by { Monotone(q, -1, dv); }
    } else if q >= WORD {
      assert q * dv >= WORD * dv by { Monotone(WORD, q, dv); }
    }
  }

  lemma Monotone(a: int, b: int, k: int)
    requires a <= b && k >= 0
    ensures a * k <= b * k
  {
  }

  /** count_leading_zeros: bsrl, and exclusive or with 31 */
  function CountLeadingZeros(x: int): (c: nat)
    requires 0 < x < WORD
    ensures c <= 31 && Pow2(31 - c) <= x < Pow2(32 - c)
  {
    LogBelow(x);
    31 - Log2(x)
  }

  lemma LogBelow(x: int)
    requires 0 < x < WORD
    ensures Log2(x) <= 31
  {
    PowerOfWord();
    if Log2(x) >= 32 {
      Pow2Monotone(32, Log2(x));
    }
  }

  lemma PowerOfWord()
    ensures Pow2(32) == WORD && Pow2(31) == WORD / 2
  {
    assert Pow2(1) == 2 && Pow2(2) == 4 && Pow2(3) == 8 && Pow2(4) == 16;
    assert Pow2(5) == 32 && Pow2(6) == 64 && Pow2(7) == 128 && Pow2(8) == 256;
    Pow2Add(8, 8);
    Pow2Add(16, 8);
    Pow2Add(24, 7);
    Pow2Add(31, 1);
  }

  /** The exclusive or with 31 turns the position of the top bit into the number of zeros above it. */
  lemma CountIsXor(x: bv32, k: bv32)
    requires 0 < Val(x) < WORD && k < 32 && Bitmaps.Index(k) == Log2(Val(x))
    ensures k ^ 31 < 32 && Bitmaps.Index(k ^ 31) == CountLeadingZeros(Val(x))
  {
    hide Val, Log2;
    XorIndex(k);
  }

  lemma XorIndex(k: bv32)
    requires k < 32
    ensures k ^ 31 < 32 && Bitmaps.Index(k ^ 31) == 31 - Bitmaps.Index(k)
  {
  }

  /** (x << bm) | (y >> b): the two parts have no bit in common, so or is the sum that is used here. */
  lemma OrIsPlus(x: bv32, y: bv32, k: bv32)
    requires 0 < k < 32
    ensures var bm := Bitmaps.Index(k);
            && 0 < bm < 32
            && Val(Bitmaps.Shl(x, k) | Bitmaps.Shr(y, 32 - k)) == Shl(Val(x), bm) + Shr(Val(y), W_TYPE_SIZE - bm)
  {
    hide Val, Joined, Wrap, Pow2, Bitmaps.Index, Bitmaps.Shl, Bitmaps.Shr;
    OtherCount(k);
    CountMasked(Bitmaps.Index(k));
    PartsJoined(x, y, k);
    OrAdds(Bitmaps.Shl(x, k), Bitmaps.Shr(y, 32 - k), Bitmaps.Shl(x, k) | Bitmaps.Shr(y, 32 - k));
    ShlMultiplies(x, k);
    ShrDivides(y, 32 - k);
  }

  lemma OtherCount(k: bv32)
    requires 0 < k < 32
    ensures 0 < Bitmaps.Index(k) && Bitmaps.Index(32 - k) == 32 - Bitmaps.Index(k)
  {
  }

  lemma PartsJoined(x: bv32, y: bv32, k: bv32)
    requires 0 < k < 32
    ensures Joined(Bitmaps.Shl(x, k), Bitmaps.Shr(y, 32 - k), Bitmaps.Shl(x, k) | Bitmaps.Shr(y, 32 - k))
  {
  }

  // ---- normalising ----

  /** One word times 2^bm, split at the word boundary. */
  lemma PartShift(x: int, p: int, q: int)
    requires IsWord(x) && p >= 1 && q >= 1 && p * q == WORD
    ensures x * p == x / q * WORD + x % q * p && Wrap(x * p) == x % q * p
    ensures 0 <= x / q < p && 0 <= x % q * p <= WORD - p
  {
    var h, l := x / q, x % q;
    DivMod(x, q);
    assert x * p == h * q * p + l * p by {
      Spread(h * q, l, p);
    }
    assert h * q * p == h * WORD by {
      Regroup(h, q, p);
    }
    Monotone(l, q - 1, p);
    Spread(q, -1, p);
    Monotone(0, l, p);
    WrapOff(h, l * p);
    if h >= p {
      Monotone(p, h, q);
    } else if h < 0 {
      Monotone(h, -1, q);
    }
  }

  lemma WrapOff(h: int, rest: int)
    requires 0 <= rest < WORD
    ensures Wrap(h * WORD + rest) == rest
  {
  }

  lemma PowerPair(bm: nat)
    requires bm < 32
    ensures Pow2(bm) * Pow2(32 - bm) == WORD
  {
    Pow2Add(bm, 32 - bm);
    PowerOfWord();
  }

  /** The code's count for the other half, 64 - bm, acts as 32 - bm. */
  const W_TYPE_SIZE: nat := 64

  lemma CountMasked(bm: nat)
    requires 0 < bm < 32
    ensures (W_TYPE_SIZE - bm) % 32 == 32 - bm && bm % 32 == bm
  {
  }

  lemma Scaled(x: int, bm: nat)
    requires IsWord(x) && bm < 32
    ensures Scale(x, bm) == Down(x, 32 - bm) * WORD + Wrap(Scale(x, bm))
    ensures 0 <= Down(x, 32 - bm) < Pow2(bm) && 0 <= Wrap(Scale(x, bm)) <= WORD - Pow2(bm)
  {
    PowerPair(bm);
    hide Pow2, Wrap;
    PartShift(x, Pow2(bm), Pow2(32 - bm));
  }

  /** The two parts of one word shifted left by bm. */
  lemma Shifted(x: int, bm: nat)
    requires IsWord(x) && 0 < bm < 32
    ensures var b := W_TYPE_SIZE - bm;
            && Scale(x, bm) == Shr(x, b) * WORD + Shl(x, bm)
            && 0 <= Shr(x, b) < Pow2(bm) && 0 <= Shl(x, bm) <= WORD - Pow2(bm)
  {
    hide Pow2, Wrap, Scale, Down;
    CountMasked(bm);
    Scaled(x, bm);
  }

  /** Two words shifted left by bm become three. */
  lemma ShiftedTwo(h: int, l: int, bm: nat)
    requires IsWord(h) && IsWord(l) && 0 < bm < 32
    ensures var b := W_TYPE_SIZE - bm;
            && Two(Two(Shr(h, b), Shl(h, bm) + Shr(l, b)), Shl(l, bm)) == Scale(Two(h, l), bm)
            && IsWord(Shl(h, bm) + Shr(l, b)) && 0 <= Shr(h, b) < Pow2(bm) && Shl(l, bm) <= WORD - Pow2(bm)
  {
    hide Pow2, Shl, Shr, Scale;
    Shifted(h, bm);
    Shifted(l, bm);
    ScaleTwo(h, l, bm);
  }

  lemma ScaleTwo(h: int, l: int, k: nat)
    ensures Scale(Two(h, l), k) == WORD * Scale(h, k) + Scale(l, k)
  {
    hide Pow2;
  }

  /** A value shifted right over two words. */
  lemma ShiftedBack(h: int, l: int, bm: nat, x: int)
    requires IsWord(h) && IsWord(l) && 0 < bm < 32 && Two(h, l) == Scale(x, bm)
    ensures var b := W_TYPE_SIZE - bm; Two(Shr(h, bm), Shl(h, b) + Shr(l, bm)) == x
  {
    hide Pow2, Wrap, Scale, Down;
    CountMasked(bm);
    assert (W_TYPE_SIZE - bm) % 32 == 32 - bm && bm % 32 == bm;
    Scaled(h, 32 - bm);
    BackProduct(h, l, bm, x);
  }

  lemma BackProduct(h: int, l: int, bm: nat, x: int)
    requires 0 < bm < 32 && Two(h, l) == Scale(x, bm)
    ensures Scale(h, 32 - bm) + Down(l, bm) == x
  {
    var p, q := Pow2(bm), Pow2(32 - bm);
    PowerPair(bm);
    hide Pow2;
    BackParts(h, l, p, q);
    DivMod(l, p);
    SameQuotient(h * q + l / p, l % p, x, 0, p);
  }

  /** h * 2^32 + l in terms of the quotient by p */
  lemma BackParts(h: int, l: int, p: int, q: int)
    requires p > 0 && p * q == WORD
    ensures Two(h, l) == (h * q + l / p) * p + l % p
  {
    DivMod(l, p);
    Spread(h * q, l / p, p);
    Regroup(h, q, p);
  }

  // ---- the estimated digit ----

  /** What the top words of the normalised operands are like. */
  ghost predicate Normal(bm: nat, n2: int, n1: int, n0: int, d1: int, d0: int) {
    && 0 < bm < 32 && 0 <= n2 < Pow2(bm) && IsWord(n1) && IsWord(n0) && WORD / 2 <= d1 < WORD && IsWord(d0)
    && d0 <= WORD - Pow2(bm)
  }

  /** The estimate from the top words is at most one divisor too high. */
  lemma OneCorrection(bm: nat, n2: int, n1: int, n0: int, d1: int, d0: int, q: int, r: int)
    requires Normal(bm, n2, n1, n0, d1, d0) && Two(n2, n1) == q * d1 + r && 0 <= r < d1 && IsWord(q)
    ensures n2 < d1 && 0 <= q * d0 <= Two(d1, d0)
  {
    PowerOfWord();
    if bm <= 30 {
      Pow2Monotone(bm + 1, 31);
      assert Pow2(bm + 1) == 2 * Pow2(bm);
      hide Pow2;
      // q * d1 < 2^bm * 2^32, so q < 2^(bm + 1) <= 2^31 <= d1
      if q > d1 {
        SmallQuotient(q, d1, n2, n1, r, Pow2(bm));
      }
      Monotone(q, d1, d0);
      Monotone(d0, WORD, d1);
      Monotone(0, d0, q);
    } else {
      hide Pow2;
      Monotone(q, WORD, d0);
      Monotone(d0, WORD / 2, WORD);
      Monotone(WORD / 2, d1, WORD);
      Monotone(0, d0, q);
    }
  }

  lemma SmallQuotient(q: int, d1: int, n2: int, n1: int, r: int, p: int)
    requires Two(n2, n1) == q * d1 + r && 0 <= r < d1 && 0 <= n2 < p && IsWord(n1) && 2 * p <= WORD / 2 <= d1
    ensures q <= d1
  {
    if q > d1 {
      Monotone(d1 + 1, q, d1);
      Monotone(WORD / 2, d1 + 1, d1);
      Monotone(n2 + 1, p, WORD);
      Monotone(2 * p, d1, WORD);
    }
  }

  /** Quotient and remainder after the correction, for the normalised operands. */
  lemma Corrected(nn: int, dd: int, d1: int, d0: int, n0: int, q: int, r: int, q': int, m': int)
    requires dd == Two(d1, d0) && nn == Two(q * d1 + r, n0) && 0 <= r < d1 && IsWord(n0) && IsWord(d0) && 0 <= q
    requires 0 <= q * d0 <= dd
    requires if q * d0 > Two(r, n0) then q' == q - 1 && m' == q * d0 - dd else q' == q && m' == q * d0
    ensures nn == q' * dd + (Two(r, n0) - m') && 0 <= Two(r, n0) - m' < dd && 0 <= q'
  {
    assert nn == q * d1 * WORD + Two(r, n0) by {
      Spread(q * d1, r, WORD);
    }
    assert q * dd == q * d1 * WORD + q * d0 by {
      Spread(d1 * WORD, d0, q);
      Regroup(q, d1, WORD);
    }
    Monotone(r, d1 - 1, WORD);
    Spread(q, -1, dd);
  }

  // ---- __udivmoddi4 ----

  /** sub_ddmmss: two-word subtraction, modulo 2^64 */
  function Sub(x: int, y: int): int {
    (x - y) % WORD64
  }

  lemma SubIs(x: int, y: int)
    ensures 0 <= x - y < WORD64 ==> Sub(x, y) == x - y
  {
  }

  lemma SubModulo(x: int, y: int)
    ensures Sub(x, y) == (x - y) % WORD64
  {
  }

  lemma TwoWords(x: int)
    requires 0 <= x < WORD64
    ensures IsWord(x / WORD) && IsWord(x % WORD) && Two(x / WORD, x % WORD) == x
  {
  }

  lemma TwoRange(h: int, l: int)
    requires IsWord(h) && IsWord(l)
    ensures 0 <= Two(h, l) < WORD64
  {
  }

  /** The divisor fits one word: schoolbook division, one word at a time. */
  method DivideByWord(n1: int, n0: int, d0: int) returns (q1: int, q0: int, r: int)
    requires IsWord(n1) && IsWord(n0) && 0 < d0 < WORD
    ensures IsWord(q1) && IsWord(q0) && Two(n1, n0) == Two(q1, q0) * d0 + r && 0 <= r < d0
  {
    if d0 > n1 {
      q0, r := Divl(n1, n0, d0);
      q1 := 0;
    } else {
      var n1';
      q1, n1' := Divl(0, n1, d0);
      q0, r := Divl(n1', n0, d0);
      Spread(q1 * WORD, q0, d0);
      Regroup(q1, WORD, d0);
      Regroup(q1, d0, WORD);
    }
  }

  /** The divisor has its top bit set: the quotient is 0 or 1. */
  method DivideByTop(n1: int, n0: int, d1: int, d0: int) returns (q0: int, r: int)
    requires IsWord(n1) && IsWord(n0) && WORD / 2 <= d1 < WORD && IsWord(d0) && d1 <= n1
    ensures 0 <= q0 <= 1 && Two(n1, n0) == q0 * Two(d1, d0) + r && 0 <= r < Two(d1, d0)
  {
    if n1 > d1 || n0 >= d0 {
      q0 := 1;
      r := Sub(Two(n1, n0), Two(d1, d0));
    } else {
      q0 := 0;
      r := Two(n1, n0);
    }
  }

  /** The quotient digit is estimated from the top words, and corrected once if it is too big. */
  method EstimateDigit(n2: int, n1: int, n0: int, d1: int, d0: int, ghost bm: nat) returns (q0: int, x: int)
    requires Normal(bm, n2, n1, n0, d1, d0)
    ensures IsWord(q0) && Two(Two(n2, n1), n0) == q0 * Two(d1, d0) + x && 0 <= x < Two(d1, d0)
  {
    hide Pow2, Sub;
    DigitFits(bm, n2, n1, n0, d1, d0);
    var qh, rem := Divl(n2, n1, d1);
    OneCorrection(bm, n2, n1, n0, d1, d0, qh, rem);
    var m := qh * d0;
    ghost var exact := m;
    q0 := qh;
    if m > Two(rem, n0) {
      q0 := q0 - 1;
      SubModulo(m, Two(d1, d0));
      m := Sub(m, Two(d1, d0));
      exact := exact - Two(d1, d0);
    }
    Corrected(Two(Two(n2, n1), n0), Two(d1, d0), d1, d0, n0, qh, rem, q0, exact);
    x := Sub(Two(rem, n0), m);
    SubTwice(Two(rem, n0), exact, m);
    TwoRange(d1, d0);
    SubIs(Two(rem, n0), exact);
  }

  /** The general case: normalise, find the one quotient digit, and shift the remainder back. */
  method DivideNormalised(n1: int, n0: int, d1: int, d0: int, bm: nat) returns (q0: int, r: int)
    requires IsWord(n1) && IsWord(n0) && 0 < d1 < WORD && IsWord(d0) && d1 <= n1
    requires 0 < bm < 32 && Pow2(31 - bm) <= d1 < Pow2(32 - bm)
    ensures IsWord(q0) && Two(n1, n0) == q0 * Two(d1, d0) + r && 0 <= r < Two(d1, d0)
  {
    hide Shl, Shr, Pow2, Two, Scale;
    var b := W_TYPE_SIZE - bm;
    ShiftedTwo(d1, d0, bm);
    ShiftedTwo(n1, n0, bm);
    TopSet(d1, d0, bm);
    var d1', d0' := Shl(d1, bm) + Shr(d0, b), Shl(d0, bm);
    var n2, n1', n0' := Shr(n1, b), Shl(n1, bm) + Shr(n0, b), Shl(n0, bm);
    var x;
    TopZero(d1', d0');
    q0, x := EstimateDigit(n2, n1', n0', d1', d0', bm);
    TwoRange(d1', d0');
    TwoWords(x);
    var high, low := Shr(x / WORD, bm), Shl(x / WORD, b) + Shr(x % WORD, bm);
    r := Two(high, low);
    Unscaled(Two(n1, n0), Two(d1, d0), q0, x, bm);
    ShiftedBack(x / WORD, x % WORD, bm, Two(n1, n0) - q0 * Two(d1, d0));
  }

  lemma TopZero(d1: int, d0: int)
    ensures Two(Two(0, d1), d0) == Two(d1, d0)
  {
  }

  /** A wrapped subtrahend does not matter. */
  lemma SubTwice(x: int, y: int, y': int)
    requires y' == y || y' == y % WORD64
    ensures Sub(x, y') == Sub(x, y)
  {
  }

  /** After normalising, nothing is shifted out of the divisor and its top bit is set. */
  lemma TopSet(d1: int, d0: int, bm: nat)
    requires IsWord(d0) && 0 < bm < 32 && Pow2(31 - bm) <= d1 < Pow2(32 - bm) && IsWord(d1)
    ensures Shr(d1, W_TYPE_SIZE - bm) == 0 && WORD / 2 <= Shl(d1, bm) + Shr(d0, W_TYPE_SIZE - bm)
  {
    hide Scale, Down, Wrap;
    CountMasked(bm);
    assert (W_TYPE_SIZE - bm) % 32 == 32 - bm && bm % 32 == bm;
    Scaled(d1, bm);
    Scaled(d0, bm);
    TopSetBits(d1, bm);
  }

  lemma TopSetBits(d1: int, bm: nat)
    requires 0 < bm < 32 && Pow2(31 - bm) <= d1 < Pow2(32 - bm)
    ensures Down(d1, 32 - bm) == 0 && WORD / 2 <= Scale(d1, bm)
  {
    Pow2Add(31 - bm, bm);
    PowerOfWord();
    hide Pow2;
    Monotone(Pow2(31 - bm), d1, Pow2(bm));
    BelowDivisor(d1, Pow2(32 - bm));
  }

  lemma BelowDivisor(x: int, q: int)
    requires 0 <= x < q
    ensures x / q == 0 && x % q == x
  {
  }

  lemma DigitFits(bm: nat, n2: int, n1: int, n0: int, d1: int, d0: int)
    requires Normal(bm, n2, n1, n0, d1, d0)
    ensures n2 < d1
  {
    PowerOfWord();
    Pow2Monotone(bm, 31);
  }

  /** The scaled remainder is the remainder scaled. */
  lemma Unscaled(n: int, d: int, q: int, x: int, bm: nat)
    requires Scale(n, bm) == q * Scale(d, bm) + x && 0 <= x < Scale(d, bm)
    ensures x == Scale(n - q * d, bm) && 0 <= n - q * d < d
  {
    var p := Pow2(bm);
    hide Pow2;
    Regroup(q, d, p);
    Spread(n, -(q * d), p);
    var r := n - q * d;
    assert r * p == x;
    if r < 0 {
      Monotone(r, -1, p);
    } else if r >= d {
      Monotone(d, r, p);
    }
  }

  /** __udivmoddi4(n, d, rp): quotient and remainder for every n and every d other than 0. */
  method Udivmoddi4(n: int, d: int) returns (q: int, r: int)
    requires 0 <= n < WORD64 && 0 < d < WORD64
    ensures n == q * d + r && 0 <= r < d && 0 <= q < WORD64
  {
    var n1, n0, d1, d0 := n / WORD, n % WORD, d / WORD, d % WORD;
    TwoWords(n);
    TwoWords(d);
    var q1, q0 := 0, 0;
    if d1 == 0 {
      q1, q0, r := DivideByWord(n1, n0, d0);
    } else if d1 > n1 {
      r := Two(n1, n0);
    } else {
      var bm := CountLeadingZeros(d1);
      TopBit(d1, bm);
      if bm == 0 {
        q0, r := DivideByTop(n1, n0, d1, d0);
      } else {
        q0, r := DivideNormalised(n1, n0, d1, d0, bm);
      }
    }
    q := Two(q1, q0);
    TwoRange(q1, q0);
  }

  lemma TopBit(d1: int, bm: nat)
    requires 0 < d1 < WORD && bm <= 31 && Pow2(31 - bm) <= d1 < Pow2(32 - bm)
    ensures bm == 0 <==> WORD / 2 <= d1
  {
    PowerOfWord();
    if bm > 0 {
      Pow2Monotone(32 - bm, 31);
    }
  }

  /** __udivdi3(n, d) */
  method Udivdi3(n: int, d: int) returns (q: int)
    requires 0 <= n < WORD64 && 0 < d < WORD64
    ensures q * d <= n < q * d + d
  {
    var r;
    q, r := Udivmoddi4(n, d);
  }

  /** __umoddi3(u, v) */
  method Umoddi3(u: int, v: int) returns (w: int)
    requires 0 <= u < WORD64 && 0 < v < WORD64
    ensures 0 <= w < v && exists q :: u == q * v + w
  {
    var q;
    q, w := Udivmoddi4(u, v);
  }
}
