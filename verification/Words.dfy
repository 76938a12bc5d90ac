/** Natural-number view of 32-bit machine words: powers of two, wrap-around and
    the head word of a heap chunk, whose two low bits carry flags. */
module Words {

  const WORD: int := 0x1_0000_0000
  const TWO63: int := 0x8000_0000_0000_0000
  const TWO64: int := 0x1_0000_0000_0000_0000

  /** The value a size_t holds after the mathematical result x is stored in it. */
  function Wrap(x: int): int {
    x % WORD
  }

  lemma WrapSmall(a: int)
    ensures 0 <= a < WORD ==> Wrap(a) == a
    ensures -WORD <= a < 0 ==> Wrap(a) == a + WORD
  {
  }

  function Pow2(k: nat): (p: int)
    ensures p >= 1
  {
    if k == 0 then 1 else 2 * Pow2(k - 1)
  }

  lemma {:induction false} Pow2Monotone(j: nat, k: nat)
    requires j <= k
    ensures Pow2(j) <= Pow2(k)
    decreases k
  {
    if j < k {
      Pow2Monotone(j, k - 1);
    }
  }

  lemma {:induction false} Pow2Add(j: nat, k: nat)
    ensures Pow2(j + k) == Pow2(j) * Pow2(k)
  {
    if j > 0 {
      Pow2Add(j - 1, k);
      assert Pow2(j + k) == 2 * Pow2(j - 1 + k);
    }
  }

  lemma Pow2Values()
    ensures Pow2(7) == 0x80 && Pow2(8) == 0x100 && Pow2(16) == 0x1_0000 && Pow2(24) == 0x100_0000
    ensures Pow2(31) == 0x8000_0000 && Pow2(32) == 0x1_0000_0000
  {
    assert Pow2(4) == 16;
    Pow2Add(4, 4);
    Pow2Add(8, 8);
    Pow2Add(16, 8);
    Pow2Add(24, 8);
  }

  /** The position of the highest set bit: what the bsrl instruction returns. */
  function Log2(x: int): (k: nat)
    requires x >= 1
    ensures Pow2(k) <= x < Pow2(k + 1)
  {
    if x == 1 then 0 else 1 + Log2(x / 2)
  }

  lemma {:induction false} Log2Unique(x: int, k: nat)
    requires x >= 1 && Pow2(k) <= x < Pow2(k + 1)
    ensures Log2(x) == k
  {
    if Log2(x) < k {
      Pow2Monotone(Log2(x) + 1, k);
    } else if Log2(x) > k {
      Pow2Monotone(k + 1, Log2(x));
    }
  }

  // ---- signed integers ----

  /** What a signed integer of the range -half..half - 1 holds after x is stored in it. */
  function AsSigned(x: int, half: int): (y: int)
    requires half > 0
    ensures -half <= y < half
    ensures -half <= x < half ==> y == x
  {
    DivMod(x + half, 2 * half);
    InRange(x, half);
    (x + half) % (2 * half) - half
  }

  lemma InRange(x: int, half: int)
    requires half > 0
    ensures -half <= x < half ==> (x + half) % (2 * half) == x + half
  {
    if -half <= x < half {
      DivUnique(x + half, 2 * half, 0, x + half);
    }
  }

  lemma AsSignedIs(x: int, half: int) returns (k: int)
    requires half > 0
    ensures AsSigned(x, half) == x + k * (2 * half)
  {
    k := -((x + half) / (2 * half));
    DivMod(x + half, 2 * half);
  }

  lemma AsSignedShift(x: int, k: int, half: int)
    requires half > 0
    ensures AsSigned(x + k * (2 * half), half) == AsSigned(x, half)
  {
    var y, a := x + half, 2 * half;
    DivMod(y, a);
    Spread(y / a, k, a);
    DivUnique(y + k * a, a, y / a + k, y % a);
  }

  // ---- chunk heads: size | PINUSE_BIT | CINUSE_BIT ----

  const PINUSE: int := 1
  const CINUSE: int := 2

  function ChunkSize(head: int): int {
    head / 4 * 4
  }

  predicate Cinuse(head: int) {
    head / 2 % 2 == 1
  }

  predicate Pinuse(head: int) {
    head % 2 == 1
  }

  /** head |= PINUSE_BIT */
  function SetPinuse(head: int): int {
    if Pinuse(head) then head else head + PINUSE
  }

  /** head &= ~PINUSE_BIT */
  function ClearPinuse(head: int): int {
    if Pinuse(head) then head - PINUSE else head
  }

  lemma HeadFields(size: int, pin: bool, cin: bool)
    requires size % 8 == 0
    ensures var h := size + (if pin then PINUSE else 0) + (if cin then CINUSE else 0);
            ChunkSize(h) == size && Pinuse(h) == pin && Cinuse(h) == cin
  {
    FlagBits(size / 8, (if pin then PINUSE else 0) + (if cin then CINUSE else 0));
  }

  lemma FlagBits(k: int, b: int)
    requires 0 <= b < 4
    ensures (8 * k + b) / 4 == 2 * k && (8 * k + b) % 2 == b % 2 && (8 * k + b) / 2 == 4 * k + b / 2
    ensures (8 * k + b) / 2 % 2 == b / 2
  {
    DivUnique(8 * k + b, 4, 2 * k, b);
    DivUnique(8 * k + b, 2, 4 * k + b / 2, b % 2);
    DivUnique(4 * k + b / 2, 2, 2 * k, b / 2);
  }

  lemma Eights(a: int, b: int)
    requires a % 8 == 0 && b % 8 == 0
    ensures (a + b) % 8 == 0 && (a - b) % 8 == 0 && a % 4 == 0 && (a + 8) % 4 == 0 && a % 2 == 0
  {
    var j, k := a / 8, b / 8;
    DivUnique(a + b, 8, j + k, 0);
    DivUnique(a - b, 8, j - k, 0);
    DivUnique(a, 4, 2 * j, 0);
    DivUnique(a + 8, 4, 2 * j + 2, 0);
    DivUnique(a, 2, 4 * j, 0);
  }

  lemma Fours(a: int, b: int)
    requires a % 4 == 0 && b % 4 == 0
    ensures (a + b) % 4 == 0 && (a - b) % 4 == 0
  {
    var j, k := a / 4, b / 4;
    DivUnique(a + b, 4, j + k, 0);
    DivUnique(a - b, 4, j - k, 0);
  }

  // ---- division with remainder ----

  lemma DivMod(x: int, a: int)
    requires a > 0
    ensures x == x / a * a + x % a && 0 <= x % a < a
  {
  }

  lemma AtLeastOnce(k: int, a: int)
    requires k >= 1 && a > 0
    ensures k * a >= a
  {
  }

  lemma Spread(a: int, b: int, k: int)
    ensures (a + b) * k == a * k + b * k
  {
  }

  lemma Regroup(a: int, b: int, c: int)
    ensures a * b * c == a * (b * c) && b * c == c * b
  {
  }

  /** Quotient and remainder are unique. */
  lemma SameQuotient(q: int, r: int, q': int, r': int, a: int)
    requires q * a + r == q' * a + r' && 0 <= r < a && 0 <= r' < a
    ensures q == q' && r == r'
  {
    if q < q' {
      AtLeastOnce(q' - q, a);
      Spread(q', -q, a);
    } else if q' < q {
      AtLeastOnce(q - q', a);
      Spread(q, -q', a);
    }
  }

  lemma DivUnique(y: int, a: int, q: int, r: int)
    requires a > 0 && y == q * a + r && 0 <= r < a
    ensures y / a == q && y % a == r
  {
    DivMod(y, a);
    SameQuotient(q, r, y / a, y % a, a);
  }
}
