/** The additive-feedback random number generator: good_rand, srandom, random, initstate and setstate. */
module Random {
  import opened Words

  const HALF: int := 0x8000_0000
  const WHOLE: int := 0x1_0000_0000
  /** 2^31 - 1 */
  const MODULUS: int := 0x7FFF_FFFF

  predicate IsLong(x: int) {
    -HALF <= x < HALF
  }

  /** A 32-bit long after an addition that may overflow. */
  function Signed(x: int): (y: int)
    ensures IsLong(y)
  {
    AsSigned(x, HALF)
  }

  // ---- good_rand ----

  /** x / y and x % y as C computes them */
  function Quot(x: int, y: int): int
    requires y > 0
  {
    if x >= 0 then x / y else -(-x / y)
  }

  function Rem(x: int, y: int): int
    requires y > 0
  {
    x - Quot(x, y) * y
  }

  /** good_rand(x) */
  function GoodRand(x: int): int {
    var hi := Quot(x, 127773);
    var lo := Rem(x, 127773);
    var y := 16807 * lo - 2836 * hi;
    if y <= 0 then y + MODULUS else y
  }

  /** Every intermediate value fits a long, for every long. */
  lemma GoodRandFits(x: int)
    requires IsLong(x)
    ensures var hi, lo := Quot(x, 127773), Rem(x, 127773);
            IsLong(hi) && IsLong(lo) && IsLong(16807 * lo) && IsLong(2836 * hi) && IsLong(16807 * lo - 2836 * hi)
    ensures 1 <= GoodRand(x) <= MODULUS
  {
    if x < 0 {
      var n := -x;
      assert n == n / 127773 * 127773 + n % 127773;
    } else {
      assert x == x / 127773 * 127773 + x % 127773;
    }
  }

  /** It multiplies by 7^5 modulo 2^31 - 1. */
  lemma GoodRandCongruent(x: int)
    requires IsLong(x)
    ensures GoodRand(x) % MODULUS == 16807 * x % MODULUS
  {
    var hi, lo := Quot(x, 127773), Rem(x, 127773);
    // 2^31 - 1 == 127773 * 16807 + 2836
    assert 16807 * x == 16807 * lo - 2836 * hi + MODULUS * hi;
    AddMultiple(16807 * lo - 2836 * hi, hi);
    AddMultiple(16807 * lo - 2836 * hi, 1);
  }

  lemma AddMultiple(a: int, k: int)
    ensures (a + MODULUS * k) % MODULUS == a % MODULUS
  {
  }

  /** On 1..2^31 - 2 it is the multiplicative generator itself, and stays there: no zero is ever produced. */
  lemma GoodRandExact(x: int)
    requires 1 <= x < MODULUS
    ensures GoodRand(x) == 16807 * x % MODULUS && 1 <= GoodRand(x) < MODULUS
  {
    hide GoodRand;
    GoodRandFits(x);
    GoodRandCongruent(x);
    NotZero(x);
    Reduces(GoodRand(x), 16807 * x % MODULUS);
  }

  lemma Reduces(g: int, r: int)
    requires 0 <= g <= MODULUS && g % MODULUS == r != 0
    ensures g == r && 1 <= g < MODULUS
  {
  }

  /** 16807 is invertible modulo 2^31 - 1 (its inverse is 1407677000). */
  lemma NotZero(x: int)
    requires 1 <= x < MODULUS
    ensures 16807 * x % MODULUS != 0
  {
  }

  // ---- the five types ----

  const MAX_TYPES: int := 5

  function Degree(kind: int): int
    requires 0 <= kind < MAX_TYPES
  {
    [0, 7, 15, 31, 63][kind]
  }

  function Separation(kind: int): int
    requires 0 <= kind < MAX_TYPES
  {
    [0, 3, 1, 3, 1][kind]
  }

  /** The type for n bytes of state, n >= 8. */
  function KindFor(bytes: int): (kind: int)
    ensures 0 <= kind < MAX_TYPES
    ensures bytes >= 8 ==> 4 * (Degree(kind) + 1) <= bytes
  {
    if bytes < 32 then 0 else if bytes < 64 then 1 else if bytes < 128 then 2 else if bytes < 256 then 3 else 4
  }

  lemma DegreeFacts(kind: int)
    requires 1 <= kind < MAX_TYPES
    ensures 0 < Separation(kind) < Degree(kind)
  {
  }

  // ---- the linear recurrence ----

  /** One step of a generator whose last numbers, oldest first, are h. */
  function Advance(kind: int, h: seq<int>): (h': seq<int>)
    requires 0 <= kind < MAX_TYPES && |h| == (if kind == 0 then 1 else Degree(kind))
    ensures |h'| == |h|
  {
    if kind == 0 then [GoodRand(h[0])] else h[1..] + [Signed(h[0] + h[Degree(kind) - Separation(kind)])]
  }

  /** The number delivered by the step that leads to h: without its lowest bit, in 31 bits. */
  function Output(kind: int, h: seq<int>): int
    requires |h| > 0
  {
    if kind == 0 then h[0] else h[|h| - 1] % WHOLE / 2
  }

  function AdvanceBy(kind: int, h: seq<int>, n: nat): (h': seq<int>)
    requires 0 <= kind < MAX_TYPES && |h| == (if kind == 0 then 1 else Degree(kind))
    ensures |h'| == |h|
  {
    if n == 0 then h else Advance(kind, AdvanceBy(kind, h, n - 1))
  }

  /** The sequence x(n) == x(n - deg) + x(n - sep), as longs, continuing h. */
  function Recurrence(kind: int, h: seq<int>, n: nat): int
    requires 1 <= kind < MAX_TYPES && |h| == Degree(kind)
    decreases n
  {
    if n < Degree(kind) then h[n]
    else
      DegreeFacts(kind);
      Signed(Recurrence(kind, h, n - Degree(kind)) + Recurrence(kind, h, n - Separation(kind)))
  }

  /** After n steps the window holds x(n), ..., x(n + deg - 1): the steps compute the recurrence. */
  lemma {:induction false} WindowIsRecurrence(kind: int, h: seq<int>, n: nat, k: nat)
    requires 1 <= kind < MAX_TYPES && |h| == Degree(kind) && k < Degree(kind)
    ensures AdvanceBy(kind, h, n)[k] == Recurrence(kind, h, n + k)
    decreases n
  {
    var deg, sep := Degree(kind), Separation(kind);
    DegreeFacts(kind);
    if n > 0 {
      if k < deg - 1 {
        WindowIsRecurrence(kind, h, n - 1, k + 1);
      } else {
        WindowIsRecurrence(kind, h, n - 1, 0);
        WindowIsRecurrence(kind, h, n - 1, deg - sep);
      }
    }
  }

  /** The five types: x(n) is x(n - 7) + x(n - 3), x(n - 15) + x(n - 1), x(n - 31) + x(n - 3) or x(n - 63) + x(n - 1),
      from the first number on that has that many before it. */
  lemma RecurrenceSteps(kind: int, h: seq<int>, n: nat)
    requires 1 <= kind < MAX_TYPES && |h| == Degree(kind)
    ensures n < |h| ==> Recurrence(kind, h, n) == h[n]
    ensures n >= |h| && kind == 1 ==> Recurrence(kind, h, n) == Signed(Recurrence(kind, h, n - 7) + Recurrence(kind, h, n - 3))
    ensures n >= |h| && kind == 2 ==> Recurrence(kind, h, n) == Signed(Recurrence(kind, h, n - 15) + Recurrence(kind, h, n - 1))
    ensures n >= |h| && kind == 3 ==> Recurrence(kind, h, n) == Signed(Recurrence(kind, h, n - 31) + Recurrence(kind, h, n - 3))
    ensures n >= |h| && kind == 4 ==> Recurrence(kind, h, n) == Signed(Recurrence(kind, h, n - 63) + Recurrence(kind, h, n - 1))
    ensures |h| == [7, 15, 31, 63][kind - 1]
  {
    hide Signed;
  }

  /** The type that is chosen is the largest whose numbers and word 0 fit. */
  lemma LargestType(bytes: int, kind: int)
    requires 8 <= bytes && 0 <= kind < MAX_TYPES
    ensures kind <= KindFor(bytes) <==> kind == 0 || 4 * (Degree(kind) + 1) <= bytes
  {
  }

  /** y as a 32-bit pattern, without its lowest bit. */
  predicate WithoutLowBit(y: int, r: int) {
    0 <= r < HALF && (y % WHOLE == 2 * r || y % WHOLE == 2 * r + 1)
  }

  /** The n-th number delivered is the n-th that the recurrence adds, without its lowest bit, which is the least random. */
  lemma DeliveredNumber(kind: int, h: seq<int>, n: nat)
    requires 1 <= kind < MAX_TYPES && |h| == Degree(kind) && n > 0
    ensures WithoutLowBit(Recurrence(kind, h, Degree(kind) + n - 1), Output(kind, AdvanceBy(kind, h, n)))
  {
    hide Recurrence, AdvanceBy;
    DegreeFacts(kind);
    WindowIsRecurrence(kind, h, n, Degree(kind) - 1);
    Halved(Recurrence(kind, h, Degree(kind) + n - 1));
  }

  lemma Halved(y: int)
    ensures WithoutLowBit(y, y % WHOLE / 2)
  {
  }

  lemma {:induction false} AdvanceAgain(kind: int, h: seq<int>, m: nat, n: nat)
    requires 0 <= kind < MAX_TYPES && |h| == (if kind == 0 then 1 else Degree(kind))
    ensures AdvanceBy(kind, h, m + n) == AdvanceBy(kind, AdvanceBy(kind, h, m), n)
  {
    hide Advance, Degree;
    if n > 0 {
      AdvanceAgain(kind, h, m, n - 1);
      assert AdvanceBy(kind, h, m + n) == Advance(kind, AdvanceBy(kind, h, m + n - 1));
    }
  }

  // ---- the generator ----

  /** Where the front pointer is when the rear pointer is at `rear`. */
  function Front(kind: int, rear: int): (f: int)
    requires 1 <= kind < MAX_TYPES
    ensures 0 <= f < Degree(kind)
  {
    (rear + Separation(kind)) % Degree(kind)
  }

  /** k places on from f, cyclically. */
  function Around(f: int, k: int, deg: int): (i: int)
    requires 0 <= f < deg && 0 <= k <= deg
    ensures 0 <= i < deg
  {
    if f + k < deg then f + k else f + k - deg
  }

  /** The last numbers of the generator whose table is `cells`, oldest first: from the front pointer on.
      (Word 0 of the table is not part of the numbers.) */
  function Window(cells: seq<int>, kind: int, rear: int): (h: seq<int>)
    requires 0 <= kind < MAX_TYPES && |cells| > (if kind == 0 then 1 else Degree(kind))
    ensures |h| == if kind == 0 then 1 else Degree(kind)
  {
    if kind == 0 then [cells[1]] else From(cells, Front(kind, rear), Degree(kind))
  }

  /** The deg words of the table from index f on, cyclically. */
  function From(cells: seq<int>, f: int, deg: int): (h: seq<int>)
    requires 0 <= f < deg < |cells|
    ensures |h| == deg && forall k :: 0 <= k < deg ==> h[k] == cells[1 + Around(f, k, deg)]
  {
    seq(deg, k requires 0 <= k < deg => cells[1 + Around(f, k, deg)])
  }

  /** Replacing the word at f and moving on drops the first word and appends the new one. */
  lemma FromNext(cells: seq<int>, f: int, deg: int, x: int)
    requires 0 <= f < deg < |cells|
    ensures From(cells[1 + f := x], Around(f, 1, deg), deg) == From(cells, f, deg)[1..] + [x]
  {
    var cells', f' := cells[1 + f := x], Around(f, 1, deg);
    var h, h' := From(cells, f, deg), From(cells', f', deg);
    forall k | 0 <= k < deg ensures h'[k] == (h[1..] + [x])[k] {
      if k < deg - 1 {
        assert Around(f', k, deg) == Around(f, k + 1, deg) != f;
        assert h'[k] == h[k + 1];
      } else {
        assert Around(f', k, deg) == f;
      }
    }
  }

  lemma FrontIs(kind: int, rear: int)
    requires 1 <= kind < MAX_TYPES && 0 <= rear < Degree(kind)
    ensures Front(kind, rear) == Around(rear, Separation(kind), Degree(kind))
  {
    DegreeFacts(kind);
    if rear + Separation(kind) >= Degree(kind) {
      Reduced(rear + Separation(kind) - Degree(kind), Degree(kind));
    }
  }

  lemma Reduced(x: int, deg: int)
    requires 0 <= x < deg
    ensures (x + deg) % deg == x
  {
  }

  /** Overwriting the oldest number and moving both pointers on is one step of the recurrence. */
  lemma StepWindow(cells: seq<int>, cells': seq<int>, kind: int, rear: int, rear': int)
    requires 1 <= kind < MAX_TYPES && |cells| > Degree(kind) && 0 <= rear < Degree(kind) && rear' == Around(rear, 1, Degree(kind))
    requires var f := Front(kind, rear); cells' == cells[1 + f := Signed(cells[1 + f] + cells[1 + rear])]
    ensures Window(cells', kind, rear') == Advance(kind, Window(cells, kind, rear))
    ensures Front(kind, rear') == Around(Front(kind, rear), 1, Degree(kind)) && Front(kind, rear) != rear
  {
    hide Degree, Separation, Front, Around, Signed, Window, From, Advance;
    var deg, sep, f := Degree(kind), Separation(kind), Front(kind, rear);
    DegreeFacts(kind);
    FrontIs(kind, rear);
    FrontIs(kind, rear');
    FrontMoves(rear, sep, deg);
    var h := From(cells, f, deg);
    AroundZero(f, deg);
    assert h[0] == cells[1 + f] && h[deg - sep] == cells[1 + rear];
    FromNext(cells, f, deg, Signed(h[0] + h[deg - sep]));
    WindowIs(cells, kind, rear);
    WindowIs(cells', kind, rear');
    AdvanceIs(kind, h, deg, sep);
  }

  lemma WindowIs(cells: seq<int>, kind: int, rear: int)
    requires 1 <= kind < MAX_TYPES && |cells| > Degree(kind)
    ensures Window(cells, kind, rear) == From(cells, Front(kind, rear), Degree(kind))
  {
  }

  lemma AdvanceIs(kind: int, h: seq<int>, deg: int, sep: int)
    requires 1 <= kind < MAX_TYPES && deg == Degree(kind) == |h| && sep == Separation(kind) && 0 < sep < deg
    ensures Advance(kind, h) == h[1..] + [Signed(h[0] + h[deg - sep])]
  {
    hide Degree, Separation;
  }

  lemma AroundZero(f: int, deg: int)
    requires 0 <= f < deg
    ensures Around(f, 0, deg) == f
  {
  }

  lemma FrontMoves(rear: int, sep: int, deg: int)
    requires 0 <= rear < deg && 0 < sep < deg
    ensures Around(Around(rear, 1, deg), sep, deg) == Around(Around(rear, sep, deg), 1, deg)
    ensures Around(Around(rear, sep, deg), deg - sep, deg) == rear && Around(rear, sep, deg) != rear
  {
  }

  lemma LastNumber(cells: seq<int>, kind: int, rear: int)
    requires 1 <= kind < MAX_TYPES && |cells| > Degree(kind) && 0 <= rear < Degree(kind)
    ensures var h := Window(cells, kind, rear);
            Advance(kind, h)[Degree(kind) - 1] == Signed(cells[1 + Front(kind, rear)] + cells[1 + rear])
  {
    hide Degree, Separation, Front, Around, Signed, Window, From, Advance;
    var deg, sep, f := Degree(kind), Separation(kind), Front(kind, rear);
    DegreeFacts(kind);
    FrontIs(kind, rear);
    FrontMoves(rear, sep, deg);
    AroundZero(f, deg);
    var h := From(cells, f, deg);
    assert h[0] == cells[1 + f] && h[deg - sep] == cells[1 + rear];
    WindowIs(cells, kind, rear);
    AdvanceIs(kind, h, deg, sep);
  }

  /** What word 0 of a table says when its generator is not current: 5 * rear + type. */
  predicate Stored(cells: seq<int>, kind: int, rear: int) {
    |cells| > 0 && cells[0] == if kind == 0 then 0 else MAX_TYPES * rear + kind
  }

  /** The encoding is invertible. */
  lemma WordZero(kind: int, rear: int)
    requires 0 <= kind < MAX_TYPES && 0 <= rear
    ensures Rem(MAX_TYPES * rear + kind, MAX_TYPES) == kind && Quot(MAX_TYPES * rear + kind, MAX_TYPES) == rear
  {
  }

  /** The numbers srandom fills the table with: good_rand over and over, from the seed. */
  function Chain(seed: int, k: nat): (x: int)
    ensures IsLong(x)
    decreases k
  {
    if k == 0 then Signed(seed)
    else
      GoodRandFits(Chain(seed, k - 1));
      GoodRand(Chain(seed, k - 1))
  }

  /** A seed in 1..2^31 - 2 puts no zero into the table. */
  lemma {:induction false} ChainPositive(seed: int, k: nat)
    requires 1 <= seed < MODULUS
    ensures 1 <= Chain(seed, k) < MODULUS
    decreases k
  {
    if k > 0 {
      ChainPositive(seed, k - 1);
      GoodRandExact(Chain(seed, k - 1));
    }
  }

  /** The window right after filling, with the rear pointer at 0. */
  function Filled(kind: int, seed: int): (h: seq<int>)
    requires 1 <= kind < MAX_TYPES
    ensures |h| == Degree(kind)
  {
    seq(Degree(kind), k requires 0 <= k < Degree(kind) => Chain(seed, Around(Separation(kind), k, Degree(kind))))
  }

  /** What srandom leaves: the seed itself, or the filled table after 10 * deg numbers have been thrown away. */
  function Seeded(kind: int, seed: int): (h: seq<int>)
    requires 0 <= kind < MAX_TYPES
    ensures |h| == if kind == 0 then 1 else Degree(kind)
  {
    if kind == 0 then [Signed(seed)] else AdvanceBy(kind, Filled(kind, seed), 10 * Degree(kind))
  }

  /** After srandom the n-th number delivered is x(11 * deg + n - 1) of the recurrence that starts with good_rand's
      numbers, in the order in which the front pointer meets them; its lowest bit is dropped. */
  lemma SeededNumber(kind: int, seed: int, n: nat)
    requires 1 <= kind < MAX_TYPES && n > 0
    ensures var deg, h := Degree(kind), Filled(kind, seed);
            && (forall k :: 0 <= k < deg ==> h[k] == Chain(seed, (k + Separation(kind)) % deg))
            && WithoutLowBit(Recurrence(kind, h, 11 * deg + n - 1), Output(kind, AdvanceBy(kind, Seeded(kind, seed), n)))
  {
    hide Degree, Separation, Chain, Recurrence, AdvanceBy, Output;
    var deg, sep, h := Degree(kind), Separation(kind), Filled(kind, seed);
    DegreeFacts(kind);
    AdvanceAgain(kind, h, 10 * deg, n);
    DeliveredNumber(kind, h, 10 * deg + n);
    assert deg + (10 * deg + n) - 1 == 11 * deg + n - 1;
    forall k | 0 <= k < deg ensures (k + sep) % deg == Around(sep, k, deg) {
      DivUnique(k + sep, deg, if k + sep < deg then 0 else 1, Around(sep, k, deg));
    }
  }

  /** Type 0 delivers good_rand's numbers themselves: each one 16807 times the one before, modulo 2^31 - 1. */
  lemma {:induction false} SeededLinear(seed: int, n: nat)
    requires 1 <= seed < MODULUS
    ensures AdvanceBy(0, Seeded(0, seed), n) == [Chain(seed, n)] && Output(0, AdvanceBy(0, Seeded(0, seed), n)) == Chain(seed, n)
    ensures n > 0 ==> Chain(seed, n) == 16807 * Chain(seed, n - 1) % MODULUS
  {
    hide GoodRand, Signed;
    ChainPositive(seed, n);
    if n > 0 {
      ChainPositive(seed, n - 1);
      GoodRandExact(Chain(seed, n - 1));
      SeededLinear(seed, n - 1);
    }
  }

  lemma FilledWindow(cells: seq<int>, kind: int, seed: int)
    requires 1 <= kind < MAX_TYPES && |cells| > Degree(kind) && forall k :: 0 <= k < Degree(kind) ==> cells[1 + k] == Chain(seed, k)
    ensures Window(cells, kind, 0) == Filled(kind, seed)
  {
    hide Degree, Separation, Chain, From, Window, Front;
    DegreeFacts(kind);
    FrontIs(kind, 0);
    WindowIs(cells, kind, 0);
  }

  lemma TurnAround(i: nat, deg: int)
    requires deg > 1
    ensures (i + 1) % deg == Around(i % deg, 1, deg)
  {
    var q, r := i / deg, i % deg;
    if r + 1 < deg {
      DivUnique(i + 1, deg, q, r + 1);
    } else {
      assert i + 1 == (q + 1) * deg;
      DivUnique(i + 1, deg, q + 1, 0);
    }
  }

  class Generator {
    /** The array in use.  The pointer `state` is to its element 1. */
    var table: array<int>
    var kind: int
    /** The front and rear pointers, as indices of `state`. */
    var fptr: int
    var rptr: int

    ghost predicate Valid()
      reads this, table
    {
      && 0 <= kind < MAX_TYPES && table.Length > (if kind == 0 then 1 else Degree(kind))
      && (kind != 0 ==> 0 <= rptr < Degree(kind) && fptr == Front(kind, rptr))
      && forall k :: 1 <= k <= (if kind == 0 then 1 else Degree(kind)) ==> IsLong(table[k])
    }

    /** The numbers that determine all later ones. */
    ghost function View(): seq<int>
      requires Valid()
      reads this, table
    {
      Window(table[..], kind, rptr)
    }

    /** A generator of the type and table given, its pointers where word 0 says. */
    constructor (table: array<int>, kind: int, rear: int)
      requires 0 <= kind < MAX_TYPES && table.Length > (if kind == 0 then 1 else Degree(kind))
      requires kind != 0 ==> 0 <= rear < Degree(kind)
      requires forall k :: 1 <= k <= (if kind == 0 then 1 else Degree(kind)) ==> IsLong(table[k])
      ensures Valid() && this.table == table && this.kind == kind && View() == Window(table[..], kind, rear)
    {
      this.table, this.kind, this.rptr := table, kind, rear;
      this.fptr := if kind == 0 then 0 else Front(kind, rear);
    }

    /** The additive step: the number at the rear pointer is added to the one at the front pointer. */
    method Feedback() returns (i: int)
      requires Valid() && kind != 0
      modifies this`fptr, this`rptr, table
      ensures Valid() && View() == Advance(kind, old(View())) && i == Output(kind, View()) && 0 <= i < HALF
      ensures table[0] == old(table[0]) && (kind != 0 ==> rptr == Around(old(rptr), 1, Degree(kind)))
    {
      hide Degree, Separation, Front, Advance, Window, From, Signed;
      ghost var cells, rear := table[..], rptr;
      DegreeFacts(kind);
      FrontIs(kind, rptr);
      var f, r := fptr, rptr;
      StepWindow(cells, cells[1 + f := Signed(cells[1 + f] + cells[1 + r])], kind, rear, Around(rear, 1, Degree(kind)));
      table[1 + f] := Signed(table[1 + f] + table[1 + r]);
      i := table[1 + f] % WHOLE / 2;
      assert table[..] == cells[1 + f := Signed(cells[1 + f] + cells[1 + r])];
      LastNumber(cells, kind, rear);
      f := f + 1;
      if f >= Degree(kind) {
        f := 0;
        r := r + 1;
      } else {
        r := r + 1;
        if r >= Degree(kind) {
          r := 0;
        }
      }
      fptr, rptr := f, r;
    }

    /** random(): the next number. */
    method Random() returns (i: int)
      requires Valid()
      modifies this`fptr, this`rptr, table
      ensures Valid() && View() == Advance(kind, old(View())) && i == Output(kind, View()) && 0 <= i < HALF
      ensures table[0] == old(table[0]) && (kind != 0 ==> rptr == Around(old(rptr), 1, Degree(kind)))
    {
      if kind == 0 {
        i := table[1];
        GoodRandFits(i);
        i := GoodRand(i) % HALF;
        table[1] := i;
      } else {
        i := Feedback();
      }
    }

    /** srandom(x): the pointers end up where they started, `sep` places apart. */
    method Srandom(x: int)
      requires 0 <= kind < MAX_TYPES && table.Length > (if kind == 0 then 1 else Degree(kind))
      modifies this`fptr, this`rptr, table
      ensures Valid() && View() == Seeded(kind, x) && table[0] == old(table[0])
      ensures kind != 0 ==> rptr == 0 && fptr == Separation(kind)
    {
      table[1] := Signed(x);
      if kind != 0 {
        Fill(x);
        hide Degree, Separation, Front, Window, Advance, Filled;
        DegreeFacts(kind);
        FrontIs(kind, 0);
        fptr := Separation(kind);
        rptr := 0;
        FilledWindow(table[..], kind, x);
        forall k | 1 <= k <= Degree(kind) ensures IsLong(table[k]) {
          assert table[1 + (k - 1)] == Chain(x, k - 1);
        }
        WarmUp(x);
      }
    }

    /** state[i] = good_rand(state[i - 1]) */
    method Fill(x: int)
      requires 1 <= kind < MAX_TYPES && table.Length > Degree(kind) && table[1] == Signed(x)
      modifies table
      ensures table[0] == old(table[0]) && forall k :: 0 <= k < Degree(kind) ==> table[1 + k] == Chain(x, k)
    {
      hide Degree;
      DegreeFacts(kind);
      for i := 1 to Degree(kind)
        invariant table[0] == old(table[0]) && forall k :: 0 <= k < i ==> table[1 + k] == Chain(x, k)
      {
        assert table[1 + (i - 1)] == Chain(x, i - 1);
        GoodRandFits(Chain(x, i - 1));
        table[1 + i] := GoodRand(table[1 + (i - 1)]);
      }
    }

    /** 10 * rand_deg numbers are thrown away. */
    method WarmUp(ghost x: int)
      requires Valid() && kind != 0 && rptr == 0 && View() == Filled(kind, x)
      modifies this`fptr, this`rptr, table
      ensures Valid() && View() == Seeded(kind, x) && rptr == 0 && fptr == Separation(kind) && table[0] == old(table[0])
    {
      hide Degree, Separation, Front, Window, Advance, Filled;
      DegreeFacts(kind);
      for i := 0 to 10 * Degree(kind)
        invariant Valid() && View() == AdvanceBy(kind, Filled(kind, x), i) && rptr == i % Degree(kind) && table[0] == old(table[0])
      {
        TurnAround(i, Degree(kind));
        var dropped := Random();
      }
      DivUnique(10 * Degree(kind), Degree(kind), 10, 0);
      FrontIs(kind, 0);
    }

    /** The position of the rear pointer and the type, as word 0 records them. */
    method SaveWordZero()
      requires Valid()
      modifies table
      ensures Valid() && View() == old(View()) && Stored(table[..], kind, rptr) && table[1..] == old(table[1..])
    {
      ghost var cells := table[..];
      table[0] := if kind == 0 then 0 else MAX_TYPES * rptr + kind;
      SameNumbers(cells, table[..], kind, rptr);
    }

    /** initstate(seed, arg_state, n), with n the size of the array: the current generator is put away and
        a new one is seeded in `arr`.  An array that is too small is refused. */
    method InitState(seed: int, arr: array<int>) returns (old_: array?<int>)
      requires Valid()
      modifies this, table, arr
      ensures Valid() && (old_ == null <==> arr.Length < 2)
      ensures old_ == null ==> table == old(table) && kind == old(kind) && View() == old(View())
      ensures old_ != null ==> old_ == old(table) && table == arr && kind == KindFor(4 * arr.Length) && View() == Seeded(kind, seed)
      ensures Stored(old(table)[..], old(kind), old(rptr)) || (table == arr == old(table) && old_ != null)
      ensures old(table) != arr ==> old(table)[1..] == old(table[1..])
      ensures old_ != null ==> Stored(arr[..], kind, rptr) && (kind != 0 ==> rptr == 0)
    {
      hide Degree, Separation, Front, Window, Seeded;
      old_ := table;
      SaveWordZero();
      if 4 * arr.Length < 8 {
        return null;
      }
      SizeSuffices(arr.Length);
      kind := KindFor(4 * arr.Length);
      table := arr;
      Srandom(seed);
      SaveWordZero();
    }

    /** setstate(arg_state): the current generator is put away and the one in `arr` goes on where word 0
        of `arr` said before the call. */
    method SetState(arr: array<int>) returns (old_: array<int>)
      requires Valid() && arr.Length > 0
      requires Suspended(arr[..])
      modifies this, table, arr
      ensures Valid() && old_ == old(table) && table == arr && arr[1..] == old(arr[1..])
      ensures kind == old(KindOf(arr[..])) && View() == old(Resumed(arr[..]))
      ensures if kind == 0 then rptr == old(rptr) && fptr == old(fptr)
              else rptr == old(Quot(arr[0], MAX_TYPES)) && fptr == Front(kind, rptr)
      ensures old(table) != arr ==> arr[..] == old(arr[..]) && Stored(old(table)[..], old(kind), old(rptr)) && old(table)[1..] == old(table[1..])
    {
      hide Degree, Separation, Front, Window;
      ghost var cells := arr[..];
      var kind' := Rem(arr[0], MAX_TYPES);
      var rear := Quot(arr[0], MAX_TYPES);
      old_ := table;
      SaveWordZero();
      kind := kind';
      table := arr;
      if kind != 0 {
        rptr := rear;
        fptr := Front(kind, rear);
      }
      SameNumbers(cells, arr[..], kind', rear);
      LinearWindow(arr[..], kind, rptr, rear);
      StillLong(cells, arr[..], kind);
    }
  }

  lemma SizeSuffices(n: int)
    requires n >= 2
    ensures n > if KindFor(4 * n) == 0 then 1 else Degree(KindFor(4 * n))
  {
  }

  /** A linear generator has no pointers. */
  lemma LinearWindow(cells: seq<int>, kind: int, r: int, rear: int)
    requires 0 <= kind < MAX_TYPES && |cells| > (if kind == 0 then 1 else Degree(kind)) && (kind != 0 ==> r == rear)
    ensures Window(cells, kind, r) == Window(cells, kind, rear)
  {
    hide Degree;
  }

  lemma StillLong(cells: seq<int>, cells': seq<int>, kind: int)
    requires 0 <= kind < MAX_TYPES && |cells| == |cells'| > (if kind == 0 then 1 else Degree(kind)) && cells'[1..] == cells[1..]
    requires forall k :: 1 <= k <= (if kind == 0 then 1 else Degree(kind)) ==> IsLong(cells[k])
    ensures forall k :: 1 <= k <= (if kind == 0 then 1 else Degree(kind)) ==> IsLong(cells'[k])
  {
    hide Degree;
    forall k | 1 <= k <= (if kind == 0 then 1 else Degree(kind)) ensures IsLong(cells'[k]) {
      assert cells'[1..][k - 1] == cells[1..][k - 1];
    }
  }

  /** The generator that word 0 of a table describes. */
  function KindOf(cells: seq<int>): int
    requires |cells| > 0
  {
    Rem(cells[0], MAX_TYPES)
  }

  predicate Suspended(cells: seq<int>) {
    && |cells| > 0 && cells[0] >= 0 && 0 <= KindOf(cells) < MAX_TYPES
    && |cells| > (if KindOf(cells) == 0 then 1 else Degree(KindOf(cells)))
    && (KindOf(cells) != 0 ==> 0 <= Quot(cells[0], MAX_TYPES) < Degree(KindOf(cells)))
    && forall k :: 1 <= k <= (if KindOf(cells) == 0 then 1 else Degree(KindOf(cells))) ==> IsLong(cells[k])
  }

  /** The numbers it goes on from. */
  function Resumed(cells: seq<int>): seq<int>
    requires Suspended(cells)
  {
    Window(cells, KindOf(cells), Quot(cells[0], MAX_TYPES))
  }

  /** A generator that was put away is the one its array describes. */
  lemma StoredResumes(cells: seq<int>, kind: int, rear: int)
    requires 0 <= kind < MAX_TYPES && |cells| > (if kind == 0 then 1 else Degree(kind)) && Stored(cells, kind, rear)
    requires kind != 0 ==> 0 <= rear < Degree(kind)
    requires forall k :: 1 <= k <= (if kind == 0 then 1 else Degree(kind)) ==> IsLong(cells[k])
    ensures Suspended(cells) && KindOf(cells) == kind && Resumed(cells) == Window(cells, kind, rear)
  {
    hide Degree, Window;
    if kind != 0 {
      WordZero(kind, rear);
    } else {
      LinearWindow(cells, 0, 0, rear);
      LinearWindow(cells, 0, 0, Quot(cells[0], MAX_TYPES));
    }
  }

  /** Word 0 is not one of the numbers. */
  lemma SameNumbers(cells: seq<int>, cells': seq<int>, kind: int, rear: int)
    requires 0 <= kind < MAX_TYPES && |cells| == |cells'| > (if kind == 0 then 1 else Degree(kind))
    requires forall k :: 1 <= k < |cells| ==> cells'[k] == cells[k]
    ensures Window(cells', kind, rear) == Window(cells, kind, rear)
  {
    hide Degree;
  }

  // ---- setstate on the array in use ----

  /** Turning the numbers of a table by d places changes nothing. */
  predicate Turned(cells: seq<int>, deg: int, d: int)
    requires 0 <= d < deg < |cells|
  {
    forall i :: 0 <= i < deg ==> cells[1 + Around(i, d, deg)] == cells[1 + i]
  }

  /** From place r to place r', cyclically. */
  function Distance(r: int, r': int, deg: int): (d: int)
    requires 0 <= r < deg && 0 <= r' < deg
    ensures 0 <= d < deg
  {
    if r' >= r then r' - r else r' - r + deg
  }

  /** Two places of the rear pointer give the same numbers exactly for tables that can be turned from one to the other. */
  lemma TurnedWindow(cells: seq<int>, kind: int, r: int, r': int)
    requires 1 <= kind < MAX_TYPES && |cells| > Degree(kind) && 0 <= r < Degree(kind) && 0 <= r' < Degree(kind)
    ensures Window(cells, kind, r') == Window(cells, kind, r) <==> Turned(cells, Degree(kind), Distance(r, r', Degree(kind)))
  {
    hide Degree, Separation, Window, Front;
    var deg, sep := Degree(kind), Separation(kind);
    DegreeFacts(kind);
    FrontIs(kind, r);
    FrontIs(kind, r');
    WindowIs(cells, kind, r);
    WindowIs(cells, kind, r');
    TurnedFrom(cells, deg, Around(r, sep, deg), Around(r', sep, deg), Distance(r, r', deg));
  }

  lemma TurnedFrom(cells: seq<int>, deg: int, f: int, f': int, d: int)
    requires 0 <= f < deg < |cells| && 0 <= f' < deg && 0 <= d < deg && f' == Around(f, d, deg)
    ensures From(cells, f', deg) == From(cells, f, deg) <==> Turned(cells, deg, d)
  {
    var h, h' := From(cells, f, deg), From(cells, f', deg);
    if Turned(cells, deg, d) {
      forall k | 0 <= k < deg ensures h'[k] == h[k] {
        assert Around(f', k, deg) == Around(Around(f, k, deg), d, deg);
      }
    }
    if h' == h {
      forall i | 0 <= i < deg ensures cells[1 + Around(i, d, deg)] == cells[1 + i] {
        var k := Distance(f, i, deg);
        assert Around(f, k, deg) == i && Around(f', k, deg) == Around(i, d, deg);
        assert h'[k] == h[k];
      }
    }
  }

  /** setstate with the array in use, whose word 0 names the type in use.  A linear generator always goes
      on where it was.  Another does exactly if word 0 is up to date, which says that the pointers stay;
      and if it is not, the numbers stay the same only if the table looks the same from both places. */
  method SetStateInUse(g: Generator)
    requires g.Valid() && Suspended(g.table[..]) && KindOf(g.table[..]) == g.kind
    modifies g, g.table
    ensures g.Valid() && g.table == old(g.table) && g.kind == old(g.kind) && g.table[1..] == old(g.table[1..])
    ensures g.kind == 0 ==> g.View() == old(g.View())
    ensures g.kind != 0 ==> (g.rptr == old(g.rptr) && g.fptr == old(g.fptr) <==> old(Stored(g.table[..], g.kind, g.rptr)))
    ensures g.kind != 0 ==>
              (g.View() == old(g.View()) <==>
               old(Turned(g.table[..], Degree(g.kind), Distance(g.rptr, Quot(g.table[0], MAX_TYPES), Degree(g.kind)))))
  {
    hide Degree, Separation, Front, Window, Turned;
    ghost var cells, kind, rear := g.table[..], g.kind, g.rptr;
    var same := g.SetState(g.table);
    if kind == 0 {
      LinearWindow(cells, 0, rear, Quot(cells[0], MAX_TYPES));
    } else {
      WordZeroTells(cells[0], kind, rear);
      TurnedWindow(cells, kind, rear, Quot(cells[0], MAX_TYPES));
    }
  }

  lemma WordZeroTells(x: int, kind: int, rear: int)
    requires x >= 0 && 1 <= kind < MAX_TYPES && Rem(x, MAX_TYPES) == kind && 0 <= rear
    ensures Quot(x, MAX_TYPES) == rear <==> x == MAX_TYPES * rear + kind
  {
    WordZero(kind, rear);
  }

  /** Seeding, n numbers, and setstate with the same array: the pointers are back where they were after seeding,
      so nothing is lost exactly if n is a multiple of the degree or the table looks the same from both places. */
  method SeedDrawSetState(g: Generator, arr: array<int>, seed: int, n: nat)
    requires g.Valid() && arr.Length >= 2
    modifies g, g.table, arr
    ensures g.Valid() && g.table == arr && g.kind == KindFor(4 * arr.Length)
    ensures g.kind == 0 || n % Degree(g.kind) == 0 ==> g.View() == AdvanceBy(g.kind, Seeded(g.kind, seed), n)
    ensures g.kind != 0 ==>
              (g.View() == AdvanceBy(g.kind, Seeded(g.kind, seed), n) <==>
               Turned(arr[..], Degree(g.kind), Distance(n % Degree(g.kind), 0, Degree(g.kind))))
  {
    hide Degree, Separation, Front, Window, Turned, Seeded, Suspended, KindOf, KindFor, Advance;
    var refused := g.InitState(seed, arr);
    ghost var kind, start := g.kind, g.View();
    for i := 0 to n
      invariant g.Valid() && g.table == arr && g.kind == kind && g.View() == AdvanceBy(kind, start, i)
      invariant arr[0] == kind && (kind != 0 ==> g.rptr == i % Degree(kind))
    {
      if kind != 0 {
        DegreeFacts(kind);
        TurnAround(i, Degree(kind));
      }
      var drawn := g.Random();
    }
    ghost var cells := arr[..];
    InUseSuspended(cells, kind);
    SetStateInUse(g);
    if kind != 0 {
      SameTurned(cells, arr[..], Degree(kind), Distance(n % Degree(kind), 0, Degree(kind)));
    }
  }

  /** Word 0 right after seeding names the type, and place 0. */
  lemma InUseSuspended(cells: seq<int>, kind: int)
    requires 0 <= kind < MAX_TYPES && |cells| > (if kind == 0 then 1 else Degree(kind)) && cells[0] == kind
    requires forall k :: 1 <= k <= (if kind == 0 then 1 else Degree(kind)) ==> IsLong(cells[k])
    ensures Suspended(cells) && KindOf(cells) == kind && Quot(cells[0], MAX_TYPES) == 0
  {
    hide Degree;
    WordZero(kind, 0);
    if kind != 0 {
      DegreeFacts(kind);
    }
  }

  lemma SameTurned(cells: seq<int>, cells': seq<int>, deg: int, d: int)
    requires 0 <= d < deg < |cells| == |cells'| && cells'[1..] == cells[1..]
    ensures Turned(cells', deg, d) <==> Turned(cells, deg, d)
    ensures d == 0 ==> Turned(cells, deg, d)
  {
    assert forall i :: 0 <= i < deg ==> cells'[1 + i] == cells'[1..][i] && cells[1 + i] == cells[1..][i];
  }

  // ---- and one that does lose its place ----

  /** The lowest bits of the last seven numbers of a generator of type 1. */
  datatype Parity = Parity(b0: bool, b1: bool, b2: bool, b3: bool, b4: bool, b5: bool, b6: bool)

  predicate Odds(h: seq<int>, p: Parity) {
    && |h| == 7
    && (h[0] % 2 == 1 <==> p.b0) && (h[1] % 2 == 1 <==> p.b1) && (h[2] % 2 == 1 <==> p.b2) && (h[3] % 2 == 1 <==> p.b3)
    && (h[4] % 2 == 1 <==> p.b4) && (h[5] % 2 == 1 <==> p.b5) && (h[6] % 2 == 1 <==> p.b6)
  }

  function Shift(p: Parity, n: nat): Parity {
    if n == 0 then p
    else
      var q := Shift(p, n - 1);
      Parity(q.b1, q.b2, q.b3, q.b4, q.b5, q.b6, q.b0 != q.b4)
  }

  lemma SumOdd(x: int, y: int)
    ensures Signed(x + y) % 2 == 1 <==> (x % 2 == 1 <==> y % 2 != 1)
  {
    var k := AsSignedIs(x + y, HALF);
    EvenShift(x + y, k * HALF);
  }

  lemma EvenShift(x: int, m: int)
    ensures (x + 2 * m) % 2 == x % 2
  {
  }

  lemma {:induction false} AdvanceOdds(h: seq<int>, p: Parity, n: nat)
    requires Odds(h, p)
    ensures Odds(AdvanceBy(1, h, n), Shift(p, n))
  {
    hide Signed;
    if n > 0 {
      AdvanceOdds(h, p, n - 1);
      var g := AdvanceBy(1, h, n - 1);
      SumOdd(g[0], g[4]);
    }
  }

  lemma FirstChain()
    ensures Chain(1, 0) == 1 && Chain(1, 1) == 16807 && Chain(1, 2) == 282475249 && Chain(1, 3) == 1622650073
    ensures Chain(1, 4) == 984943658 && Chain(1, 5) == 1144108930 && Chain(1, 6) == 470211272
  {
    hide Chain;
    ChainStart(1);
    ChainNext(1, 0, 1, 16807);
    ChainNext(1, 1, 16807, 282475249);
    ChainNext(1, 2, 282475249, 1622650073);
    ChainNext(1, 3, 1622650073, 984943658);
    ChainNext(1, 4, 984943658, 1144108930);
    ChainNext(1, 5, 1144108930, 470211272);
  }

  lemma ChainStart(seed: int)
    requires IsLong(seed)
    ensures Chain(seed, 0) == seed
  {
  }

  lemma ChainNext(seed: int, k: nat, x: int, y: int)
    requires Chain(seed, k) == x && y == GoodRand(x)
    ensures Chain(seed, k + 1) == y
  {
  }

  lemma FilledOdds()
    ensures Odds(Filled(1, 1), Parity(true, false, false, false, true, true, true))
  {
    hide Chain, Signed;
    FirstChain();
  }

  lemma {:induction false} ShiftAdd(p: Parity, m: nat, n: nat)
    ensures Shift(Shift(p, m), n) == Shift(p, m + n)
  {
    if n > 0 {
      ShiftAdd(p, m, n - 1);
    }
  }

  lemma SeventyOne()
    ensures Shift(Parity(true, false, false, false, true, true, true), 71) == Parity(false, true, false, true, true, true, false)
  {
    hide Shift;
    var p := Parity(true, false, false, false, true, true, true);
    ShiftAdd(p, 9, 9);
    ShiftAdd(p, 18, 9);
    ShiftAdd(p, 27, 9);
    ShiftAdd(p, 36, 9);
    ShiftAdd(p, 45, 9);
    ShiftAdd(p, 54, 9);
    ShiftAdd(p, 63, 8);
    Nines();
  }

  lemma Nines()
    ensures Shift(Parity(true, false, false, false, true, true, true), 9) == Parity(true, false, false, false, true, false, true)
    ensures Shift(Parity(true, false, false, false, true, false, true), 9) == Parity(true, false, true, true, true, true, true)
    ensures Shift(Parity(true, false, true, true, true, true, true), 9) == Parity(false, true, false, true, false, false, false)
    ensures Shift(Parity(false, true, false, true, false, false, false), 9) == Parity(false, true, true, false, true, true, true)
    ensures Shift(Parity(false, true, true, false, true, true, true), 9) == Parity(false, true, true, true, false, false, true)
    ensures Shift(Parity(false, true, true, true, false, false, true), 9) == Parity(false, true, true, false, false, true, true)
    ensures Shift(Parity(false, true, true, false, false, true, true), 9) == Parity(false, false, false, true, true, false, true)
    ensures Shift(Parity(false, false, false, true, true, false, true), 8) == Parity(false, true, false, true, true, true, false)
  {
  }

  /** Seven words and word 0, seeded with 1: after a single number, setstate with the same array makes the
      generator go on from other numbers than it would have. */
  method SameArrayLosesPlace(g: Generator, arr: array<int>)
    requires g.Valid() && arr.Length == 8
    modifies g, g.table, arr
    ensures g.Valid() && g.kind == 1 && g.View() != AdvanceBy(1, Seeded(1, 1), 1)
  {
    hide Filled, AdvanceBy, Turned, Window, Shift;
    SeedDrawSetState(g, arr, 1, 1);
    FilledOdds();
    AdvanceOdds(Filled(1, 1), Parity(true, false, false, false, true, true, true), 71);
    SeventyOne();
    NextAdvance(1, Filled(1, 1), 70);
    if g.View() == AdvanceBy(1, Seeded(1, 1), 1) {
      AllEqual(arr[..], g.rptr);
    }
  }

  lemma NextAdvance(kind: int, h: seq<int>, n: nat)
    requires 0 <= kind < MAX_TYPES && |h| == (if kind == 0 then 1 else Degree(kind))
    ensures AdvanceBy(kind, AdvanceBy(kind, h, n), 1) == AdvanceBy(kind, h, n + 1)
  {
    hide Advance, Degree;
    var a := AdvanceBy(kind, h, n);
    assert AdvanceBy(kind, a, 0) == a;
  }

  lemma AllEqual(cells: seq<int>, rear: int)
    requires |cells| == 8 && Turned(cells, 7, 6) && 0 <= rear < 7
    ensures Window(cells, 1, rear)[0] == Window(cells, 1, rear)[1]
  {
    hide Window, Front;
    WindowIs(cells, 1, rear);
    assert cells[1 + Around(0, 6, 7)] == cells[1] && cells[1 + Around(1, 6, 7)] == cells[2];
    assert cells[1 + Around(2, 6, 7)] == cells[3] && cells[1 + Around(3, 6, 7)] == cells[4];
    assert cells[1 + Around(4, 6, 7)] == cells[5] && cells[1 + Around(5, 6, 7)] == cells[6];
  }

  // ---- any run over several tables ----

  /** One generator as its user sees it. */
  datatype Stream = Stream(kind: int, h: seq<int>)

  predicate StreamOK(s: Stream) {
    0 <= s.kind < MAX_TYPES && |s.h| == if s.kind == 0 then 1 else Degree(s.kind)
  }

  datatype Op = Draw | Resume(i: int) | Start(i: int, seed: int)

  /** The generators of a program: `cur` is in use. */
  datatype Pool = Pool(cur: int, streams: seq<Stream>)

  predicate Proper(p: Pool, op: Op) {
    match op
    case Draw => true
    case Resume(i) => 0 <= i < |p.streams| && i != p.cur
    case Start(i, seed) => 0 <= i < |p.streams|
  }

  predicate PoolOK(p: Pool) {
    0 <= p.cur < |p.streams| && forall i :: 0 <= i < |p.streams| ==> StreamOK(p.streams[i])
  }

  /** Every stream goes on by itself: only drawing from it, or seeding it anew, changes it. */
  function Next(p: Pool, sizes: seq<int>, op: Op): Pool
    requires PoolOK(p) && |sizes| == |p.streams| && Proper(p, op)
  {
    match op
    case Draw =>
      var s := p.streams[p.cur];
      p.(streams := p.streams[p.cur := Stream(s.kind, Advance(s.kind, s.h))])
    case Resume(i) => p.(cur := i)
    case Start(i, seed) =>
      Pool(i, p.streams[i := Stream(KindFor(4 * sizes[i]), Seeded(KindFor(4 * sizes[i]), seed))])
  }

  lemma NextOK(p: Pool, sizes: seq<int>, op: Op)
    requires PoolOK(p) && |sizes| == |p.streams| && Proper(p, op)
    ensures PoolOK(Next(p, sizes, op)) && |Next(p, sizes, op).streams| == |p.streams|
  {
    hide Degree;
  }

  /** The number a Draw delivers. */
  function Drawn(p: Pool): int
    requires PoolOK(p)
  {
    var s := p.streams[p.cur];
    Output(s.kind, Advance(s.kind, s.h))
  }

  /** What a run delivers; what is not proper is not done. */
  ghost predicate Trace(p: Pool, sizes: seq<int>, ops: seq<Op>, results: seq<int>)
    requires PoolOK(p) && |sizes| == |p.streams| && |ops| == |results|
    decreases |ops|
  {
    |ops| > 0 ==>
      if Proper(p, ops[0]) then
        && (ops[0].Draw? ==> results[0] == Drawn(p))
        && (NextOK(p, sizes, ops[0]); Trace(Next(p, sizes, ops[0]), sizes, ops[1..], results[1..]))
      else
        Trace(p, sizes, ops[1..], results[1..])
  }

  ghost predicate Represents(g: Generator, arrs: seq<array<int>>, p: Pool)
    reads g, g.table, arrs
  {
    && PoolOK(p) && |arrs| == |p.streams| && g.Valid() && g.table == arrs[p.cur]
    && (forall i, j :: 0 <= i < j < |arrs| ==> arrs[i] != arrs[j]) && (forall i :: 0 <= i < |arrs| ==> arrs[i].Length >= 2)
    && g.kind == p.streams[p.cur].kind && g.View() == p.streams[p.cur].h
    && forall i :: 0 <= i < |arrs| && i != p.cur ==> Holds(arrs[i][..], p.streams[i])
  }

  /** A table put away holds the stream. */
  ghost predicate Holds(cells: seq<int>, s: Stream) {
    Suspended(cells) && KindOf(cells) == s.kind && Resumed(cells) == s.h
  }

  ghost function Sizes(arrs: seq<array<int>>): (s: seq<int>)
    ensures |s| == |arrs| && forall i :: 0 <= i < |arrs| ==> s[i] == arrs[i].Length
  {
    seq(|arrs|, i requires 0 <= i < |arrs| => arrs[i].Length)
  }

  /** The table that was in use holds its stream after it has been put away. */
  lemma PutAway(before: seq<int>, after: seq<int>, kind: int, rear: int)
    requires 0 <= kind < MAX_TYPES && |before| == |after| > (if kind == 0 then 1 else Degree(kind)) && Stored(after, kind, rear)
    requires kind != 0 ==> 0 <= rear < Degree(kind)
    requires forall k :: 1 <= k <= (if kind == 0 then 1 else Degree(kind)) ==> IsLong(before[k])
    requires after[1..] == before[1..]
    ensures Holds(after, Stream(kind, Window(before, kind, rear)))
  {
    hide Degree, Window;
    StillLong(before, after, kind);
    StoredResumes(after, kind, rear);
    forall k | 1 <= k < |before| ensures after[k] == before[k] {
      assert after[1..][k - 1] == before[1..][k - 1];
    }
    SameNumbers(before, after, kind, rear);
  }

  method Step(g: Generator, arrs: seq<array<int>>, op: Op, ghost p: Pool) returns (r: int)
    requires Represents(g, arrs, p) && Proper(p, op)
    modifies g, arrs
    ensures Represents(g, arrs, Next(p, Sizes(arrs), op)) && (op.Draw? ==> r == Drawn(p))
  {
    hide Degree, Separation, Front, Window, Seeded, Advance, Suspended, Stored;
    ghost var before, kind, rear := g.table[..], g.kind, g.rptr;
    NextOK(p, Sizes(arrs), op);
    r := 0;
    match op {
      case Draw =>
        r := g.Random();
      case Resume(i) =>
        assert Holds(arrs[i][..], p.streams[i]);
        var old_ := g.SetState(arrs[i]);
        PutAway(before, arrs[p.cur][..], kind, rear);
      case Start(i, seed) =>
        var old_ := g.InitState(seed, arrs[i]);
        if i != p.cur {
          PutAway(before, arrs[p.cur][..], kind, rear);
        }
    }
  }

  /** Whatever tables are seeded, put away and resumed in between: each delivers its own sequence, uninterrupted. */
  method Run(g: Generator, arrs: seq<array<int>>, ops: seq<Op>, p: Pool) returns (results: seq<int>)
    requires Represents(g, arrs, p)
    modifies g, arrs
    ensures |results| == |ops| && Trace(p, Sizes(arrs), ops, results)
    decreases |ops|
  {
    hide Degree, Next, Drawn;
    if |ops| == 0 {
      return [];
    }
    if !Proper(p, ops[0]) {
      var skipped := Run(g, arrs, ops[1..], p);
      results := [0] + skipped;
      assert results[1..] == skipped;
      return;
    }
    var r := Step(g, arrs, ops[0], p);
    NextOK(p, Sizes(arrs), ops[0]);
    var sizes := seq(|arrs|, i requires 0 <= i < |arrs| => arrs[i].Length);
    assert sizes == Sizes(arrs);
    var rest := Run(g, arrs, ops[1..], Next(p, sizes, ops[0]));
    results := [r] + rest;
    assert results[1..] == rest;
  }
}
