/** internal_memalign. */
module Memalign {
  import opened Words
  import opened Memory
  import opened WordValues
  import opened MallocState
  import opened Layouts
  import opened LayoutOps
  import opened HeapInv
  import opened ChunkOps
  import opened SysAlloc
  import opened Malloc
  import opened FreeChunk
  import opened Realloc

  const CHUNK_OVERHEAD: int := 4
  const HIGH_BIT: int := 0x8000_0000

  // ---- the alignment that is used ----

  predicate PowerOfTwo(x: int) {
    x == 1 || (x > 1 && x % 2 == 0 && PowerOfTwo(x / 2))
  }

  lemma {:induction false} Pow2IsPower(k: nat)
    ensures PowerOfTwo(Pow2(k))
  {
    if k > 0 {
      Pow2IsPower(k - 1);
    }
  }

  lemma {:induction false} PowerIsPow2(x: int) returns (k: nat)
    requires PowerOfTwo(x)
    ensures x == Pow2(k)
    decreases x
  {
    if x == 1 {
      k := 0;
    } else {
      k := PowerIsPow2(x / 2);
      k := k + 1;
    }
  }

  /** The test the code makes, (x & (x - 1)) != 0, fails exactly for powers of two. */
  lemma {:induction false} OneBitTest(x: bv32)
    requires x != 0
    ensures x & (x - 1) == 0 <==> PowerOfTwo(Val(x))
    decreases Val(x)
  {
    hide Val;
    Halve(x);
    Halve(x >> 1);
    Halve(1);
    LowBit(x);
    if x & 1 == 1 {
      OddTest(x);
    } else {
      EvenTest(x);
      OneBitTest(x >> 1);
    }
  }

  lemma OddTest(x: bv32)
    requires x & 1 == 1
    ensures x & (x - 1) == 0 <==> x == 1
    ensures x >> 1 == 0 <==> x == 1
    ensures (1 as bv32) >> 1 == 0
  {
  }

  lemma EvenTest(x: bv32)
    requires x != 0 && x & 1 == 0
    ensures x >> 1 != 0 && (x & (x - 1) == 0 <==> (x >> 1) & ((x >> 1) - 1) == 0)
  {
  }

  /** a <<= 1 until a >= alignment */
  function Doubled(a: int, alignment: int): (r: int)
    requires a > 0
    ensures r >= a
    decreases alignment - a
  {
    if a >= alignment then a else Doubled(2 * a, alignment)
  }

  /** The alignment internal_memalign works with. */
  function Alignment(alignment: int): (a: int)
    ensures a >= MIN_CHUNK_SIZE
  {
    if alignment < MIN_CHUNK_SIZE then MIN_CHUNK_SIZE
    else if PowerOfTwo(alignment) then alignment
    else Doubled(16, alignment)
  }

  lemma SixteenDivides(k: nat)
    requires k >= 4
    ensures Pow2(k) % 16 == 0 && Pow2(k) >= 16
  {
    Pow2Add(4, k - 4);
    assert Pow2(4) == 16 by {
      assert Pow2(1) == 2 && Pow2(2) == 4 && Pow2(3) == 8;
    }
  }

  lemma SmallPowers(k: nat)
    ensures k >= 4 || Pow2(k) < 16
  {
    assert Pow2(1) == 2 && Pow2(2) == 4 && Pow2(3) == 8;
  }

  lemma HighBit()
    ensures Pow2(31) == HIGH_BIT && Pow2(4) == 16
  {
    assert Pow2(1) == 2 && Pow2(2) == 4 && Pow2(3) == 8;
    assert Pow2(5) == 32 && Pow2(6) == 64 && Pow2(7) == 128 && Pow2(8) == 256;
    Pow2Add(8, 8);
    Pow2Add(16, 8);
    Pow2Add(24, 7);
  }

  /** It is the least power of two that is no less than the request and no less than 16. */
  lemma AlignmentLeast(alignment: int)
    requires 0 <= alignment <= HIGH_BIT
    ensures var a := Alignment(alignment);
            PowerOfTwo(a) && a >= alignment && a >= 16 && a % 16 == 0 && a <= HIGH_BIT
    ensures forall b :: PowerOfTwo(b) && b >= alignment && b >= 16 ==> Alignment(alignment) <= b
  {
    HighBit();
    if alignment < 16 {
      Pow2IsPower(4);
    } else if PowerOfTwo(alignment) {
      var k := PowerIsPow2(alignment);
      SmallPowers(k);
      SixteenDivides(k);
    } else {
      DoubledLeast(4, alignment);
    }
  }

  lemma {:induction false} DoubledLeast(k: nat, alignment: int)
    requires 4 <= k <= 31 && Pow2(k) < 2 * alignment && 16 <= alignment <= HIGH_BIT
    ensures var a := Doubled(Pow2(k), alignment); PowerOfTwo(a) && a >= alignment && a % 16 == 0 && 16 <= a <= HIGH_BIT
    ensures forall b :: PowerOfTwo(b) && b >= alignment ==> Doubled(Pow2(k), alignment) <= b
    decreases 31 - k
  {
    HighBit();
    if Pow2(k) >= alignment {
      Pow2IsPower(k);
      SixteenDivides(k);
      Pow2Monotone(k, 31);
      forall b | PowerOfTwo(b) && b >= alignment ensures Pow2(k) <= b {
        var j := PowerIsPow2(b);
        assert Pow2(k) == 2 * Pow2(k - 1);
        if j < k {
          Pow2Monotone(j, k - 1);
        } else {
          Pow2Monotone(k, j);
        }
      }
    } else {
      if k == 31 {
        assert false;
      }
      DoubledLeast(k + 1, alignment);
    }
  }

  /** The loop that finds it, on 32-bit words. */
  method RoundUp(alignment: int) returns (a: int)
    requires 16 <= alignment <= HIGH_BIT
    ensures a == Doubled(16, alignment)
  {
    a := 16;
    ghost var k: nat := 4;
    HighBit();
    while a < alignment
      invariant a == Pow2(k) && k <= 31 && Doubled(a, alignment) == Doubled(16, alignment)
      decreases 31 - k
    {
      if k == 31 {
        assert false;
      }
      k := k + 1;
      Pow2Monotone(k, 31);
      a := Wrap(2 * a);
    }
  }

  /** The value of a after n shifts. */
  function Shifted(n: nat): int {
    if n == 0 then 16 else Wrap(2 * Shifted(n - 1))
  }

  /** For a larger alignment, which cannot be a power of two, the loop would never end: its guard holds
      after any number of shifts. */
  lemma {:induction false} LoopForever(n: nat, alignment: int)
    requires HIGH_BIT < alignment < WORD
    ensures Shifted(n) < alignment
  {
    ShiftedIs(n);
    HighBit();
    if n <= 27 {
      Pow2Monotone(n + 4, 31);
    }
  }

  lemma {:induction false} ShiftedIs(n: nat)
    ensures Shifted(n) == if n <= 27 then Pow2(n + 4) else 0
  {
    hide Wrap;
    HighBit();
    if n > 0 {
      ShiftedIs(n - 1);
      if n <= 27 {
        Pow2Monotone(n + 4, 31);
        WrapSmall(Pow2(n + 4));
      } else {
        ShiftedOut();
      }
    }
  }

  lemma ShiftedOut()
    ensures Wrap(2 * HIGH_BIT) == 0 && Wrap(2 * 0) == 0
  {
  }

  // ---- where in the chunk the aligned block goes ----

  predicate Aligned(mem: int, alignment: int)
    requires alignment > 0
  {
    mem % alignment == 0
  }

  /** mem rounded up to the alignment */
  function RoundedUp(mem: int, alignment: int): int
    requires alignment > 0
  {
    (mem + alignment - 1) / alignment * alignment
  }

  /** The chunk at `spot` would hold an aligned block, and start at p or a whole chunk behind it. */
  predicate Suitable(p: int, spot: int, alignment: int)
    requires alignment > 0
  {
    Aligned(spot + 8, alignment) && (spot == p || spot - p >= MIN_CHUNK_SIZE)
  }

  /** spot is the first suitable place in the chunk at p. */
  ghost predicate FirstSuitable(p: int, spot: int, alignment: int)
    requires alignment > 0
  {
    p <= spot && Suitable(p, spot, alignment) && forall x :: p <= x < spot ==> !Suitable(p, x, alignment)
  }

  /** Aligned addresses are at least the alignment apart. */
  lemma AlignedGap(x: int, y: int, a: int)
    requires a > 0 && Aligned(x, a) && Aligned(y, a) && x < y
    ensures x + a <= y
  {
    DivMod(x, a);
    DivMod(y, a);
    OneMore(x / a, a);
    if y / a <= x / a {
      Ordered(y / a, x / a, a);
    } else {
      Ordered(x / a + 1, y / a, a);
    }
  }

  lemma Ordered(i: int, j: int, a: int)
    requires i <= j && a > 0
    ensures i * a <= j * a
  {
  }

  /** The place that internal_memalign computes is the first. */
  lemma LeaderFirst(p: int, alignment: int)
    requires 0 <= p && p % 8 == 0 && alignment % 16 == 0 && alignment >= 16 && !Aligned(p + 8, alignment)
    ensures var br := RoundedUp(p + 8, alignment) - 8;
            FirstSuitable(p, if br - p >= MIN_CHUNK_SIZE then br else br + alignment, alignment)
  {
    hide Aligned, RoundedUp;
    LeaderFits(p, alignment);
    LeaderRounded(p, alignment);
    var br := RoundedUp(p + 8, alignment) - 8;
    var pos := if br - p >= MIN_CHUNK_SIZE then br else br + alignment;
    forall x | p <= x < pos ensures !Suitable(p, x, alignment) {
      if Aligned(x + 8, alignment) && x != p {
        if x < br {
          AlignedGap(x + 8, br + 8, alignment);
          assert false;
        } else if br < x {
          AlignedGap(br + 8, x + 8, alignment);
        }
      }
    }
  }

  lemma LeaderRounded(p: int, alignment: int)
    requires 0 <= p && p % 8 == 0 && alignment % 16 == 0 && alignment >= 16 && !Aligned(p + 8, alignment)
    ensures var br := RoundedUp(p + 8, alignment) - 8; Aligned(br + 8, alignment) && p < br < p + alignment
  {
    var q, r := (p + 8) / alignment, (p + 8) % alignment;
    DivMod(p + 8, alignment);
    QuotientNext(p + 8, alignment, q, r);
    MultipleAligned(q + 1, alignment);
    OneMore(q, alignment);
  }

  lemma FirstAtStart(p: int, alignment: int)
    requires alignment > 0 && Aligned(p + 8, alignment)
    ensures FirstSuitable(p, p, alignment)
  {
  }

  /** The aligned spot's leader is a whole chunk, and what follows has room. */
  lemma LeaderFits(p: int, alignment: int)
    requires 0 <= p && p % 8 == 0 && alignment % 16 == 0 && alignment >= 16 && !Aligned(p + 8, alignment)
    ensures var br := RoundedUp(p + 8, alignment) - 8;
            var pos := if br - p >= MIN_CHUNK_SIZE then br else br + alignment;
            Aligned(pos + 8, alignment) && MIN_CHUNK_SIZE <= pos - p <= alignment + 8 && (pos - p) % 8 == 0
  {
    var q, r := (p + 8) / alignment, (p + 8) % alignment;
    DivMod(p + 8, alignment);
    QuotientNext(p + 8, alignment, q, r);
    MultipleOfEight(q, alignment);
    MultipleAligned(q + 1, alignment);
    MultipleAligned(q + 2, alignment);
    OneMore(q, alignment);
    OneMore(q + 1, alignment);
    LeaderSpot(p, alignment, q * alignment, r, RoundedUp(p + 8, alignment) - 8);
  }

  lemma OneMore(q: int, a: int)
    ensures (q + 1) * a == q * a + a
  {
  }

  lemma LeaderSpot(p: int, a: int, m: int, r: int, br: int)
    requires p % 8 == 0 && a % 16 == 0 && m % 8 == 0 && p + 8 == m + r && 0 < r < a && br + 8 == m + a
    ensures var pos := if br - p >= MIN_CHUNK_SIZE then br else br + a;
            && MIN_CHUNK_SIZE <= pos - p <= a + 8 && (pos - p) % 8 == 0 && (pos + 8 == m + a || pos + 8 == m + a + a)
  {
  }

  lemma QuotientNext(x: int, a: int, q: int, r: int)
    requires a > 0 && x == q * a + r && 0 < r < a
    ensures (x + a - 1) / a == q + 1
  {
    var y := x + a - 1;
    assert y == (q + 1) * a + (r - 1);
    DivUnique(y, a, q + 1, r - 1);
  }

  lemma MultipleAligned(k: int, a: int)
    requires a > 0
    ensures k * a % a == 0
  {
    DivUnique(k * a, a, k, 0);
  }

  lemma MultipleOfEight(q: int, a: int)
    requires a % 8 == 0
    ensures q * a % 8 == 0
  {
    var c := a / 8;
    assert q * a == 8 * (q * c);
  }

  // ---- internal_memalign ----

  /** The request passed on to malloc for an aligned block. */
  function AlignedRequest(alignment: int, bytes: int): int {
    RequestSize(bytes) + Alignment(alignment) + MIN_CHUNK_SIZE - CHUNK_OVERHEAD
  }

  lemma RequestRoom(nb: int, a: int)
    requires nb % 8 == 0 && 16 <= nb && a % 16 == 0 && 16 <= a && nb + a + 12 < MAX_REQUEST
    ensures RequestSize(nb + a + 12) == nb + a + MIN_CHUNK_SIZE
  {
  }

  ghost function Also(mem: int): set<int> {
    if mem == 0 then {} else {mem - 8}
  }

  lemma CutFacts(l: Layout, p: int, nb: int)
    requires p in l.size && nb > 0
    ensures var l' := CutLayout(l, p, nb);
            l'.live == l.live + {p + nb} && p in l'.size && p + nb in l'.size && l'.base == l.base && l'.end == l.end && l'.top == l.top
  {
  }

  /** An aligned spot is found in the chunk p; what is before it is cut off, to be freed. */
  method CutLeader(m: State, p: int, alignment: int, nb: int, ghost s: set<int>) returns (newp: int, leader: int)
    requires Ready(m, {}) && m.lay.live == s + {p} && p !in s && p in m.lay.size && m.lay.size[p] >= nb + alignment + MIN_CHUNK_SIZE
    requires 16 <= nb && 16 <= alignment && alignment % 16 == 0
    modifies m`w, m`lay
    ensures Ready(m, {}) && Aligned(newp + 8, alignment) && newp !in s && newp > 0 && FirstSuitable(p, newp, alignment)
    ensures m.lay.live == s + {newp} + Also(leader) && newp in m.lay.size && m.lay.size[newp] >= nb
    ensures m.lay.size[newp] == old(m.lay.size)[p] - (newp - p)
    ensures leader != 0 ==> leader - 8 !in s && leader - 8 != newp
    ensures Kept(old(m.w), m.w, old(m.lay), m.lay, s) && m.lay.base == old(m.lay.base) && m.lay.end == old(m.lay.end)
    ensures Confined(old(m.w), m.w, m.gm, m.lay.base, m.lay.end + TOP_FOOT_SIZE)
  {
    hide Heap, Kept, Confined, CutLayout, RoundedUp, Aligned, Pin, Pinuse, ChunkSize, FirstSuitable;
    ghost var l := m.lay;
    PinIs(m, p);
    NothingKept(m);
    newp, leader := p, 0;
    var mem := p + 8;
    if !Aligned(mem, alignment) {
      var br := RoundedUp(mem, alignment) - 8;
      var pos := if br - p >= MIN_CHUNK_SIZE then br else br + alignment;
      LeaderFits(p, alignment);
      LeaderFirst(p, alignment);
      newp := pos;
      var leadsize := pos - p;
      var newsize := ChunkSize(m.w[p + HEAD]) - leadsize;
      Eights(l.size[p], leadsize);
      CutFacts(l, p, leadsize);
      CutRestFirst(m, p, leadsize, newp, newsize);
      leader := p + 8;
      assert l.live - {p} == s;
    } else {
      FirstAtStart(p, alignment);
      KeptLess(m.w, m.w, m.lay, m.lay, m.lay.live, s);
    }
  }

  /** What is left of a chunk after spare room is cut off: more than 16 bytes are. */
  function Trimmed(size: int, nb: int): int {
    if size > nb + MIN_CHUNK_SIZE then nb else size
  }

  /** Spare room behind the block is cut off, to be freed. */
  method CutTrailer(m: State, p: int, nb: int, ghost s: set<int>) returns (trailer: int)
    requires Ready(m, {}) && m.lay.live == s + {p} && p !in s && p in m.lay.size && m.lay.size[p] >= nb && 16 <= nb && nb % 8 == 0
    modifies m`w, m`lay
    ensures Ready(m, {}) && m.lay.live == s + {p} + Also(trailer)
    ensures p in m.lay.size && m.lay.size[p] == Trimmed(old(m.lay.size)[p], nb)
    ensures trailer != 0 ==> trailer - 8 !in s && trailer - 8 != p
    ensures Kept(old(m.w), m.w, old(m.lay), m.lay, s) && m.lay.base == old(m.lay.base) && m.lay.end == old(m.lay.end)
    ensures Confined(old(m.w), m.w, m.gm, m.lay.base, m.lay.end + TOP_FOOT_SIZE)
  {
    hide Heap, Kept, Confined, CutLayout;
    ghost var l := m.lay;
    PinIs(m, p);
    NothingKept(m);
    trailer := 0;
    var size := ChunkSize(m.w[p + HEAD]);
    if size > nb + MIN_CHUNK_SIZE {
      var remainderSize := size - nb;
      var remainder := p + nb;
      Eights(l.size[p], nb);
      CutFacts(l, p, nb);
      CutFrontFirst(m, p, nb, remainder, remainderSize);
      trailer := remainder + 8;
      assert l.live - {p} == s;
    } else {
      KeptLess(m.w, m.w, m.lay, m.lay, m.lay.live, s);
    }
  }

  /** One of the pieces that were cut off, if it exists, is freed. */
  method GiveBack(m: State, mem: int, ghost s: set<int>)
    requires Ready(m, {}) && m.lay.live == s + Also(mem) && (mem != 0 ==> mem - 8 !in s)
    modifies m`w, m`smallmap, m`treemap, m`dvsize, m`topsize, m`dv, m`top, m`trimCheck, m`sbrkSize, m`lay, m`bins
    ensures Ready(m, {}) && m.lay.live == s && m.sbrkSize == old(m.sbrkSize) && m.lay.base == old(m.lay.base) && m.lay.end == old(m.lay.end)
    ensures Kept(old(m.w), m.w, old(m.lay), m.lay, s)
    ensures Confined(old(m.w), m.w, m.gm, m.lay.base, m.lay.end + TOP_FOOT_SIZE)
  {
    hide Heap, Kept, Confined, Available;
    ReadyTop(m);
    NothingKept(m);
    if mem != 0 {
      Dlfree(m, mem);
      ReadyTop(m);
    }
  }

  /** malloc serves a request that is larger by the alignment and 16 at p; the block at r is at the first suitable place
      there, and its chunk is what is left without the spare room. */
  ghost predicate AlignedAt(m: State, nb: int, p: int, r: int, size: int, alignment: int)
    requires alignment > 0
    reads m
  {
    var asked := nb + alignment + MIN_CHUNK_SIZE;
    ServedAt(m, asked, p) && FirstSuitable(p, r - 8, alignment) && size == Trimmed(SizeServed(m, asked, p) - (r - 8 - p), nb)
  }

  ghost predicate AlignedIn(m: State, nb: int, r: int, size: int, alignment: int)
    requires alignment > 0
    reads m
  {
    exists p :: AlignedAt(m, nb, p, r, size, alignment)
  }

  /** A request that is as large as it can be for any alignment to work out. */
  lemma AskedSize(m: State, nb: int, a: int)
    requires Inv(m) && nb % 8 == 0 && 16 <= nb && a % 16 == 0 && 16 <= a
    ensures CanServe(m, RequestSize(nb + a + 12)) <==> CanServe(m, nb + a + MIN_CHUNK_SIZE)
    ensures CanServe(m, nb + a + MIN_CHUNK_SIZE) ==> RequestSize(nb + a + 12) == nb + a + MIN_CHUNK_SIZE
  {
    if nb + a + 12 < MAX_REQUEST {
      RequestRoom(nb, a);
    } else {
      TooBig(m, RequestSize(nb + a + 12));
      TooBig(m, nb + a + MIN_CHUNK_SIZE);
    }
    hide Inv, CanServe;
  }

  lemma NeverServed(m: State, bytes: int, a: int)
    requires Inv(m) && bytes >= MAX_REQUEST - a && 0 <= a <= HIGH_BIT
    ensures !CanServe(m, RequestSize(bytes) + a + MIN_CHUNK_SIZE)
  {
    if bytes < MAX_REQUEST {
      RequestSizeLeast(bytes);
    }
    TooBig(m, RequestSize(bytes) + a + MIN_CHUNK_SIZE);
    hide Inv, CanServe;
  }

  /** internal_memalign(m, alignment, bytes): a block at a multiple of the alignment, with room for
      the bytes and at most 16 to spare; whatever else malloc returned is free again.  It succeeds exactly
      if malloc would for a chunk that is larger by the alignment and 16 bytes. */
  method InternalMemalign(m: State, alignment: int, bytes: int) returns (r: int)
    requires Inv(m) && 8 < alignment <= HIGH_BIT && 0 <= bytes < WORD
    requires !Overruns(m, RequestSize(AlignedRequest(alignment, bytes)))
    modifies m`w, m`smallmap, m`treemap, m`dvsize, m`topsize, m`dv, m`top, m`trimCheck, m`footprint, m`maxFootprint,
             m`noncontiguous, m`segBase, m`segSize, m`sbrkSize, m`lay, m`bins
    ensures Inv(m) && Kept(old(m.w), m.w, old(m.lay), m.lay, old(m.lay.live))
    ensures Confined(old(m.w), m.w, m.gm, m.memBase, m.memBase + m.sbrkSize)
    ensures r == 0 ==> m.lay.live == old(m.lay.live)
    ensures r != 0 ==>
              var p, nb := r - 8, RequestSize(bytes);
              && Aligned(r, Alignment(alignment)) && p !in old(m.lay.live) && m.lay.live == old(m.lay.live) + {p}
              && p in m.lay.size && nb <= m.lay.size[p] <= nb + MIN_CHUNK_SIZE
    ensures r != 0 <==> old(CanServe(m, RequestSize(bytes) + Alignment(alignment) + MIN_CHUNK_SIZE))
    ensures r != 0 ==>
              r - 8 in m.lay.size
              && var size := m.lay.size[r - 8];
                 old(AlignedIn(m, RequestSize(bytes), r, size, Alignment(alignment)))
  {
    hide Heap, Kept, Confined, Alignment, RequestSize, Fits, Granted, Overruns, Served, Also, PowerOfTwo, Aligned;
    hide CanServe, ServedAt, SizeServed, FirstSuitable, VictimAfter, Trimmed, GrantedSize, FirstGranted;
    ghost var v, l, s := m.w, m.lay, m.lay.live;
    AlignmentLeast(alignment);
    NoChange(m);
    var a := UsedAlignment(alignment);
    r := 0;
    if bytes < MAX_REQUEST - a {
      RequestSizeLeast(bytes);
      var nb := RequestSize(bytes);
      var req := nb + a + MIN_CHUNK_SIZE - CHUNK_OVERHEAD;
      assert req == AlignedRequest(alignment, bytes);
      RequestBound(bytes);
      AskedSize(m, nb, a);
      var mem := Dlmalloc(m, req);
      if mem != 0 {
        ghost var v1, l1 := m.w, m.lay;
        ServedFacts(l, l1, mem - 8, RequestSize(req));
        ServedRoom(m, mem - 8, nb, a);
        r := AlignInside(m, mem, a, nb, s);
        ghost var size := m.lay.size[r - 8];
        assert old(AlignedAt(m, nb, mem - 8, r, size, a));
        LiveOf(m);
        KeptTrans(v, v1, m.w, l, l1, m.lay, s, s);
        ConfinedMore(v1, m.w, m.gm, m.lay.base, m.lay.end + TOP_FOOT_SIZE, m.memBase, m.memBase + m.sbrkSize);
        ConfinedTrans(v, v1, m.w, m.gm, m.memBase, m.memBase + m.sbrkSize, m.memBase + m.sbrkSize);
      }
    } else {
      NeverServed(m, bytes, a);
    }
  }

  lemma RequestBound(bytes: int)
    requires 0 <= bytes < MAX_REQUEST
    ensures RequestSize(bytes) <= bytes + 16
  {
  }

  lemma ServedRoom(m: State, p: int, nb: int, a: int)
    requires Ready(m, {}) && p in m.lay.size && m.lay.size[p] >= RequestSize(nb + a + 12)
    requires nb % 8 == 0 && 16 <= nb && a % 16 == 0 && 16 <= a
    ensures m.lay.size[p] >= nb + a + MIN_CHUNK_SIZE
  {
    SizesEven(m, {});
    hide Heap;
    if nb + a + 12 < MAX_REQUEST {
      RequestRoom(nb, a);
    }
  }

  /** The power of two that stands for the alignment. */
  method UsedAlignment(alignment0: int) returns (alignment: int)
    requires 8 < alignment0 <= HIGH_BIT
    ensures alignment == Alignment(alignment0)
  {
    alignment := alignment0;
    if alignment < MIN_CHUNK_SIZE {
      alignment := MIN_CHUNK_SIZE;
      HighBit();
      Pow2IsPower(4);
    }
    if !PowerOfTwo(alignment) {
      alignment := RoundUp(alignment);
    }
  }

  /** The part of internal_memalign after malloc. */
  method AlignInside(m: State, mem: int, alignment: int, nb: int, ghost s: set<int>) returns (r: int)
    requires Ready(m, {}) && m.lay.live == s + {mem - 8} && mem - 8 !in s && mem - 8 in m.lay.size
    requires m.lay.size[mem - 8] >= nb + alignment + MIN_CHUNK_SIZE && 16 <= nb && nb % 8 == 0 && 16 <= alignment && alignment % 16 == 0
    modifies m`w, m`smallmap, m`treemap, m`dvsize, m`topsize, m`dv, m`top, m`trimCheck, m`sbrkSize, m`lay, m`bins
    ensures Ready(m, {}) && r > 0 && Aligned(r, alignment) && r - 8 !in s && m.lay.live == s + {r - 8}
    ensures FirstSuitable(mem - 8, r - 8, alignment)
    ensures r - 8 in m.lay.size && nb <= m.lay.size[r - 8] <= nb + MIN_CHUNK_SIZE
    ensures m.lay.size[r - 8] == Trimmed(old(m.lay.size)[mem - 8] - (r - mem), nb)
    ensures m.sbrkSize == old(m.sbrkSize) && m.top != 0
    ensures Kept(old(m.w), m.w, old(m.lay), m.lay, s) && Confined(old(m.w), m.w, m.gm, m.lay.base, m.lay.end + TOP_FOOT_SIZE)
  {
    hide Heap, Kept, Confined, Aligned, FirstSuitable;
    ghost var v, l := m.w, m.lay;
    var p, leader := CutLeader(m, mem - 8, alignment, nb, s);
    ghost var v1, l1, s1 := m.w, m.lay, s + Also(leader);
    assert m.lay.live == s1 + {p};
    var trailer := CutTrailer(m, p, nb, s1);
    ghost var v2, l2, s2 := m.w, m.lay, s + {p} + Also(trailer);
    assert m.lay.live == s2 + Also(leader);
    GiveBack(m, leader, s2);
    ghost var v3, l3, s3 := m.w, m.lay, s + {p};
    assert m.lay.live == s3 + Also(trailer);
    GiveBack(m, trailer, s3);
    ReadyTop(m);
    FourSteps(v, v1, v2, v3, m.w, m.gm, l, l1, l2, l3, m.lay, s, s1, s2, s3);
    KeptChunk(v2, v3, m.w, l2, l3, m.lay, s2, s3, p);
    r := p + 8;
  }

  lemma FourSteps(u: Mem, v1: Mem, v2: Mem, v3: Mem, w: Mem, gm: int, l: Layout, l1: Layout, l2: Layout, l3: Layout, l4: Layout,
                  s: set<int>, s1: set<int>, s2: set<int>, s3: set<int>)
    requires s <= s1 && s <= s2 && s <= s3
    requires Kept(u, v1, l, l1, s) && Kept(v1, v2, l1, l2, s1) && Kept(v2, v3, l2, l3, s2) && Kept(v3, w, l3, l4, s3)
    requires l1.base == l.base && l2.base == l.base && l3.base == l.base && l4.base == l.base
    requires l1.end == l.end && l2.end == l.end && l3.end == l.end && l4.end == l.end
    requires Confined(u, v1, gm, l.base, l.end + TOP_FOOT_SIZE) && Confined(v1, v2, gm, l.base, l.end + TOP_FOOT_SIZE)
    requires Confined(v2, v3, gm, l.base, l.end + TOP_FOOT_SIZE) && Confined(v3, w, gm, l.base, l.end + TOP_FOOT_SIZE)
    ensures Kept(u, w, l, l4, s) && Confined(u, w, gm, l4.base, l4.end + TOP_FOOT_SIZE)
  {
    hide Kept, Confined;
    KeptLess(v1, v2, l1, l2, s1, s);
    KeptLess(v2, v3, l2, l3, s2, s);
    KeptLess(v3, w, l3, l4, s3, s);
    KeptTrans(u, v1, v2, l, l1, l2, s, s);
    KeptTrans(u, v2, v3, l, l2, l3, s, s);
    KeptTrans(u, v3, w, l, l3, l4, s, s);
    var lo, hi := l.base, l.end + TOP_FOOT_SIZE;
    ConfinedTrans(u, v1, v2, gm, lo, hi, hi);
    ConfinedTrans(u, v2, v3, gm, lo, hi, hi);
    ConfinedTrans(u, v3, w, gm, lo, hi, hi);
  }

  lemma KeptChunk(v2: Mem, v3: Mem, w: Mem, l2: Layout, l3: Layout, l4: Layout, s2: set<int>, s3: set<int>, p: int)
    requires Kept(v2, v3, l2, l3, s2) && Kept(v3, w, l3, l4, s3) && p in s2 && p in s3
    ensures p in l2.size && p in l4.size && l4.size[p] == l2.size[p]
  {
    assert KeptAt(v2, v3, l2, l3, p) && KeptAt(v3, w, l3, l4, p);
  }

  /** What dlmemalign asks malloc for. */
  function Asked(alignment: int, bytes: int): int {
    if alignment <= 8 then bytes else AlignedRequest(alignment, bytes)
  }

  /** dlmemalign(alignment, bytes) */
  method Dlmemalign(m: State, alignment: int, bytes: int) returns (r: int)
    requires Inv(m) && 0 <= alignment <= HIGH_BIT && 0 <= bytes < WORD && !Overruns(m, RequestSize(Asked(alignment, bytes)))
    modifies m`w, m`smallmap, m`treemap, m`dvsize, m`topsize, m`dv, m`top, m`trimCheck, m`footprint, m`maxFootprint,
             m`noncontiguous, m`segBase, m`segSize, m`sbrkSize, m`lay, m`bins
    ensures Inv(m) && Kept(old(m.w), m.w, old(m.lay), m.lay, old(m.lay.live))
    ensures r == 0 ==> m.lay.live == old(m.lay.live)
    ensures r != 0 ==>
              var p, nb := r - 8, RequestSize(bytes);
              && p !in old(m.lay.live) && m.lay.live == old(m.lay.live) + {p}
              && p in m.lay.size && nb <= m.lay.size[p] <= nb + MIN_CHUNK_SIZE
              && r % 8 == 0 && (alignment > 8 ==> Aligned(r, Alignment(alignment)))
    ensures r != 0 <==>
              old(CanServe(m, RequestSize(bytes) + if alignment <= 8 then 0 else Alignment(alignment) + MIN_CHUNK_SIZE))
  {
    hide Heap, Kept, Confined, Alignment, RequestSize, Fits, Granted, Overruns, Aligned;
    hide CanServe, ServedAt, AlignedIn, VictimAfter, GrantedSize, FirstGranted;
    if alignment <= 8 {
      r := Dlmalloc(m, bytes);
    } else {
      r := InternalMemalign(m, alignment, bytes);
    }
    if r != 0 {
      LiveReady(m);
      PinIs(m, r - 8);
    }
  }

  lemma LiveReady(m: State)
    requires Inv(m) && m.lay.live != {}
    ensures Ready(m, {})
  {
    hide Heap;
  }
}
