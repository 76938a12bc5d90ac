/** sys_alloc and sys_trim over the kernel's sbrk: how the heap gets memory, and that it stays one segment. */
module SysAlloc {
  import opened Words
  import opened Memory
  import Bitmaps
  import opened Tries
  import opened MallocState
  import opened BinIndex
  import opened TreeSearch
  import opened Layouts
  import opened LayoutOps
  import opened SmallBins
  import opened TreeBins
  import opened TreeInsert
  import opened Rings
  import opened BinSets
  import opened HeapInv
  import opened ChunkOps

  const CMFAIL: int := WORD - 1
  const PAGE_SIZE: int := 4096
  const HALF_MAX_SIZE_T: int := 0x7FFF_FFFF
  const TRIM_THRESHOLD: int := 0x20_0000
  const MAX_REQUEST: int := WORD - 64

  /** granularity_align(S) and page_align(S), which add a page even to what is aligned. */
  function GranularityAlign(s: int): int {
    Wrap(s + PAGE_SIZE) / PAGE_SIZE * PAGE_SIZE
  }

  /** sbrk(increment) */
  method Sbrk(m: State, increment: int) returns (p: int)
    modifies m`sbrkSize
    ensures if increment <= KERNEL_DATA_SPACE - old(m.sbrkSize)
            then p == m.memBase + old(m.sbrkSize) && m.sbrkSize == old(m.sbrkSize) + increment
            else p == CMFAIL && m.sbrkSize == old(m.sbrkSize)
  {
    if KERNEL_DATA_SPACE - m.sbrkSize < increment {
      return CMFAIL;
    }
    var base := m.memBase + m.sbrkSize;
    m.sbrkSize := m.sbrkSize + increment;
    p := base;
  }

  /** segment_holding(m, addr), which has only the embedded record to look at. */
  predicate SegmentHolds(m: State, addr: int)
    reads m
  {
    m.segBase <= addr < m.segBase + m.segSize
  }

  /** Before the first request is served: all zero, though the kernel may have refused memory already. */
  ghost predicate Uninitialised(m: State) 
    reads m
  {
    && m.top == 0 && m.topsize == 0 && m.dv == 0 && m.dvsize == 0 && m.smallmap == 0 && m.treemap == 0
    && m.segBase == 0 && m.segSize == 0 && m.footprint == 0 && m.maxFootprint == 0
    && m.lay == Layout(0, 0, 0, map[], map[], {}) && m.bins == NoBins()
    && forall i :: 0 <= i < NTREEBINS ==> m.w[TreeBinAt(m.gm, i)] == 0
  }

  ghost predicate Inv(m: State)
    reads m
  {
    if m.top == 0 then Env(m.gm, m.memBase) && Uninitialised(m) && m.sbrkSize == 0 else Ready(m, {})
  }

  // ---- what the kernel grants ----

  /** Chunk sizes that dlmalloc asks for: padded requests, or the size that must fail. */
  predicate Askable(nb: int) {
    nb == WORD - 1 || (16 <= nb <= WORD - 56 && nb % 8 == 0)
  }

  /** What the contiguous attempt asks sbrk for. */
  function Contiguous(memBase: int, top: int, topsize: int, nb: int): int {
    if top == 0 then
      GranularityAlign(Wrap(nb + TOP_FOOT_SIZE + 1)) + (if memBase % PAGE_SIZE == 0 then 0 else PAGE_SIZE - memBase % PAGE_SIZE)
    else
      GranularityAlign(Wrap(nb - topsize + TOP_FOOT_SIZE + 1))
  }

  /** What the noncontiguous attempt asks sbrk for. */
  function Noncontiguous(nb: int): int {
    GranularityAlign(Wrap(nb + TOP_FOOT_SIZE + 1))
  }

  predicate FirstGranted(m: State, nb: int)
    reads m`noncontiguous, m`top, m`topsize, m`sbrkSize
  {
    && !m.noncontiguous && Contiguous(m.memBase, m.top, m.topsize, nb) < HALF_MAX_SIZE_T
    && Contiguous(m.memBase, m.top, m.topsize, nb) <= KERNEL_DATA_SPACE - m.sbrkSize
  }

  predicate SecondGranted(m: State, nb: int)
    reads m`noncontiguous, m`top, m`topsize, m`sbrkSize
  {
    && 0 < Noncontiguous(nb) < HALF_MAX_SIZE_T && Noncontiguous(nb) <= KERNEL_DATA_SPACE - m.sbrkSize
  }

  /** The kernel will give something for a request of nb. */
  predicate Granted(m: State, nb: int)
    reads m`noncontiguous, m`top, m`topsize, m`sbrkSize
  {
    FirstGranted(m, nb) || SecondGranted(m, nb)
  }

  function GrantedSize(m: State, nb: int): int
    reads m`noncontiguous, m`top, m`topsize, m`sbrkSize
  {
    if FirstGranted(m, nb) then Contiguous(m.memBase, m.top, m.topsize, nb) else Noncontiguous(nb)
  }

  /** n is s rounded up to a page that ends past it; 0 where that is 2^32. */
  predicate RoundsUp(n: int, s: int) {
    n % PAGE_SIZE == 0 && if s < WORD - PAGE_SIZE then s < n <= s + PAGE_SIZE else n == 0
  }

  /** From memBase to the next page boundary. */
  function Gap(memBase: int): int {
    if memBase % PAGE_SIZE == 0 then 0 else PAGE_SIZE - memBase % PAGE_SIZE
  }

  /** What is asked of the kernel, for every request: the bytes that are missing, in whole pages, and the first time
      what is missing to a page boundary. */
  lemma AskedExactly(memBase: int, top: int, topsize: int, nb: int)
    ensures RoundsUp(Noncontiguous(nb), (nb + TOP_FOOT_SIZE + 1) % WORD)
    ensures top != 0 ==> RoundsUp(Contiguous(memBase, top, topsize, nb), (nb - topsize + TOP_FOOT_SIZE + 1) % WORD)
    ensures top == 0 ==>
              var gap := Contiguous(memBase, top, topsize, nb) - Noncontiguous(nb);
              0 <= gap < PAGE_SIZE && (memBase + gap) % PAGE_SIZE == 0
  {
    hide GranularityAlign;
    GranularityFacts(Wrap(nb + TOP_FOOT_SIZE + 1));
    GranularityFacts(Wrap(nb - topsize + TOP_FOOT_SIZE + 1));
    GapEnds(memBase);
  }

  lemma GapEnds(memBase: int)
    ensures 0 <= Gap(memBase) < PAGE_SIZE && (memBase + Gap(memBase)) % PAGE_SIZE == 0
  {
    DivMod(memBase, PAGE_SIZE);
    if memBase % PAGE_SIZE != 0 {
      DivUnique(memBase + Gap(memBase), PAGE_SIZE, memBase / PAGE_SIZE + 1, 0);
    }
  }

  /** What a request lacks: its own bytes, top's foot and one byte, less what top has, unless that cannot be extended. */
  function Missing(m: State, nb: int): int
    reads m`noncontiguous, m`topsize
  {
    nb + TOP_FOOT_SIZE + 1 - if m.noncontiguous then 0 else m.topsize
  }

  /** The kernel has whole pages left for what is missing, with a byte to spare. */
  predicate KernelHas(m: State, nb: int)
    reads m`noncontiguous, m`topsize, m`sbrkSize
  {
    Missing(m, nb) < (KERNEL_DATA_SPACE - m.sbrkSize) / PAGE_SIZE * PAGE_SIZE
  }

  /** A request can be met by the kernel exactly if it has the pages. */
  lemma GrantedExactly(m: State, nb: int)
    requires Inv(m) && Askable(nb) && m.topsize <= nb
    ensures Granted(m, nb) && nb <= KERNEL_DATA_SPACE <==> KernelHas(m, nb)
  {
    hide Heap, Contiguous, Noncontiguous, RoundsUp;
    Bounds(m);
    TopBound(m);
    if nb <= KERNEL_DATA_SPACE {
      AskedExactly(m.memBase, m.top, m.topsize, nb);
      WrapSmall(nb + TOP_FOOT_SIZE + 1);
      WrapSmall(nb - m.topsize + TOP_FOOT_SIZE + 1);
      PagesFit(Noncontiguous(nb), nb + TOP_FOOT_SIZE + 1, KERNEL_DATA_SPACE - m.sbrkSize);
      if m.top != 0 {
        PagesFit(Contiguous(m.memBase, m.top, m.topsize, nb), nb - m.topsize + TOP_FOOT_SIZE + 1, KERNEL_DATA_SPACE - m.sbrkSize);
      }
    } else {
      PagesBelow(KERNEL_DATA_SPACE - m.sbrkSize);
    }
  }

  lemma TopBound(m: State)
    requires Inv(m)
    ensures m.top == 0 ==> m.topsize == 0 && m.sbrkSize == 0
    ensures m.top != 0 ==> 0 < m.topsize < m.sbrkSize
  {
    if m.top != 0 {
      TopFacts(m, {});
      TopBelow(m);
    }
    hide Heap;
  }

  lemma PagesBelow(limit: int)
    ensures limit / PAGE_SIZE * PAGE_SIZE <= limit
  {
    DivMod(limit, PAGE_SIZE);
  }

  /** A size rounded up to pages is within the limit exactly if the size is below the last page boundary in it. */
  lemma PagesFit(n: int, s: int, limit: int)
    requires RoundsUp(n, s) && 0 <= s < WORD - PAGE_SIZE
    ensures n > 0
    ensures n <= limit <==> s < limit / PAGE_SIZE * PAGE_SIZE
  {
    var q := n / PAGE_SIZE;
    DivMod(n, PAGE_SIZE);
    DivMod(limit, PAGE_SIZE);
  }

  /** The attempt to extend the segment in place, or to begin it, is granted exactly if there are pages for it behind
      what is missing to a page boundary; after it has failed once it is not made again. */
  lemma FirstGrantedExactly(m: State, nb: int)
    requires Inv(m) && Askable(nb) && m.topsize <= nb <= KERNEL_DATA_SPACE
    ensures FirstGranted(m, nb) <==>
            !m.noncontiguous
            && Missing(m, nb) < (KERNEL_DATA_SPACE - m.sbrkSize - if m.top == 0 then Gap(m.memBase) else 0) / PAGE_SIZE * PAGE_SIZE
  {
    hide Heap, Contiguous, Noncontiguous, RoundsUp;
    Bounds(m);
    TopBound(m);
    AskedExactly(m.memBase, m.top, m.topsize, nb);
    FirstIs(m.memBase, nb, Gap(m.memBase));
    WrapSmall(nb + TOP_FOOT_SIZE + 1);
    WrapSmall(nb - m.topsize + TOP_FOOT_SIZE + 1);
    if m.top != 0 {
      PagesFit(Contiguous(m.memBase, m.top, m.topsize, nb), nb - m.topsize + TOP_FOOT_SIZE + 1, KERNEL_DATA_SPACE - m.sbrkSize);
    } else {
      PagesFit(Noncontiguous(nb), nb + TOP_FOOT_SIZE + 1, KERNEL_DATA_SPACE - m.sbrkSize - Gap(m.memBase));
    }
  }

  lemma GranularityFacts(s: int)
    requires 0 <= s < WORD
    ensures GranularityAlign(s) % PAGE_SIZE == 0 && 0 <= GranularityAlign(s) <= WORD - PAGE_SIZE
    ensures if s < WORD - PAGE_SIZE then s < GranularityAlign(s) <= s + PAGE_SIZE else GranularityAlign(s) == 0
  {
  }

  lemma ToPageEnd(base: int)
    requires 0 < base < WORD - PAGE_SIZE && base % PAGE_SIZE != 0
    ensures GranularityAlign(base) - base == PAGE_SIZE - base % PAGE_SIZE
  {
  }

  lemma ContiguousFacts(memBase: int, top: int, topsize: int, nb: int)
    requires 0 < memBase < WORD - PAGE_SIZE
    ensures 0 <= Contiguous(memBase, top, topsize, nb) < WORD && 0 <= Noncontiguous(nb) < WORD
    ensures Noncontiguous(nb) % PAGE_SIZE == 0
    ensures top != 0 ==> Contiguous(memBase, top, topsize, nb) % PAGE_SIZE == 0
    ensures top == 0 && memBase % PAGE_SIZE != 0 ==>
              Contiguous(memBase, top, topsize, nb) == Wrap(Noncontiguous(nb) + GranularityAlign(memBase) - memBase)
    ensures top == 0 && memBase % PAGE_SIZE == 0 ==> Contiguous(memBase, top, topsize, nb) == Noncontiguous(nb)
  {
    hide GranularityAlign;
    GranularityFacts(Wrap(nb + TOP_FOOT_SIZE + 1));
    GranularityFacts(Wrap(nb - topsize + TOP_FOOT_SIZE + 1));
    if memBase % PAGE_SIZE != 0 {
      ToPageEnd(memBase);
    }
  }

  lemma SecondSuffices(nb: int)
    requires Askable(nb) && Noncontiguous(nb) > 0
    ensures Noncontiguous(nb) > Wrap(nb + TOP_FOOT_SIZE)
  {
    GranularityFacts(Wrap(nb + TOP_FOOT_SIZE + 1));
  }

  /** The first part of sys_alloc: negotiate with the kernel. */
  method MoreCore(m: State, nb: int) returns (tbase: int, tsize: int)
    requires Inv(m) && Askable(nb)
    modifies m`sbrkSize, m`noncontiguous
    ensures tbase == CMFAIL <==> !old(Granted(m, nb))
    ensures tbase == CMFAIL ==> m.sbrkSize == old(m.sbrkSize)
    ensures tbase != CMFAIL ==>
              tsize == old(GrantedSize(m, nb)) && tbase == m.memBase + old(m.sbrkSize)
              && m.sbrkSize == old(m.sbrkSize) + tsize <= KERNEL_DATA_SPACE
    ensures m.noncontiguous <==> !old(FirstGranted(m, nb))
  {
    tbase, tsize := CMFAIL, 0;
    Bounds(m);
    hide Inv, GranularityAlign, Noncontiguous, Contiguous, Askable, Wrap;
    ContiguousFacts(m.memBase, m.top, m.topsize, nb);
    NoncontiguousIs(nb);
    if !m.noncontiguous {
      tbase, tsize := MoreContiguous(m, nb);
    }
    if tbase == CMFAIL {
      var asize := GranularityAlign(Wrap(nb + TOP_FOOT_SIZE + 1));
      if asize < HALF_MAX_SIZE_T {
        var br := Sbrk(m, asize);
        var end := Sbrk(m, 0);
        if br != CMFAIL && end != CMFAIL && br < end {
          var ssize := end - br;
          SecondSuffices(nb);
          if ssize > Wrap(nb + TOP_FOOT_SIZE) {
            tbase, tsize := br, ssize;
          }
        }
      }
    }
  }

  lemma Bounds(m: State)
    requires Inv(m)
    ensures 0 < m.memBase && m.memBase + KERNEL_DATA_SPACE < WORD - 1 && 0 <= m.sbrkSize <= KERNEL_DATA_SPACE && 0 <= m.topsize
    ensures m.top != 0 ==> m.segBase + m.segSize == m.memBase + m.sbrkSize && SegmentHolds(m, m.top)
    ensures m.top == 0 ==> m.sbrkSize == 0
  {
    if m.top != 0 {
      TopFacts(m, {});
      hide Heap;
    }
  }

  lemma NoncontiguousIs(nb: int)
    ensures Noncontiguous(nb) == GranularityAlign(Wrap(nb + TOP_FOOT_SIZE + 1))
  {
  }

  /** The attempt to extend the segment where it ends. */
  method MoreContiguous(m: State, nb: int) returns (tbase: int, tsize: int)
    requires Inv(m) && !m.noncontiguous
    modifies m`sbrkSize, m`noncontiguous
    ensures if old(FirstGranted(m, nb))
            then tsize == old(GrantedSize(m, nb)) && tbase == m.memBase + old(m.sbrkSize) && m.sbrkSize == old(m.sbrkSize) + tsize
            else tbase == CMFAIL && m.sbrkSize == old(m.sbrkSize)
    ensures m.noncontiguous <==> !old(FirstGranted(m, nb))
  {
    Bounds(m);
    hide Inv, GranularityAlign;
    tbase, tsize := CMFAIL, 0;
    ContiguousFacts(m.memBase, m.top, m.topsize, nb);
    var br, asize := CMFAIL, 0;
    if m.top == 0 || !SegmentHolds(m, m.top) {
      var base := Sbrk(m, 0);
      if base != CMFAIL {
        asize := GranularityAlign(Wrap(nb + TOP_FOOT_SIZE + 1));
        if base % PAGE_SIZE != 0 {
          asize := Wrap(asize + GranularityAlign(base) - base);
        }
        if asize < HALF_MAX_SIZE_T {
          br := Sbrk(m, asize);
          if br == base {
            tbase, tsize := base, asize;
          }
        }
      }
    } else {
      asize := GranularityAlign(Wrap(nb - m.topsize + TOP_FOOT_SIZE + 1));
      if asize < HALF_MAX_SIZE_T {
        br := Sbrk(m, asize);
        if br == m.segBase + m.segSize {
          tbase, tsize := br, asize;
        }
      }
    }
    if tbase == CMFAIL {
      if br != CMFAIL {
        // "Cope with partial failure": with this sbrk, what it gives always starts where the segment ends.
        assert false;
      }
      m.noncontiguous := true;
    }
  }

  // ---- the segment is set up, or grows ----

  /** init_top(m, p, psize) */
  method InitTop(m: State, p: int, psize: int)
    requires 0 < p
    modifies m`w, m`top, m`topsize, m`trimCheck
    ensures m.top == AlignAsChunk(p) && m.topsize == Wrap(psize - (AlignAsChunk(p) - p)) && m.trimCheck == TRIM_THRESHOLD
    ensures m.w == old(m.w)[m.top + HEAD := SetPinuse(m.topsize)][Wrap(m.top + m.topsize) + HEAD := TOP_FOOT_SIZE]
  {
    var offset := AlignAsChunk(p) - p;
    var p' := p + offset;
    var psize' := Wrap(psize - offset);
    m.top := p';
    m.topsize := psize';
    m.w := m.w[p' + HEAD := SetPinuse(psize')];
    m.w := m.w[Wrap(p' + psize') + HEAD := TOP_FOOT_SIZE];
    m.trimCheck := TRIM_THRESHOLD;
  }

  ghost predicate HeaderWord(gm: int, n: int, a: int) {
    exists i :: 0 <= i < n && a in HeaderWords(gm, i)
  }

  /** init_bins(m): every small bin header points to itself. */
  method InitBins(m: State)
    modifies m`w
    ensures forall i :: 0 <= i < NSMALLBINS ==>
              m.w[SmallBinAt(m.gm, i) + FD] == SmallBinAt(m.gm, i) && m.w[SmallBinAt(m.gm, i) + BK] == SmallBinAt(m.gm, i)
    ensures forall a :: m.w[a] == old(m.w[a]) || HeaderWord(m.gm, NSMALLBINS, a)
  {
    for i := 0 to NSMALLBINS
      invariant forall j :: 0 <= j < i ==>
                  m.w[SmallBinAt(m.gm, j) + FD] == SmallBinAt(m.gm, j) && m.w[SmallBinAt(m.gm, j) + BK] == SmallBinAt(m.gm, j)
      invariant forall a :: m.w[a] == old(m.w[a]) || HeaderWord(m.gm, i, a)
    {
      ghost var v := m.w;
      var bin := SmallBinAt(m.gm, i);
      m.w := m.w[bin + FD := bin];
      m.w := m.w[bin + BK := bin];
      forall a ensures m.w[a] == old(m.w[a]) || HeaderWord(m.gm, i + 1, a) {
        assert m.w[a] == v[a] || a in HeaderWords(m.gm, i);
        if HeaderWord(m.gm, i, a) {
          var j :| 0 <= j < i && a in HeaderWords(m.gm, j);
          assert a in HeaderWords(m.gm, j);
        }
      }
    }
  }

  /** The heap whose only chunk is top. */
  function OnlyTop(memBase: int, brk: int): Layout {
    Layout(AlignAsChunk(memBase), AlignAsChunk(memBase), memBase + brk - TOP_FOOT_SIZE, map[], map[], {})
  }

  ghost function NoBins(): Bins {
    Bins(seq(32, i => []), seq(32, i => Nil), {}, {})
  }

  lemma EmptyBins(w: Mem, gm: int, size: map<int, int>)
    requires 0 < gm && forall i :: 0 <= i < NTREEBINS ==> w[TreeBinAt(gm, i)] == 0
    ensures BinsOK(w, gm, 0, 0, NoBins(), size) && Chunks(NoBins()) == {}
  {
    Bitmaps.EmptyMeans();
    hide Bitmaps.Means;
    forall i | 0 <= i < NTREEBINS ensures TreeBinOK(w, gm, i, Nil, size) {
    }
    forall i | 0 <= i < NSMALLBINS ensures SmallBinOK(w, gm, i, [], size) {
    }
  }

  lemma OnlyTopHeap(gm: int, v: Mem, w: Mem, memBase: int, brk: int)
    requires Env(gm, memBase) && brk % 4 == 0 && AlignAsChunk(memBase) < memBase + brk - TOP_FOOT_SIZE && brk <= KERNEL_DATA_SPACE
    requires forall i :: 0 <= i < NTREEBINS ==> w[TreeBinAt(gm, i)] == 0
    requires InitTopWrites(v, w, AlignAsChunk(memBase), memBase + brk - TOP_FOOT_SIZE - AlignAsChunk(memBase))
    ensures Heap(gm, w, 0, 0, OnlyTop(memBase, brk), NoBins(), 0, 0, {})
  {
    var l := OnlyTop(memBase, brk);
    FirstTop(v, w, l.base, l.end);
    EmptyBins(w, gm, l.size);
    hide Shape, BinsOK, Tags, Chunks;
    assert Free(l) == {};
  }

  /** What the first segment loses to alignment and to top's foot. */
  function Overhead(tbase: int): int {
    TOP_FOOT_SIZE + AlignAsChunk(tbase) - tbase
  }

  lemma AlignFacts(a: int)
    requires a % 4 == 0
    ensures AlignAsChunk(a) % 8 == 0 && (AlignAsChunk(a) == a || AlignAsChunk(a) == a + 4)
    ensures a % 8 == 0 ==> AlignAsChunk(a) == a
  {
    var k, r := a / 8, a % 8;
    assert a == 8 * k + r && (r == 0 || r == 4);
    RoundUpTo8(k, r);
  }

  lemma RoundUpTo8(k: int, r: int)
    requires r == 0 || r == 4
    ensures (8 * k + r + 7) / 8 == if r == 0 then k else k + 1
  {
    DivUnique(8 * k + r + 7, 8, if r == 0 then k else k + 1, if r == 0 then 7 else 3);
  }

  lemma WrapTwice(a: int, b: int)
    ensures Wrap(Wrap(a) - b) == Wrap(a - b)
  {
  }

  lemma EvenHead(s: int)
    requires s % 4 == 0
    ensures SetPinuse(s) == s + PINUSE
  {
  }

  /** m->footprint += tsize, and the maximum with it */
  method CountFootprint(m: State, tsize: int)
    modifies m`footprint, m`maxFootprint
    ensures m.footprint == old(m.footprint) + tsize
    ensures m.maxFootprint == if m.footprint > old(m.maxFootprint) then m.footprint else old(m.maxFootprint)
  {
    m.footprint := m.footprint + tsize;
    if m.footprint > m.maxFootprint {
      m.maxFootprint := m.footprint;
    }
  }

  /** First-time initialisation with tsize bytes at tbase.  Where that is too little for top's own
      overhead, topsize wraps around. */
  method SetUpSegment(m: State, tbase: int, tsize: int) returns (ghost u: Mem)
    requires 0 < tbase
    modifies m`w, m`top, m`topsize, m`trimCheck, m`segBase, m`segSize, m`footprint, m`maxFootprint
    ensures m.footprint == old(m.footprint) + tsize
    ensures m.maxFootprint == if m.footprint > old(m.maxFootprint) then m.footprint else old(m.maxFootprint)
    ensures m.segBase == tbase && m.segSize == tsize && m.top == AlignAsChunk(tbase)
    ensures m.topsize == Wrap(tsize - TOP_FOOT_SIZE - (AlignAsChunk(tbase) - tbase))
    ensures forall a :: u[a] == old(m.w[a]) || HeaderWord(m.gm, NSMALLBINS, a)
    ensures m.w == u[m.top + HEAD := SetPinuse(m.topsize)][Wrap(m.top + m.topsize) + HEAD := TOP_FOOT_SIZE]
  {
    hide HeaderWord, HeaderWords, Wrap, AlignAsChunk, SetPinuse;
    WrapTwice(tsize - TOP_FOOT_SIZE, AlignAsChunk(tbase) - tbase);
    CountFootprint(m, tsize);
    m.segBase := tbase;
    m.segSize := tsize;
    InitBins(m);
    u := m.w;
    InitTop(m, tbase, Wrap(tsize - TOP_FOOT_SIZE));
  }

  /** Set up the first segment; the heap is in order afterwards if top's overhead fits. */
  method FirstSegment(m: State, tbase: int, tsize: int)
    requires Env(m.gm, m.memBase) && Uninitialised(m) && tbase == m.memBase && tsize == m.sbrkSize <= KERNEL_DATA_SPACE
    requires 0 <= tsize && tsize % 4 == 0
    modifies m`w, m`top, m`topsize, m`trimCheck, m`segBase, m`segSize, m`lay, m`footprint, m`maxFootprint
    ensures m.segBase == tbase && m.segSize == tsize && m.top == AlignAsChunk(tbase)
    ensures m.topsize == Wrap(tsize - Overhead(tbase))
    ensures m.w[Wrap(m.top + m.topsize) + HEAD] == TOP_FOOT_SIZE
    ensures tsize > Overhead(m.memBase) ==>
              && Ready(m, {}) && m.lay == OnlyTop(m.memBase, tsize) && m.topsize == tsize - Overhead(tbase)
              && Confined(old(m.w), m.w, m.gm, m.lay.base, m.lay.end + TOP_FOOT_SIZE)
  {
    hide HeaderWord, HeaderWords, Heap, Confined, Wrap, AlignAsChunk, SetPinuse, NoBins;
    ghost var v := m.w;
    AlignFacts(m.memBase);
    ghost var ts := tsize - Overhead(tbase);
    WrapSmall(ts);
    WrapSmall(AlignAsChunk(m.memBase) + ts);
    ghost var u := SetUpSegment(m, tbase, tsize);
    if ts > 0 {
      EvenHead(ts);
      m.lay := OnlyTop(m.memBase, tsize);
      FirstReady(m.gm, v, u, m.w, m.memBase, tsize);
    }
  }

  lemma FirstReady(gm: int, v: Mem, u: Mem, w: Mem, memBase: int, brk: int)
    requires Env(gm, memBase) && brk % 4 == 0 && brk <= KERNEL_DATA_SPACE && Overhead(memBase) < brk
    requires forall i :: 0 <= i < NTREEBINS ==> v[TreeBinAt(gm, i)] == 0
    requires forall a :: u[a] == v[a] || HeaderWord(gm, NSMALLBINS, a)
    requires w == u[AlignAsChunk(memBase) + HEAD := SetPinuse(brk - Overhead(memBase))]
                   [memBase + brk - TOP_FOOT_SIZE + HEAD := TOP_FOOT_SIZE]
    ensures Heap(gm, w, 0, 0, OnlyTop(memBase, brk), NoBins(), 0, 0, {})
    ensures Confined(v, w, gm, AlignAsChunk(memBase), memBase + brk)
  {
    hide HeaderWord, HeaderWords, Heap, Confined, AlignAsChunk, SetPinuse, NoBins, InitTopWrites, OnlyTop;
    FirstWrites(gm, v, u, w, memBase, brk);
    OnlyTopHeap(gm, u, w, memBase, brk);
  }

  lemma FirstWrites(gm: int, v: Mem, v1: Mem, w: Mem, memBase: int, brk: int)
    requires Env(gm, memBase) && brk % 4 == 0 && brk <= KERNEL_DATA_SPACE && AlignAsChunk(memBase) < memBase + brk - TOP_FOOT_SIZE
    requires forall i :: 0 <= i < NTREEBINS ==> v[TreeBinAt(gm, i)] == 0
    requires forall a :: v1[a] == v[a] || HeaderWord(gm, NSMALLBINS, a)
    requires var top, topsize := AlignAsChunk(memBase), memBase + brk - TOP_FOOT_SIZE - AlignAsChunk(memBase);
             w == v1[top + HEAD := SetPinuse(topsize)][top + topsize + HEAD := TOP_FOOT_SIZE]
    ensures var top := AlignAsChunk(memBase);
            && InitTopWrites(v1, w, top, memBase + brk - TOP_FOOT_SIZE - top)
            && Confined(v, w, gm, top, memBase + brk)
    ensures forall i :: 0 <= i < NTREEBINS ==> w[TreeBinAt(gm, i)] == 0
  {
    forall a ensures HeaderWord(gm, NSMALLBINS, a) ==> gm <= a < TreeBinAt(gm, 0) {
      if HeaderWord(gm, NSMALLBINS, a) {
        var i :| 0 <= i < NSMALLBINS && a in HeaderWords(gm, i);
      }
    }
  }

  /** The segment grows by tsize bytes at its end.  (Prepending and adding a segment never happen.) */
  method GrowSegment(m: State, tbase: int, tsize: int)
    requires tbase == m.segBase + m.segSize && SegmentHolds(m, m.top) && 0 < m.top && m.top % 8 == 0
    requires 0 <= m.topsize + tsize && m.top + m.topsize + tsize < WORD && (m.topsize + tsize) % 4 == 0
    modifies m`w, m`top, m`topsize, m`trimCheck, m`segSize, m`footprint, m`maxFootprint
    ensures m.footprint == old(m.footprint) + tsize
    ensures m.maxFootprint == if m.footprint > old(m.maxFootprint) then m.footprint else old(m.maxFootprint)
    ensures m.segSize == old(m.segSize) + tsize && m.top == old(m.top) && m.topsize == old(m.topsize) + tsize
    ensures m.w == old(m.w)[m.top + HEAD := m.topsize + PINUSE][m.top + m.topsize + HEAD := TOP_FOOT_SIZE]
  {
    hide Wrap, AlignAsChunk, SetPinuse;
    AlignFacts(m.top);
    WrapSmall(m.topsize + tsize);
    WrapSmall(m.top + m.topsize + tsize);
    EvenHead(m.topsize + tsize);
    CountFootprint(m, tsize);
    if tbase == m.segBase + m.segSize && SegmentHolds(m, m.top) {
      m.segSize := m.segSize + tsize;
      InitTop(m, m.top, Wrap(m.topsize + tsize));
    } else {
      assert false;
    }
  }

  method AppendSegment(m: State, tbase: int, tsize: int)
    requires Env(m.gm, m.memBase) && Segment(m, m.sbrkSize - tsize) && m.sbrkSize <= KERNEL_DATA_SPACE && 0 <= tsize && tsize % 4 == 0
    requires Heap(m.gm, m.w, m.smallmap, m.treemap, m.lay, m.bins, m.dv, m.dvsize, {})
    requires tbase == m.memBase + m.sbrkSize - tsize
    modifies m`w, m`top, m`topsize, m`trimCheck, m`segSize, m`lay, m`footprint, m`maxFootprint
    ensures Ready(m, {}) && m.lay == old(m.lay.(end := m.lay.end + tsize))
    ensures Kept(old(m.w), m.w, old(m.lay), m.lay, m.lay.live)
    ensures Confined(old(m.w), m.w, m.gm, m.lay.base, m.lay.end + TOP_FOOT_SIZE)
  {
    hide Heap, Kept, Confined, AlignAsChunk;
    ghost var v, l := m.w, m.lay;
    PlacedFacts(m.gm, m.w, m.smallmap, m.treemap, l, m.bins, m.dv, m.dvsize, {});
    AlignFacts(m.memBase);
    GrowSegment(m, tbase, tsize);
    m.lay := l.(end := l.end + tsize);
    Extended(m.gm, v, m.w, m.smallmap, m.treemap, l, m.bins, m.dv, m.dvsize, l.end + tsize);
  }

  lemma PlacedFacts(gm: int, w: Mem, smap: Bitmaps.Binmap, tmap: Bitmaps.Binmap, l: Layout, b: Bins, dv: int, dvsize: int, limbo: set<int>)
    requires Heap(gm, w, smap, tmap, l, b, dv, dvsize, limbo)
    ensures 0 < l.base <= l.top < l.end && l.top % 8 == 0 && (l.end - l.top) % 4 == 0
    ensures l.live <= l.size.Keys && l.top !in l.size
  {
    TopNotChunk(l);
    hide Tags, BinsOK, Accounted, DvOK, Disjoint, ChunkOK, PrevOK;
  }

  lemma Extended(gm: int, v: Mem, w: Mem, smap: Bitmaps.Binmap, tmap: Bitmaps.Binmap, l: Layout, b: Bins, dv: int, dvsize: int, end: int)
    requires Heap(gm, v, smap, tmap, l, b, dv, dvsize, {}) && l.end <= end && end + TOP_FOOT_SIZE < WORD && (end - l.top) % 4 == 0
    requires InitTopWrites(v, w, l.top, end - l.top)
    ensures var l' := l.(end := end);
            && Heap(gm, w, smap, tmap, l', b, dv, dvsize, {})
            && Kept(v, w, l, l', l.live) && Confined(v, w, gm, l'.base, end + TOP_FOOT_SIZE)
  {
    hide BinsOK, Chunks, Tags, Kept, Confined, Untouched, Accounted, TagOK, ChunkOK, PrevOK, Coalesced;
    var l', keep := l.(end := end), l.size.Keys;
    LiveAre(l);
    ExtendTop(v, w, l, end);
    AccountSame(l, l', b, dv, dvsize, {});
    ExtendInside(v, w, gm, l, end);
    Relaid(gm, v, w, smap, tmap, l, l', b, dv, dvsize, {}, dv, dvsize, {}, keep);
    RetaggedKept(gm, v, w, l, l', keep, l.live);
  }

  lemma ExtendInside(v: Mem, w: Mem, gm: int, l: Layout, end: int)
    requires Placed(gm, l) && Tiling(l) && l.end <= end && InitTopWrites(v, w, l.top, end - l.top)
    ensures StateSame(v, w, gm) && Confined(v, w, gm, l.base, end + TOP_FOOT_SIZE)
  {
  }

  // ---- sys_alloc ----

  /** The first segment is so small that top's overhead does not fit: the request size wrapped around
      zero when it was aligned, and the kernel granted the little that was left to ask for. */
  predicate Overruns(m: State, nb: int)
    reads m`noncontiguous, m`top, m`topsize, m`sbrkSize
  {
    m.top == 0 && FirstGranted(m, nb) && GrantedSize(m, nb) <= Overhead(m.memBase)
  }

  /** Where sys_alloc serves a request, if it does: top, or where top will be. */
  ghost function NextTop(m: State): int
    reads m`top
  {
    if m.top == 0 then AlignAsChunk(m.memBase) else m.top
  }

  /** The distance from a word-aligned address to the end of its page covers what chunk alignment costs. */
  lemma PageGap(base: int, gap: int)
    requires base % 4 == 0 && gap == (if base % PAGE_SIZE == 0 then 0 else PAGE_SIZE - base % PAGE_SIZE)
    ensures gap % 4 == 0 && AlignAsChunk(base) - base <= gap < PAGE_SIZE && 0 <= gap
  {
    var q, r := base / PAGE_SIZE, base % PAGE_SIZE;
    InPage(base, q, r);
    hide AlignAsChunk;
  }

  lemma InPage(base: int, q: int, r: int)
    requires base % 4 == 0 && q == base / PAGE_SIZE && r == base % PAGE_SIZE
    ensures r % 4 == 0 && 0 <= r < PAGE_SIZE
    ensures AlignAsChunk(base) - base == if r % 8 == 0 then 0 else 4
    ensures r % 8 != 0 ==> r <= PAGE_SIZE - 4
  {
    DivMod(base, PAGE_SIZE);
    var m := base / 4 - 1024 * q;
    assert base == 4096 * q + 4 * m && r == 4 * m;
    var k := m / 2;
    RoundUpTo8(512 * q + k, if m % 2 == 0 then 0 else 4);
    assert base == 8 * (512 * q + k) + (if m % 2 == 0 then 0 else 4);
  }

  lemma NextGranule(n: int, nb: int)
    requires n % PAGE_SIZE == 0 && nb % 8 == 0 && n > nb + TOP_FOOT_SIZE + 1
    ensures n >= nb + TOP_FOOT_SIZE + 8
  {
    assert n == 8 * (512 * (n / PAGE_SIZE));
  }

  /** What the kernel grants for a request that does not wrap around leaves enough in top. */
  lemma Enough(m: State, nb: int)
    requires Inv(m) && Askable(nb) && nb >= m.topsize && Granted(m, nb)
    ensures GrantedSize(m, nb) % 4 == 0 && 0 <= GrantedSize(m, nb) <= KERNEL_DATA_SPACE - m.sbrkSize
    ensures !Overruns(m, nb) ==>
              var topsize := if m.top == 0 then GrantedSize(m, nb) - Overhead(m.memBase) else m.topsize + GrantedSize(m, nb);
              0 < topsize && (nb < topsize <==> nb <= KERNEL_DATA_SPACE)
    ensures Overruns(m, nb) ==> nb < WORD - Overhead(m.memBase)
  {
    hide Heap, GranularityAlign, Contiguous, Noncontiguous, Overhead, Env;
    Bounds(m);
    WordBase(m);
    if m.top != 0 {
      TopFacts(m, {});
      TopBelow(m);
      EnoughLater(m.memBase, m.top, m.topsize, nb);
    } else {
      EnoughFirst(m.memBase, nb);
    }
  }

  lemma WordBase(m: State)
    requires Inv(m)
    ensures m.memBase % 4 == 0
  {
    hide Heap;
  }

  lemma TopBelow(m: State)
    requires Inv(m) && m.top != 0
    ensures m.topsize < m.sbrkSize
  {
    PlacedFacts(m.gm, m.w, m.smallmap, m.treemap, m.lay, m.bins, m.dv, m.dvsize, {});
    AlignFacts(m.memBase);
    hide Heap;
  }

  /** A granted size as a multiple of the page size past what was asked. */
  ghost predicate Covers(n: int, nb: int, ask: int) {
    n % 4 == 0 && 0 <= n < WORD && (nb <= KERNEL_DATA_SPACE ==> n > ask) && (0 < n ==> PAGE_SIZE <= n)
  }

  lemma GranuleCovers(nb: int, ask: int)
    requires Askable(nb) && nb - KERNEL_DATA_SPACE <= ask <= nb + TOP_FOOT_SIZE + 1
    requires nb <= KERNEL_DATA_SPACE ==> 0 <= ask
    ensures Covers(GranularityAlign(Wrap(ask)), nb, ask) && GranularityAlign(Wrap(ask)) % PAGE_SIZE == 0
    ensures GranularityAlign(Wrap(ask)) < PAGE_SIZE && ask == nb + TOP_FOOT_SIZE + 1 ==> nb != WORD - 1
  {
    GranularityFacts(Wrap(ask));
    WrapSmall(ask);
    WrapSmall(ask - WORD);
    MultipleOfFour(GranularityAlign(Wrap(ask)));
    if nb == WORD - 1 && ask == nb + TOP_FOOT_SIZE + 1 {
      assert Wrap(ask) == TOP_FOOT_SIZE;
    }
    hide GranularityAlign, Wrap;
  }

  lemma EnoughFirst(memBase: int, nb: int)
    requires Askable(nb) && 0 < memBase < WORD - PAGE_SIZE && memBase % 4 == 0
    ensures var c, n := Contiguous(memBase, 0, 0, nb), Noncontiguous(nb);
            && c % 4 == 0 && n % 4 == 0 && 0 <= c && 0 <= n
            && (nb <= KERNEL_DATA_SPACE ==> nb < c - Overhead(memBase) && nb < n - Overhead(memBase))
            && (c <= Overhead(memBase) ==> nb < WORD - Overhead(memBase))
            && (0 < n ==> Overhead(memBase) < n)
    ensures Overhead(memBase) >= TOP_FOOT_SIZE
  {
    hide GranularityAlign, Wrap, AlignAsChunk;
    var gap := if memBase % PAGE_SIZE == 0 then 0 else PAGE_SIZE - memBase % PAGE_SIZE;
    GranuleCovers(nb, nb + TOP_FOOT_SIZE + 1);
    PageGap(memBase, gap);
    AlignFacts(memBase);
    FirstIs(memBase, nb, gap);
    FirstCovers(nb, Noncontiguous(nb), gap, AlignAsChunk(memBase) - memBase);
  }

  lemma FirstCovers(nb: int, n: int, gap: int, extra: int)
    requires Askable(nb) && Covers(n, nb, nb + TOP_FOOT_SIZE + 1) && n % PAGE_SIZE == 0 && (n == 0 ==> nb != WORD - 1)
    requires gap % 4 == 0 && extra <= gap && (extra == 0 || extra == 4)
    ensures var c, ov := n + gap, TOP_FOOT_SIZE + extra;
            && c % 4 == 0 && 0 <= c && (nb <= KERNEL_DATA_SPACE ==> nb < c - ov && nb < n - ov)
            && (c <= ov ==> nb < WORD - ov) && (0 < n ==> ov < n)
  {
    if nb <= KERNEL_DATA_SPACE {
      NextGranule(n, nb);
    }
  }

  lemma FirstIs(memBase: int, nb: int, gap: int)
    requires gap == (if memBase % PAGE_SIZE == 0 then 0 else PAGE_SIZE - memBase % PAGE_SIZE)
    ensures Contiguous(memBase, 0, 0, nb) == Noncontiguous(nb) + gap
  {
  }

  lemma EnoughLater(memBase: int, top: int, topsize: int, nb: int)
    requires Askable(nb) && top != 0 && 0 <= topsize <= nb && topsize <= KERNEL_DATA_SPACE
    ensures var c, n := Contiguous(memBase, top, topsize, nb), Noncontiguous(nb);
            && c % 4 == 0 && n % 4 == 0 && 0 <= c && 0 <= n
            && (nb <= KERNEL_DATA_SPACE ==> nb < topsize + c && nb < topsize + n)
  {
    hide GranularityAlign, Wrap;
    GranuleCovers(nb, nb + TOP_FOOT_SIZE + 1);
    GranuleCovers(nb, nb - topsize + TOP_FOOT_SIZE + 1);
  }

  lemma MultipleOfFour(n: int)
    requires n % PAGE_SIZE == 0
    ensures n % 4 == 0
  {
    assert n == 4 * (1024 * (n / PAGE_SIZE));
  }

  /** The last part of sys_alloc.  `sound` says whether the heap is in order. */
  method ServeFromTop(m: State, nb: int, ghost sound: bool) returns (r: int)
    requires Askable(nb) && m.top > 0 && (sound ==> Ready(m, {}))
    modifies m`w, m`lay, m`top, m`topsize
    ensures r == if nb < old(m.topsize) then old(m.top) + 8 else 0
    ensures r == 0 ==> m.w == old(m.w) && m.lay == old(m.lay) && m.top == old(m.top) && m.topsize == old(m.topsize)
    ensures sound ==> Ready(m, {})
    ensures sound && r != 0 ==>
              && m.lay == old(TakeTop(m.lay, nb)) && Kept(old(m.w), m.w, old(m.lay), m.lay, old(m.lay.live))
              && Confined(old(m.w), m.w, m.gm, m.lay.base, m.lay.end + TOP_FOOT_SIZE)
  {
    hide Heap, Kept, Confined;
    ghost var v, l := m.w, m.lay;
    if sound {
      TopFacts(m, {});
    }
    r := 0;
    if nb < m.topsize {
      var p := SplitTop(m, nb);
      if sound {
        m.lay := TakeTop(l, nb);
        TopUsed(m.gm, v, m.w, m.smallmap, m.treemap, l, m.bins, m.dv, m.dvsize, {}, nb);
      }
      r := p + 8;
    }
  }

  lemma NoChange(m: State)
    requires Inv(m)
    ensures Kept(m.w, m.w, m.lay, m.lay, m.lay.live) && forall lo, hi :: Confined(m.w, m.w, m.gm, lo, hi)
  {
    if m.top != 0 {
      PlacedFacts(m.gm, m.w, m.smallmap, m.treemap, m.lay, m.bins, m.dv, m.dvsize, {});
    }
    hide Heap;
  }

  lemma ConfinedMore(v: Mem, w: Mem, gm: int, lo: int, hi: int, lo': int, hi': int)
    requires Confined(v, w, gm, lo, hi) && lo' <= lo && hi <= hi'
    ensures Confined(v, w, gm, lo', hi')
  {
  }

  lemma KeptNone(v: Mem, w: Mem, l: Layout, l': Layout)
    ensures Kept(v, w, l, l', {})
  {
  }

  /** The middle of sys_alloc: get memory, and make it the first segment or the end of the only one. */
  method AddSpace(m: State, nb: int) returns (got: bool)
    requires Inv(m) && Askable(nb) && nb >= m.topsize
    modifies m`w, m`top, m`topsize, m`trimCheck, m`segBase, m`segSize, m`lay, m`footprint, m`maxFootprint, m`sbrkSize, m`noncontiguous
    ensures got == old(Granted(m, nb)) && (!got ==> Inv(m) && m.w == old(m.w) && m.lay == old(m.lay))
    ensures got ==> m.segBase == m.memBase && m.top == old(NextTop(m)) && 0 < m.top
    ensures m.sbrkSize == old(m.sbrkSize) + (if got then old(GrantedSize(m, nb)) else 0)
    ensures m.noncontiguous <==> !old(FirstGranted(m, nb))
    ensures got && !old(Overruns(m, nb)) ==>
              && Ready(m, {}) && m.lay.size == old(m.lay.size) && m.lay.live == old(m.lay.live)
              && Kept(old(m.w), m.w, old(m.lay), m.lay, old(m.lay.live))
              && Confined(old(m.w), m.w, m.gm, m.memBase, m.memBase + m.sbrkSize)
              && m.topsize == old(if m.top == 0 then GrantedSize(m, nb) - Overhead(m.memBase) else m.topsize + GrantedSize(m, nb))
    ensures got && old(Overruns(m, nb)) ==>
              && m.segSize == old(GrantedSize(m, nb)) && m.top == AlignAsChunk(m.memBase)
              && m.topsize == Wrap(m.segSize - Overhead(m.memBase)) && m.w[Wrap(m.top + m.topsize) + HEAD] == TOP_FOOT_SIZE
  {
    hide Heap, Kept, Confined, Granted, FirstGranted, GrantedSize, AlignAsChunk, Overhead, Wrap;
    ghost var v, l := m.w, m.lay;
    if Granted(m, nb) {
      Enough(m, nb);
    }
    WordBase(m);
    AlignFacts(m.memBase);
    Bounds(m);
    var tbase, tsize := MoreCore(m, nb);
    got := tbase != CMFAIL;
    if got {
      if m.top == 0 {
        FirstSegment(m, tbase, tsize);
        KeptNone(v, m.w, l, m.lay);
      } else {
        AppendSegment(m, tbase, tsize);
      }
      if Ready(m, {}) && Confined(v, m.w, m.gm, m.lay.base, m.lay.end + TOP_FOOT_SIZE) {
        ConfinedMore(v, m.w, m.gm, m.lay.base, m.lay.end + TOP_FOOT_SIZE, m.memBase, m.memBase + m.sbrkSize);
      }
    }
  }

  /** In the overrunning case top's size comes out as nearly 2^32, or as 0. */
  lemma OverrunFacts(m: State, nb: int)
    requires Inv(m) && Overruns(m, nb) && Askable(nb)
    ensures var g, top := GrantedSize(m, nb), AlignAsChunk(m.memBase);
            && Granted(m, nb) && 0 <= g < nb && g <= Overhead(m.memBase) && 0 < m.memBase <= top
            && (g < Overhead(m.memBase) ==> nb < Wrap(g - Overhead(m.memBase)))
            && (g == Overhead(m.memBase) ==> Wrap(top + Wrap(g - Overhead(m.memBase))) == top && Wrap(g - Overhead(m.memBase)) == 0)
  {
    hide Heap, GranularityAlign, Contiguous, Noncontiguous, Wrap, AlignAsChunk;
    Bounds(m);
    WordBase(m);
    AlignFacts(m.memBase);
    EnoughFirst(m.memBase, nb);
    WrapSmall(GrantedSize(m, nb) - Overhead(m.memBase));
    WrapSmall(AlignAsChunk(m.memBase));
  }

  method SysAlloc(m: State, nb: int) returns (r: int)
    requires Inv(m) && Askable(nb) && nb >= m.topsize
    modifies m`w, m`top, m`topsize, m`trimCheck, m`segBase, m`segSize, m`lay, m`footprint, m`maxFootprint, m`sbrkSize, m`noncontiguous
    ensures !old(Overruns(m, nb)) ==>
              && Inv(m) && (r != 0 <==> old(KernelHas(m, nb)))
              && Kept(old(m.w), m.w, old(m.lay), m.lay, old(m.lay.live))
              && Confined(old(m.w), m.w, m.gm, m.memBase, m.memBase + m.sbrkSize)
              && (r == 0 ==> m.lay.live == old(m.lay.live) && m.lay.size == old(m.lay.size))
              && (r != 0 ==> var p := old(NextTop(m));
                             r == p + 8 && p !in old(m.lay.size)
                             && m.lay.size == old(m.lay.size)[p := nb] && m.lay.live == old(m.lay.live) + {p})
    ensures old(Overruns(m, nb)) ==>
              if old(GrantedSize(m, nb)) < Overhead(m.memBase)
              then r != 0 && r - 8 + nb > m.segBase + m.segSize
              else r == 0 && m.w[m.top + HEAD] != m.topsize + PINUSE
    ensures m.sbrkSize == old(m.sbrkSize) + old(if Granted(m, nb) then GrantedSize(m, nb) else 0)
    ensures m.noncontiguous <==> !old(FirstGranted(m, nb))
  {
    hide Heap, Kept, Confined, Granted, GrantedSize, FirstGranted, KernelHas, Overruns, Overhead, Wrap, NextTop;
    ghost var v, l, over := m.w, m.lay, Overruns(m, nb);
    GrantedExactly(m, nb);
    if Granted(m, nb) {
      Enough(m, nb);
    }
    if over {
      OverrunFacts(m, nb);
    }
    NoChange(m);
    WordBase(m);
    AlignFacts(m.memBase);
    r := 0;
    var got := AddSpace(m, nb);
    ghost var v1, l1 := m.w, m.lay;
    if got {
      r := ServeFromTop(m, nb, !over);
      if !over {
        PlacedFacts(m.gm, v1, m.smallmap, m.treemap, l1, m.bins, m.dv, m.dvsize, {});
        if r != 0 {
          KeptTrans(v, v1, m.w, l, l1, m.lay, l.live, l.live);
          ConfinedMore(v1, m.w, m.gm, m.lay.base, m.lay.end + TOP_FOOT_SIZE, m.memBase, m.memBase + m.sbrkSize);
          ConfinedTrans(v, v1, m.w, m.gm, m.memBase, m.memBase + m.sbrkSize, m.memBase + m.sbrkSize);
        }
      }
    }
  }

  /** sys_trim(m, pad): with this sbrk it never gives anything back, because a negative increment is
      a huge size_t.  Having failed, it disables further attempts. */
  method SysTrim(m: State, pad: int) returns (r: int)
    requires Inv(m) && 0 <= pad < WORD
    modifies m`trimCheck, m`sbrkSize
    ensures Inv(m) && r == 0 && m.sbrkSize == old(m.sbrkSize)
    ensures m.trimCheck == if pad < MAX_REQUEST && m.top != 0 then WORD - 1 else old(m.trimCheck)
  {
    Bounds(m);
    hide Heap;
    var released := 0;
    if pad < MAX_REQUEST && m.top != 0 {
      var pad' := pad + TOP_FOOT_SIZE;
      if m.topsize > pad' {
        TopBelow(m);
        var extra := ((m.topsize - pad' + (PAGE_SIZE - 1)) / PAGE_SIZE - 1) * PAGE_SIZE;
        ExtraBounds(m.topsize, pad', extra);
        if extra >= HALF_MAX_SIZE_T {
          extra := HALF_MAX_SIZE_T + 1 - PAGE_SIZE;
        }
        var oldBr := Sbrk(m, 0);
        if oldBr == m.segBase + m.segSize {
          var relBr := Sbrk(m, Wrap(-extra));
          var newBr := Sbrk(m, 0);
          if relBr != CMFAIL && newBr < oldBr {
            released := oldBr - newBr;
          }
        }
      }
      if released != 0 {
        // Giving the space back: not reached.
        assert false;
      }
      m.trimCheck := WORD - 1;
    }
    r := if released != 0 then 1 else 0;
  }

  lemma ExtraBounds(topsize: int, pad: int, extra: int)
    requires 0 <= pad < topsize < KERNEL_DATA_SPACE && extra == ((topsize - pad + (PAGE_SIZE - 1)) / PAGE_SIZE - 1) * PAGE_SIZE
    ensures 0 <= extra < topsize && (extra == 0 || Wrap(-extra) > KERNEL_DATA_SPACE)
  {
  }
}
