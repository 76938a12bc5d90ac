/** When the very first request makes the heap overrun its first segment. */
module Overrun {
  import opened Words
  import opened Memory
  import opened MallocState
  import opened BinIndex
  import opened Layouts
  import opened BinSets
  import opened TreeSearch
  import opened HeapInv
  import opened ChunkOps
  import opened SysAlloc
  import opened Malloc

  /** Requests whose size in whole pages is 2^32, that is, 0. */
  predicate WrapsAround(bytes: int) {
    WORD - 4147 <= bytes < MAX_REQUEST
  }

  /** Before the heap has a segment: it overruns for exactly these sizes, at exactly these addresses. */
  lemma OverrunsExactly(m: State, bytes: int)
    requires Inv(m) && m.top == 0 && 0 <= bytes
    ensures Overruns(m, RequestSize(bytes)) <==>
            !m.noncontiguous && Gap(m.memBase) <= Overhead(m.memBase) && WrapsAround(bytes)
  {
    hide GranularityAlign, AlignAsChunk, Wrap, RequestSize, WrapsAround;
    var nb := RequestSize(bytes);
    LateSizes(bytes);
    WholePages(Wrap(nb + TOP_FOOT_SIZE + 1));
    PageGap(m.memBase, Gap(m.memBase));
    AlignFacts(m.memBase);
    FirstIs(m.memBase, nb, Gap(m.memBase));
  }

  /** Once it has one, never. */
  lemma OverrunsOnlyFirst(m: State, nb: int)
    requires m.top != 0
    ensures !Overruns(m, nb)
  {
  }

  lemma LateSizes(bytes: int)
    requires 0 <= bytes
    ensures var s := Wrap(RequestSize(bytes) + TOP_FOOT_SIZE + 1);
            0 <= s < WORD && (s >= WORD - PAGE_SIZE <==> WrapsAround(bytes))
  {
  }

  lemma WholePages(s: int)
    requires 0 <= s < WORD
    ensures if s >= WORD - PAGE_SIZE then GranularityAlign(s) == 0 else GranularityAlign(s) >= PAGE_SIZE
  {
    GranularityFacts(s);
    if s < WORD - PAGE_SIZE {
      AtLeastAPage(GranularityAlign(s));
    }
  }

  lemma AtLeastAPage(n: int)
    requires n > 0 && n % PAGE_SIZE == 0
    ensures n >= PAGE_SIZE
  {
  }

  /** It does happen: memory that starts on a page, and a first request for 4000 bytes less than 2^32.
      The block that is handed out reaches beyond a segment of no bytes at all. */
  method BeyondSegment(gm: int, w: Mem) returns (m: State, mem: int)
    requires 0 < gm && StateEnd(gm) <= 0xC030_0000 && forall i :: 0 <= i < NTREEBINS ==> w[TreeBinAt(gm, i)] == 0
    ensures mem != 0 && mem + (WORD - 4000) > m.segBase + m.segSize
  {
    hide Heap, RequestSize, Kept, Confined, Served, NoFit, BestFit, Free, CanServe;
    m := new State(gm, 0xC030_0000, w);
    assert m.bins == NoBins();
    assert Inv(m);
    var bytes := WORD - 4000;
    OverrunsExactly(m, bytes);
    Concrete(bytes);
    mem := Dlmalloc(m, bytes);
  }

  lemma Concrete(bytes: int)
    requires bytes == WORD - 4000
    ensures RequestSize(bytes) == WORD - 3992 && Gap(0xC030_0000) == 0 && Overhead(0xC030_0000) == 40
    ensures Contiguous(0xC030_0000, 0, 0, RequestSize(bytes)) == 0
  {
    assert 0xC030_0000 % PAGE_SIZE == 0 && 0xC030_0000 % 8 == 0;
    assert GranularityAlign(WORD - 3951) == 0;
  }
}
