/** The steps dlmalloc and dlfree are made of.  Each keeps the heap invariant, up to the chunks that
    the operation under way holds. */
module ChunkOps {
  import opened Words
  import opened Memory
  import Bitmaps
  import opened Tries
  import opened MallocState
  import opened BinIndex
  import opened TreeSearch
  import opened Layouts
  import opened LayoutOps
  import opened BinSets
  import opened HeapInv

  const KERNEL_DATA_SPACE: int := 0xA0_0000

  /** Where the static state and the kernel's data space lie. */
  ghost predicate Env(gm: int, memBase: int) {
    0 < gm && StateEnd(gm) <= memBase && memBase % 4 == 0 && memBase + KERNEL_DATA_SPACE < WORD - 1
  }

  /** align_as_chunk */
  function AlignAsChunk(a: int): int {
    (a + 7) / 8 * 8
  }

  /** There is one segment, it is the first brk bytes that sbrk has handed out, and top is its last chunk. */
  ghost predicate Segment(m: State, brk: int)
    reads m
  {
    && m.top == m.lay.top && m.topsize == m.lay.end - m.lay.top
    && m.lay.base == AlignAsChunk(m.memBase) && m.lay.end + TOP_FOOT_SIZE == m.memBase + brk
    && m.segBase == m.memBase && m.segSize == m.footprint == m.maxFootprint == brk
  }

  /** The heap is in order, except that the free chunks in limbo are nowhere. */
  ghost predicate Ready(m: State, limbo: set<int>)
    reads m
  {
    && Env(m.gm, m.memBase) && Segment(m, m.sbrkSize) && m.sbrkSize <= KERNEL_DATA_SPACE
    && Heap(m.gm, m.w, m.smallmap, m.treemap, m.lay, m.bins, m.dv, m.dvsize, limbo)
  }

  // ---- insert_chunk and unlink_chunk ----

  /** unlink_large_chunk(M, X) */
  method UnlinkTree(m: State, p: int, ghost limbo: set<int>)
    requires Ready(m, limbo) && p in TreeChunks(m.bins.trees) && p in m.lay.size
    modifies m`w, m`treemap, m`bins
    ensures Ready(m, limbo + {p}) && Chunks(m.bins) == old(Chunks(m.bins)) - {p}
    ensures Kept(old(m.w), m.w, m.lay, m.lay, m.lay.live)
    ensures Confined(old(m.w), m.w, m.gm, m.lay.base, m.lay.end + TOP_FOOT_SIZE)
  {
    hide Shape, Tags, BinsOK, SmallChunks, TreeChunks, Kept, Confined, TreeIndex, Placed, DvOK, Accounted;
    ghost var v, tmap, b := m.w, m.treemap, m.bins;
    BinReach(m, limbo, p);
    SmallSizes(b, m.lay.size, v, m.gm, m.smallmap, tmap);
    m.bins := UnlinkLarge(m, p, b, m.lay.size);
    TreeIndexRange(m.lay.size[p]);
    AccountOut(m.lay, b, m.bins, m.dv, m.dvsize, limbo, p);
    Rebinned(m.gm, v, m.w, m.smallmap, m.smallmap, tmap, m.treemap, m.lay, b, m.bins, m.dv, m.dvsize, limbo, limbo + {p},
             {TreeBinAt(m.gm, TreeIndex(m.lay.size[p]))}, Chunks(b));
  }

  /** unlink_small_chunk, or unlink_first_small_chunk where that is used */
  method UnlinkListed(m: State, p: int, s: int, first: bool, ghost limbo: set<int>)
    requires Ready(m, limbo) && p in SmallChunks(m.bins.small) && p in m.lay.size && m.lay.size[p] == s && 0 <= s / 8 < NSMALLBINS
    requires first ==> s / 8 < |m.bins.small| && m.bins.small[s / 8] != [] && m.bins.small[s / 8][0] == p
    modifies m`w, m`smallmap, m`bins
    ensures Ready(m, limbo + {p}) && Chunks(m.bins) == old(Chunks(m.bins)) - {p}
    ensures Kept(old(m.w), m.w, m.lay, m.lay, m.lay.live)
    ensures Confined(old(m.w), m.w, m.gm, m.lay.base, m.lay.end + TOP_FOOT_SIZE)
  {
    hide Shape, Tags, BinsOK, SmallChunks, TreeChunks, Kept, Confined, Placed, DvOK, Accounted;
    ghost var v, smap, b := m.w, m.smallmap, m.bins;
    BinReach(m, limbo, p);
    m.bins := UnlinkSmall(m, p, s, first, b, m.lay.size);
    AccountOut(m.lay, b, m.bins, m.dv, m.dvsize, limbo, p);
    Rebinned(m.gm, v, m.w, smap, m.smallmap, m.treemap, m.treemap, m.lay, b, m.bins, m.dv, m.dvsize, limbo, limbo + {p},
             HeaderWords(m.gm, s / 8), Chunks(b));
  }

  lemma BinReach(m: State, limbo: set<int>, p: int)
    requires Ready(m, limbo) && p in m.lay.size
    ensures Sizes(m.lay.size, m.gm) && 16 <= m.lay.size[p] < WORD && m.lay.size[p] % 8 == 0
  {
    SizesOf(m.gm, m.lay);
    ChunkFits(m.lay, p);
    hide BinsOK, Tags;
  }

  /** unlink_chunk(M, P, S) */
  method UnlinkChunk(m: State, p: int, s: int, ghost limbo: set<int>)
    requires Ready(m, limbo) && p in Chunks(m.bins) && p in m.lay.size && m.lay.size[p] == s
    modifies m`w, m`smallmap, m`treemap, m`bins
    ensures Ready(m, limbo + {p}) && Chunks(m.bins) == old(Chunks(m.bins)) - {p}
    ensures Kept(old(m.w), m.w, m.lay, m.lay, m.lay.live)
    ensures Confined(old(m.w), m.w, m.gm, m.lay.base, m.lay.end + TOP_FOOT_SIZE)
  {
    hide Heap, Chunks, Kept, Confined;
    WhichBins(m, limbo, p);
    if s / 8 < NSMALLBINS {
      UnlinkListed(m, p, s, false, limbo);
    } else {
      UnlinkTree(m, p, limbo);
    }
  }

  lemma WhichBins(m: State, limbo: set<int>, p: int)
    requires Ready(m, limbo) && p in Chunks(m.bins) && p in m.lay.size
    ensures Sizes(m.lay.size, m.gm) && 16 <= m.lay.size[p] < WORD && m.lay.size[p] % 8 == 0
    ensures if m.lay.size[p] / 8 < 32 then p in SmallChunks(m.bins.small) else p in TreeChunks(m.bins.trees)
  {
    hide TreeBinsOK, SmallBinsOK, SmallChunks, TreeChunks, Tags;
    SizesOf(m.gm, m.lay);
    ChunkFits(m.lay, p);
    SmallSizes(m.bins, m.lay.size, m.w, m.gm, m.smallmap, m.treemap);
  }

  lemma AccountOut(l: Layout, b: Bins, b': Bins, dv: int, dvsize: int, limbo: set<int>, p: int)
    requires Accounted(l, b, dv, dvsize, limbo) && p in Chunks(b) && Chunks(b') == Chunks(b) - {p}
    ensures Accounted(l, b', dv, dvsize, limbo + {p}) && Chunks(b) <= Free(l)
  {
    hide Chunks, DvSet;
  }

  /** insert_chunk(M, P, S) */
  method InsertChunk(m: State, p: int, s: int, ghost limbo: set<int>)
    requires Ready(m, limbo) && p in limbo && p in m.lay.size && m.lay.size[p] == s
    modifies m`w, m`smallmap, m`treemap, m`bins
    ensures Ready(m, limbo - {p}) && Chunks(m.bins) == old(Chunks(m.bins)) + {p}
    ensures Kept(old(m.w), m.w, m.lay, m.lay, m.lay.live)
    ensures Confined(old(m.w), m.w, m.gm, m.lay.base, m.lay.end + TOP_FOOT_SIZE)
  {
    hide Heap, Chunks, Kept, Confined;
    if s / 8 < NSMALLBINS {
      BinSmall(m, p, s, m.dv, m.dvsize, limbo);
    } else {
      BinLarge(m, p, s, limbo);
    }
  }

  method BinLarge(m: State, p: int, s: int, ghost limbo: set<int>)
    requires Ready(m, limbo) && p in limbo && p in m.lay.size && m.lay.size[p] == s && s >= 256
    modifies m`w, m`treemap, m`bins
    ensures Ready(m, limbo - {p}) && Chunks(m.bins) == old(Chunks(m.bins)) + {p}
    ensures Kept(old(m.w), m.w, m.lay, m.lay, m.lay.live)
    ensures Confined(old(m.w), m.w, m.gm, m.lay.base, m.lay.end + TOP_FOOT_SIZE)
  {
    hide Shape, Tags, BinsOK, Chunks, Kept, Confined, TreeIndex, Placed, DvOK, Accounted;
    ghost var v, tmap, b := m.w, m.treemap, m.bins;
    BinReady(m.gm, m.w, m.smallmap, m.treemap, m.lay, b, m.dv, m.dvsize, limbo, p);
    m.bins := InsertLarge(m, p, s, b, m.lay.size);
    TreeIndexRange(s);
    AccountIn(m.lay, b, m.bins, m.dv, m.dvsize, limbo, p);
    Rebinned(m.gm, v, m.w, m.smallmap, m.smallmap, tmap, m.treemap, m.lay, b, m.bins, m.dv, m.dvsize, limbo, limbo - {p},
             {TreeBinAt(m.gm, TreeIndex(s))}, Chunks(m.bins));
  }

  lemma BinReady(gm: int, w: Mem, smap: Bitmaps.Binmap, tmap: Bitmaps.Binmap, l: Layout, b: Bins, dv: int, dvsize: int,
                 limbo: set<int>, p: int)
    requires Heap(gm, w, smap, tmap, l, b, dv, dvsize, limbo) && p in limbo
    ensures p in l.size && Sizes(l.size, gm) && 16 <= l.size[p] < WORD && l.size[p] % 8 == 0 && p !in Chunks(b)
    ensures ChunkSize(w[p + HEAD]) == l.size[p]
  {
    hide BinsOK, Chunks, TagOK;
    SizesOf(gm, l);
    assert p in Free(l);
    TagFacts(w, l, p);
  }

  lemma AccountIn(l: Layout, b: Bins, b': Bins, dv: int, dvsize: int, limbo: set<int>, p: int)
    requires Accounted(l, b, dv, dvsize, limbo) && p in limbo && Chunks(b') == Chunks(b) + {p}
    ensures Accounted(l, b', dv, dvsize, limbo - {p}) && Chunks(b') <= Free(l)
  {
    hide Chunks, DvSet;
  }

  /** Chunks may change hands between dv and limbo. */
  lemma Reassigned(gm: int, w: Mem, smap: Bitmaps.Binmap, tmap: Bitmaps.Binmap, l: Layout, b: Bins, dv: int, dvsize: int,
                   limbo: set<int>, dv': int, dvsize': int, limbo': set<int>)
    requires Heap(gm, w, smap, tmap, l, b, dv, dvsize, limbo) && DvOK(l, dv', dvsize')
    requires DvSet(dv, dvsize) + limbo == DvSet(dv', dvsize') + limbo' && DvSet(dv', dvsize') !! limbo'
    ensures Heap(gm, w, smap, tmap, l, b, dv', dvsize', limbo')
  {
    hide Shape, Tags, BinsOK, Chunks, Placed;
  }

  /** insert_small_chunk(M, P, S), whatever dv is going to be. */
  method BinSmall(m: State, p: int, s: int, ghost dv: int, ghost dvsize: int, ghost limbo: set<int>)
    requires Heap(m.gm, m.w, m.smallmap, m.treemap, m.lay, m.bins, dv, dvsize, limbo)
    requires p in limbo && p in m.lay.size && m.lay.size[p] == s < 256
    modifies m`w, m`smallmap, m`bins
    ensures Heap(m.gm, m.w, m.smallmap, m.treemap, m.lay, m.bins, dv, dvsize, limbo - {p})
    ensures Chunks(m.bins) == old(Chunks(m.bins)) + {p}
    ensures Kept(old(m.w), m.w, m.lay, m.lay, m.lay.live)
    ensures Confined(old(m.w), m.w, m.gm, m.lay.base, m.lay.end + TOP_FOOT_SIZE)
  {
    hide Shape, Tags, BinsOK, Chunks, Kept, Confined, Placed, DvOK, Accounted, Changed;
    ghost var v, smap, b := m.w, m.smallmap, m.bins;
    BinReady(m.gm, m.w, smap, m.treemap, m.lay, b, dv, dvsize, limbo, p);
    m.bins := InsertSmall(m, p, s, b, m.lay.size);
    AccountIn(m.lay, b, m.bins, dv, dvsize, limbo, p);
    Rebinned(m.gm, v, m.w, smap, m.smallmap, m.treemap, m.treemap, m.lay, b, m.bins, dv, dvsize, limbo, limbo - {p},
             HeaderWords(m.gm, s / 8), Chunks(m.bins));
  }

  /** replace_dv(M, P, S): the old designated victim, known to be small, is binned. */
  method ReplaceDv(m: State, p: int, s: int, ghost limbo: set<int>)
    requires Ready(m, limbo) && p in limbo && p in m.lay.size && m.lay.size[p] == s && m.dvsize < 256
    modifies m`w, m`smallmap, m`treemap, m`bins, m`dv, m`dvsize
    ensures Ready(m, limbo - {p}) && m.dv == p && m.dvsize == s
    ensures Kept(old(m.w), m.w, m.lay, m.lay, m.lay.live)
    ensures Confined(old(m.w), m.w, m.gm, m.lay.base, m.lay.end + TOP_FOOT_SIZE)
  {
    hide Heap, Kept, Confined;
    DvToLimbo(m.gm, m.w, m.smallmap, m.treemap, m.lay, m.bins, m.dv, m.dvsize, limbo);
    ghost var all := limbo + DvSet(m.dv, m.dvsize);
    var dvs := m.dvsize;
    if dvs != 0 {
      var dv := m.dv;
      BinSmall(m, dv, dvs, 0, 0, all);
      assert all - {dv} == limbo;
    } else {
      NothingChanged(m.w, m.gm, m.lay);
    }
    m.dvsize := s;
    m.dv := p;
    LimboToDv(m.gm, m.w, m.smallmap, m.treemap, m.lay, m.bins, limbo, p);
  }

  lemma DvToLimbo(gm: int, w: Mem, smap: Bitmaps.Binmap, tmap: Bitmaps.Binmap, l: Layout, b: Bins, dv: int, dvsize: int, limbo: set<int>)
    requires Heap(gm, w, smap, tmap, l, b, dv, dvsize, limbo)
    ensures Heap(gm, w, smap, tmap, l, b, 0, 0, limbo + DvSet(dv, dvsize)) && Shape(l)
    ensures DvOK(l, dv, dvsize) && DvSet(dv, dvsize) !! limbo
    ensures dvsize != 0 ==> limbo + DvSet(dv, dvsize) - {dv} == limbo
  {
    hide Shape, Tags, BinsOK, Chunks, Placed;
    DvApart(l, b, dv, dvsize, limbo);
    Reassigned(gm, w, smap, tmap, l, b, dv, dvsize, limbo, 0, 0, limbo + DvSet(dv, dvsize));
  }

  lemma LimboToDv(gm: int, w: Mem, smap: Bitmaps.Binmap, tmap: Bitmaps.Binmap, l: Layout, b: Bins, limbo: set<int>, p: int)
    requires Heap(gm, w, smap, tmap, l, b, 0, 0, limbo) && p in limbo
    ensures p in l.size && Heap(gm, w, smap, tmap, l, b, p, l.size[p], limbo - {p})
  {
    hide Shape, Tags, BinsOK, Chunks, Placed;
    BinReady(gm, w, smap, tmap, l, b, 0, 0, limbo, p);
    Reassigned(gm, w, smap, tmap, l, b, 0, 0, limbo, p, l.size[p], limbo - {p});
  }

  lemma DvApart(l: Layout, b: Bins, dv: int, dvsize: int, limbo: set<int>)
    requires Accounted(l, b, dv, dvsize, limbo)
    ensures DvSet(dv, dvsize) !! limbo && DvSet(dv, dvsize) !! Chunks(b) && DvSet(dv, dvsize) <= Free(l)
  {
    hide Chunks;
  }

  lemma NothingChanged(w: Mem, gm: int, l: Layout)
    requires Shape(l)
    ensures Kept(w, w, l, l, l.live) && Confined(w, w, gm, l.base, l.end + TOP_FOOT_SIZE)
  {
  }

  // ---- chunks put to use ----

  /** set_inuse_and_pinuse(M, p, s): the free chunk p is used as a whole. */
  method UseWhole(m: State, p: int, s: int, ghost limbo: set<int>)
    requires Ready(m, limbo) && p in limbo && p in m.lay.size && m.lay.size[p] == s
    modifies m`w, m`lay
    ensures Ready(m, limbo - {p}) && m.lay == old(m.lay.(live := m.lay.live + {p}))
    ensures Kept(old(m.w), m.w, old(m.lay), m.lay, old(m.lay.live))
    ensures Confined(old(m.w), m.w, m.gm, m.lay.base, m.lay.end + TOP_FOOT_SIZE)
  {
    hide Heap, Kept, Confined;
    ghost var v, l := m.w, m.lay;
    BinReady(m.gm, m.w, m.smallmap, m.treemap, l, m.bins, m.dv, m.dvsize, limbo, p);
    m.w := m.w[p + HEAD := s + PINUSE + CINUSE];
    m.w := m.w[p + s + HEAD := SetPinuse(m.w[p + s + HEAD])];
    m.lay := l.(live := l.live + {p});
    WholeUsed(m.gm, v, m.w, m.smallmap, m.treemap, l, m.bins, m.dv, m.dvsize, limbo, p);
  }

  lemma WholeUsed(gm: int, v: Mem, w: Mem, smap: Bitmaps.Binmap, tmap: Bitmaps.Binmap, l: Layout, b: Bins,
                  dv: int, dvsize: int, limbo: set<int>, p: int)
    requires Heap(gm, v, smap, tmap, l, b, dv, dvsize, limbo) && p in limbo && p in l.size
    requires var s := l.size[p]; w == v[p + HEAD := s + PINUSE + CINUSE][p + s + HEAD := SetPinuse(v[p + s + HEAD])]
    ensures var l' := l.(live := l.live + {p});
            && Heap(gm, w, smap, tmap, l', b, dv, dvsize, limbo - {p})
            && Kept(v, w, l, l', l.live) && Confined(v, w, gm, l.base, l.end + TOP_FOOT_SIZE)
  {
    hide BinsOK, Chunks, Shape, Tags, Kept, Confined, Untouched, SetPinuse, Accounted;
    var l', keep := l.(live := l.live + {p}), l.size.Keys - {p};
    LiveAre(l);
    AccountUsed(l, l', b, dv, dvsize, limbo, p);
    AllocWhole(v, w, l, p);
    HeadsInside(v, w, gm, l, p, p + l.size[p]);
    Relaid(gm, v, w, smap, tmap, l, l', b, dv, dvsize, limbo, dv, dvsize, limbo - {p}, keep);
    RetaggedKept(gm, v, w, l, l', keep, l.live);
  }

  lemma LiveAre(l: Layout)
    requires Shape(l)
    ensures l.live <= l.size.Keys
  {
  }

  lemma AccountUsed(l: Layout, l': Layout, b: Bins, dv: int, dvsize: int, limbo: set<int>, p: int)
    requires Accounted(l, b, dv, dvsize, limbo) && p in limbo && Free(l') == Free(l) - {p}
    ensures Accounted(l', b, dv, dvsize, limbo - {p}) && Chunks(b) <= l.size.Keys - {p} && l.live <= l.live + {p}
    ensures p in l.size && p !in l.live
  {
    hide Chunks, DvSet;
    assert p in Free(l);
  }

  /** Head words of chunks and of top lie in the segment. */
  lemma HeadsInside(v: Mem, w: Mem, gm: int, l: Layout, p: int, n: int)
    requires Placed(gm, l) && Shape(l) && p in l.size && n == p + l.size[p]
    requires forall a :: a != p + HEAD && a != n + HEAD ==> w[a] == v[a]
    ensures StateSame(v, w, gm) && Confined(v, w, gm, l.base, l.end + TOP_FOOT_SIZE)
  {
    ChunkFits(l, p);
  }

  /** The front of the free chunk p is used; the rest, r, is left in limbo. */
  method UseFront(m: State, p: int, nb: int, r: int, rsize: int, ghost limbo: set<int>)
    requires Ready(m, limbo) && p in limbo && CanSplit(m.lay, p, nb) && r == p + nb && rsize == m.lay.size[p] - nb
    modifies m`w, m`lay
    ensures Ready(m, limbo - {p} + {r}) && m.lay == old(Split(m.lay, p, nb).(live := m.lay.live + {p}))
    ensures Kept(old(m.w), m.w, old(m.lay), m.lay, old(m.lay.live))
    ensures Confined(old(m.w), m.w, m.gm, m.lay.base, m.lay.end + TOP_FOOT_SIZE)
  {
    hide Heap, Kept, Confined;
    ghost var v, l := m.w, m.lay;
    m.w := m.w[p + HEAD := nb + PINUSE + CINUSE];
    m.w := m.w[r + HEAD := rsize + PINUSE];
    m.w := m.w[r + rsize := rsize];
    m.lay := Split(l, p, nb).(live := l.live + {p});
    FrontUsed(m.gm, v, m.w, m.smallmap, m.treemap, l, m.bins, m.dv, m.dvsize, limbo, p, nb);
  }

  lemma FrontUsed(gm: int, v: Mem, w: Mem, smap: Bitmaps.Binmap, tmap: Bitmaps.Binmap, l: Layout, b: Bins,
                  dv: int, dvsize: int, limbo: set<int>, p: int, nb: int)
    requires Heap(gm, v, smap, tmap, l, b, dv, dvsize, limbo) && p in limbo && CanSplit(l, p, nb)
    requires SplitWrites(v, w, p, nb, l.size[p] - nb)
    ensures var l' := Split(l, p, nb).(live := l.live + {p});
            && Heap(gm, w, smap, tmap, l', b, dv, dvsize, limbo - {p} + {p + nb})
            && Kept(v, w, l, l', l.live) && Confined(v, w, gm, l.base, l.end + TOP_FOOT_SIZE)
  {
    hide BinsOK, Chunks, Shape, Tags, Kept, Confined, Untouched, Accounted, SplitWrites, DvOK;
    var l', keep := Split(l, p, nb).(live := l.live + {p}), l.size.Keys - {p};
    LiveAre(l);
    AccountSplit(l, b, dv, dvsize, limbo, p, nb);
    AllocSplit(v, w, l, p, nb);
    SplitInside(v, w, gm, l, p, nb);
    DvMoved(l, l', b, dv, dvsize, limbo, p);
    Relaid(gm, v, w, smap, tmap, l, l', b, dv, dvsize, limbo, dv, dvsize, limbo - {p} + {p + nb}, keep);
    RetaggedKept(gm, v, w, l, l', keep, l.live);
  }

  lemma AccountSplit(l: Layout, b: Bins, dv: int, dvsize: int, limbo: set<int>, p: int, nb: int)
    requires Shape(l) && Accounted(l, b, dv, dvsize, limbo) && p in limbo && CanSplit(l, p, nb)
    ensures Accounted(Split(l, p, nb).(live := l.live + {p}), b, dv, dvsize, limbo - {p} + {p + nb})
    ensures Chunks(b) <= l.size.Keys - {p} && p !in l.live && p + nb !in l.size
  {
    hide Chunks, DvSet;
    assert p in Free(l);
    InsideNot(l, p, p + nb);
    assert Free(Split(l, p, nb).(live := l.live + {p})) == Free(l) - {p} + {p + nb};
  }

  /** dv is not in limbo, so it does not feel what happens to limbo's chunk p. */
  lemma DvMoved(l: Layout, l': Layout, b: Bins, dv: int, dvsize: int, limbo: set<int>, p: int)
    requires DvOK(l, dv, dvsize) && Accounted(l, b, dv, dvsize, limbo) && p in limbo
    requires forall x :: x in l.size && x != p ==> x in l'.size && l'.size[x] == l.size[x]
    ensures DvOK(l', dv, dvsize)
  {
    hide Chunks;
    assert dvsize != 0 ==> dv in DvSet(dv, dvsize);
  }

  lemma SplitInside(v: Mem, w: Mem, gm: int, l: Layout, p: int, nb: int)
    requires Placed(gm, l) && Shape(l) && CanSplit(l, p, nb) && SplitWrites(v, w, p, nb, l.size[p] - nb)
    ensures StateSame(v, w, gm) && Confined(v, w, gm, l.base, l.end + TOP_FOOT_SIZE)
  {
    ChunkFits(l, p);
  }

  /** The last step of dlmalloc and of sys_alloc: nb bytes are split off the front of top. */
  method SplitTop(m: State, nb: int) returns (p: int)
    requires 0 <= nb < m.topsize
    modifies m`w, m`top, m`topsize
    ensures p == old(m.top) && m.topsize == old(m.topsize) - nb && m.top == Wrap(p + nb)
    ensures m.w == old(m.w)[m.top + HEAD := SetPinuse(m.topsize)][p + HEAD := nb + PINUSE + CINUSE]
  {
    m.topsize := m.topsize - nb;
    var rsize := m.topsize;
    p := m.top;
    m.top := Wrap(p + nb);
    var r := m.top;
    m.w := m.w[r + HEAD := SetPinuse(rsize)];
    m.w := m.w[p + HEAD := nb + PINUSE + CINUSE];
  }

  /** SplitTop where the heap is in order. */
  method UseTop(m: State, nb: int, ghost limbo: set<int>) returns (p: int)
    requires Ready(m, limbo) && nb % 8 == 0 && 16 <= nb < m.topsize
    modifies m`w, m`lay, m`top, m`topsize
    ensures Ready(m, limbo) && p == old(m.top) && m.lay == old(TakeTop(m.lay, nb))
    ensures Kept(old(m.w), m.w, old(m.lay), m.lay, old(m.lay.live))
    ensures Confined(old(m.w), m.w, m.gm, m.lay.base, m.lay.end + TOP_FOOT_SIZE)
  {
    hide Heap, Kept, Confined;
    ghost var v, l := m.w, m.lay;
    TopFacts(m, limbo);
    p := SplitTop(m, nb);
    m.lay := TakeTop(l, nb);
    TopUsed(m.gm, v, m.w, m.smallmap, m.treemap, l, m.bins, m.dv, m.dvsize, limbo, nb);
  }

  lemma TopFacts(m: State, limbo: set<int>)
    requires Ready(m, limbo)
    ensures m.topsize % 4 == 0 && 0 < m.topsize && 0 < m.top && m.top % 8 == 0 && m.top + m.topsize + TOP_FOOT_SIZE < WORD
  {
    hide Tags, BinsOK, Accounted, DvOK, Disjoint, ChunkOK, PrevOK;
  }

  lemma TopUsed(gm: int, v: Mem, w: Mem, smap: Bitmaps.Binmap, tmap: Bitmaps.Binmap, l: Layout, b: Bins,
                dv: int, dvsize: int, limbo: set<int>, nb: int)
    requires Heap(gm, v, smap, tmap, l, b, dv, dvsize, limbo) && CanTake(l, nb)
    requires TopWrites(v, w, l.top, nb, l.end - l.top - nb)
    ensures var l' := TakeTop(l, nb);
            && Heap(gm, w, smap, tmap, l', b, dv, dvsize, limbo)
            && Kept(v, w, l, l', l.live) && Confined(v, w, gm, l.base, l.end + TOP_FOOT_SIZE)
  {
    hide BinsOK, Chunks, Tags, Kept, Confined, Untouched, Accounted, TagOK, ChunkOK, PrevOK, Coalesced;
    var l', keep := TakeTop(l, nb), l.size.Keys;
    LiveAre(l);
    TopNotChunk(l);
    AllocTop(v, w, l, nb);
    AccountSame(l, l', b, dv, dvsize, limbo);
    TopInside(v, w, gm, l, nb);
    Relaid(gm, v, w, smap, tmap, l, l', b, dv, dvsize, limbo, dv, dvsize, limbo, keep);
    RetaggedKept(gm, v, w, l, l', keep, l.live);
  }

  lemma AccountSame(l: Layout, l': Layout, b: Bins, dv: int, dvsize: int, limbo: set<int>)
    requires Accounted(l, b, dv, dvsize, limbo) && Free(l') == Free(l)
    ensures Accounted(l', b, dv, dvsize, limbo) && Chunks(b) <= l.size.Keys
  {
    hide Chunks, DvSet;
  }

  lemma TopInside(v: Mem, w: Mem, gm: int, l: Layout, nb: int)
    requires Placed(gm, l) && Tiling(l) && CanTake(l, nb) && TopWrites(v, w, l.top, nb, l.end - l.top - nb)
    ensures StateSame(v, w, gm) && Confined(v, w, gm, l.base, l.end + TOP_FOOT_SIZE)
  {
  }
}
