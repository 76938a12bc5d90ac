/** dlmalloc. */
module Malloc {
  import opened Words
  import opened Memory
  import Bitmaps
  import opened Rings
  import opened Tries
  import opened MallocState
  import opened BinIndex
  import opened TreeBins
  import opened TreeSearch
  import opened SmallBins
  import opened Layouts
  import opened LayoutOps
  import opened BinSets
  import opened HeapInv
  import opened ChunkOps
  import opened SysAlloc

  const MIN_CHUNK_SIZE: int := 16
  const MIN_REQUEST: int := 11
  const MAX_SMALL_REQUEST: int := 244

  /** pad_request(req) */
  function PadRequest(req: int): int {
    Wrap(req + 11) / 8 * 8
  }

  /** The chunk size dlmalloc looks for; one that cannot be had if the request is too big. */
  function RequestSize(bytes: int): int {
    if bytes >= MAX_REQUEST then WORD - 1 else if bytes < MIN_REQUEST then MIN_CHUNK_SIZE else PadRequest(bytes)
  }

  /** The chunk size is the least multiple of 8, no less than 16, with room for the bytes and the head word. */
  lemma RequestSizeLeast(bytes: int)
    requires 0 <= bytes < MAX_REQUEST
    ensures var nb := RequestSize(bytes); nb % 8 == 0 && nb >= MIN_CHUNK_SIZE && nb >= bytes + 4 && Askable(nb)
    ensures RequestSize(bytes) < 256 <==> bytes <= MAX_SMALL_REQUEST
  {
  }

  /** No smaller chunk would do. */
  lemma RequestSizeMinimal(bytes: int, s: int)
    requires 0 <= bytes < MAX_REQUEST && s % 8 == 0 && s >= MIN_CHUNK_SIZE && s >= bytes + 4
    ensures RequestSize(bytes) <= s
  {
  }

  /** The free chunk p is put to use for nb bytes: as a whole, unless what would be left is a chunk too. */
  ghost predicate Carved(v: Mem, w: Mem, gm: int, l: Layout, l': Layout, p: int, nb: int) {
    && p in Free(l) && p in l.size && p in l'.size && l'.live == l.live + {p} && l.size[p] >= nb
    && l'.size[p] == (if l.size[p] - nb < MIN_CHUNK_SIZE then l.size[p] else nb)
    && Kept(v, w, l, l', l.live) && Confined(v, w, gm, l.base, l.end + TOP_FOOT_SIZE)
    && l'.base == l.base && l'.top == l.top && l'.end == l.end
  }

  // ---- which chunk, and what becomes of the designated victim ----

  /** p is a chunk of s of exactly n bytes. */
  ghost predicate OfSize(size: map<int, int>, s: set<int>, n: int, p: int) {
    p in s && p in size && size[p] == n
  }

  ghost predicate SomeOfSize(size: map<int, int>, s: set<int>, n: int) {
    exists p :: OfSize(size, s, n, p)
  }

  /** The free chunk p that serves nb: for a small request one of a small bin that leaves no remainder, an exact one
      before one 8 bytes larger, then the designated victim, then the smallest that fits; for a large request the
      smallest that fits, the designated victim before others as small. */
  ghost predicate Choice(m: State, nb: int, p: int)
    reads m`lay, m`bins, m`dv, m`dvsize
  {
    var size, small := m.lay.size, SmallChunks(m.bins.small);
    if nb >= 256 then BestFit(size, Free(m.lay), nb, p) && (nb <= m.dvsize <= size[p] ==> p == m.dv)
    else if SomeOfSize(size, small, nb) then OfSize(size, small, nb, p)
    else if SomeOfSize(size, small, nb + 8) then OfSize(size, small, nb + 8, p)
    else if nb <= m.dvsize then p == m.dv
    else BestFit(size, Free(m.lay), nb, p)
  }

  /** The designated victim once p has served nb: what is left of it, or of the chunk a small request split. */
  ghost predicate VictimAfter(size: map<int, int>, dv: int, dvsize: int, nb: int, p: int, dv': int, dvsize': int) {
    if p in size && size[p] - nb >= MIN_CHUNK_SIZE && (nb < 256 || (dvsize != 0 && p == dv))
    then dv' == p + nb && dvsize' == size[p] - nb
    else if dvsize != 0 && p == dv then dv' == 0 && dvsize' == 0
    else dv' == dv && dvsize' == dvsize
  }

  /** Taking a chunk out of its bin, using it, and binning the rest, or not. */
  lemma CarvedBySteps(u: Mem, v: Mem, w: Mem, x: Mem, gm: int, l: Layout, l': Layout, p: int, nb: int)
    requires Kept(u, v, l, l, l.live) && Kept(v, w, l, l', l.live) && Kept(w, x, l', l', l'.live)
    requires Confined(u, v, gm, l.base, l.end + TOP_FOOT_SIZE) && Confined(v, w, gm, l'.base, l'.end + TOP_FOOT_SIZE)
    requires Confined(w, x, gm, l'.base, l'.end + TOP_FOOT_SIZE)
    requires p in Free(l) && p in l.size && l.size[p] >= nb > 0 && l'.live == l.live + {p}
    requires if l.size[p] - nb < MIN_CHUNK_SIZE then l' == l.(live := l.live + {p})
             else l' == Layouts.Split(l, p, nb).(live := l.live + {p})
    ensures Carved(u, x, gm, l, l', p, nb)
  {
    hide Confined, Kept;
    KeptTrans(u, v, w, l, l, l', l.live, l.live);
    KeptLess(w, x, l', l', l'.live, l.live);
    KeptTrans(u, w, x, l, l', l', l.live, l.live);
    ConfinedTrans(u, v, w, gm, l.base, l.end + TOP_FOOT_SIZE, l.end + TOP_FOOT_SIZE);
    ConfinedTrans(u, w, x, gm, l.base, l.end + TOP_FOOT_SIZE, l.end + TOP_FOOT_SIZE);
  }

  lemma LimboFree(m: State, limbo: set<int>, p: int)
    requires Ready(m, limbo) && p in limbo
    ensures p in Free(m.lay) && p in m.lay.size && 16 <= m.lay.size[p] < WORD && m.lay.size[p] % 8 == 0
  {
    BinReady(m.gm, m.w, m.smallmap, m.treemap, m.lay, m.bins, m.dv, m.dvsize, limbo, p);
    hide BinsOK, Chunks, Tags, Shape;
  }

  lemma SizesEven(m: State, limbo: set<int>)
    requires Ready(m, limbo)
    ensures Sizes(m.lay.size, m.gm) && forall p :: p in m.lay.size ==> 16 <= m.lay.size[p] < WORD && m.lay.size[p] % 8 == 0
  {
    SizesOf(m.gm, m.lay);
    hide BinsOK, Tags;
    forall p | p in m.lay.size ensures 16 <= m.lay.size[p] < WORD && m.lay.size[p] % 8 == 0 {
      ChunkFits(m.lay, p);
    }
  }

  // ---- small requests ----

  /** The first chunk of small bin i is taken out. */
  method UnlinkFirst(m: State, i: int) returns (p: int)
    requires Ready(m, {}) && i in m.bins.smarked
    modifies m`w, m`smallmap, m`bins
    ensures Ready(m, {p}) && 0 <= i < NSMALLBINS && OfSize(m.lay.size, old(SmallChunks(m.bins.small)), 8 * i, p)
    ensures Kept(old(m.w), m.w, m.lay, m.lay, m.lay.live)
    ensures Confined(old(m.w), m.w, m.gm, m.lay.base, m.lay.end + TOP_FOOT_SIZE)
  {
    hide Heap, Kept, Confined, SmallChunks;
    SmallFirst(m, i);
    var b := SmallBinAt(m.gm, i);
    p := m.w[b + FD];
    UnlinkListed(m, p, 8 * i, true, {});
    assert {} + {p} == {p};
  }

  lemma SmallFirst(m: State, i: int)
    requires Ready(m, {}) && i in m.bins.smarked
    ensures 0 <= i < NSMALLBINS == |m.bins.small| && m.bins.small[i] != []
    ensures var p := m.w[SmallBinAt(m.gm, i) + FD];
            p == m.bins.small[i][0] && p in SmallChunks(m.bins.small) && p in m.lay.size && m.lay.size[p] == 8 * i
  {
    hide Shape, Tags, TreeBinsOK, Accounted, DvOK, Placed, Bitmaps.Means;
    var lst := m.bins.small[i];
    assert SmallBinOK(m.w, m.gm, i, lst, m.lay.size);
    assert lst[0] in lst;
    HeaderLinks(m.w, SmallBinAt(m.gm, i), lst);
    assert lst[0] in m.bins.small[i];
  }

  /** Remainderless fit to a smallbin. */
  method TakeExact(m: State, nb: int, idx: int) returns (p: int)
    requires Ready(m, {}) && idx in m.bins.smarked && nb <= 8 * idx < nb + MIN_CHUNK_SIZE
    modifies m`w, m`smallmap, m`bins, m`lay
    ensures Ready(m, {}) && Carved(old(m.w), m.w, m.gm, old(m.lay), m.lay, p, nb)
    ensures OfSize(old(m.lay.size), old(SmallChunks(m.bins.small)), 8 * idx, p)
  {
    hide Heap, Kept, Confined, SmallChunks;
    ghost var u, l := m.w, m.lay;
    p := UnlinkFirst(m, idx);
    LimboFree(m, {p}, p);
    ghost var v := m.w;
    UseWhole(m, p, 8 * idx, {p});
    assert {p} - {p} == {};
    NothingKept(m);
    CarvedBySteps(u, v, m.w, m.w, m.gm, l, m.lay, p, nb);
  }

  lemma NothingKept(m: State)
    requires Ready(m, {})
    ensures Kept(m.w, m.w, m.lay, m.lay, m.lay.live) && Confined(m.w, m.w, m.gm, m.lay.base, m.lay.end + TOP_FOOT_SIZE)
  {
    hide BinsOK, Tags, Shape;
    NothingChanged(m.w, m.gm, m.lay);
  }

  /** Use chunk in next nonempty smallbin, whose rest becomes dv. */
  method TakeNext(m: State, nb: int, i: int) returns (p: int)
    requires Ready(m, {}) && i in m.bins.smarked && 16 <= nb && nb % 8 == 0 && nb + MIN_CHUNK_SIZE <= 8 * i && m.dvsize < 256
    modifies m`w, m`smallmap, m`treemap, m`bins, m`lay, m`dv, m`dvsize
    ensures Ready(m, {}) && Carved(old(m.w), m.w, m.gm, old(m.lay), m.lay, p, nb)
    ensures OfSize(old(m.lay.size), old(SmallChunks(m.bins.small)), 8 * i, p) && m.dv == p + nb && m.dvsize == 8 * i - nb
  {
    hide Heap, Kept, Confined, SmallChunks;
    ghost var u, l := m.w, m.lay;
    p := UnlinkFirst(m, i);
    LimboFree(m, {p}, p);
    var rsize := 8 * i - nb;
    var r := p + nb;
    ghost var v := m.w;
    UseFront(m, p, nb, r, rsize, {p});
    assert {p} - {p} + {r} == {r};
    ghost var w := m.w;
    ReplaceDv(m, r, rsize, {r});
    assert {r} - {r} == {};
    CarvedBySteps(u, v, w, m.w, m.gm, l, m.lay, p, nb);
  }

  /** tmalloc_small(m, nb) */
  method TmallocSmall(m: State, nb: int) returns (v: int)
    requires Ready(m, {}) && m.bins.tmarked != {} && 16 <= nb < 256 && nb % 8 == 0 && m.dvsize < 256
    modifies m`w, m`smallmap, m`treemap, m`bins, m`lay, m`dv, m`dvsize
    ensures Ready(m, {}) && Carved(old(m.w), m.w, m.gm, old(m.lay), m.lay, v, nb)
    ensures BestFit(old(m.lay.size), old(TreeChunks(m.bins.trees)), nb, v)
    ensures var rsize := old(m.lay.size)[v] - nb;
            if rsize < MIN_CHUNK_SIZE then m.dv == old(m.dv) && m.dvsize == old(m.dvsize) else m.dv == v + nb && m.dvsize == rsize
  {
    hide Heap, Kept, Confined, TreeBinsOK, BestFit;
    ghost var u, l := m.w, m.lay;
    TreesOK(m, {});
    var rsize;
    v, rsize := BestFitSmall(m, nb, m.bins.trees, l.size, m.bins.tmarked);
    BestIsTree(l.size, m.bins.trees, nb, v);
    var r := v + nb;
    UnlinkTree(m, v, {});
    assert {} + {v} == {v};
    LimboFree(m, {v}, v);
    ghost var u1 := m.w;
    if rsize < MIN_CHUNK_SIZE {
      UseWhole(m, v, rsize + nb, {v});
      assert {v} - {v} == {};
      NothingKept(m);
      CarvedBySteps(u, u1, m.w, m.w, m.gm, l, m.lay, v, nb);
    } else {
      UseFront(m, v, nb, r, rsize, {v});
      assert {v} - {v} + {r} == {r};
      ghost var u2 := m.w;
      ReplaceDv(m, r, rsize, {r});
      assert {r} - {r} == {};
      CarvedBySteps(u, u1, u2, m.w, m.gm, l, m.lay, v, nb);
    }
  }

  lemma TreesOK(m: State, limbo: set<int>)
    requires Ready(m, limbo)
    ensures TreeBinsOK(m.w, m.gm, m.treemap, m.bins.trees, m.lay.size, m.bins.tmarked)
  {
    hide Shape, Tags, TreeBinsOK, SmallBinsOK, Accounted, DvOK, Placed;
  }

  lemma BestIsTree(size: map<int, int>, trees: seq<Trie>, nb: int, v: int)
    requires BestFit(size, TreeChunks(trees), nb, v)
    ensures v in TreeChunks(trees) && v in size && size[v] >= nb
  {
    hide TreeChunks;
  }

  // ---- large requests ----

  /** tmalloc_large(m, nb): the best fit among the tree bins, unless dv fits at least as well. */
  method TmallocLarge(m: State, nb: int) returns (v: int)
    requires Ready(m, {}) && 256 <= nb <= WORD - 56 && nb % 8 == 0
    modifies m`w, m`smallmap, m`treemap, m`bins, m`lay
    ensures Ready(m, {})
    ensures v == 0 ==> m.w == old(m.w) && m.lay == old(m.lay) && m.bins == old(m.bins)
                       && (NoFit(m.lay.size, TreeChunks(m.bins.trees), nb)
                           || exists x :: BestFit(m.lay.size, TreeChunks(m.bins.trees), nb, x) && m.dvsize <= m.lay.size[x])
    ensures v == 0 && m.dvsize < nb ==> NoFit(m.lay.size, TreeChunks(m.bins.trees), nb)
    ensures v != 0 ==> Carved(old(m.w), m.w, m.gm, old(m.lay), m.lay, v, nb)
                       && BestFit(old(m.lay.size), old(TreeChunks(m.bins.trees)), nb, v)
                       && (m.dvsize < nb || old(m.lay.size)[v] < m.dvsize)
  {
    hide Heap, Kept, Confined, TreeBinsOK, BestFit, NoFit, TreeChunks, Carved;
    ghost var u, l := m.w, m.lay;
    TreesOK(m, {});
    DvBounds(m);
    var rsize;
    v, rsize := BestFitLarge(m, nb, m.bins.trees, l.size, m.bins.tmarked);
    ghost var best := v;
    if v != 0 {
      BestIsTree(l.size, m.bins.trees, nb, v);
      BinReach(m, {}, v);
    }
    if v != 0 && rsize < Wrap(m.dvsize - nb) {
      var r := v + nb;
      UnlinkTree(m, v, {});
      assert {} + {v} == {v};
      LimboFree(m, {v}, v);
      ghost var u1 := m.w;
      if rsize < MIN_CHUNK_SIZE {
        UseWhole(m, v, rsize + nb, {v});
        assert {v} - {v} == {};
        NothingKept(m);
        CarvedBySteps(u, u1, m.w, m.w, m.gm, l, m.lay, v, nb);
      } else {
        UseFront(m, v, nb, r, rsize, {v});
        assert {v} - {v} + {r} == {r};
        ghost var u2 := m.w;
        InsertChunk(m, r, rsize, {r});
        assert {r} - {r} == {};
        CarvedBySteps(u, u1, u2, m.w, m.gm, l, m.lay, v, nb);
      }
    } else {
      v := 0;
    }
  }

  lemma DvBounds(m: State)
    requires Ready(m, {})
    ensures 0 <= m.dvsize < WORD && m.dvsize % 8 == 0
    ensures m.dvsize != 0 ==> m.dv in m.lay.size && m.lay.size[m.dv] == m.dvsize >= 16 && m.dv in Free(m.lay)
  {
    DvApart(m.lay, m.bins, m.dv, m.dvsize, {});
    if m.dvsize != 0 {
      BinReach(m, {}, m.dv);
    }
    hide BinsOK, Tags, Shape, Accounted;
  }

  // ---- the designated victim ----

  method SplitDv(m: State, nb: int) returns (p: int)
    requires Ready(m, {}) && 16 <= nb <= m.dvsize - MIN_CHUNK_SIZE && nb % 8 == 0
    modifies m`w, m`lay, m`dv, m`dvsize
    ensures Ready(m, {}) && p == old(m.dv) && Carved(old(m.w), m.w, m.gm, old(m.lay), m.lay, p, nb)
    ensures m.dv == p + nb && m.dvsize == old(m.dvsize) - nb
  {
    hide Heap, Kept, Confined, Carved;
    ghost var v, l := m.w, m.lay;
    DvBounds(m);
    DvToLimbo(m.gm, m.w, m.smallmap, m.treemap, l, m.bins, m.dv, m.dvsize, {});
    assert {} + DvSet(m.dv, m.dvsize) == {m.dv};
    var rsize := m.dvsize - nb;
    p := m.dv;
    m.dv := p + nb;
    var r := m.dv;
    m.dvsize := rsize;
    m.w := m.w[r + HEAD := rsize + PINUSE];
    m.w := m.w[r + rsize := rsize];
    m.w := m.w[p + HEAD := nb + PINUSE + CINUSE];
    m.lay := Layouts.Split(l, p, nb).(live := l.live + {p});
    DvSplit(m.gm, v, m.w, m.smallmap, m.treemap, l, m.bins, p, nb);
  }

  lemma DvSplit(gm: int, v: Mem, w: Mem, smap: Bitmaps.Binmap, tmap: Bitmaps.Binmap, l: Layout, b: Bins, p: int, nb: int)
    requires Heap(gm, v, smap, tmap, l, b, 0, 0, {p}) && CanSplit(l, p, nb) && p in Free(l)
    requires var r, rsize := p + nb, l.size[p] - nb;
             w == v[r + HEAD := rsize + PINUSE][r + rsize := rsize][p + HEAD := nb + PINUSE + CINUSE]
    ensures var l' := Layouts.Split(l, p, nb).(live := l.live + {p});
            Heap(gm, w, smap, tmap, l', b, p + nb, l.size[p] - nb, {}) && Carved(v, w, gm, l, l', p, nb)
  {
    hide Heap, Kept, Confined, Carved;
    var r := p + nb;
    var l' := Layouts.Split(l, p, nb).(live := l.live + {p});
    FrontUsed(gm, v, w, smap, tmap, l, b, 0, 0, {p}, p, nb);
    assert {p} - {p} + {r} == {r};
    LimboToDv(gm, w, smap, tmap, l', b, {r}, r);
    assert {r} - {r} == {};
    AtOnce(v, w, gm, l, l', p, nb);
  }

  method ExhaustDv(m: State, nb: int) returns (p: int)
    requires Ready(m, {}) && 16 <= nb <= m.dvsize < nb + MIN_CHUNK_SIZE
    modifies m`w, m`lay, m`dv, m`dvsize
    ensures Ready(m, {}) && p == old(m.dv) && Carved(old(m.w), m.w, m.gm, old(m.lay), m.lay, p, nb)
    ensures m.dv == 0 && m.dvsize == 0
  {
    hide Heap, Kept, Confined, Carved;
    ghost var v, l := m.w, m.lay;
    DvBounds(m);
    DvToLimbo(m.gm, m.w, m.smallmap, m.treemap, l, m.bins, m.dv, m.dvsize, {});
    assert {} + DvSet(m.dv, m.dvsize) == {m.dv};
    p := m.dv;
    var dvs := m.dvsize;
    m.dvsize := 0;
    m.dv := 0;
    UseWhole(m, p, dvs, {p});
    assert {p} - {p} == {};
    AtOnce(v, m.w, m.gm, l, m.lay, p, nb);
  }

  lemma AtOnce(v: Mem, w: Mem, gm: int, l: Layout, l': Layout, p: int, nb: int)
    requires Kept(v, w, l, l', l.live) && Confined(v, w, gm, l.base, l.end + TOP_FOOT_SIZE)
    requires p in Free(l) && p in l.size && l.size[p] >= nb > 0
    requires if l.size[p] - nb < MIN_CHUNK_SIZE then l' == l.(live := l.live + {p})
             else l' == Layouts.Split(l, p, nb).(live := l.live + {p})
    ensures Carved(v, w, gm, l, l', p, nb)
  {
  }

  // ---- dlmalloc ----

  lemma BinMaps(m: State)
    requires Inv(m)
    ensures Bitmaps.Means(m.smallmap, m.bins.smarked) && Bitmaps.Means(m.treemap, m.bins.tmarked)
    ensures m.top == 0 ==> m.bins.smarked == {} && m.bins.tmarked == {} && m.topsize == 0 && m.dvsize == 0
    ensures m.top != 0 ==> Ready(m, {}) && Sizes(m.lay.size, m.gm)
    ensures forall p :: p in m.lay.size ==> 16 <= m.lay.size[p] < WORD && m.lay.size[p] % 8 == 0 && p > 0
  {
    hide Bitmaps.Means, Heap;
    if m.top == 0 {
      Bitmaps.EmptyMeans();
    } else {
      ReadyMaps(m);
      SizesEven(m, {});
    }
  }

  lemma ReadyMaps(m: State)
    requires Ready(m, {})
    ensures Bitmaps.Means(m.smallmap, m.bins.smarked) && Bitmaps.Means(m.treemap, m.bins.tmarked)
  {
    hide Bitmaps.Means, Shape, Tags, Accounted, SmallBinOK, TreeBinOK;
  }

  /** No bin that is marked holds anything that fits. */
  lemma NoSmallFit(m: State, nb: int)
    requires Inv(m) && forall j :: j in m.bins.smarked ==> 8 * j < nb
    ensures NoFit(m.lay.size, SmallChunks(m.bins.small), nb)
  {
    if m.top != 0 {
      forall a | a in SmallChunks(m.bins.small) && a in m.lay.size ensures m.lay.size[a] < nb {
        SmallMember(m, a);
      }
    }
    hide Heap;
  }

  lemma SmallMember(m: State, a: int)
    requires Ready(m, {}) && a in SmallChunks(m.bins.small) && a in m.lay.size
    ensures exists j :: j in m.bins.smarked && m.lay.size[a] == 8 * j
  {
    hide Bitmaps.Means, Shape, Tags, Accounted, SmallBin, TreeBinsOK;
    var j :| 0 <= j < |m.bins.small| && a in m.bins.small[j];
    assert SmallBinOK(m.w, m.gm, j, m.bins.small[j], m.lay.size);
  }

  lemma NoTreeFit(m: State, nb: int)
    requires Inv(m) && m.bins.tmarked == {}
    ensures NoFit(m.lay.size, TreeChunks(m.bins.trees), nb) && TreeChunks(m.bins.trees) == {}
  {
    if m.top != 0 {
      TreesOK(m, {});
      hide Heap, Bitmaps.Means, TreeBinOK;
      forall i | 0 <= i < |m.bins.trees| ensures Addrs(m.bins.trees[i]) == {} {
        assert i !in m.bins.tmarked;
      }
    }
    hide Heap;
  }

  lemma NoFitEither(size: map<int, int>, b: Bins, nb: int)
    requires NoFit(size, SmallChunks(b.small), nb) && NoFit(size, TreeChunks(b.trees), nb)
    ensures NoFit(size, Chunks(b), nb)
  {
    hide SmallChunks, TreeChunks;
  }

  /** A small bin is marked exactly if there is a chunk of its size. */
  lemma MarkedSizes(m: State, j: int)
    requires Inv(m)
    ensures j in m.bins.smarked <==> SomeOfSize(m.lay.size, SmallChunks(m.bins.small), 8 * j)
  {
    hide Heap, SmallChunks;
    BinMaps(m);
    if m.top != 0 {
      if j in m.bins.smarked {
        SmallFirst(m, j);
        assert OfSize(m.lay.size, SmallChunks(m.bins.small), 8 * j, m.bins.small[j][0]);
      }
      forall p | OfSize(m.lay.size, SmallChunks(m.bins.small), 8 * j, p) ensures j in m.bins.smarked {
        SmallMember(m, p);
      }
    }
  }

  /** The chunks of small bin i leave no remainder: one of them is the choice, and the designated victim stays. */
  lemma ChooseExact(m: State, nb: int, i: int)
    requires Inv(m) && nb < 256 && nb % 8 == 0 && i in m.bins.smarked && i == (if nb / 8 in m.bins.smarked then nb / 8 else nb / 8 + 1)
    ensures forall p {:trigger OfSize(m.lay.size, SmallChunks(m.bins.small), 8 * i, p)} ::
              OfSize(m.lay.size, SmallChunks(m.bins.small), 8 * i, p) ==>
                Choice(m, nb, p) && VictimAfter(m.lay.size, m.dv, m.dvsize, nb, p, m.dv, m.dvsize)
  {
    MarkedSizes(m, nb / 8);
    MarkedSizes(m, nb / 8 + 1);
    FreeOf(m);
    hide Inv, SmallChunks, TreeChunks, SomeOfSize;
  }

  /** Without a remainderless fit, and with too small a designated victim, the best fits are in the next small bin. */
  lemma ChooseNext(m: State, nb: int, i: int)
    requires Inv(m) && 16 <= nb < 256 && nb % 8 == 0 && m.dvsize < nb && i in m.bins.smarked
    requires nb / 8 + 2 <= i && forall j :: j in m.bins.smarked && j >= nb / 8 ==> i <= j
    ensures forall p {:trigger OfSize(m.lay.size, SmallChunks(m.bins.small), 8 * i, p)} ::
              OfSize(m.lay.size, SmallChunks(m.bins.small), 8 * i, p) ==>
                Choice(m, nb, p) && VictimAfter(m.lay.size, m.dv, m.dvsize, nb, p, p + nb, 8 * i - nb)
  {
    NoExact(m, nb);
    FreeOf(m);
    SizesInBins(m);
    SmallIndex(m, i);
    hide Inv, SmallChunks, TreeChunks, SomeOfSize;
    forall a | a in Free(m.lay) && a in m.lay.size && m.lay.size[a] >= nb ensures m.lay.size[a] >= 8 * i {
      if a in SmallChunks(m.bins.small) {
        assert m.lay.size[a] / 8 >= i;
      }
    }
  }

  lemma SmallIndex(m: State, i: int)
    requires Inv(m) && i in m.bins.smarked
    ensures 0 <= i < NSMALLBINS && m.top != 0
  {
    hide Heap;
    BinMaps(m);
    SmallFirst(m, i);
  }

  /** With nothing in the small bins, the best fits are in the tree bins. */
  lemma ChooseTree(m: State, nb: int)
    requires Inv(m) && 16 <= nb < 256 && nb % 8 == 0 && m.dvsize < nb && forall j :: j in m.bins.smarked ==> 8 * j < nb
    ensures forall p {:trigger BestFit(m.lay.size, TreeChunks(m.bins.trees), nb, p)} ::
              BestFit(m.lay.size, TreeChunks(m.bins.trees), nb, p) ==>
                && p in m.lay.size && Choice(m, nb, p)
                && var rsize := m.lay.size[p] - nb;
                   if rsize < MIN_CHUNK_SIZE then VictimAfter(m.lay.size, m.dv, m.dvsize, nb, p, m.dv, m.dvsize)
                   else VictimAfter(m.lay.size, m.dv, m.dvsize, nb, p, p + nb, rsize)
  {
    NoExact(m, nb);
    FreeOf(m);
    SizesInBins(m);
    hide Inv, SmallChunks, TreeChunks, SomeOfSize;
  }

  lemma NoExact(m: State, nb: int)
    requires Inv(m) && nb % 8 == 0 && nb / 8 !in m.bins.smarked && nb / 8 + 1 !in m.bins.smarked
    ensures !SomeOfSize(m.lay.size, SmallChunks(m.bins.small), nb) && !SomeOfSize(m.lay.size, SmallChunks(m.bins.small), nb + 8)
  {
    MarkedSizes(m, nb / 8);
    MarkedSizes(m, nb / 8 + 1);
  }

  lemma SizesInBins(m: State)
    requires Inv(m)
    ensures forall a :: a in SmallChunks(m.bins.small) && a in m.lay.size ==>
              m.lay.size[a] < 256 && m.lay.size[a] % 8 == 0 && m.lay.size[a] / 8 in m.bins.smarked
    ensures forall a :: a in TreeChunks(m.bins.trees) && a in m.lay.size ==> m.lay.size[a] >= 256
  {
    hide Tags, Shape, SmallChunks, TreeChunks, SmallBinsOK, TreeBinsOK;
    if m.top != 0 {
      SmallSizes(m.bins, m.lay.size, m.w, m.gm, m.smallmap, m.treemap);
      forall a | a in SmallChunks(m.bins.small) && a in m.lay.size
        ensures m.lay.size[a] % 8 == 0 && m.lay.size[a] / 8 in m.bins.smarked {
        SmallMember(m, a);
      }
    }
  }

  /** dlmalloc's first three ways to serve a small request. */
  method SmallRequest(m: State, nb: int) returns (p: int)
    requires Inv(m) && 16 <= nb <= 248 && nb % 8 == 0
    modifies m`w, m`smallmap, m`treemap, m`bins, m`lay, m`dv, m`dvsize
    ensures p == 0 ==> Inv(m) && m.w == old(m.w) && m.lay == old(m.lay) && m.dv == old(m.dv) && m.dvsize == old(m.dvsize)
                       && m.bins == old(m.bins)
                       && if nb <= m.dvsize then old(Choice(m, nb, m.dv)) else NoFit(m.lay.size, Chunks(m.bins), nb)
    ensures p != 0 ==> Ready(m, {}) && old(m.top) != 0 && Carved(old(m.w), m.w, m.gm, old(m.lay), m.lay, p, nb)
    ensures p != 0 ==> old(Choice(m, nb, p)) && VictimAfter(old(m.lay.size), old(m.dv), old(m.dvsize), nb, p, m.dv, m.dvsize)
  {
    hide Heap, Kept, Confined, Chunks, NoFit, BestFit, Choice, VictimAfter, Carved, SmallChunks, TreeChunks;
    hide Bitmaps.Means, Bitmaps.Shr, Bitmaps.Shl, Bitmaps.Above, Bitmaps.Word;
    BinMaps(m);
    p := 0;
    var idx := nb / 8;
    var smallbits := Bitmaps.Shr(m.smallmap, Bitmaps.Word(idx));
    Bitmaps.SmallBits(m.smallmap, idx, m.bins.smarked);
    if smallbits & 3 != 0 {
      idx := idx + (if !smallbits & 1 == 1 then 1 else 0);
      ChooseExact(m, nb, idx);
      p := TakeExact(m, nb, idx);
    } else if nb > m.dvsize {
      if smallbits != 0 {
        var leftbits := Bitmaps.Above(Bitmaps.Shl(smallbits, Bitmaps.Word(idx)), Bitmaps.Word(idx));
        ghost var above := set j | j in m.bins.smarked && j > idx;
        Bitmaps.LeftBitsMean(m.smallmap, idx, m.bins.smarked, above);
        ghost var next :| next in m.bins.smarked && next > idx;
        assert next in above && forall j :: j in m.bins.smarked && j >= idx ==> j >= idx + 2 && j in above;
        var i := Bitmaps.First(leftbits, above);
        ChooseNext(m, nb, i);
        p := TakeNext(m, nb, i);
      } else {
        Bitmaps.NonZero(m.treemap, m.bins.tmarked);
        if m.treemap != 0 {
          ChooseTree(m, nb);
          p := TmallocSmall(m, nb);
        } else {
          NoSmallFit(m, nb);
          NoTreeFit(m, nb);
          NoFitEither(m.lay.size, m.bins, nb);
        }
      }
    } else {
      ChooseVictim(m, nb);
    }
  }

  /** Without a remainderless fit the designated victim is the choice, where it is large enough. */
  lemma ChooseVictim(m: State, nb: int)
    requires Inv(m) && nb % 8 == 0 && 16 <= nb < 256 && nb <= m.dvsize
    requires nb / 8 !in m.bins.smarked && nb / 8 + 1 !in m.bins.smarked
    ensures Choice(m, nb, m.dv)
  {
    MarkedSizes(m, nb / 8);
    MarkedSizes(m, nb / 8 + 1);
    hide Inv, SmallChunks, SomeOfSize;
  }

  /** Small bins hold nothing for a large request. */
  lemma SmallTooSmall(m: State, nb: int)
    requires Inv(m) && nb >= 256
    ensures NoFit(m.lay.size, SmallChunks(m.bins.small), nb)
  {
    BinMaps(m);
    forall j | j in m.bins.smarked ensures 8 * j < nb {
    }
    hide Inv;
    NoSmallFit(m, nb);
  }

  lemma FreeOf(m: State)
    requires Inv(m)
    ensures Free(m.lay) <= Chunks(m.bins) + DvSet(m.dv, m.dvsize) && Free(m.lay) <= m.lay.size.Keys
    ensures m.dvsize != 0 ==> m.dv in Free(m.lay) && m.dv in m.lay.size && m.lay.size[m.dv] == m.dvsize
    ensures m.top != 0 ==> TreeChunks(m.bins.trees) <= Free(m.lay) && SmallChunks(m.bins.small) <= Free(m.lay)
    ensures m.dvsize != 0 ==> m.dv !in Chunks(m.bins)
  {
    hide Shape, Tags, BinsOK, SmallChunks, TreeChunks;
    if m.top != 0 {
      DvBounds(m);
    }
  }

  lemma NothingFits(m: State, nb: int)
    requires Inv(m) && m.dvsize < nb && NoFit(m.lay.size, Chunks(m.bins), nb)
    ensures NoFit(m.lay.size, Free(m.lay), nb)
  {
    FreeOf(m);
    hide Inv, Chunks;
  }

  /** A best fit of the tree bins that is better than the designated victim is the choice. */
  lemma ChooseLarge(m: State, nb: int)
    requires Inv(m) && m.top != 0 && nb >= 256
    ensures forall p {:trigger BestFit(m.lay.size, TreeChunks(m.bins.trees), nb, p)} ::
              BestFit(m.lay.size, TreeChunks(m.bins.trees), nb, p) && (m.dvsize < nb || m.lay.size[p] < m.dvsize) ==>
                Choice(m, nb, p) && VictimAfter(m.lay.size, m.dv, m.dvsize, nb, p, m.dv, m.dvsize)
  {
    FreeOf(m);
    SmallTooSmall(m, nb);
    hide Inv, SmallChunks, TreeChunks;
  }

  lemma ChooseDv(m: State, nb: int)
    requires Inv(m) && 256 <= nb <= m.dvsize
    requires NoFit(m.lay.size, TreeChunks(m.bins.trees), nb)
             || exists x :: BestFit(m.lay.size, TreeChunks(m.bins.trees), nb, x) && m.dvsize <= m.lay.size[x]
    ensures Choice(m, nb, m.dv)
  {
    FreeOf(m);
    SmallTooSmall(m, nb);
    hide Inv, SmallChunks, TreeChunks;
  }

  /** tmalloc_large where there are tree bins at all, then dv. */
  method LargeRequest(m: State, nb: int) returns (p: int)
    requires Inv(m) && 256 <= nb <= WORD - 56 && nb % 8 == 0
    modifies m`w, m`smallmap, m`treemap, m`bins, m`lay
    ensures p == 0 ==> Inv(m) && m.w == old(m.w) && m.lay == old(m.lay) && m.bins == old(m.bins)
    ensures p == 0 && m.dvsize < nb ==> NoFit(m.lay.size, Free(m.lay), nb)
    ensures p == 0 && nb <= m.dvsize ==> old(Choice(m, nb, m.dv))
    ensures p != 0 ==> Ready(m, {}) && old(m.top) != 0 && Carved(old(m.w), m.w, m.gm, old(m.lay), m.lay, p, nb)
    ensures p != 0 ==> old(Choice(m, nb, p)) && VictimAfter(old(m.lay.size), m.dv, m.dvsize, nb, p, m.dv, m.dvsize)
  {
    hide Heap, Kept, Confined, Chunks, TreeChunks, NoFit, BestFit, Bitmaps.Means, Carved, Choice, VictimAfter;
    BinMaps(m);
    p := 0;
    Bitmaps.NonZero(m.treemap, m.bins.tmarked);
    SmallTooSmall(m, nb);
    FreeOf(m);
    if m.treemap != 0 {
      ChooseLarge(m, nb);
      p := TmallocLarge(m, nb);
    } else {
      NoTreeFit(m, nb);
    }
    if p == 0 {
      if nb <= m.dvsize {
        ChooseDv(m, nb);
      } else {
        NoFitEither(m.lay.size, m.bins, nb);
        NothingFits(m, nb);
      }
    }
  }

  /** A request is served from free memory: the small or large search, then dv. */
  method FromFree(m: State, bytes: int, nb: int) returns (p: int)
    requires Inv(m) && 0 <= bytes < MAX_REQUEST && nb == RequestSize(bytes)
    modifies m`w, m`smallmap, m`treemap, m`bins, m`lay, m`dv, m`dvsize
    ensures p == 0 ==> Inv(m) && m.w == old(m.w) && m.lay == old(m.lay) && NoFit(m.lay.size, Free(m.lay), nb)
    ensures p != 0 ==> Ready(m, {}) && old(m.top) != 0 && Carved(old(m.w), m.w, m.gm, old(m.lay), m.lay, p, nb)
    ensures p != 0 ==> old(Choice(m, nb, p)) && VictimAfter(old(m.lay.size), old(m.dv), old(m.dvsize), nb, p, m.dv, m.dvsize)
    ensures p == 0 ==> m.dv == old(m.dv) && m.dvsize == old(m.dvsize)
  {
    hide Heap, Kept, Confined, Chunks, NoFit, BestFit, Carved, Free, RequestSize, Choice, Bitmaps.Means;
    RequestSizeLeast(bytes);
    BinMaps(m);
    if bytes <= MAX_SMALL_REQUEST {
      p := SmallRequest(m, nb);
    } else {
      p := LargeRequest(m, nb);
    }
    if p == 0 {
      if nb <= m.dvsize {
        FreeOf(m);
        if m.dvsize - nb >= MIN_CHUNK_SIZE {
          p := SplitDv(m, nb);
        } else {
          p := ExhaustDv(m, nb);
        }
        PositiveAddress(m);
      } else if bytes <= MAX_SMALL_REQUEST {
        NothingFits(m, nb);
      }
    }
  }

  lemma PositiveAddress(m: State)
    requires Ready(m, {})
    ensures forall p :: p in m.lay.size ==> p > 0
  {
    hide Heap;
    SizesEven(m, {});
  }

  /** p is a new chunk in use, large enough for nb and with less than a chunk to spare. */
  ghost predicate Served(l: Layout, l': Layout, p: int, nb: int) {
    && p !in l.live && p in l'.size && l'.live == l.live + {p}
    && nb <= l'.size[p] < nb + MIN_CHUNK_SIZE
  }

  /** Something in the heap, top included, has room for nb. */
  ghost predicate Fits(m: State, nb: int)
    reads m
  {
    !NoFit(m.lay.size, Free(m.lay), nb) || nb < m.topsize
  }

  /** A request for a chunk of nb bytes will succeed: something fits, or the kernel has enough pages left. */
  ghost predicate CanServe(m: State, nb: int)
    reads m
  {
    Fits(m, nb) || KernelHas(m, nb)
  }

  /** Where a request that succeeds is served: from the chunk of choice, or if nothing fits from top, or what will be. */
  ghost predicate ServedAt(m: State, nb: int, p: int)
    reads m
  {
    if NoFit(m.lay.size, Free(m.lay), nb) then p == NextTop(m) else p in Free(m.lay) && Choice(m, nb, p)
  }

  /** The size of the chunk in use then: all of p, unless what would be left of it is a chunk too. */
  ghost function SizeServed(m: State, nb: int, p: int): int
    reads m`lay
  {
    if p in m.lay.size && m.lay.size[p] - nb < MIN_CHUNK_SIZE then m.lay.size[p] else nb
  }

  /** Nothing larger than all the memory there is can be had. */
  lemma TooBig(m: State, nb: int)
    requires Inv(m) && nb > KERNEL_DATA_SPACE
    ensures !CanServe(m, nb)
  {
    hide Heap;
    TopBound(m);
    Bounds(m);
    PagesBelow(KERNEL_DATA_SPACE - m.sbrkSize);
    if m.top != 0 {
      forall p | p in m.lay.size ensures m.lay.size[p] < nb {
        WithinSegment(m, p);
      }
    }
  }

  lemma WithinSegment(m: State, p: int)
    requires Ready(m, {}) && p in m.lay.size
    ensures m.lay.size[p] < m.sbrkSize <= KERNEL_DATA_SPACE
  {
    ChunkFits(m.lay, p);
    AlignFacts(m.memBase);
    hide Heap;
  }

  /** A new chunk of exactly nb bytes at p. */
  lemma TopServed(l: Layout, l': Layout, p: int, nb: int)
    requires p !in l.size && l.live <= l.size.Keys && l'.size == l.size[p := nb] && l'.live == l.live + {p}
    ensures Served(l, l', p, nb) && l'.size[p] == nb
  {
  }

  lemma CarvedServed(m: State, v: Mem, l: Layout, p: int, nb: int)
    requires Ready(m, {}) && Carved(v, m.w, m.gm, l, m.lay, p, nb)
    ensures p in l.size && p in m.lay.size && m.lay.size[p] == if l.size[p] - nb < MIN_CHUNK_SIZE then l.size[p] else nb
    ensures p > 0 && Served(l, m.lay, p, nb) && Kept(v, m.w, l, m.lay, l.live) && p in Free(l) && !NoFit(l.size, Free(l), nb)
    ensures Confined(v, m.w, m.gm, m.memBase, m.memBase + m.sbrkSize)
  {
    hide Heap, Kept, Confined;
    PositiveAddress(m);
    AlignFacts(m.memBase);
    ConfinedMore(v, m.w, m.gm, m.lay.base, m.lay.end + TOP_FOOT_SIZE, m.memBase, m.memBase + m.sbrkSize);
  }

  /** RequestSize and the kinds of request it stands for. */
  lemma AskedFor(m: State, bytes: int)
    requires Inv(m) && 0 <= bytes < WORD
    ensures var nb := RequestSize(bytes);
            && Askable(nb) && nb >= 16
            && (if bytes < MAX_REQUEST then nb % 8 == 0 else nb == WORD - 1 && !Fits(m, nb))
  {
    hide Heap;
    BinMaps(m);
    if bytes < MAX_REQUEST {
      RequestSizeLeast(bytes);
    } else if m.top != 0 {
      TopFacts(m, {});
    }
  }

  lemma LiveOf(m: State)
    requires Inv(m)
    ensures m.lay.live <= m.lay.size.Keys && m.lay.top !in m.lay.size
    ensures m.top != 0 ==> m.lay.top == m.top > 0 && m.memBase <= m.lay.base && m.lay.end + TOP_FOOT_SIZE == m.memBase + m.sbrkSize
    ensures m.top == 0 ==> m.dvsize == 0 && m.topsize == 0
  {
    if m.top != 0 {
      PlacedFacts(m.gm, m.w, m.smallmap, m.treemap, m.lay, m.bins, m.dv, m.dvsize, {});
      AlignFacts(m.memBase);
    }
    hide Heap;
  }

  /** The last two ways to serve a request: top, and memory from the system. */
  method TopOrSystem(m: State, nb: int) returns (mem: int)
    requires Inv(m) && Askable(nb) && (nb < m.topsize ==> nb % 8 == 0)
    modifies m`w, m`topsize, m`top, m`trimCheck, m`footprint, m`maxFootprint, m`noncontiguous, m`segBase, m`segSize, m`sbrkSize, m`lay
    ensures !old(Overruns(m, nb)) ==>
              && Inv(m) && Kept(old(m.w), m.w, old(m.lay), m.lay, old(m.lay.live))
              && Confined(old(m.w), m.w, m.gm, m.memBase, m.memBase + m.sbrkSize)
              && (mem != 0 <==> nb < old(m.topsize) || old(KernelHas(m, nb)))
              && if mem == 0 then m.lay.live == old(m.lay.live)
                 else m.top != 0 && Served(old(m.lay), m.lay, mem - 8, nb) && mem - 8 == old(NextTop(m)) && mem - 8 !in old(m.lay.size)
                      && mem - 8 in m.lay.size && m.lay.size[mem - 8] == nb
    ensures old(Overruns(m, nb)) ==>
              if old(GrantedSize(m, nb)) < Overhead(m.memBase)
              then mem != 0 && mem - 8 + nb > m.segBase + m.segSize
              else mem == 0 && m.w[m.top + HEAD] != m.topsize + PINUSE
    ensures nb < old(m.topsize) ==> m.sbrkSize == old(m.sbrkSize) && m.noncontiguous == old(m.noncontiguous)
    ensures nb >= old(m.topsize) ==>
              && m.sbrkSize == old(m.sbrkSize) + old(if Granted(m, nb) then GrantedSize(m, nb) else 0)
              && (m.noncontiguous <==> !old(FirstGranted(m, nb)))
  {
    hide Heap, Kept, Confined, Granted, FirstGranted, GrantedSize, KernelHas, Overhead, Served;
    ghost var v, l, over := m.w, m.lay, Overruns(m, nb);
    LiveOf(m);
    if nb < m.topsize {
      var p := UseTop(m, nb, {});
      mem := p + 8;
      TopServed(l, m.lay, p, nb);
      LiveOf(m);
      ConfinedMore(v, m.w, m.gm, m.lay.base, m.lay.end + TOP_FOOT_SIZE, m.memBase, m.memBase + m.sbrkSize);
    } else {
      mem := SysAlloc.SysAlloc(m, nb);
      if mem != 0 && !over {
        TopServed(l, m.lay, mem - 8, nb);
      }
    }
  }

  /** dlmalloc(bytes).  Except where the very first segment overruns, the heap stays in order, no live
      chunk's bytes change, and the request succeeds exactly if something fits or the kernel gives
      pages.  Which free chunk is used, and what becomes of the designated victim, follows from the free chunks'
      sizes; the kernel is asked for memory only if nothing fits. */
  method Dlmalloc(m: State, bytes: int) returns (mem: int)
    requires Inv(m) && 0 <= bytes < WORD
    modifies m`w, m`smallmap, m`treemap, m`dvsize, m`topsize, m`dv, m`top, m`trimCheck, m`footprint, m`maxFootprint,
             m`noncontiguous, m`segBase, m`segSize, m`sbrkSize, m`lay, m`bins
    ensures !old(Overruns(m, RequestSize(bytes))) ==>
              && Inv(m) && Kept(old(m.w), m.w, old(m.lay), m.lay, old(m.lay.live))
              && Confined(old(m.w), m.w, m.gm, m.memBase, m.memBase + m.sbrkSize)
    ensures !old(Overruns(m, RequestSize(bytes))) ==>
              (mem != 0 <==> old(CanServe(m, RequestSize(bytes))))
    ensures !old(Overruns(m, RequestSize(bytes))) ==>
              if mem == 0 then m.lay.live == old(m.lay.live)
              else m.top != 0 && Served(old(m.lay), m.lay, mem - 8, RequestSize(bytes))
    ensures !old(Overruns(m, RequestSize(bytes))) && mem != 0 ==>
              && old(ServedAt(m, RequestSize(bytes), mem - 8))
              && mem - 8 in m.lay.size && m.lay.size[mem - 8] == old(SizeServed(m, RequestSize(bytes), mem - 8))
    ensures !old(Overruns(m, RequestSize(bytes))) ==>
              var p, nb := mem - 8, RequestSize(bytes);
              if old(NoFit(m.lay.size, Free(m.lay), nb))
              then m.dv == old(m.dv) && m.dvsize == old(m.dvsize)
              else VictimAfter(old(m.lay.size), old(m.dv), old(m.dvsize), nb, p, m.dv, m.dvsize)
    ensures var nb := RequestSize(bytes);
            if old(Fits(m, nb)) then m.sbrkSize == old(m.sbrkSize) && m.noncontiguous == old(m.noncontiguous)
            else m.sbrkSize == old(m.sbrkSize) + old(if Granted(m, nb) then GrantedSize(m, nb) else 0)
                 && (m.noncontiguous <==> !old(FirstGranted(m, nb)))
    ensures old(Overruns(m, RequestSize(bytes))) ==>
              if old(GrantedSize(m, RequestSize(bytes))) < Overhead(m.memBase)
              then mem != 0 && mem - 8 + RequestSize(bytes) > m.segBase + m.segSize
              else mem == 0 && m.w[m.top + HEAD] != m.topsize + PINUSE
  {
    hide Heap, Kept, Confined, NoFit, BestFit, Carved, Free, RequestSize, Granted, Overruns, GrantedSize, Overhead, Askable, Served, NextTop;
    hide Choice, VictimAfter, FirstGranted, KernelHas;
    ghost var v, l := m.w, m.lay;
    AskedFor(m, bytes);
    LiveOf(m);
    var nb, p := WORD - 1, 0;
    if bytes < MAX_REQUEST {
      nb := RequestSize(bytes);
      p := FromFree(m, bytes, nb);
    }
    if p != 0 {
      CarvedServed(m, v, l, p, nb);
      NoOverrun(m, nb);
      mem := p + 8;
    } else {
      mem := TopOrSystem(m, nb);
    }
  }

  lemma NoOverrun(m: State, nb: int)
    requires m.top != 0
    ensures !Overruns(m, nb)
  {
  }
}
