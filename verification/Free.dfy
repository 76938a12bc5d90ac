/** dlfree. */
module FreeChunk {
  import opened Words
  import opened Memory
  import Bitmaps
  import opened MallocState
  import opened Layouts
  import opened LayoutOps
  import opened BinSets
  import opened HeapInv
  import opened ChunkOps
  import opened SysAlloc
  import opened Malloc

  // ---- the run of chunks that becomes one ----

  /** a starts the run that freeing p0 forms backward: p0 itself, or the free chunk before it. */
  ghost predicate Backward(l: Layout, p0: int, a: int) {
    p0 in l.size && if a == p0 then Pin(l, p0) else a in l.size && a !in l.live && a + l.size[a] == p0
  }

  /** e ends the run forward: next, or the end of the free chunk that starts there. */
  ghost predicate Forward(l: Layout, next: int, e: int) {
    if e == next then next == l.top || next in l.live else next in l.size && next !in l.live && e == next + l.size[next]
  }

  /** The chunks from a up to e. */
  ghost function Inside(l: Layout, a: int, e: int): set<int> {
    set x | x in l.size && a <= x < e
  }

  lemma RunIs(l: Layout, p0: int, a: int, e: int)
    requires Shape(l) && p0 in l.live && Backward(l, p0, a) && Forward(l, p0 + l.size[p0], e)
    ensures FreeRun(l, p0, a, e) && (e != l.top ==> e in l.live)
    ensures Inside(l, a, e) == {a, p0} + (if e == p0 + l.size[p0] then {} else {p0 + l.size[p0]})
  {
    var next := p0 + l.size[p0];
    hide Coalesced, NextLive;
    ChunkFits(l, p0);
    LiveAre(l);
    if e != next {
      ChunkFits(l, next);
      AfterFree(l, next);
    }
    if a != p0 {
      PinAt(l, a);
      ChunkFits(l, a);
    }
    forall x | x in l.size && a <= x < e ensures x == a || x == p0 || (x == next && e != next) {
      ChunkFits(l, x);
      if x < p0 {
        Apart2(l, x, p0);
        if a < x {
          Apart2(l, a, x);
        }
      } else if p0 < x {
        Apart2(l, p0, x);
        if e != next && next < x {
          Apart2(l, next, x);
        }
      }
    }
  }

  lemma AfterFree(l: Layout, x: int)
    requires Shape(l) && x in l.size && x !in l.live
    ensures x + l.size[x] in l.live && x + l.size[x] in l.size
  {
    assert NextLive(l, x);
    LiveAre(l);
  }

  /** A free chunk's left neighbour is in use. */
  lemma PinAt(l: Layout, a: int)
    requires Shape(l) && a in l.size && a !in l.live
    ensures Pin(l, a)
  {
    if a != l.base {
      assert PrevOK(l, a);
      if l.prev[a] !in l.live {
        AfterFree(l, l.prev[a]);
      }
    }
  }

  // ---- the two ways the run is written back ----

  /** The run becomes one free chunk, in limbo. */
  lemma Merged(gm: int, v: Mem, w: Mem, smap: Bitmaps.Binmap, tmap: Bitmaps.Binmap, l: Layout, b: Bins, full: set<int>,
               p0: int, a: int, e: int)
    requires Heap(gm, v, smap, tmap, l, b, 0, 0, full) && p0 in l.live && Backward(l, p0, a) && Forward(l, p0 + l.size[p0], e)
    requires e != l.top && Inside(l, a, e) - {p0} <= full && FreeWrites(v, w, a, e)
    ensures var l' := Merge(l, a, e);
            && Heap(gm, w, smap, tmap, l', b, 0, 0, full - Inside(l, a, e) + {a})
            && Kept(v, w, l, l', l.live - {p0}) && Confined(v, w, gm, l.base, l.end + TOP_FOOT_SIZE)
            && l'.live == l.live - {p0} && a in l'.size && l'.size[a] == e - a && a !in l'.live
            && l'.base == l.base && l'.top == l.top && l'.end == l.end
  {
    hide BinsOK, Chunks, Shape, Tags, Kept, Confined, Untouched, Accounted, FreeWrites, FreeRun, Backward, Forward, Inside;
    var l', keep := Merge(l, a, e), l.size.Keys - Inside(l, a, e);
    RunIs(l, p0, a, e);
    RunEnds(l, p0, a, e);
    FreeMerge(v, w, l, p0, a, e);
    AccountMerged(l, b, full, p0, a, e);
    MergeInside(v, w, gm, l, a, e);
    OutsideRun(v, w, l, p0, a, e);
    Relaid(gm, v, w, smap, tmap, l, l', b, 0, 0, full, 0, 0, full - Inside(l, a, e) + {a}, keep);
    RetaggedKept(gm, v, w, l, l', keep, l.live - {p0});
  }

  lemma RunEnds(l: Layout, p0: int, a: int, e: int)
    requires Shape(l) && FreeRun(l, p0, a, e)
    ensures a in l.size && a < e && l.live <= l.size.Keys && p0 in l.size && a <= p0 < e
  {
    LiveAre(l);
  }

  lemma OutsideRun(v: Mem, w: Mem, l: Layout, p0: int, a: int, e: int)
    requires FreeRun(l, p0, a, e) && l.live <= l.size.Keys
    requires forall q :: q in l.size && (q < a || e <= q) ==> Untouched(v, w, q, l.size[q])
    ensures forall x :: x in l.size.Keys - Inside(l, a, e) ==>
              x in l.size && x in Merge(l, a, e).size && Merge(l, a, e).size[x] == l.size[x] && Untouched(v, w, x, l.size[x])
    ensures l.live - {p0} <= l.size.Keys - Inside(l, a, e)
  {
    hide Untouched;
  }

  lemma AccountMerged(l: Layout, b: Bins, full: set<int>, p0: int, a: int, e: int)
    requires Accounted(l, b, 0, 0, full) && FreeRun(l, p0, a, e) && Inside(l, a, e) - {p0} <= full && l.live <= l.size.Keys
    requires Merge(l, a, e).live == l.live - {p0}
    ensures Accounted(Merge(l, a, e), b, 0, 0, full - Inside(l, a, e) + {a})
    ensures Chunks(b) <= l.size.Keys - Inside(l, a, e)
  {
    hide Chunks;
    var l' := Merge(l, a, e);
    assert Free(l') == Free(l) - Inside(l, a, e) + {a};
    assert Chunks(b) <= Free(l);
  }

  lemma MergeInside(v: Mem, w: Mem, gm: int, l: Layout, a: int, e: int)
    requires Placed(gm, l) && Shape(l) && a in l.size && e in l.size && a < e && FreeWrites(v, w, a, e)
    ensures StateSame(v, w, gm) && Confined(v, w, gm, l.base, l.end + TOP_FOOT_SIZE)
  {
    ChunkFits(l, a);
    ChunkFits(l, e);
  }

  /** The run at the end becomes part of top. */
  lemma MergedTop(gm: int, v: Mem, w: Mem, smap: Bitmaps.Binmap, tmap: Bitmaps.Binmap, l: Layout, b: Bins, full: set<int>,
                  p0: int, a: int)
    requires Heap(gm, v, smap, tmap, l, b, 0, 0, full) && p0 in l.live && Backward(l, p0, a) && p0 + l.size[p0] == l.top
    requires Inside(l, a, l.top) - {p0} <= full && ToTopWrites(v, w, a, l.end - a)
    ensures var l' := GiveTop(l, a);
            && Heap(gm, w, smap, tmap, l', b, 0, 0, full - Inside(l, a, l.top))
            && Kept(v, w, l, l', l.live - {p0}) && Confined(v, w, gm, l.base, l.end + TOP_FOOT_SIZE)
            && l'.live == l.live - {p0}
  {
    hide BinsOK, Chunks, Shape, Tags, Kept, Confined, Untouched, Accounted, FreeRun, Backward, Inside;
    var l', keep := GiveTop(l, a), l.size.Keys - Inside(l, a, l.top);
    RunIs(l, p0, a, l.top);
    RunEnds(l, p0, a, l.top);
    FreeToTop(v, w, l, p0, a);
    TopEnd(l);
    AccountTop(l, b, full, p0, a);
    GiveInside(v, w, gm, l, a);
    BelowRun(v, w, l, p0, a);
    Relaid(gm, v, w, smap, tmap, l, l', b, 0, 0, full, 0, 0, full - Inside(l, a, l.top), keep);
    RetaggedKept(gm, v, w, l, l', keep, l.live - {p0});
  }

  lemma TopEnd(l: Layout)
    requires Shape(l)
    ensures forall x :: x in l.size ==> x < l.top
  {
    forall x | x in l.size ensures x < l.top {
      ChunkFits(l, x);
    }
  }

  lemma BelowRun(v: Mem, w: Mem, l: Layout, p0: int, a: int)
    requires FreeRun(l, p0, a, l.top) && l.live <= l.size.Keys && forall x :: x in l.size ==> x < l.top
    requires forall q :: q in l.size && q < a ==> Untouched(v, w, q, l.size[q])
    ensures forall x :: x in l.size.Keys - Inside(l, a, l.top) ==>
              x in l.size && x in GiveTop(l, a).size && GiveTop(l, a).size[x] == l.size[x] && Untouched(v, w, x, l.size[x])
    ensures l.live - {p0} <= l.size.Keys - Inside(l, a, l.top)
  {
    hide Untouched;
  }

  lemma AccountTop(l: Layout, b: Bins, full: set<int>, p0: int, a: int)
    requires Accounted(l, b, 0, 0, full) && FreeRun(l, p0, a, l.top) && Inside(l, a, l.top) - {p0} <= full && l.live <= l.size.Keys
    requires GiveTop(l, a).live == l.live - {p0} && forall x :: x in l.size ==> x < l.top
    ensures Accounted(GiveTop(l, a), b, 0, 0, full - Inside(l, a, l.top))
    ensures Chunks(b) <= l.size.Keys - Inside(l, a, l.top)
  {
    hide Chunks;
    assert Free(GiveTop(l, a)) == Free(l) - Inside(l, a, l.top);
    assert Chunks(b) <= Free(l);
  }

  lemma GiveInside(v: Mem, w: Mem, gm: int, l: Layout, a: int)
    requires Placed(gm, l) && Shape(l) && a in l.size && ToTopWrites(v, w, a, l.end - a)
    ensures StateSame(v, w, gm) && Confined(v, w, gm, l.base, l.end + TOP_FOOT_SIZE) && Placed(gm, GiveTop(l, a))
  {
    ChunkFits(l, a);
  }

  // ---- the steps of dlfree ----

  /** set_free_with_pinuse(p, s, n), on the run from p up to n. */
  method SetFreeWithPinuse(m: State, p: int, s: int, n: int, ghost p0: int, ghost full: set<int>)
    requires Heap(m.gm, m.w, m.smallmap, m.treemap, m.lay, m.bins, 0, 0, full) && p0 in m.lay.live && p0 in m.lay.size
    requires Backward(m.lay, p0, p) && n == p0 + m.lay.size[p0] && n in m.lay.live && s == n - p
    requires Inside(m.lay, p, n) - {p0} <= full
    modifies m`w, m`lay
    ensures Heap(m.gm, m.w, m.smallmap, m.treemap, m.lay, m.bins, 0, 0, full - old(Inside(m.lay, p, n)) + {p})
    ensures m.lay.base == old(m.lay.base) && m.lay.top == old(m.lay.top) && m.lay.end == old(m.lay.end)
    ensures m.lay == old(Merge(m.lay, p, n)) && m.lay.live == old(m.lay.live) - {p0} && p in m.lay.size && m.lay.size[p] == s && p !in m.lay.live
    ensures Kept(old(m.w), m.w, old(m.lay), m.lay, m.lay.live)
    ensures Confined(old(m.w), m.w, m.gm, m.lay.base, m.lay.end + TOP_FOOT_SIZE)
  {
    hide Heap, Kept, Confined, Inside, Merge, ClearPinuse;
    ghost var v, l := m.w, m.lay;
    RunBounds(m.gm, v, m.smallmap, m.treemap, l, m.bins, full, p0, p, n);
    m.w := m.w[n + HEAD := ClearPinuse(m.w[n + HEAD])];
    m.w := m.w[p + HEAD := s + PINUSE];
    m.w := m.w[p + s := s];
    m.lay := Merge(l, p, n);
    Merged(m.gm, v, m.w, m.smallmap, m.treemap, l, m.bins, full, p0, p, n);
  }

  lemma RunBounds(gm: int, w: Mem, smap: Bitmaps.Binmap, tmap: Bitmaps.Binmap, l: Layout, b: Bins, full: set<int>, p0: int, a: int, e: int)
    requires Heap(gm, w, smap, tmap, l, b, 0, 0, full) && p0 in l.live && Backward(l, p0, a) && Forward(l, p0 + l.size[p0], e)
    ensures a <= p0 && p0 + 16 <= e && e <= l.top && (e in l.live ==> e != l.top && e in l.size)
    ensures Inside(l, a, e) == {a, p0} + (if e == p0 + l.size[p0] then {} else {p0 + l.size[p0]})
  {
    RunIs(l, p0, a, e);
    ChunkFits(l, p0);
    LiveAre(l);
    TopNotChunk(l);
    if a != p0 {
      ChunkFits(l, a);
    }
    if e != p0 + l.size[p0] {
      ChunkFits(l, p0 + l.size[p0]);
    }
    hide BinsOK, Tags;
  }

  /** set_size_and_pinuse_of_free_chunk(p, s), where the run ends with the free chunk `next`. */
  method SetFree(m: State, p: int, s: int, ghost p0: int, ghost next: int, ghost full: set<int>)
    requires Heap(m.gm, m.w, m.smallmap, m.treemap, m.lay, m.bins, 0, 0, full) && p0 in m.lay.live && p0 in m.lay.size
    requires Backward(m.lay, p0, p) && next == p0 + m.lay.size[p0] && next in m.lay.size && next !in m.lay.live
    requires s == next + m.lay.size[next] - p && Inside(m.lay, p, p + s) - {p0} <= full
    modifies m`w, m`lay
    ensures Heap(m.gm, m.w, m.smallmap, m.treemap, m.lay, m.bins, 0, 0, full - old(Inside(m.lay, p, p + s)) + {p})
    ensures m.lay.base == old(m.lay.base) && m.lay.top == old(m.lay.top) && m.lay.end == old(m.lay.end)
    ensures m.lay == old(Merge(m.lay, p, p + s)) && m.lay.live == old(m.lay.live) - {p0} && p in m.lay.size && m.lay.size[p] == s && p !in m.lay.live
    ensures Kept(old(m.w), m.w, old(m.lay), m.lay, m.lay.live)
    ensures Confined(old(m.w), m.w, m.gm, m.lay.base, m.lay.end + TOP_FOOT_SIZE)
  {
    hide Heap, Kept, Confined, Inside, Merge, ClearPinuse;
    ghost var v, l, e := m.w, m.lay, p + s;
    NextFacts(m.gm, v, m.smallmap, m.treemap, l, m.bins, full, next);
    RunBounds(m.gm, v, m.smallmap, m.treemap, l, m.bins, full, p0, p, e);
    m.w := m.w[p + HEAD := s + PINUSE];
    m.w := m.w[p + s := s];
    m.lay := Merge(l, p, e);
    Merged(m.gm, v, m.w, m.smallmap, m.treemap, l, m.bins, full, p0, p, e);
  }

  /** Behind a free chunk is one in use, and its pinuse bit is clear. */
  lemma NextFacts(gm: int, w: Mem, smap: Bitmaps.Binmap, tmap: Bitmaps.Binmap, l: Layout, b: Bins, full: set<int>, next: int)
    requires Heap(gm, w, smap, tmap, l, b, 0, 0, full) && next in l.size && next !in l.live
    ensures l.size[next] >= 16 && next + l.size[next] in l.live
    ensures var e := next + l.size[next]; ClearPinuse(w[e + HEAD]) == w[e + HEAD]
  {
    var e := next + l.size[next];
    AfterFree(l, next);
    ChunkFits(l, next);
    TagFacts(w, l, e);
    PrevUnique(l, e, next);
    hide BinsOK, Tags, TagOK, Accounted;
  }

  /** What dlfree(p0) leaves: p0 is no longer in use, its bytes are part of free memory. */
  ghost predicate Freed(v: Mem, w: Mem, gm: int, l: Layout, l': Layout, p0: int) {
    && l'.live == l.live - {p0} && Kept(v, w, l, l', l'.live) && Confined(v, w, gm, l.base, l.end + TOP_FOOT_SIZE)
    && l'.base == l.base && l'.end == l.end && p0 in l.size && Available(l', p0, p0 + l.size[p0])
  }

  /** lo..hi lies in one free chunk, or in top. */
  ghost predicate Available(l: Layout, lo: int, hi: int) {
    (l.top <= lo && hi <= l.end) || exists a :: Spans(l, a, lo, hi)
  }

  ghost predicate Spans(l: Layout, a: int, lo: int, hi: int) {
    a in Free(l) && a in l.size && a <= lo && hi <= a + l.size[a]
  }

  /** The designated victim is the chunk that has the bytes of the one before; there is none once they are top's. */
  ghost predicate VictimStays(l: Layout, dv: int, dvsize: int, dv': int, dvsize': int) {
    if dvsize == 0 || l.top <= dv then dvsize' == 0 else dvsize' != 0 && Spans(l, dv', dv, dv + dvsize)
  }

  lemma VictimIs(m: State, dv: int, dvsize: int)
    requires Ready(m, {}) && 0 <= dvsize
    requires if dvsize == 0 || (m.dvsize == 0 && m.lay.top <= dv) then m.dvsize == 0
             else m.dvsize != 0 && m.dv <= dv && dv + dvsize <= m.dv + m.dvsize
    ensures VictimStays(m.lay, dv, dvsize, m.dv, m.dvsize)
  {
    DvBounds(m);
    if m.dvsize != 0 {
      ChunkFits(m.lay, m.dv);
    }
    hide Heap;
  }

  /** dlfree under way: the chunks from p to e, except p0 itself, are free and in no bin. */
  ghost predicate Halfway(m: State, p0: int, p: int, e: int, limbo: set<int>)
    reads m
  {
    && Ready(m, limbo) && p0 in m.lay.live && Backward(m.lay, p0, p)
    && limbo <= Inside(m.lay, p, e) && Inside(m.lay, p, e) - {p0} <= limbo + DvSet(m.dv, m.dvsize)
  }

  /** Everything that may be held, dv included, is in limbo. */
  lemma HalfwayAll(m: State, p0: int, p: int, e: int, limbo: set<int>) returns (full: set<int>)
    requires Halfway(m, p0, p, e, limbo)
    ensures full == limbo + DvSet(m.dv, m.dvsize) && Inside(m.lay, p, e) - {p0} <= full
    ensures Heap(m.gm, m.w, m.smallmap, m.treemap, m.lay, m.bins, 0, 0, full)
    ensures m.dvsize != 0 ==> m.dv in m.lay.size && m.lay.size[m.dv] == m.dvsize && m.dv > 0 && m.dv !in m.lay.live
    ensures m.dvsize == 0 ==> m.dv == 0
    ensures p > 0 && p0 in m.lay.size && DvOK(m.lay, m.dv, m.dvsize)
  {
    full := limbo + DvSet(m.dv, m.dvsize);
    DvApart(m.lay, m.bins, m.dv, m.dvsize, limbo);
    SizesEven(m, limbo);
    LiveAre(m.lay);
    DvToLimbo(m.gm, m.w, m.smallmap, m.treemap, m.lay, m.bins, m.dv, m.dvsize, limbo);
    hide BinsOK, Tags, Shape, Chunks, Accounted, Inside;
  }

  /** If the run starts with dv, that is the free chunk before p0. */
  lemma VictimPlace(m: State, p0: int, p: int, e: int, limbo: set<int>)
    requires Halfway(m, p0, p, e, limbo)
    ensures 0 <= m.dvsize && p0 in m.lay.size && p <= p0 < p0 + m.lay.size[p0]
    ensures m.dvsize != 0 && m.dv == p ==> p + m.dvsize == p0
  {
    var full := HalfwayAll(m, p0, p, e, limbo);
    if m.dvsize != 0 {
      ChunkFits(m.lay, m.dv);
    }
    ChunkFits(m.lay, p0);
    if p != p0 {
      ChunkFits(m.lay, p);
    }
    hide Heap, Inside;
  }

  /** What the run consists of, and how dv relates to it. */
  lemma RunSets(m: State, p0: int, p: int, e: int, limbo: set<int>)
    requires Halfway(m, p0, p, e, limbo) && p0 in m.lay.size && Forward(m.lay, p0 + m.lay.size[p0], e)
    ensures p in m.lay.size && p <= p0 && p0 + m.lay.size[p0] <= e && p + 16 <= e <= m.lay.top
    ensures e in m.lay.live ==> e in m.lay.size
    ensures var dvs, inside, next := DvSet(m.dv, m.dvsize), Inside(m.lay, p, e), p0 + m.lay.size[p0];
            if m.dvsize != 0 && (m.dv == p || (m.dv == next && e != next)) then dvs <= inside else dvs !! inside
  {
    var f := HalfwayAll(m, p0, p, e, limbo);
    RunBounds(m.gm, m.w, m.smallmap, m.treemap, m.lay, m.bins, f, p0, p, e);
    ChunkFits(m.lay, p0);
    hide Heap, Inside, Tiling;
  }

  /** dv is again what it was, and p is in limbo. */
  lemma DvBack(gm: int, w: Mem, smap: Bitmaps.Binmap, tmap: Bitmaps.Binmap, l: Layout, b: Bins, full: set<int>, dv: int, dvsize: int, p: int)
    requires Heap(gm, w, smap, tmap, l, b, 0, 0, full) && full == {p} + DvSet(dv, dvsize) && p !in DvSet(dv, dvsize)
    requires DvOK(l, dv, dvsize)
    ensures Heap(gm, w, smap, tmap, l, b, dv, dvsize, {p})
  {
    hide BinsOK, Tags, Shape, Chunks;
    Reassigned(gm, w, smap, tmap, l, b, 0, 0, full, dv, dvsize, {p});
  }

  lemma MergedSize(l: Layout, a: int, e: int, x: int)
    requires x in l.size && x !in Inside(l, a, e) && a in l.size && a < e
    ensures x in Merge(l, a, e).size && Merge(l, a, e).size[x] == l.size[x]
  {
  }

  /** After the run from p to e was merged: if dv was not in it, dv is recorded as before and the run is in limbo. */
  lemma RunInLimbo(gm: int, w: Mem, smap: Bitmaps.Binmap, tmap: Bitmaps.Binmap, l: Layout, b: Bins, full: set<int>,
                   dv: int, dvsize: int, p: int, e: int, limbo: set<int>)
    requires Heap(gm, w, smap, tmap, Merge(l, p, e), b, 0, 0, full - Inside(l, p, e) + {p})
    requires full == limbo + DvSet(dv, dvsize) && limbo <= Inside(l, p, e) && DvSet(dv, dvsize) !! Inside(l, p, e)
    requires p in l.size && p < e && DvOK(l, dv, dvsize)
    ensures Heap(gm, w, smap, tmap, Merge(l, p, e), b, dv, dvsize, {p})
  {
    hide Heap, Merge;
    if dvsize != 0 {
      assert dv in DvSet(dv, dvsize);
      MergedSize(l, p, e, dv);
    }
    assert p in Inside(l, p, e);
    var full' := full - Inside(l, p, e) + {p};
    assert full' == {p} + DvSet(dv, dvsize);
    DvBack(gm, w, smap, tmap, Merge(l, p, e), b, full', dv, dvsize, p);
  }

  /** If dv was in it, the run can become dv. */
  lemma RunIsDv(gm: int, w: Mem, smap: Bitmaps.Binmap, tmap: Bitmaps.Binmap, l: Layout, b: Bins, full: set<int>,
                dvs: set<int>, p: int, e: int, limbo: set<int>)
    requires Heap(gm, w, smap, tmap, Merge(l, p, e), b, 0, 0, full - Inside(l, p, e) + {p})
    requires full == limbo + dvs && limbo <= Inside(l, p, e) && dvs <= Inside(l, p, e)
    ensures p in Merge(l, p, e).size && Heap(gm, w, smap, tmap, Merge(l, p, e), b, p, Merge(l, p, e).size[p], {})
  {
    hide Heap, Merge, Inside;
    assert full - Inside(l, p, e) + {p} == {p};
    LimboToDv(gm, w, smap, tmap, Merge(l, p, e), b, {p}, p);
    assert {p} - {p} == {};
  }

  lemma FreedIn(u: Mem, v: Mem, w: Mem, gm: int, l: Layout, l': Layout, p0: int, p: int, live: set<int>)
    requires Kept(u, v, l, l', live) && Confined(u, v, gm, l'.base, l'.end + TOP_FOOT_SIZE)
    requires Kept(v, w, l', l', live) && Confined(v, w, gm, l'.base, l'.end + TOP_FOOT_SIZE)
    requires live == l'.live == l.live - {p0} && l'.base == l.base && l'.end == l.end
    requires p0 in l.size && p in l'.size && p !in l'.live && p <= p0 && p0 + l.size[p0] <= p + l'.size[p]
    ensures Freed(u, w, gm, l, l', p0)
  {
    hide Kept, Confined;
    KeptTrans(u, v, w, l, l', l', live, live);
    ConfinedTrans(u, v, w, gm, l.base, l.end + TOP_FOOT_SIZE, l.end + TOP_FOOT_SIZE);
    assert Spans(l', p, p0, p0 + l.size[p0]);
  }

  /** set_free_with_pinuse, then insert_chunk: the next chunk is in use, and p is not dv. */
  method FreeBesideUsed(m: State, p: int, psize: int, next: int, ghost p0: int, ghost limbo: set<int>)
    requires Halfway(m, p0, p, next, limbo) && p0 in m.lay.size && next == p0 + m.lay.size[p0] && psize == next - p
    requires next in m.lay.live && (m.dvsize == 0 || p != m.dv)
    modifies m`w, m`lay, m`smallmap, m`treemap, m`bins
    ensures Ready(m, {}) && Freed(old(m.w), m.w, m.gm, old(m.lay), m.lay, p0)
    ensures VictimStays(m.lay, old(m.dv), old(m.dvsize), m.dv, m.dvsize)
  {
    hide VictimStays, Heap, Kept, Confined, Freed, Merge, Inside, DvSet, Backward, DvOK;
    ghost var dv0, dvsize0 := m.dv, m.dvsize;
    VictimPlace(m, p0, p, next, limbo);
    ghost var v, l := m.w, m.lay;
    ghost var full := HalfwayAll(m, p0, p, next, limbo);
    RunSets(m, p0, p, next, limbo);
    SetFreeWithPinuse(m, p, psize, next, p0, full);
    RunInLimbo(m.gm, m.w, m.smallmap, m.treemap, l, m.bins, full, m.dv, m.dvsize, p, next, limbo);
    ghost var v1 := m.w;
    InsertChunk(m, p, psize, {p});
    assert {p} - {p} == {};
    FreedIn(v, v1, m.w, m.gm, l, m.lay, p0, p, m.lay.live);
    VictimIs(m, dv0, dvsize0);
  }

  /** The same where p is dv: the run becomes dv. */
  method FreeIntoDv(m: State, p: int, psize: int, next: int, ghost p0: int)
    requires Halfway(m, p0, p, next, {}) && p0 in m.lay.size && next == p0 + m.lay.size[p0] && psize == next - p
    requires next in m.lay.live && m.dvsize != 0 && p == m.dv
    modifies m`w, m`lay, m`dvsize
    ensures Ready(m, {}) && Freed(old(m.w), m.w, m.gm, old(m.lay), m.lay, p0)
    ensures VictimStays(m.lay, old(m.dv), old(m.dvsize), m.dv, m.dvsize)
  {
    hide VictimStays, Heap, Kept, Confined, Freed, Merge, Inside, DvSet, Backward, DvOK;
    ghost var dv0, dvsize0 := m.dv, m.dvsize;
    VictimPlace(m, p0, p, next, {});
    ghost var v, l, dvs := m.w, m.lay, DvSet(m.dv, m.dvsize);
    ghost var full := HalfwayAll(m, p0, p, next, {});
    RunSets(m, p0, p, next, {});
    m.dvsize := psize;
    SetFreeWithPinuse(m, p, psize, next, p0, full);
    RunIsDv(m.gm, m.w, m.smallmap, m.treemap, l, m.bins, full, dvs, p, next, {});
    NothingKept(m);
    FreedIn(v, m.w, m.w, m.gm, l, m.lay, p0, p, m.lay.live);
    VictimIs(m, dv0, dvsize0);
  }

  /** A free chunk at the end of the run joins it. */
  lemma RunGrows(l: Layout, p0: int, p: int, next: int)
    requires Shape(l) && p0 in l.live && Backward(l, p0, p) && p0 in l.size && next == p0 + l.size[p0]
    requires next in l.size && next !in l.live
    ensures l.size[next] >= 16 && Forward(l, next, next + l.size[next])
    ensures Inside(l, p, next + l.size[next]) == Inside(l, p, next) + {next}
  {
    var e := next + l.size[next];
    ChunkFits(l, next);
    RunIs(l, p0, p, e);
    forall x | x in l.size && p <= x < next ensures x in {p, p0} {
      assert x in Inside(l, p, e);
    }
    ChunkFits(l, p0);
    if p != p0 {
      ChunkFits(l, p);
    }
  }

  /** The next chunk is dv: the run becomes dv. */
  method FreeBeforeDv(m: State, p: int, psize: int, next: int, ghost p0: int, ghost limbo: set<int>)
    requires Halfway(m, p0, p, next, limbo) && p0 in m.lay.size && next == p0 + m.lay.size[p0] && psize == next - p
    requires m.dvsize != 0 && next == m.dv
    modifies m`w, m`lay, m`dv, m`dvsize
    ensures Ready(m, {}) && Freed(old(m.w), m.w, m.gm, old(m.lay), m.lay, p0)
    ensures VictimStays(m.lay, old(m.dv), old(m.dvsize), m.dv, m.dvsize)
  {
    hide VictimStays, Kept, Confined, Freed, Merge, Inside, Backward, BinsOK, Tags, Shape, Accounted, Placed;
    ghost var dv0, dvsize0 := m.dv, m.dvsize;
    VictimPlace(m, p0, p, next, limbo);
    ghost var v, l, dvs := m.w, m.lay, DvSet(m.dv, m.dvsize);
    ghost var f := HalfwayAll(m, p0, p, next, limbo);
    RunGrows(l, p0, p, next);
    ghost var full := HalfwayAll(m, p0, p, next + m.dvsize, limbo);
    RunSets(m, p0, p, next + m.dvsize, limbo);
    hide Heap, DvOK;
    m.dvsize := m.dvsize + psize;
    var dsize := m.dvsize;
    m.dv := p;
    SetFree(m, p, dsize, p0, next, full);
    RunIsDv(m.gm, m.w, m.smallmap, m.treemap, l, m.bins, full, dvs, p, p + dsize, limbo);
    NothingKept(m);
    FreedIn(v, m.w, m.w, m.gm, l, m.lay, p0, p, m.lay.live);
    VictimIs(m, dv0, dvsize0);
  }

  /** The next chunk is free and binned: the longer run becomes dv, if dv starts it, or goes to a bin. */
  method FreeBeforeBinned(m: State, p: int, psize: int, next: int, ghost p0: int, ghost limbo: set<int>)
    requires Halfway(m, p0, p, next, limbo) && p0 in m.lay.size && next == p0 + m.lay.size[p0] && psize == next - p
    requires (m.dvsize == 0 || next != m.dv) && next in m.lay.size && next !in m.lay.live
    modifies m`w, m`lay, m`smallmap, m`treemap, m`bins, m`dvsize
    ensures Ready(m, {}) && Freed(old(m.w), m.w, m.gm, old(m.lay), m.lay, p0)
    ensures VictimStays(m.lay, old(m.dv), old(m.dvsize), m.dv, m.dvsize)
  {
    hide VictimStays, Kept, Confined, Freed, Merge, BinsOK, Tags, Shape, Placed, Chunks, Accounted, Backward, Inside;
    ghost var dv0, dvsize0 := m.dv, m.dvsize;
    VictimPlace(m, p0, p, next, limbo);
    ghost var v, l := m.w, m.lay;
    BinnedNext(m, limbo, p0, p, next);
    hide Heap, DvOK, DvSet;
    HalfwayGrows(m, p0, p, next, limbo);
    var nsize := ChunkSize(m.w[next + HEAD]);
    var psize' := psize + nsize;
    ghost var limbo', e := limbo + {next}, p + psize';
    assert e == next + l.size[next];
    UnlinkChunk(m, next, nsize, limbo);
    ghost var v1 := m.w;
    ghost var full := HalfwayAll(m, p0, p, e, limbo');
    RunSets(m, p0, p, e, limbo');
    SetFree(m, p, psize', p0, next, full);
    ghost var v2, live := m.w, m.lay.live;
    if p == m.dv {
      ghost var dvs := DvSet(m.dv, m.dvsize);
      m.dvsize := psize';
      RunIsDv(m.gm, m.w, m.smallmap, m.treemap, l, m.bins, full, dvs, p, e, limbo');
      NothingKept(m);
    } else {
      RunInLimbo(m.gm, m.w, m.smallmap, m.treemap, l, m.bins, full, m.dv, m.dvsize, p, e, limbo');
      InsertChunk(m, p, psize', {p});
      assert {p} - {p} == {};
    }
    FreedIn(v1, v2, m.w, m.gm, l, m.lay, p0, p, live);
    FreedAfter(v, v1, m.w, m.gm, l, m.lay, p0);
    VictimIs(m, dv0, dvsize0);
  }

  lemma HalfwayGrows(m: State, p0: int, p: int, next: int, limbo: set<int>)
    requires Halfway(m, p0, p, next, limbo) && p0 in m.lay.size && next == p0 + m.lay.size[p0]
    requires next in m.lay.size && next !in m.lay.live
    ensures var e := next + m.lay.size[next];
            && m.lay.size[next] >= 16 && Forward(m.lay, next, e) && limbo + {next} <= Inside(m.lay, p, e)
            && Inside(m.lay, p, e) - {p0} <= limbo + {next} + DvSet(m.dv, m.dvsize)
  {
    RunGrows(m.lay, p0, p, next);
    hide Heap, Inside, DvSet, Forward;
    var e := next + m.lay.size[next];
    forall x | x in Inside(m.lay, p, e) - {p0} ensures x in limbo + {next} + DvSet(m.dv, m.dvsize) {
      assert x == next || x in Inside(m.lay, p, next) - {p0};
    }
  }

  lemma BinnedNext(m: State, limbo: set<int>, p0: int, p: int, next: int)
    requires Halfway(m, p0, p, next, limbo) && next in m.lay.size && next !in m.lay.live && (m.dvsize == 0 || next != m.dv)
    ensures next in Chunks(m.bins) && ChunkSize(m.w[next + HEAD]) == m.lay.size[next]
  {
    TagFacts(m.w, m.lay, next);
    assert next !in Inside(m.lay, p, next);
    assert next in Free(m.lay);
    hide BinsOK, Tags, Shape, Chunks, Inside;
  }

  lemma FreedAfter(u: Mem, v: Mem, w: Mem, gm: int, l: Layout, l': Layout, p0: int)
    requires Kept(u, v, l, l, l.live) && Confined(u, v, gm, l.base, l.end + TOP_FOOT_SIZE) && Freed(v, w, gm, l, l', p0)
    ensures Freed(u, w, gm, l, l', p0)
  {
    hide Kept, Confined, Available;
    KeptTrans(u, v, w, l, l, l', l.live, l'.live);
    ConfinedTrans(u, v, w, gm, l.base, l.end + TOP_FOOT_SIZE, l.end + TOP_FOOT_SIZE);
  }

  /** The next chunk is top: the run joins it. */
  method FreeBeforeTop(m: State, p: int, psize: int, next: int, ghost p0: int, ghost limbo: set<int>)
    requires Halfway(m, p0, p, next, limbo) && p0 in m.lay.size && next == p0 + m.lay.size[p0] && psize == next - p && next == m.top
    modifies m`w, m`lay, m`top, m`topsize, m`dv, m`dvsize, m`trimCheck, m`sbrkSize
    ensures Ready(m, {}) && Freed(old(m.w), m.w, m.gm, old(m.lay), m.lay, p0) && m.sbrkSize == old(m.sbrkSize)
    ensures VictimStays(m.lay, old(m.dv), old(m.dvsize), m.dv, m.dvsize)
    ensures m.top != old(m.top)
    ensures m.trimCheck == if m.top != old(m.top) && m.topsize > old(m.trimCheck) then WORD - 1 else old(m.trimCheck)
  {
    hide VictimStays, Heap, Kept, Confined, Freed, Inside, DvSet, Backward, DvOK;
    ghost var dv0, dvsize0 := m.dv, m.dvsize;
    VictimPlace(m, p0, p, next, limbo);
    ghost var v, l := m.w, m.lay;
    ghost var full := HalfwayAll(m, p0, p, next, limbo);
    RunSets(m, p0, p, next, limbo);
    JoinedSize(m, limbo, p, psize);
    m.topsize := m.topsize + psize;
    var tsize := m.topsize;
    m.top := p;
    m.w := m.w[p + HEAD := SetPinuse(tsize)];
    m.lay := GiveTop(l, p);
    MergedTop(m.gm, v, m.w, m.smallmap, m.treemap, l, m.bins, full, p0, p);
    DvBeside(m.gm, m.w, m.smallmap, m.treemap, l, m.bins, full, m.dv, m.dvsize, p, limbo);
    if p == m.dv {
      m.dv := 0;
      m.dvsize := 0;
    }
    InTop(v, m.w, m.gm, l, m.lay, p0, p);
    if tsize > m.trimCheck {
      var trimmed := SysTrim(m, 0);
    }
    VictimIs(m, dv0, dvsize0);
  }

  lemma JoinedSize(m: State, limbo: set<int>, p: int, psize: int)
    requires Ready(m, limbo) && p in m.lay.size && p + psize == m.lay.top
    ensures SetPinuse(m.topsize + psize) == m.lay.end - p + PINUSE && p > 0 && m.lay.top <= m.lay.end
    ensures forall x :: x in m.lay.size ==> x < m.lay.top
  {
    hide Tags, BinsOK, Accounted, DvOK, Disjoint, ChunkOK, PrevOK, SetPinuse, Before;
    TopEnd(m.lay);
    ChunkFits(m.lay, p);
    TopFacts(m, limbo);
    JoinedHead(m.topsize, psize);
  }

  lemma JoinedHead(topsize: int, psize: int)
    requires topsize % 4 == 0 && psize % 8 == 0
    ensures SetPinuse(topsize + psize) == topsize + psize + PINUSE
  {
    Eights(psize, 0);
    Fours(topsize, psize);
    EvenHead(topsize + psize);
  }

  /** After the run joined top: dv is as before, or was part of it and is gone. */
  lemma DvBeside(gm: int, w: Mem, smap: Bitmaps.Binmap, tmap: Bitmaps.Binmap, l: Layout, b: Bins, full: set<int>,
                 dv: int, dvsize: int, p: int, limbo: set<int>)
    requires Heap(gm, w, smap, tmap, GiveTop(l, p), b, 0, 0, full - Inside(l, p, l.top)) && DvOK(l, dv, dvsize)
    requires full == limbo + DvSet(dv, dvsize) && limbo <= Inside(l, p, l.top)
    requires if dvsize != 0 && dv == p then DvSet(dv, dvsize) <= Inside(l, p, l.top) else DvSet(dv, dvsize) !! Inside(l, p, l.top)
    requires p > 0 && (dvsize != 0 ==> dv in l.size && dv < l.top)
    ensures var gone := p == dv;
            Heap(gm, w, smap, tmap, GiveTop(l, p), b, if gone then 0 else dv, if gone then 0 else dvsize, {})
  {
    hide BinsOK, Tags, Shape, Chunks, Accounted;
    var rest := full - Inside(l, p, l.top);
    if p == dv {
      assert rest == {};
    } else {
      assert rest == DvSet(dv, dvsize);
      Reassigned(gm, w, smap, tmap, GiveTop(l, p), b, 0, 0, rest, dv, dvsize, {});
    }
  }

  lemma InTop(v: Mem, w: Mem, gm: int, l: Layout, l': Layout, p0: int, p: int)
    requires Kept(v, w, l, l', l.live - {p0}) && Confined(v, w, gm, l.base, l.end + TOP_FOOT_SIZE)
    requires l' == GiveTop(l, p) && l'.live == l.live - {p0} && p0 in l.size && p <= p0 && p0 + l.size[p0] == l.top <= l.end
    ensures Freed(v, w, gm, l, l', p0)
  {
    hide Kept, Confined;
  }

  /** What dlfree reads at the chunk behind p0, which may be top. */
  lemma NextHead(m: State, limbo: set<int>, p0: int)
    requires Ready(m, limbo) && p0 in m.lay.live && p0 in m.lay.size
    ensures var next := p0 + m.lay.size[p0]; var h := m.w[next + HEAD];
            && (Cinuse(h) <==> next in m.lay.live) && Pinuse(h)
            && (next !in m.lay.live ==> if next == m.top then next !in m.lay.size else next in m.lay.size)
    ensures m.dvsize != 0 ==> m.dv != m.top
  {
    var next := p0 + m.lay.size[p0];
    hide BinsOK, Chunks, Accounted, Placed;
    ChunkFits(m.lay, p0);
    TopNotChunk(m.lay);
    PrevUnique(m.lay, next, p0);
    LiveAre(m.lay);
    if next in m.lay.size {
      TagFacts(m.w, m.lay, next);
    } else {
      hide Disjoint, ChunkOK, PrevOK, TagOK;
      assert m.w[next + HEAD] == m.topsize + PINUSE;
      TopFlags(m.topsize);
    }
  }

  lemma TopFlags(s: int)
    requires s % 4 == 0
    ensures !Cinuse(s + PINUSE) && Pinuse(s + PINUSE)
  {
  }

  /** The second half of dlfree: consolidate forward, and store the run. */
  method ConsolidateForward(m: State, p: int, psize: int, next: int, ghost p0: int, ghost limbo: set<int>)
    requires Halfway(m, p0, p, next, limbo) && p0 in m.lay.size && next == p0 + m.lay.size[p0] && psize == next - p
    requires m.dvsize != 0 && p == m.dv ==> next !in m.lay.live
    modifies m`w, m`smallmap, m`treemap, m`dvsize, m`topsize, m`dv, m`top, m`trimCheck, m`sbrkSize, m`lay, m`bins
    ensures Ready(m, {}) && Freed(old(m.w), m.w, m.gm, old(m.lay), m.lay, p0) && m.sbrkSize == old(m.sbrkSize)
    ensures VictimStays(m.lay, old(m.dv), old(m.dvsize), m.dv, m.dvsize)
    ensures m.trimCheck == if m.top != old(m.top) && m.topsize > old(m.trimCheck) then WORD - 1 else old(m.trimCheck)
  {
    hide VictimStays, Heap, Freed, Backward, Inside, DvSet;
    NextHead(m, limbo, p0);
    DvZero(m, limbo);
    if !Cinuse(m.w[next + HEAD]) {
      if next == m.top {
        FreeBeforeTop(m, p, psize, next, p0, limbo);
      } else if next == m.dv {
        FreeBeforeDv(m, p, psize, next, p0, limbo);
      } else {
        FreeBeforeBinned(m, p, psize, next, p0, limbo);
      }
    } else {
      FreeBesideUsed(m, p, psize, next, p0, limbo);
    }
  }

  lemma DvZero(m: State, limbo: set<int>)
    requires Ready(m, limbo)
    ensures m.dvsize == 0 ==> m.dv == 0
    ensures forall x :: x in m.lay.size ==> x > 0
    ensures m.dvsize != 0 ==> m.dv !in m.lay.live
  {
    SizesEven(m, limbo);
    DvApart(m.lay, m.bins, m.dv, m.dvsize, limbo);
    hide BinsOK, Tags, Shape, Chunks, Accounted, Placed;
  }

  lemma StartHalfway(m: State, p0: int)
    requires Ready(m, {}) && p0 in m.lay.live
    ensures p0 in m.lay.size && p0 > 0 && ChunkSize(m.w[p0 + HEAD]) == m.lay.size[p0] && (Pinuse(m.w[p0 + HEAD]) <==> Pin(m.lay, p0))
    ensures Pin(m.lay, p0) ==> Halfway(m, p0, p0, p0 + m.lay.size[p0], {})
    ensures !Pin(m.lay, p0) ==>
              var prev := p0 - m.w[p0];
              && prev in m.lay.size && prev !in m.lay.live && prev + m.lay.size[prev] == p0 && m.w[p0] == m.lay.size[prev]
              && prev > 0 && m.lay.size[prev] % 8 == 0
              && (m.dvsize != 0 && prev == m.dv ==> Halfway(m, p0, prev, p0 + m.lay.size[p0], {}))
              && (m.dvsize == 0 || prev != m.dv ==> prev in Chunks(m.bins))
  {
    hide Inside, BinsOK, Accounted, Disjoint, ChunkSize, Pinuse, Cinuse;
    LiveAre(m.lay);
    TagFacts(m.w, m.lay, p0);
    DvZero(m, {});
    if !Pin(m.lay, p0) {
      StartBefore(m, p0, p0 - m.w[p0]);
    } else {
      BackInside(m.lay, p0, p0);
    }
  }

  lemma StartBefore(m: State, p0: int, prev: int)
    requires Ready(m, {}) && p0 in m.lay.live && p0 in m.lay.size && prev in m.lay.size && prev !in m.lay.live
    requires prev + m.lay.size[prev] == p0
    ensures m.lay.size[prev] % 8 == 0
    ensures m.dvsize != 0 && prev == m.dv ==> Halfway(m, p0, prev, p0 + m.lay.size[p0], {})
    ensures m.dvsize == 0 || prev != m.dv ==> prev in Chunks(m.bins)
  {
    ChunkFits(m.lay, prev);
    BackInside(m.lay, p0, prev);
    assert prev in Free(m.lay);
    hide Shape, Tags, BinsOK, Chunks, Inside;
  }

  lemma BackInside(l: Layout, p0: int, p: int)
    requires Shape(l) && p0 in l.live && p0 in l.size && Backward(l, p0, p)
    ensures Inside(l, p, p0 + l.size[p0]) == {p, p0}
  {
    ChunkFits(l, p0);
    if p != p0 {
      ChunkFits(l, p);
    }
    forall x | x in l.size && p <= x < p0 + l.size[p0] ensures x == p || x == p0 {
      if x < p0 {
        Apart2(l, x, p0);
        if p < x {
          Apart2(l, p, x);
        }
      } else if p0 < x {
        Apart2(l, p0, x);
      }
    }
  }

  /** With the free chunk before p0 out of its bin, the run starts there. */
  lemma PrevHalfway(m: State, p0: int, prev: int)
    requires Ready(m, {prev}) && p0 in m.lay.live && p0 in m.lay.size && prev in m.lay.size && prev !in m.lay.live
    requires prev + m.lay.size[prev] == p0
    ensures Halfway(m, p0, prev, p0 + m.lay.size[p0], {prev})
  {
    BackInside(m.lay, p0, prev);
    hide Heap, Inside;
  }

  /** dlfree(mem).  The chunk at mem - 8 is no longer in use; its bytes are part of one free chunk, or of
      top; no other chunk in use changes, and the heap stays in order: coalesced, tagged and binned.  Only if top has
      grown beyond the threshold is trimming tried, and then, as it fails, never again. */
  method Dlfree(m: State, mem: int)
    requires Inv(m) && (mem != 0 ==> mem - 8 in m.lay.live)
    modifies m`w, m`smallmap, m`treemap, m`dvsize, m`topsize, m`dv, m`top, m`trimCheck, m`sbrkSize, m`lay, m`bins
    ensures Inv(m) && m.sbrkSize == old(m.sbrkSize)
    ensures mem == 0 ==> m.w == old(m.w) && m.lay == old(m.lay)
    ensures mem != 0 ==> m.top != 0 && Freed(old(m.w), m.w, m.gm, old(m.lay), m.lay, mem - 8)
    ensures if mem == 0 then m.dv == old(m.dv) && m.dvsize == old(m.dvsize)
            else VictimStays(m.lay, old(m.dv), old(m.dvsize), m.dv, m.dvsize)
    ensures m.trimCheck == if m.top != old(m.top) && m.topsize > old(m.trimCheck) then WORD - 1 else old(m.trimCheck)
  {
    hide VictimStays, Heap, Freed, Chunks, Inside, DvSet, Pin, Backward;
    if mem != 0 {
      var p := mem - 8;
      ghost var v, p0, l := m.w, p, m.lay;
      ReadyTop(m);
      StartHalfway(m, p);
      DvZero(m, {});
      NextHead(m, {}, p);
      NothingKept(m);
      var psize := ChunkSize(m.w[p + HEAD]);
      var next := p + psize;
      ghost var limbo := {};
      if !Pinuse(m.w[p + HEAD]) {
        var prevsize := m.w[p];
        Eights(prevsize, 0);
        if prevsize % 2 != 0 {
          // A directly mapped chunk: there are none.
          assert false;
        }
        var prev := p - prevsize;
        psize := psize + prevsize;
        p := prev;
        if p != m.dv {
          UnlinkChunk(m, p, prevsize, {});
          assert {} + {p} == {p};
          PrevHalfway(m, p0, p);
          limbo := {p};
        } else if Cinuse(m.w[next + HEAD]) && Pinuse(m.w[next + HEAD]) {
          FreeIntoDv(m, p, psize, next, p0);
          ReadyTop(m);
          return;
        }
      }
      ghost var v1 := m.w;
      ConsolidateForward(m, p, psize, next, p0, limbo);
      FreedAfter(v, v1, m.w, m.gm, l, m.lay, p0);
      ReadyTop(m);
    }
  }

  lemma ReadyTop(m: State)
    requires Ready(m, {}) || (Inv(m) && m.lay.live != {})
    ensures m.top != 0 && Ready(m, {})
  {
    if Ready(m, {}) {
      TopFacts(m, {});
    }
    hide Heap;
  }
}
