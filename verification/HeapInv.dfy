/** The invariant of the whole heap, what its parts let one conclude, and what it survives. */
module HeapInv {
  import opened Words
  import opened Memory
  import Bitmaps
  import opened Rings
  import opened Tries
  import opened MallocState
  import opened BinIndex
  import opened TreeBins
  import opened TreeInsert
  import opened TreeSearch
  import opened SmallBins
  import opened Layouts
  import opened LayoutOps
  import opened BinSets

  ghost function Free(l: Layout): set<int> {
    l.size.Keys - l.live
  }

  ghost function DvSet(dv: int, dvsize: int): set<int> {
    if dvsize == 0 then {} else {dv}
  }

  /** The segment lies above the static state and below the end of the address space. */
  ghost predicate Placed(gm: int, l: Layout) {
    0 < gm && StateEnd(gm) <= l.base && l.top < l.end && l.end + TOP_FOOT_SIZE < WORD
  }

  /** The designated victim is a free chunk of the recorded size, or absent. */
  ghost predicate DvOK(l: Layout, dv: int, dvsize: int) {
    if dvsize == 0 then dv == 0 else dv in l.size && l.size[dv] == dvsize
  }

  /** Every free chunk is in exactly one place: in a bin, the designated victim, or in limbo
      (held by the operation under way). */
  ghost predicate Accounted(l: Layout, b: Bins, dv: int, dvsize: int, limbo: set<int>) {
    && Free(l) == Chunks(b) + DvSet(dv, dvsize) + limbo
    && Chunks(b) !! DvSet(dv, dvsize) && Chunks(b) !! limbo && DvSet(dv, dvsize) !! limbo
  }

  ghost predicate Heap(gm: int, w: Mem, smallmap: Bitmaps.Binmap, treemap: Bitmaps.Binmap, l: Layout, b: Bins,
                       dv: int, dvsize: int, limbo: set<int>) {
    && Placed(gm, l) && Shape(l) && Tags(w, l) && BinsOK(w, gm, smallmap, treemap, b, l.size)
    && DvOK(l, dv, dvsize) && Accounted(l, b, dv, dvsize, limbo)
  }

  // ---- what clients see ----

  /** q is in use in both layouts, with the same size, and its user's bytes are unchanged. */
  ghost predicate KeptAt(v: Mem, w: Mem, l: Layout, l': Layout, q: int) {
    && q in l.live && q in l.size && q in l'.live && q in l'.size
    && l'.size[q] == l.size[q] && Untouched(v, w, q, l.size[q])
  }

  ghost predicate Kept(v: Mem, w: Mem, l: Layout, l': Layout, s: set<int>) {
    forall q :: q in s ==> KeptAt(v, w, l, l', q)
  }

  /** Nothing outside the static state and lo..hi is written. */
  ghost predicate Confined(v: Mem, w: Mem, gm: int, lo: int, hi: int) {
    forall a :: w[a] == v[a] || gm <= a < StateEnd(gm) || lo <= a < hi
  }

  lemma KeptTrans(u: Mem, v: Mem, w: Mem, l0: Layout, l1: Layout, l2: Layout, s: set<int>, s': set<int>)
    requires Kept(u, v, l0, l1, s) && Kept(v, w, l1, l2, s') && s' <= s
    ensures Kept(u, w, l0, l2, s')
  {
    forall q | q in s' ensures KeptAt(u, w, l0, l2, q) {
      assert KeptAt(u, v, l0, l1, q) && KeptAt(v, w, l1, l2, q);
    }
  }

  lemma KeptLess(v: Mem, w: Mem, l: Layout, l': Layout, s: set<int>, s': set<int>)
    requires Kept(v, w, l, l', s) && s' <= s
    ensures Kept(v, w, l, l', s')
  {
  }

  lemma ConfinedTrans(u: Mem, v: Mem, w: Mem, gm: int, lo: int, hi: int, hi': int)
    requires Confined(u, v, gm, lo, hi) && Confined(v, w, gm, lo, hi') && hi <= hi'
    ensures Confined(u, w, gm, lo, hi')
  {
  }

  // ---- bin operations leave the chunks alone ----

  lemma SizesOf(gm: int, l: Layout)
    requires Placed(gm, l) && Tiling(l)
    ensures Sizes(l.size, gm)
  {
    forall p | p in l.size ensures 0 < StateEnd(gm) <= p && 16 <= l.size[p] < WORD {
      ChunkFits(l, p);
    }
  }

  ghost predicate InState(gm: int, z: set<int>) {
    forall x :: x in z ==> gm <= x < StateEnd(gm)
  }

  lemma BodyWord(l: Layout, s: set<int>, a: int) returns (x: int)
    requires Tiling(l) && InBody(l.size, s, a)
    ensures x in s && x in l.size && x + 8 <= a < x + l.size[x] <= l.top && l.base <= x
  {
    x :| x in s && x in l.size && x + 8 <= a < x + l.size[x];
    ChunkFits(l, x);
  }

  /** Words at and right behind a boundary keep their values. */
  lemma EdgeKept(v: Mem, w: Mem, gm: int, z: set<int>, l: Layout, s: set<int>, q: int)
    requires Placed(gm, l) && Tiling(l) && Changed(v, w, z, l.size, s) && InState(gm, z) && Boundary(l, q)
    ensures w[q + HEAD] == v[q + HEAD] && w[q] == v[q]
  {
    assert q >= l.base by {
      if q in l.size {
        ChunkFits(l, q);
      }
    }
    forall a | a == q || a == q + HEAD ensures w[a] == v[a] {
      if InBody(l.size, s, a) {
        var x := BodyWord(l, s, a);
        HeadOutside(l, x, q);
      }
    }
  }

  lemma BinsKeepTags(v: Mem, w: Mem, gm: int, z: set<int>, l: Layout, s: set<int>)
    requires Placed(gm, l) && Shape(l) && Tags(v, l) && Changed(v, w, z, l.size, s) && InState(gm, z)
    ensures Tags(w, l)
  {
    hide Changed, InState;
    forall p | p in l.size ensures TagOK(w, l, p) {
      assert TagOK(v, l, p);
      ChunkFits(l, p);
      EdgeKept(v, w, gm, z, l, s, p);
      EdgeKept(v, w, gm, z, l, s, p + l.size[p]);
    }
    EdgeKept(v, w, gm, z, l, s, l.top);
    EndKept(v, w, gm, z, l, s);
  }

  lemma EndKept(v: Mem, w: Mem, gm: int, z: set<int>, l: Layout, s: set<int>)
    requires Placed(gm, l) && Tiling(l) && Changed(v, w, z, l.size, s) && InState(gm, z)
    ensures w[l.end + HEAD] == v[l.end + HEAD]
  {
    if InBody(l.size, s, l.end + HEAD) {
      var x := BodyWord(l, s, l.end + HEAD);
    }
  }

  lemma BinsKeepLive(v: Mem, w: Mem, gm: int, z: set<int>, l: Layout, s: set<int>)
    requires Placed(gm, l) && Tiling(l) && Changed(v, w, z, l.size, s) && InState(gm, z) && s !! l.live
    ensures Kept(v, w, l, l, l.live)
  {
    forall q | q in l.live ensures KeptAt(v, w, l, l, q) {
      LiveKept(v, w, gm, z, l, s, q);
    }
  }

  lemma LiveKept(v: Mem, w: Mem, gm: int, z: set<int>, l: Layout, s: set<int>, q: int)
    requires Placed(gm, l) && Tiling(l) && Changed(v, w, z, l.size, s) && InState(gm, z) && q !in s && q in l.size
    ensures Untouched(v, w, q, l.size[q])
  {
    ChunkFits(l, q);
    forall a | q + 8 <= a < q + l.size[q] + 4 ensures w[a] == v[a] {
      if InBody(l.size, s, a) {
        var x := BodyWord(l, s, a);
        RegionOutside(l, q, x, a);
      }
    }
  }

  lemma BinsConfined(v: Mem, w: Mem, gm: int, z: set<int>, l: Layout, s: set<int>)
    requires Placed(gm, l) && Tiling(l) && Changed(v, w, z, l.size, s) && InState(gm, z)
    ensures Confined(v, w, gm, l.base, l.end + TOP_FOOT_SIZE)
  {
    forall a ensures w[a] == v[a] || gm <= a < StateEnd(gm) || l.base <= a < l.end + TOP_FOOT_SIZE {
      if InBody(l.size, s, a) {
        var x := BodyWord(l, s, a);
      }
    }
  }

  /** A chunk moved into or out of a bin. */
  lemma Rebinned(gm: int, v: Mem, w: Mem, smap: Bitmaps.Binmap, smap': Bitmaps.Binmap, tmap: Bitmaps.Binmap, tmap': Bitmaps.Binmap,
                 l: Layout, b: Bins, b': Bins, dv: int, dvsize: int, limbo: set<int>, limbo': set<int>, z: set<int>, s: set<int>)
    requires Heap(gm, v, smap, tmap, l, b, dv, dvsize, limbo) && BinsOK(w, gm, smap', tmap', b', l.size)
    requires Changed(v, w, z, l.size, s) && InState(gm, z) && s <= Free(l) && Accounted(l, b', dv, dvsize, limbo')
    ensures Heap(gm, w, smap', tmap', l, b', dv, dvsize, limbo')
    ensures Kept(v, w, l, l, l.live) && Confined(v, w, gm, l.base, l.end + TOP_FOOT_SIZE)
  {
    hide Changed, InState, BinsOK, Tags, TagOK, Tiling, Placed, Chunks, Kept, Confined;
    BinsKeepTags(v, w, gm, z, l, s);
    BinsKeepLive(v, w, gm, z, l, s);
    BinsConfined(v, w, gm, z, l, s);
  }

  // ---- tag operations leave the bins alone ----

  /** A binned chunk before and after a tag operation. */
  ghost predicate SameChunk(v: Mem, w: Mem, l: Layout, l': Layout, x: int) {
    && x in l.size && x in l'.size && l'.size[x] == l.size[x] && Untouched(v, w, x, l.size[x])
    && ChunkSize(w[x + HEAD]) == l.size[x]
  }

  ghost predicate StateSame(v: Mem, w: Mem, gm: int) {
    forall a :: gm <= a < StateEnd(gm) ==> w[a] == v[a]
  }

  lemma SmallBinMoved(v: Mem, w: Mem, gm: int, i: int, lst: seq<int>, l: Layout, l': Layout)
    requires SmallBinOK(v, gm, i, lst, l.size) && 0 <= i < NSMALLBINS && StateSame(v, w, gm)
    requires forall a :: a in lst ==> SameChunk(v, w, l, l', a) && l.size[a] >= 16
    ensures SmallBinOK(w, gm, i, lst, l'.size)
  {
    var hdr := SmallBinAt(gm, i);
    if lst != [] {
      hide Ring, Spaced;
      forall a | a in [hdr] + lst ensures w[a + FD] == v[a + FD] && w[a + BK] == v[a + BK] {
        if a != hdr {
          assert a in lst;
        }
      }
      RingFrame(v, w, [hdr] + lst);
    }
    forall a | a in lst ensures a in l'.size && l'.size[a] == 8 * i {
      assert SameChunk(v, w, l, l', a);
    }
  }

  ghost predicate SameSizes(size: map<int, int>, size': map<int, int>, s: set<int>) {
    forall a :: a in s ==> a in size && a in size' && size'[a] == size[a]
  }

  lemma SameBelow(size: map<int, int>, size': map<int, int>, t: Trie)
    requires t.Node? && SameSizes(size, size', Addrs(t))
    ensures SameSizes(size, size', Addrs(t.left)) && SameSizes(size, size', Addrs(t.right))
    ensures SameSizes(size, size', Addrs(t.left) + Addrs(t.right)) && SameSizes(size, size', Members(t.ring))
  {
  }

  lemma {:induction false} OrderedMoved(size: map<int, int>, size': map<int, int>, t: Trie, lo: int, k: nat)
    requires Ordered(size, t, lo, k) && SameSizes(size, size', Addrs(t))
    ensures Ordered(size', t, lo, k)
    decreases t
  {
    hide SameSizes, NodeOrdered, Pow2, Addrs;
    if t.Node? {
      SameBelow(size, size', t);
      NodeOrderedMoved(size, size', t.ring, Addrs(t.left) + Addrs(t.right), lo, lo + Pow2(k));
      if k > 0 {
        OrderedMoved(size, size', t.left, lo, k - 1);
        OrderedMoved(size, size', t.right, lo + Pow2(k - 1), k - 1);
      }
    }
  }

  lemma NodeOrderedMoved(size: map<int, int>, size': map<int, int>, ring: seq<int>, below: set<int>, lo: int, hi: int)
    requires NodeOrdered(size, ring, below, lo, hi) && SameSizes(size, size', Members(ring)) && SameSizes(size, size', below)
    ensures NodeOrdered(size', ring, below, lo, hi)
  {
    forall a | a in ring ensures a in size' && size'[a] == size[a] {
      assert a in Members(ring);
    }
    assert First(ring) in ring;
  }

  lemma TreeBinMoved(v: Mem, w: Mem, gm: int, i: int, t: Trie, l: Layout, l': Layout)
    requires 0 <= i < NTREEBINS && TreeBinOK(v, gm, i, t, l.size) && StateSame(v, w, gm)
    requires forall a :: a in Addrs(t) ==> SameChunk(v, w, l, l', a)
    ensures TreeBinOK(w, gm, i, t, l'.size)
  {
    hide Rep, Unique, Apart, Ordered, Addrs, BinLo, BinBits, TreeIndex;
    forall p | p in Addrs(t) ensures SameLinks(v, w, p) && ChunkSize(w[p + HEAD]) == l'.size[p] {
      assert SameChunk(v, w, l, l', p);
    }
    RepFrame(v, w, TreeBinAt(gm, i), TreeBinAt(gm, i), t, i);
    OrderedMoved(l.size, l'.size, t, BinLo(i), BinBits(i));
  }

  lemma BinsMoved(v: Mem, w: Mem, gm: int, smap: Bitmaps.Binmap, tmap: Bitmaps.Binmap, b: Bins, l: Layout, l': Layout)
    requires BinsOK(v, gm, smap, tmap, b, l.size) && StateSame(v, w, gm) && Sizes(l.size, gm)
    requires forall a :: a in Chunks(b) ==> SameChunk(v, w, l, l', a)
    ensures BinsOK(w, gm, smap, tmap, b, l'.size)
  {
    hide SmallBinOK, TreeBinOK, StateSame, SameChunk, Addrs, Bitmaps.Means;
    forall i | 0 <= i < NSMALLBINS ensures SmallBinOK(w, gm, i, b.small[i], l'.size) {
      assert SmallBinOK(v, gm, i, b.small[i], l.size);
      forall a | a in b.small[i] ensures SameChunk(v, w, l, l', a) && a in l.size && l.size[a] >= 16 {
        assert a in SmallChunks(b.small);
        SameInSize(v, w, l, l', a);
      }
      SmallBinMoved(v, w, gm, i, b.small[i], l, l');
    }
    forall i | 0 <= i < NTREEBINS ensures TreeBinOK(w, gm, i, b.trees[i], l'.size) {
      assert TreeBinOK(v, gm, i, b.trees[i], l.size);
      forall a | a in Addrs(b.trees[i]) ensures SameChunk(v, w, l, l', a) {
        assert a in TreeChunks(b.trees);
      }
      TreeBinMoved(v, w, gm, i, b.trees[i], l, l');
    }
  }

  lemma SameInSize(v: Mem, w: Mem, l: Layout, l': Layout, x: int)
    requires SameChunk(v, w, l, l', x)
    ensures x in l.size
  {
  }

  /** The part of a tag operation's result that the bins and the clients depend on. */
  ghost predicate Retagged(gm: int, v: Mem, w: Mem, l: Layout, l': Layout, keep: set<int>) {
    && Placed(gm, l') && Shape(l') && Tags(w, l') && StateSame(v, w, gm)
    && forall x :: x in keep ==> x in l.size && x in l'.size && l'.size[x] == l.size[x] && Untouched(v, w, x, l.size[x])
  }

  /** After a tag operation that leaves the binned chunks alone, the heap is in order. */
  lemma Relaid(gm: int, v: Mem, w: Mem, smap: Bitmaps.Binmap, tmap: Bitmaps.Binmap, l: Layout, l': Layout, b: Bins,
               dv: int, dvsize: int, limbo: set<int>, dv': int, dvsize': int, limbo': set<int>, keep: set<int>)
    requires Heap(gm, v, smap, tmap, l, b, dv, dvsize, limbo) && Retagged(gm, v, w, l, l', keep) && Chunks(b) <= keep
    requires DvOK(l', dv', dvsize') && Accounted(l', b, dv', dvsize', limbo')
    ensures Heap(gm, w, smap, tmap, l', b, dv', dvsize', limbo')
  {
    hide BinsOK, Chunks, Untouched, StateSame, Accounted, DvOK;
    SizesOf(gm, l);
    hide Placed;
    forall a | a in Chunks(b) ensures SameChunk(v, w, l, l', a) {
      TagFacts(w, l', a);
    }
    hide Tags, Shape;
    BinsMoved(v, w, gm, smap, tmap, b, l, l');
  }

  lemma RetaggedKept(gm: int, v: Mem, w: Mem, l: Layout, l': Layout, keep: set<int>, s: set<int>)
    requires Retagged(gm, v, w, l, l', keep) && s <= keep && s <= l.live && s <= l'.live
    ensures Kept(v, w, l, l', s)
  {
  }
}
