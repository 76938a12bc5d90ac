/** All 64 bins together: insert_chunk and unlink_chunk, and what they leave alone. */
module BinSets {
  import opened Words
  import opened Memory
  import Bitmaps
  import opened Rings
  import opened Tries
  import opened MallocState
  import opened BinIndex
  import opened TreeBins
  import opened TreeInsert
  import opened TreeSearch
  import opened SmallBins
  import opened Layouts

  ghost function SmallChunks(small: seq<seq<int>>): set<int> {
    set i, a | 0 <= i < |small| && a in small[i] :: a
  }

  ghost function Chunks(b: Bins): set<int> {
    SmallChunks(b.small) + TreeChunks(b.trees)
  }

  const NSMALLBINS: int := 32

  /** First address past the bin arrays of the static state. */
  function StateEnd(gm: int): int {
    gm + 428
  }

  ghost predicate SmallBinOK(w: Mem, gm: int, i: int, lst: seq<int>, size: map<int, int>) {
    && SmallBin(w, SmallBinAt(gm, i), lst)
    && forall a :: a in lst ==> a in size && size[a] == 8 * i
  }

  ghost predicate SmallBinsOK(w: Mem, gm: int, smallmap: Bitmaps.Binmap, small: seq<seq<int>>, size: map<int, int>, marked: set<int>) {
    && |small| == NSMALLBINS && Bitmaps.Means(smallmap, marked)
    && (forall i :: 0 <= i < NSMALLBINS ==> SmallBinOK(w, gm, i, small[i], size))
    && (forall i :: i in marked <==> 0 <= i < NSMALLBINS && small[i] != [])
  }

  ghost predicate BinsOK(w: Mem, gm: int, smallmap: Bitmaps.Binmap, treemap: Bitmaps.Binmap, b: Bins, size: map<int, int>) {
    && SmallBinsOK(w, gm, smallmap, b.small, size, b.smarked)
    && TreeBinsOK(w, gm, treemap, b.trees, size, b.tmarked)
  }

  /** Chunks are proper and lie above the static state. */
  ghost predicate Sizes(size: map<int, int>, gm: int) {
    && Disjoint(size)
    && forall p :: p in size ==> 0 < StateEnd(gm) <= p && 16 <= size[p] < WORD
  }

  lemma SizesApart(size: map<int, int>, gm: int, p: int, q: int)
    requires Sizes(size, gm) && p in size && q in size && p != q
    ensures p + size[p] <= q || q + size[q] <= p
  {
    if p < q {
      assert Before(size, p, q);
    } else {
      assert Before(size, q, p);
    }
  }

  // ---- what a bin operation may change ----

  /** a lies in the body (past the head, before the foot) of one of the chunks in s. */
  ghost predicate InBody(size: map<int, int>, s: set<int>, a: int) {
    exists x :: x in s && x in size && x + 8 <= a < x + size[x]
  }

  /** Only words in z (of the static state) and in the bodies of the chunks in s differ. */
  ghost predicate Changed(v: Mem, w: Mem, z: set<int>, size: map<int, int>, s: set<int>) {
    forall a :: w[a] == v[a] || a in z || InBody(size, s, a)
  }

  /** z keeps clear of small bin i's header, or of tree bin i's pointer. */
  ghost predicate HeaderFree(gm: int, z: set<int>, i: int) {
    forall x :: x in z ==> x < StateEnd(gm) && x !in HeaderWords(gm, i)
  }

  ghost predicate PointerFree(gm: int, z: set<int>, i: int) {
    forall x :: x in z ==> x < StateEnd(gm) && x != TreeBinAt(gm, i)
  }

  ghost function HeaderWords(gm: int, i: int): set<int> {
    {SmallBinAt(gm, i) + FD, SmallBinAt(gm, i) + BK}
  }

  /** Another chunk's words, its head included and its foot excluded, are not touched. */
  lemma WordKept(v: Mem, w: Mem, gm: int, z: set<int>, size: map<int, int>, s: set<int>, p: int, a: int)
    requires Sizes(size, gm) && Changed(v, w, z, size, s) && p in size && (p !in s || a == p + HEAD)
    requires p + HEAD <= a < p + size[p] && forall x :: x in z ==> x < StateEnd(gm)
    ensures w[a] == v[a]
  {
    if InBody(size, s, a) {
      var x :| x in s && x in size && x + 8 <= a < x + size[x];
      if x != p {
        SizesApart(size, gm, p, x);
      }
    }
  }

  /** A word of the static state outside z is not touched. */
  lemma StateWordKept(v: Mem, w: Mem, gm: int, z: set<int>, size: map<int, int>, s: set<int>, a: int)
    requires Sizes(size, gm) && Changed(v, w, z, size, s) && a < StateEnd(gm) && a !in z
    ensures w[a] == v[a]
  {
    if InBody(size, s, a) {
      BodyAbove(gm, size, s, a);
    }
  }

  lemma BodyAbove(gm: int, size: map<int, int>, s: set<int>, a: int)
    requires Sizes(size, gm) && InBody(size, s, a)
    ensures StateEnd(gm) < a
  {
  }

  lemma SmallBinKept(v: Mem, w: Mem, gm: int, i: int, lst: seq<int>, z: set<int>, size: map<int, int>, s: set<int>)
    requires SmallBinOK(v, gm, i, lst, size) && Sizes(size, gm) && Changed(v, w, z, size, s) && 0 <= i < NSMALLBINS
    requires HeaderFree(gm, z, i)
    requires forall a :: a in lst ==> a !in s
    ensures SmallBinOK(w, gm, i, lst, size)
  {
    var hdr := SmallBinAt(gm, i);
    if lst != [] {
      hide Changed, Ring, Spaced;
      forall a | a in [hdr] + lst ensures w[a + FD] == v[a + FD] && w[a + BK] == v[a + BK] {
        if a == hdr {
          StateWordKept(v, w, gm, z, size, s, a + FD);
          StateWordKept(v, w, gm, z, size, s, a + BK);
        } else {
          WordKept(v, w, gm, z, size, s, a, a + FD);
          WordKept(v, w, gm, z, size, s, a, a + BK);
        }
      }
      RingFrame(v, w, [hdr] + lst);
    }
  }

  lemma TreeBinKept(v: Mem, w: Mem, gm: int, i: int, t: Trie, z: set<int>, size: map<int, int>, s: set<int>)
    requires 0 <= i < NTREEBINS && TreeBinOK(v, gm, i, t, size) && Sizes(size, gm) && Changed(v, w, z, size, s)
    requires PointerFree(gm, z, i)
    requires Addrs(t) !! s
    ensures TreeBinOK(w, gm, i, t, size)
  {
    hide Changed, Rep, Unique, Apart, Ordered, Addrs, BinLo, BinBits;
    forall p | p in Addrs(t) ensures SameLinks(v, w, p) && w[p + HEAD] == v[p + HEAD] {
      NodeKept(v, w, gm, z, size, s, p);
    }
    StateWordKept(v, w, gm, z, size, s, TreeBinAt(gm, i));
    RepFrame(v, w, TreeBinAt(gm, i), TreeBinAt(gm, i), t, i);
  }

  lemma NodeKept(v: Mem, w: Mem, gm: int, z: set<int>, size: map<int, int>, s: set<int>, p: int)
    requires Sizes(size, gm) && Changed(v, w, z, size, s) && p in size && p !in s && size[p] >= 256
    requires forall x :: x in z ==> x < StateEnd(gm)
    ensures SameLinks(v, w, p) && w[p + HEAD] == v[p + HEAD]
  {
    hide Changed, Sizes;
    WordKept(v, w, gm, z, size, s, p, p + HEAD);
    WordKept(v, w, gm, z, size, s, p, p + FD);
    WordKept(v, w, gm, z, size, s, p, p + BK);
    WordKept(v, w, gm, z, size, s, p, p + CHILD0);
    WordKept(v, w, gm, z, size, s, p, p + CHILD1);
    WordKept(v, w, gm, z, size, s, p, p + PARENT);
    WordKept(v, w, gm, z, size, s, p, p + INDEX);
  }

  lemma AllSmallKept(v: Mem, w: Mem, gm: int, smallmap: Bitmaps.Binmap, small: seq<seq<int>>, marked: set<int>,
                     z: set<int>, size: map<int, int>, s: set<int>)
    requires SmallBinsOK(v, gm, smallmap, small, size, marked) && Sizes(size, gm) && Changed(v, w, z, size, s)
    requires forall i :: 0 <= i < NSMALLBINS ==> HeaderFree(gm, z, i)
    requires SmallChunks(small) !! s
    ensures SmallBinsOK(w, gm, smallmap, small, size, marked)
  {
    hide Changed, SmallBinOK, Sizes, HeaderFree, Bitmaps.Means;
    forall i | 0 <= i < NSMALLBINS ensures SmallBinOK(w, gm, i, small[i], size) {
      assert SmallBinOK(v, gm, i, small[i], size);
      forall a | a in small[i] ensures a !in s {
        assert a in SmallChunks(small);
      }
      SmallBinKept(v, w, gm, i, small[i], z, size, s);
    }
  }

  lemma AllTreesKept(v: Mem, w: Mem, gm: int, treemap: Bitmaps.Binmap, trees: seq<Trie>, marked: set<int>,
                     z: set<int>, size: map<int, int>, s: set<int>)
    requires TreeBinsOK(v, gm, treemap, trees, size, marked) && Sizes(size, gm) && Changed(v, w, z, size, s)
    requires forall i :: 0 <= i < NTREEBINS ==> PointerFree(gm, z, i)
    requires TreeChunks(trees) !! s
    ensures TreeBinsOK(w, gm, treemap, trees, size, marked)
  {
    hide Changed, TreeBinOK, Sizes, PointerFree, Bitmaps.Means, Addrs;
    forall i | 0 <= i < NTREEBINS ensures TreeBinOK(w, gm, i, trees[i], size) {
      assert TreeBinOK(v, gm, i, trees[i], size);
      forall a | a in Addrs(trees[i]) ensures a !in s {
        assert a in TreeChunks(trees);
      }
      TreeBinKept(v, w, gm, i, trees[i], z, size, s);
    }
  }

  // ---- one bin changes ----

  lemma SmallUpdated(v: Mem, w: Mem, gm: int, map0: Bitmaps.Binmap, map1: Bitmaps.Binmap, small: seq<seq<int>>, i: int,
                     lst': seq<int>, marked: set<int>, marked': set<int>, size: map<int, int>, s: set<int>)
    requires SmallBinsOK(v, gm, map0, small, size, marked) && Sizes(size, gm) && 0 <= i < NSMALLBINS
    requires Changed(v, w, HeaderWords(gm, i), size, s) && forall x :: x in s ==> x in size && size[x] == 8 * i
    requires SmallBinOK(w, gm, i, lst', size) && Bitmaps.Means(map1, marked')
    requires marked' == if lst' == [] then marked - {i} else marked + {i}
    ensures SmallBinsOK(w, gm, map1, small[i := lst'], size, marked')
  {
    hide Changed, Sizes, SmallBin, Bitmaps.Means, HeaderWords;
    var small' := small[i := lst'];
    forall j | 0 <= j < NSMALLBINS ensures SmallBinOK(w, gm, j, small'[j], size) {
      if j != i {
        assert SmallBinOK(v, gm, j, small[j], size);
        HeadersDiffer(size, gm, i, j);
        SmallBinKept(v, w, gm, j, small[j], HeaderWords(gm, i), size, s);
      }
    }
  }

  lemma HeadersDiffer(size: map<int, int>, gm: int, i: int, j: int)
    requires 0 <= i < NSMALLBINS && 0 <= j < NSMALLBINS
    ensures i != j ==> HeaderFree(gm, HeaderWords(gm, i), j)
    ensures PointerFree(gm, HeaderWords(gm, i), j)
    ensures HeaderFree(gm, {TreeBinAt(gm, i)}, j)
    ensures i != j ==> PointerFree(gm, {TreeBinAt(gm, i)}, j)
  {
  }

  lemma TreesUpdated(v: Mem, w: Mem, gm: int, map0: Bitmaps.Binmap, map1: Bitmaps.Binmap, trees: seq<Trie>, i: int,
                     t': Trie, marked: set<int>, marked': set<int>, size: map<int, int>, s: set<int>)
    requires TreeBinsOK(v, gm, map0, trees, size, marked) && Sizes(size, gm) && 0 <= i < NTREEBINS
    requires Changed(v, w, {TreeBinAt(gm, i)}, size, s)
    requires forall x :: x in s ==> x in size && 256 <= size[x] < WORD && TreeIndex(size[x]) == i
    requires TreeBinOK(w, gm, i, t', size) && Bitmaps.Means(map1, marked')
    requires marked' == if t' == Nil then marked - {i} else marked + {i}
    ensures TreeBinsOK(w, gm, map1, trees[i := t'], size, marked')
  {
    hide Changed, Sizes, Searchable, Bitmaps.Means, TreeIndex, Addrs;
    var trees' := trees[i := t'];
    forall j | 0 <= j < NTREEBINS ensures TreeBinOK(w, gm, j, trees'[j], size) {
      if j != i {
        assert TreeBinOK(v, gm, j, trees[j], size);
        HeadersDiffer(size, gm, i, j);
        forall a | a in Addrs(trees[j]) ensures a !in s {
        }
        TreeBinKept(v, w, gm, j, trees[j], {TreeBinAt(gm, i)}, size, s);
      }
    }
  }

  lemma SmallSizes(b: Bins, size: map<int, int>, w: Mem, gm: int, smallmap: Bitmaps.Binmap, treemap: Bitmaps.Binmap)
    requires BinsOK(w, gm, smallmap, treemap, b, size)
    ensures forall a :: a in SmallChunks(b.small) ==> a in size && size[a] < 256
    ensures forall a :: a in TreeChunks(b.trees) ==> a in size && 256 <= size[a]
  {
    hide SmallBin, Searchable, Bitmaps.Means, TreeIndex, Addrs;
    forall a | a in SmallChunks(b.small) ensures a in size && size[a] < 256 {
      var i :| 0 <= i < |b.small| && a in b.small[i];
      assert SmallBinOK(w, gm, i, b.small[i], size);
    }
    forall a | a in TreeChunks(b.trees) ensures a in size && 256 <= size[a] {
      var i :| 0 <= i < |b.trees| && a in Addrs(b.trees[i]);
      assert TreeBinOK(w, gm, i, b.trees[i], size);
    }
  }

  /** A small bin changed: the tree bins did not. */
  lemma SmallOnly(v: Mem, w: Mem, gm: int, map0: Bitmaps.Binmap, map1: Bitmaps.Binmap, treemap: Bitmaps.Binmap, b: Bins, i: int,
                  lst': seq<int>, marked': set<int>, size: map<int, int>, s: set<int>)
    requires BinsOK(v, gm, map0, treemap, b, size) && Sizes(size, gm) && 0 <= i < NSMALLBINS
    requires Changed(v, w, HeaderWords(gm, i), size, s) && forall x :: x in s ==> x in size && size[x] == 8 * i
    requires SmallBinOK(w, gm, i, lst', size) && Bitmaps.Means(map1, marked')
    requires marked' == if lst' == [] then b.smarked - {i} else b.smarked + {i}
    ensures BinsOK(w, gm, map1, treemap, b.(small := b.small[i := lst'], smarked := marked'), size)
  {
    hide Changed, Sizes, SmallBinOK, TreeBinOK, Bitmaps.Means, HeaderWords, SmallChunks, TreeChunks, PointerFree;
    SmallSizes(b, size, v, gm, map0, treemap);
    SmallUpdated(v, w, gm, map0, map1, b.small, i, lst', b.smarked, marked', size, s);
    forall j | 0 <= j < NTREEBINS ensures PointerFree(gm, HeaderWords(gm, i), j) {
      HeadersDiffer(size, gm, i, j);
    }
    forall a | a in TreeChunks(b.trees) ensures a !in s {
    }
    AllTreesKept(v, w, gm, treemap, b.trees, b.tmarked, HeaderWords(gm, i), size, s);
  }

  lemma TreesOnly(v: Mem, w: Mem, gm: int, smallmap: Bitmaps.Binmap, map0: Bitmaps.Binmap, map1: Bitmaps.Binmap, b: Bins, i: int,
                  t': Trie, marked': set<int>, size: map<int, int>, s: set<int>)
    requires BinsOK(v, gm, smallmap, map0, b, size) && Sizes(size, gm) && 0 <= i < NTREEBINS
    requires Changed(v, w, {TreeBinAt(gm, i)}, size, s)
    requires forall x :: x in s ==> x in size && 256 <= size[x] < WORD && TreeIndex(size[x]) == i
    requires TreeBinOK(w, gm, i, t', size) && Bitmaps.Means(map1, marked')
    requires marked' == if t' == Nil then b.tmarked - {i} else b.tmarked + {i}
    ensures BinsOK(w, gm, smallmap, map1, b.(trees := b.trees[i := t'], tmarked := marked'), size)
  {
    hide Changed, Sizes, SmallBinOK, TreeBinOK, Bitmaps.Means, HeaderWords, SmallChunks, TreeChunks, HeaderFree, TreeIndex;
    SmallSizes(b, size, v, gm, smallmap, map0);
    TreesUpdated(v, w, gm, map0, map1, b.trees, i, t', b.tmarked, marked', size, s);
    forall j | 0 <= j < NSMALLBINS ensures HeaderFree(gm, {TreeBinAt(gm, i)}, j) {
      HeadersDiffer(size, gm, i, j);
    }
    forall a | a in SmallChunks(b.small) ensures a !in s {
    }
    AllSmallKept(v, w, gm, smallmap, b.small, b.smarked, {TreeBinAt(gm, i)}, size, s);
  }

  // ---- insert_chunk and unlink_chunk ----

  lemma ListSpaced(w: Mem, gm: int, i: int, lst: seq<int>, p: int, size: map<int, int>)
    requires SmallBinOK(w, gm, i, lst, size) && Sizes(size, gm) && 0 <= i < NSMALLBINS && p in size && p !in lst
    ensures Spaced([SmallBinAt(gm, i), p] + lst)
  {
    var hdr := SmallBinAt(gm, i);
    var r, r0 := [hdr, p] + lst, [hdr] + lst;
    forall x, y | 0 <= x < |r| && 0 <= y < |r| && x != y ensures r[x] + 8 <= r[y] || r[y] + 8 <= r[x] {
      if x >= 2 && y >= 2 {
        assert r[x] == r0[x - 1] && r[y] == r0[y - 1];
      } else {
        ListMember(size, gm, r[x], p, lst, hdr);
        ListMember(size, gm, r[y], p, lst, hdr);
      }
    }
  }

  lemma ListMember(size: map<int, int>, gm: int, a: int, p: int, lst: seq<int>, hdr: int)
    requires Sizes(size, gm) && p in size && p !in lst && hdr + 16 <= StateEnd(gm)
    requires a == hdr || a == p || a in lst
    requires forall a :: a in lst ==> a in size
    ensures a == hdr || (a in size && hdr + 16 <= a)
    ensures a in lst ==> a + 16 <= p || p + 16 <= a
  {
    if a in lst {
      SizesApart(size, gm, a, p);
    }
  }

  /** Link words of a small bin's members are header words or lie in bodies. */
  lemma PairsChanged(v: Mem, w: Mem, gm: int, i: int, r: seq<int>, size: map<int, int>, s: set<int>)
    requires Sizes(size, gm) && s <= size.Keys && Members(r) <= s + {SmallBinAt(gm, i)}
    requires forall a :: w[a] == v[a] || InPairs(r, a)
    ensures Changed(v, w, HeaderWords(gm, i), size, s)
  {
    forall a ensures w[a] == v[a] || a in HeaderWords(gm, i) || InBody(size, s, a) {
      if InPairs(r, a) {
        var x :| 0 <= x < |r| && (a == r[x] + FD || a == r[x] + BK);
        var c := r[x];
        assert c in Members(r);
        if c != SmallBinAt(gm, i) {
          assert c in s && c in size;
        }
      }
    }
  }

  lemma LinksChanged(v: Mem, w: Mem, gm: int, slot: int, size: map<int, int>, s: set<int>)
    requires forall x :: x in s ==> x in size && 256 <= size[x]
    requires forall a :: w[a] == v[a] || a == slot || InLinks(s, a)
    ensures Changed(v, w, {slot}, size, s)
  {
    forall a ensures w[a] == v[a] || a in {slot} || InBody(size, s, a) {
      if InLinks(s, a) {
        var x :| x in s && x + FD <= a <= x + INDEX;
        assert x in s && x in size && x + 8 <= a < x + size[x];
      }
    }
  }

  /** A chunk's size says which small bin it is in. */
  lemma OneBin(small: seq<seq<int>>, i: int, j: int, a: int, size: map<int, int>)
    requires 0 <= i < |small| && 0 <= j < |small| && a in small[i] && a in small[j]
    requires forall j, a :: 0 <= j < |small| && a in small[j] ==> a in size && size[a] == 8 * j
    ensures i == j
  {
    assert size[a] == 8 * i;
    assert size[a] == 8 * j;
  }

  lemma SmallChunksPut(small: seq<seq<int>>, i: int, lst': seq<int>, size: map<int, int>)
    requires 0 <= i < |small|
    requires forall j, a :: 0 <= j < |small| && a in small[j] ==> a in size && size[a] == 8 * j
    ensures SmallChunks(small[i := lst']) == SmallChunks(small) - Members(small[i]) + Members(lst')
  {
    var small' := small[i := lst'];
    forall a | a in SmallChunks(small') ensures a in SmallChunks(small) - Members(small[i]) + Members(lst') {
      var j :| 0 <= j < |small'| && a in small'[j];
      if j != i && a in small[i] {
        OneBin(small, i, j, a, size);
      }
    }
    forall a | a in SmallChunks(small) - Members(small[i]) + Members(lst') ensures a in SmallChunks(small') {
      if a in lst' {
        assert a in small'[i];
      } else {
        var j :| 0 <= j < |small| && a in small[j];
        assert a in small'[j];
      }
    }
  }

  lemma TreeChunksPut(trees: seq<Trie>, i: int, t': Trie, size: map<int, int>)
    requires 0 <= i < |trees|
    requires forall j :: 0 <= j < |trees| ==> Binned(size, trees[j], j)
    ensures TreeChunks(trees[i := t']) == TreeChunks(trees) - Addrs(trees[i]) + Addrs(t')
  {
    hide Addrs, TreeIndex;
    var trees' := trees[i := t'];
    forall a | a in TreeChunks(trees') ensures a in TreeChunks(trees) - Addrs(trees[i]) + Addrs(t') {
      var j :| 0 <= j < |trees'| && a in Addrs(trees'[j]);
      if j != i {
        assert a in Addrs(trees[j]);
      }
    }
    forall a | a in TreeChunks(trees) - Addrs(trees[i]) + Addrs(t') ensures a in TreeChunks(trees') {
      if a in Addrs(t') {
        assert a in Addrs(trees'[i]);
      } else {
        var j :| 0 <= j < |trees| && a in Addrs(trees[j]);
        assert a in Addrs(trees'[j]);
      }
    }
  }

  lemma SmallBinsFacts(w: Mem, gm: int, smallmap: Bitmaps.Binmap, small: seq<seq<int>>, size: map<int, int>, marked: set<int>)
    requires SmallBinsOK(w, gm, smallmap, small, size, marked)
    ensures forall j, a :: 0 <= j < |small| && a in small[j] ==> a in size && size[a] == 8 * j
    ensures forall i :: 0 <= i < NSMALLBINS ==> SmallBinOK(w, gm, i, small[i], size)
  {
    hide SmallBin, Bitmaps.Means;
    forall j, a | 0 <= j < |small| && a in small[j] ensures a in size && size[a] == 8 * j {
      assert SmallBinOK(w, gm, j, small[j], size);
    }
  }

  lemma TreeBinsFacts(w: Mem, gm: int, treemap: Bitmaps.Binmap, trees: seq<Trie>, size: map<int, int>, marked: set<int>)
    requires TreeBinsOK(w, gm, treemap, trees, size, marked)
    ensures forall j :: 0 <= j < |trees| ==> Binned(size, trees[j], j)
    ensures forall i :: 0 <= i < NTREEBINS ==> TreeBinOK(w, gm, i, trees[i], size)
  {
    hide Searchable, Binned, Bitmaps.Means;
    forall j | 0 <= j < |trees| ensures Binned(size, trees[j], j) {
      assert TreeBinOK(w, gm, j, trees[j], size);
    }
  }

  method InsertSmall(m: State, p: int, s: int, ghost b: Bins, ghost size: map<int, int>) returns (ghost b': Bins)
    requires BinsOK(m.w, m.gm, m.smallmap, m.treemap, b, size) && Sizes(size, m.gm)
    requires p in size && size[p] == s && s % 8 == 0 && s < 256 && p !in Chunks(b)
    modifies m`w, m`smallmap
    ensures BinsOK(m.w, m.gm, m.smallmap, m.treemap, b', size) && Chunks(b') == Chunks(b) + {p}
    ensures Changed(old(m.w), m.w, HeaderWords(m.gm, s / 8), size, Chunks(b'))
  {
    hide Changed, SmallBinOK, TreeBinOK, TreeBinsOK, Bitmaps.Means, HeaderWords, SmallBin, Spaced, InPairs, TreeChunks;
    ghost var v, i, map0 := m.w, s / 8, m.smallmap;
    ghost var lst := b.small[i];
    SmallBinsFacts(v, m.gm, map0, b.small, size, b.smarked);
    SmallRange(size, m.gm, p);
    NotListed(b.small, i, p);
    SmallOpen(v, m.gm, i, lst, p, size);
    InsertSmallChunk(m, p, s, lst, b.smarked);
    ghost var all := {p} + Members(lst);
    assert Members([SmallBinAt(m.gm, i), p] + lst) == all + {SmallBinAt(m.gm, i)};
    PairsChanged(v, m.w, m.gm, i, [SmallBinAt(m.gm, i), p] + lst, size, all);
    SmallClosed(m.w, m.gm, i, [p] + lst, size);
    SmallOnly(v, m.w, m.gm, map0, m.smallmap, m.treemap, b, i, [p] + lst, b.smarked + {i}, size, all);
    b' := b.(small := b.small[i := [p] + lst], smarked := b.smarked + {i});
    SmallChunksPut(b.small, i, [p] + lst, size);
    assert Members([p] + lst) == all;
    ChangedMore(v, m.w, HeaderWords(m.gm, i), size, all, Chunks(b'));
  }

  lemma NotListed(small: seq<seq<int>>, i: int, p: int)
    requires 0 <= i < |small| && p !in SmallChunks(small)
    ensures p !in small[i]
  {
  }

  lemma SmallRange(size: map<int, int>, gm: int, p: int)
    requires Sizes(size, gm) && p in size && size[p] < 256 && size[p] % 8 == 0
    ensures 0 <= size[p] / 8 < NSMALLBINS && size[p] == 8 * (size[p] / 8)
  {
  }

  lemma SmallOpen(w: Mem, gm: int, i: int, lst: seq<int>, p: int, size: map<int, int>)
    requires SmallBinOK(w, gm, i, lst, size) && Sizes(size, gm) && 0 <= i < NSMALLBINS && p in size && p !in lst
    ensures SmallBin(w, SmallBinAt(gm, i), lst) && Spaced([SmallBinAt(gm, i), p] + lst)
    ensures forall a :: a in lst ==> a in size && size[a] == 8 * i
  {
    ListSpaced(w, gm, i, lst, p, size);
  }

  lemma SmallClosed(w: Mem, gm: int, i: int, lst: seq<int>, size: map<int, int>)
    requires SmallBin(w, SmallBinAt(gm, i), lst) && forall a :: a in lst ==> a in size && size[a] == 8 * i
    ensures SmallBinOK(w, gm, i, lst, size)
  {
  }

  lemma ChangedMore(v: Mem, w: Mem, z: set<int>, size: map<int, int>, s: set<int>, s': set<int>)
    requires Changed(v, w, z, size, s) && s <= s'
    ensures Changed(v, w, z, size, s')
  {
    forall a ensures w[a] == v[a] || a in z || InBody(size, s', a) {
      if InBody(size, s, a) {
        var x :| x in s && x in size && x + 8 <= a < x + size[x];
        assert x in s';
      }
    }
  }

  /** Take chunk j of small bin i out; `first` says which macro does it. */
  method UnlinkSmall(m: State, p: int, s: int, first: bool, ghost b: Bins, ghost size: map<int, int>) returns (ghost b': Bins)
    requires BinsOK(m.w, m.gm, m.smallmap, m.treemap, b, size) && Sizes(size, m.gm)
    requires p in SmallChunks(b.small) && p in size && size[p] == s && 0 <= s / 8 < NSMALLBINS
    requires first ==> b.small[s / 8] != [] && b.small[s / 8][0] == p
    modifies m`w, m`smallmap
    ensures BinsOK(m.w, m.gm, m.smallmap, m.treemap, b', size) && Chunks(b') == Chunks(b) - {p}
    ensures Changed(old(m.w), m.w, HeaderWords(m.gm, s / 8), size, Chunks(b))
  {
    hide Changed, SmallBinOK, TreeBinOK, TreeBinsOK, Bitmaps.Means, HeaderWords, SmallBin, Spaced, InPairs, TreeChunks;
    ghost var v, i, map0 := m.w, s / 8, m.smallmap;
    ghost var lst := b.small[i];
    SmallBinsFacts(v, m.gm, map0, b.small, size, b.smarked);
    ghost var j := FindSmall(b.small, i, p, size);
    if first {
      j := 0;
    }
    SmallOpened(v, m.gm, i, lst, size);
    if first {
      UnlinkFirstSmallChunk(m, SmallBinAt(m.gm, s / 8), p, s / 8, lst, b.smarked);
      assert Without(lst, 0) == lst[1..];
    } else {
      UnlinkSmallChunk(m, p, s, lst, j, b.smarked);
    }
    ghost var lst' := Without(lst, j);
    ghost var marked' := if |lst| == 1 then b.smarked - {i} else b.smarked;
    ListMembers(lst, j, v, SmallBinAt(m.gm, i));
    assert Members([SmallBinAt(m.gm, i)] + lst) == Members(lst) + {SmallBinAt(m.gm, i)};
    PairsChanged(v, m.w, m.gm, i, [SmallBinAt(m.gm, i)] + lst, size, Members(lst));
    SmallClosed(m.w, m.gm, i, lst', size);
    assert marked' == if lst' == [] then b.smarked - {i} else b.smarked + {i};
    SmallOnly(v, m.w, m.gm, map0, m.smallmap, m.treemap, b, i, lst', marked', size, Members(lst));
    b' := b.(small := b.small[i := lst'], smarked := marked');
    SmallChunksPut(b.small, i, lst', size);
    SmallNotTree(v, m.gm, map0, m.treemap, b, size, p);
    assert Members(lst) <= SmallChunks(b.small);
    ChangedMore(v, m.w, HeaderWords(m.gm, i), size, Members(lst), Chunks(b));
  }

  lemma SmallNotTree(w: Mem, gm: int, smallmap: Bitmaps.Binmap, treemap: Bitmaps.Binmap, b: Bins, size: map<int, int>, p: int)
    requires BinsOK(w, gm, smallmap, treemap, b, size) && p in SmallChunks(b.small)
    ensures p !in TreeChunks(b.trees)
  {
    SmallSizes(b, size, w, gm, smallmap, treemap);
  }

  lemma FindSmall(small: seq<seq<int>>, i: int, p: int, size: map<int, int>) returns (j: nat)
    requires p in SmallChunks(small) && p in size && 0 <= i < |small| && i == size[p] / 8
    requires forall j, a :: 0 <= j < |small| && a in small[j] ==> a in size && size[a] == 8 * j
    ensures j < |small[i]| && small[i][j] == p
  {
    var k :| 0 <= k < |small| && p in small[k];
    assert size[p] == 8 * k;
    j :| 0 <= j < |small[k]| && small[k][j] == p;
  }

  lemma SmallOpened(w: Mem, gm: int, i: int, lst: seq<int>, size: map<int, int>)
    requires SmallBinOK(w, gm, i, lst, size)
    ensures SmallBin(w, SmallBinAt(gm, i), lst) && forall a :: a in lst ==> a in size && size[a] == 8 * i
  {
  }

  lemma ListMembers(lst: seq<int>, j: nat, w: Mem, hdr: int)
    requires SmallBin(w, hdr, lst) && j < |lst|
    ensures Members(Without(lst, j)) == Members(lst) - {lst[j]}
  {
    var r := [hdr] + lst;
    SpacedDistinct(r);
    forall x, y | 0 <= x < y < |lst| ensures lst[x] != lst[y] {
      assert r[x + 1] == lst[x] && r[y + 1] == lst[y];
    }
    WithoutMembers(lst, j);
  }

  method InsertLarge(m: State, p: int, s: int, ghost b: Bins, ghost size: map<int, int>) returns (ghost b': Bins)
    requires BinsOK(m.w, m.gm, m.smallmap, m.treemap, b, size) && Sizes(size, m.gm)
    requires p in size && size[p] == s && s >= 256 && p !in Chunks(b) && ChunkSize(m.w[p + HEAD]) == s
    modifies m`w, m`treemap
    ensures BinsOK(m.w, m.gm, m.smallmap, m.treemap, b', size) && Chunks(b') == Chunks(b) + {p}
    ensures Changed(old(m.w), m.w, {TreeBinAt(m.gm, TreeIndex(s))}, size, Chunks(b'))
  {
    hide Changed, SmallBinsOK, TreeBinOK, Bitmaps.Means, Searchable, Addrs, TreeIndex, SmallChunks, InLinks, Sizes, BinLo, BinBits;
    ghost var v, i, map0 := m.w, TreeIndex(s), m.treemap;
    ghost var t := b.trees[i];
    TreeBinsFacts(v, m.gm, map0, b.trees, size, b.tmarked);
    TreeOpen(v, m.gm, i, b.trees, p, size);
    ghost var t' := InsertLargeChunk(m, p, s, t, size, b.tmarked);
    TreeClosed(v, m.w, m.gm, i, t, t', p, size);
    HoldsSomething(t', p);
    TreesOnly(v, m.w, m.gm, m.smallmap, map0, m.treemap, b, i, t', b.tmarked + {i}, size, Addrs(t) + {p});
    b' := b.(trees := b.trees[i := t'], tmarked := b.tmarked + {i});
    TreeChunksPut(b.trees, i, t', size);
    TreeMembers(b.trees, i);
    ChangedMore(v, m.w, {TreeBinAt(m.gm, i)}, size, Addrs(t) + {p}, Chunks(b'));
  }

  lemma HoldsSomething(t: Trie, p: int)
    requires p in Addrs(t)
    ensures t != Nil
  {
  }

  lemma TreeMembers(trees: seq<Trie>, i: int)
    requires 0 <= i < |trees|
    ensures Addrs(trees[i]) <= TreeChunks(trees)
  {
    hide Addrs;
    forall a | a in Addrs(trees[i]) ensures a in TreeChunks(trees) {
    }
  }

  lemma TreeOpen(w: Mem, gm: int, i: int, trees: seq<Trie>, p: int, size: map<int, int>)
    requires 0 <= i < |trees| == NTREEBINS && TreeBinOK(w, gm, i, trees[i], size) && Sizes(size, gm)
    requires p in size && size[p] >= 256 && p !in TreeChunks(trees)
    ensures var t := trees[i];
            && size[p] < WORD && Tree(w, TreeBinAt(gm, i), t, i) && CanInsert(t, TreeBinAt(gm, i), p)
            && Ordered(size, t, BinLo(i), BinBits(i)) && HeadsMatch(w, size, Addrs(t))
  {
    var t := trees[i];
    TreeMembers(trees, i);
    hide Rep, Unique, Ordered, Addrs, TreeIndex;
    TreeApart(size, gm, Addrs(t) + {p});
  }

  lemma TreeApart(size: map<int, int>, gm: int, s: set<int>)
    requires Sizes(size, gm) && forall a :: a in s ==> a in size && size[a] >= 256
    ensures Apart(s)
  {
    forall p, q | p in s && q in s && p < q ensures p + 32 <= q {
      SizesApart(size, gm, p, q);
    }
  }

  lemma TreeClosed(v: Mem, w: Mem, gm: int, i: int, t: Trie, t': Trie, p: int, size: map<int, int>)
    requires 0 <= i < NTREEBINS && TreeBinOK(v, gm, i, t, size) && Sizes(size, gm)
    requires p in size && 256 <= size[p] < WORD && TreeIndex(size[p]) == i && ChunkSize(v[p + HEAD]) == size[p]
    requires Tree(w, TreeBinAt(gm, i), t', i) && Ordered(size, t', BinLo(i), BinBits(i)) && Addrs(t') <= Addrs(t) + {p}
    requires forall a :: w[a] == v[a] || a == TreeBinAt(gm, i) || InLinks(Addrs(t) + {p}, a)
    ensures TreeBinOK(w, gm, i, t', size) && Changed(v, w, {TreeBinAt(gm, i)}, size, Addrs(t) + {p})
    ensures forall x :: x in Addrs(t) + {p} ==> x in size && 256 <= size[x] < WORD && TreeIndex(size[x]) == i
  {
    hide Rep, Unique, Ordered, Addrs, TreeIndex, BinLo, BinBits;
    LinksChanged(v, w, gm, TreeBinAt(gm, i), size, Addrs(t) + {p});
    hide InLinks;
    forall a | a in Addrs(t') ensures ChunkSize(w[a + HEAD]) == size[a] {
      WordKept(v, w, gm, {TreeBinAt(gm, i)}, size, Addrs(t) + {p}, a, a + HEAD);
    }
  }

  method UnlinkLarge(m: State, p: int, ghost b: Bins, ghost size: map<int, int>) returns (ghost b': Bins)
    requires BinsOK(m.w, m.gm, m.smallmap, m.treemap, b, size) && Sizes(size, m.gm)
    requires p in TreeChunks(b.trees) && p in size
    modifies m`w, m`treemap
    ensures 0 <= size[p] && BinsOK(m.w, m.gm, m.smallmap, m.treemap, b', size) && Chunks(b') == Chunks(b) - {p}
    ensures Changed(old(m.w), m.w, {TreeBinAt(m.gm, TreeIndex(size[p]))}, size, Chunks(b))
  {
    hide Changed, SmallBinsOK, TreeBinOK, Bitmaps.Means, Searchable, Addrs, TreeIndex, SmallChunks, InLinks, Sizes, BinLo, BinBits;
    ghost var v, map0 := m.w, m.treemap;
    TreeBinsFacts(v, m.gm, map0, b.trees, size, b.tmarked);
    ghost var i := FindTree(b.trees, p, size);
    ghost var t := b.trees[i];
    TreeOpened(v, m.gm, i, t, p, size);
    ghost var t' := UnlinkLargeChunk(m, p, t, i, b.tmarked);
    assert Addrs(t) + {p} == Addrs(t);
    TreeClosed(v, m.w, m.gm, i, t, t', p, size);
    ghost var marked' := if t' == Nil then b.tmarked - {i} else b.tmarked;
    assert t' != Nil ==> b.tmarked + {i} == b.tmarked;
    TreesOnly(v, m.w, m.gm, m.smallmap, map0, m.treemap, b, i, t', marked', size, Addrs(t));
    b' := b.(trees := b.trees[i := t'], tmarked := marked');
    TreeChunksPut(b.trees, i, t', size);
    TreeMembers(b.trees, i);
    TreeNotSmall(v, m.gm, m.smallmap, map0, b, size, p);
    ChangedMore(v, m.w, {TreeBinAt(m.gm, i)}, size, Addrs(t), Chunks(b));
  }

  lemma TreeNotSmall(w: Mem, gm: int, smallmap: Bitmaps.Binmap, treemap: Bitmaps.Binmap, b: Bins, size: map<int, int>, p: int)
    requires BinsOK(w, gm, smallmap, treemap, b, size) && p in TreeChunks(b.trees)
    ensures p !in SmallChunks(b.small)
  {
    SmallSizes(b, size, w, gm, smallmap, treemap);
  }

  lemma FindTree(trees: seq<Trie>, p: int, size: map<int, int>) returns (i: int)
    requires p in TreeChunks(trees) && |trees| == NTREEBINS
    requires forall j :: 0 <= j < |trees| ==> Binned(size, trees[j], j)
    ensures 0 <= i < NTREEBINS && p in Addrs(trees[i]) && p in size && size[p] >= 0 && i == TreeIndex(size[p])
    ensures trees[i].Node?
  {
    i :| 0 <= i < |trees| && p in Addrs(trees[i]);
    assert Binned(size, trees[i], i);
  }

  lemma TreeOpened(w: Mem, gm: int, i: int, t: Trie, p: int, size: map<int, int>)
    requires 0 <= i < NTREEBINS && TreeBinOK(w, gm, i, t, size) && p in Addrs(t)
    ensures Tree(w, TreeBinAt(gm, i), t, i) && Ordered(size, t, BinLo(i), BinBits(i))
    ensures p in size && 256 <= size[p] < WORD && ChunkSize(w[p + HEAD]) == size[p]
  {
    hide Rep, Unique, Ordered, Addrs, TreeIndex;
  }
}
