/** The tag writes of malloc and free: each takes a well-tagged layout to a well-tagged layout
    and leaves the body of every chunk it is not about alone. */
module LayoutOps {
  import opened Words
  import opened Memory
  import opened Layouts

  /** set_inuse_and_pinuse(p, size): a free chunk becomes used as a whole. */
  lemma AllocWhole(v: Mem, w: Mem, l: Layout, p: int)
    requires Shape(l) && Tags(v, l) && p in l.size && p !in l.live
    requires var s := l.size[p]; w == v[p + HEAD := s + PINUSE + CINUSE][p + s + HEAD := SetPinuse(v[p + s + HEAD])]
    ensures var l' := l.(live := l.live + {p});
            && Shape(l') && Tags(w, l')
            && forall q :: q in l.size && q != p ==> Untouched(v, w, q, l.size[q])
  {
    hide Tiling, TagOK, NextLive, Untouched, SetPinuse, Pin;
    var l', n := l.(live := l.live + {p}), p + l.size[p];
    TagFacts(v, l, p);
    LiveTiling(l, l'.live);
    forall x | x in l'.size ensures TagOK(w, l', x) {
      AllocTag(v, w, l, p, x);
    }
    forall x | x in l'.size && x !in l'.live ensures NextLive(l', x) {
      StillNextLive(l, l'.live, x);
    }
    forall q | q in l.size && q != p ensures Untouched(v, w, q, l.size[q]) {
      HeadsUntouch(v, w, l, q, p, n);
    }
    TopWords(l, p);
    TopWords(l, n);
  }

  lemma StillNextLive(l: Layout, live: set<int>, x: int)
    requires Coalesced(l) && x in l.size && x !in l.live && l.live <= live
    ensures NextLive(l.(live := live), x)
  {
    assert NextLive(l, x);
  }

  lemma HeadsUntouch(v: Mem, w: Mem, l: Layout, q: int, p: int, n: int)
    requires Tiling(l) && q in l.size && Boundary(l, p) && Boundary(l, n)
    requires forall a :: a != p + HEAD && a != n + HEAD ==> w[a] == v[a]
    ensures Untouched(v, w, q, l.size[q])
  {
    HeadOutside(l, q, p);
    HeadOutside(l, q, n);
  }

  lemma AllocTag(v: Mem, w: Mem, l: Layout, p: int, x: int)
    requires Shape(l) && Tags(v, l) && p in l.size && p !in l.live && x in l.size
    requires var s := l.size[p]; w == v[p + HEAD := s + PINUSE + CINUSE][p + s + HEAD := SetPinuse(v[p + s + HEAD])]
    ensures TagOK(w, l.(live := l.live + {p}), x)
  {
    var n := p + l.size[p];
    TagFacts(v, l, p);
    assert TagOK(v, l, x);
    FootWord(l, x, p);
    FootWord(l, x, n);
    PrevUnique(l, x, p);
    ChunkFits(l, x);
    HeadFields(l.size[x], Pin(l, x), x in l.live);
  }


  // ---- a free chunk is split: its front becomes used, the rest stays free ----

  ghost predicate SplitWrites(v: Mem, w: Mem, p: int, nb: int, rs: int) {
    && w[p + HEAD] == nb + PINUSE + CINUSE
    && w[p + nb + HEAD] == rs + PINUSE && w[p + nb + rs] == rs
    && forall a :: a != p + HEAD && a != p + nb + HEAD && a != p + nb + rs ==> w[a] == v[a]
  }

  lemma AllocSplit(v: Mem, w: Mem, l: Layout, p: int, nb: int)
    requires Shape(l) && Tags(v, l) && CanSplit(l, p, nb) && p !in l.live
    requires SplitWrites(v, w, p, nb, l.size[p] - nb)
    ensures var l' := Split(l, p, nb).(live := l.live + {p});
            && Shape(l') && Tags(w, l')
            && forall q :: q in l.size && q != p ==> Untouched(v, w, q, l.size[q])
  {
    hide Tiling, TagOK, NextLive, Untouched, SplitWrites, Pin;
    var l' := Split(l, p, nb).(live := l.live + {p});
    TagFacts(v, l, p);
    SplitTiling(l, p, nb, l'.live);
    forall x | x in l'.size ensures TagOK(w, l', x) {
      SplitTag(v, w, l, p, nb, x);
    }
    forall x | x in l'.size && x !in l'.live ensures NextLive(l', x) {
      SplitNext(l, p, nb, x);
    }
    forall q | q in l.size && q != p ensures Untouched(v, w, q, l.size[q]) {
      SplitUntouch(v, w, l, p, nb, q);
    }
    SplitTail(v, w, l, p, nb);
  }

  lemma SplitTail(v: Mem, w: Mem, l: Layout, p: int, nb: int)
    requires Shape(l) && Tags(v, l) && CanSplit(l, p, nb) && SplitWrites(v, w, p, nb, l.size[p] - nb)
    ensures w[l.top + HEAD] == v[l.top + HEAD] && w[l.end + HEAD] == v[l.end + HEAD]
  {
    ChunkFits(l, p);
  }

  lemma SplitTag(v: Mem, w: Mem, l: Layout, p: int, nb: int, x: int)
    requires Shape(l) && Tags(v, l) && CanSplit(l, p, nb) && p !in l.live
    requires SplitWrites(v, w, p, nb, l.size[p] - nb) && x in Split(l, p, nb).size
    ensures TagOK(w, Split(l, p, nb).(live := l.live + {p}), x)
  {
    var l', r, n := Split(l, p, nb).(live := l.live + {p}), p + nb, p + l.size[p];
    TagFacts(v, l, p);
    InsideNot(l, p, r);
    if x != p && x != r {
      assert TagOK(v, l, x);
      PrevUnique(l, x, p);
      NotLive(l, r);
      OtherTag(v, w, l, p, nb, x);
      assert Pin(l', x) == Pin(l, x);
    }
  }

  lemma NotLive(l: Layout, r: int)
    requires Tiling(l) && r !in l.size
    ensures r !in l.live
  {
  }

  /** No chunk starts inside another. */
  lemma InsideNot(l: Layout, p: int, r: int)
    requires Tiling(l) && p in l.size && p < r < p + l.size[p]
    ensures r !in l.size && r != l.top
  {
    ChunkFits(l, p);
    if r in l.size {
      Apart2(l, p, r);
    }
  }

  lemma OtherTag(v: Mem, w: Mem, l: Layout, p: int, nb: int, x: int)
    requires Tiling(l) && CanSplit(l, p, nb) && SplitWrites(v, w, p, nb, l.size[p] - nb) && x in l.size && x != p
    ensures w[x + HEAD] == v[x + HEAD] && w[x + l.size[x]] == v[x + l.size[x]]
  {
    ChunkFits(l, x);
    ChunkFits(l, p);
    if x < p {
      Apart2(l, x, p);
    } else {
      Apart2(l, p, x);
    }
  }

  lemma SplitNext(l: Layout, p: int, nb: int, x: int)
    requires Shape(l) && CanSplit(l, p, nb) && p !in l.live && x in Split(l, p, nb).size && x !in l.live + {p}
    ensures NextLive(Split(l, p, nb).(live := l.live + {p}), x)
  {
    assert NextLive(l, p);
    if x != p + nb {
      assert NextLive(l, x);
    }
  }

  lemma SplitUntouch(v: Mem, w: Mem, l: Layout, p: int, nb: int, q: int)
    requires Tiling(l) && CanSplit(l, p, nb) && SplitWrites(v, w, p, nb, l.size[p] - nb) && q in l.size && q != p
    ensures Untouched(v, w, q, l.size[q])
  {
    HeadOutside(l, q, p);
    RegionOutside(l, q, p, p + nb + HEAD);
    RegionOutside(l, q, p, p + l.size[p]);
  }

  // ---- a chunk is taken from the front of top ----

  ghost predicate TopWrites(v: Mem, w: Mem, p: int, nb: int, rs: int) {
    && w[p + HEAD] == nb + PINUSE + CINUSE && w[p + nb + HEAD] == rs + PINUSE
    && forall a :: a != p + HEAD && a != p + nb + HEAD ==> w[a] == v[a]
  }

  lemma AllocTop(v: Mem, w: Mem, l: Layout, nb: int)
    requires Shape(l) && Tags(v, l) && CanTake(l, nb) && TopWrites(v, w, l.top, nb, l.end - l.top - nb)
    ensures var l' := TakeTop(l, nb);
            && Shape(l') && Tags(w, l')
            && forall q :: q in l.size ==> Untouched(v, w, q, l.size[q])
  {
    hide Tiling, TagOK, NextLive, Untouched, Pin;
    var l' := TakeTop(l, nb);
    TakeTopTiling(l, nb);
    forall x | x in l'.size ensures TagOK(w, l', x) {
      TopTag(v, w, l, nb, x);
    }
    forall x | x in l'.size && x !in l'.live ensures NextLive(l', x) {
      assert NextLive(l, x);
      TopNext(l, nb, x);
    }
    forall q | q in l.size ensures Untouched(v, w, q, l.size[q]) {
      TopUntouch(v, w, l, nb, q);
    }
  }

  lemma TopNext(l: Layout, nb: int, x: int)
    requires Shape(l) && CanTake(l, nb) && x in l.size && NextLive(l, x)
    ensures NextLive(TakeTop(l, nb), x)
  {
    TopNotChunk(l);
  }

  lemma TopTag(v: Mem, w: Mem, l: Layout, nb: int, x: int)
    requires Shape(l) && Tags(v, l) && CanTake(l, nb) && TopWrites(v, w, l.top, nb, l.end - l.top - nb)
    requires x in TakeTop(l, nb).size
    ensures TagOK(w, TakeTop(l, nb), x)
  {
    TopNotChunk(l);
    if x == l.top {
      TopPinned(l);
    } else {
      assert TagOK(v, l, x);
      ChunkFits(l, x);
      if x != l.base {
        assert PrevOK(l, x);
      }
    }
  }

  /** The chunk before top is in use. */
  lemma TopPinned(l: Layout)
    requires Shape(l)
    ensures Pin(l, l.top) && l.top !in l.size
  {
    TopNotChunk(l);
    if l.top != l.base {
      assert PrevOK(l, l.top);
      var z := l.prev[l.top];
      if z !in l.live {
        RightNeighbour(l, z);
      }
    }
  }

  lemma RightNeighbour(l: Layout, z: int)
    requires Coalesced(l) && z in l.size && z !in l.live
    ensures z + l.size[z] in l.live
  {
    assert NextLive(l, z);
  }

  lemma TopUntouch(v: Mem, w: Mem, l: Layout, nb: int, q: int)
    requires Tiling(l) && CanTake(l, nb) && TopWrites(v, w, l.top, nb, l.end - l.top - nb) && q in l.size
    ensures Untouched(v, w, q, l.size[q])
  {
    ChunkFits(l, q);
  }

  // ---- a used chunk is freed and merged with its free neighbours ----

  /** a..e is the used chunk p together with the free chunks around it. */
  ghost predicate FreeRun(l: Layout, p: int, a: int, e: int) {
    && p in l.live && a in l.size && a <= p < e && Boundary(l, e) && Pin(l, a)
    && forall x :: x in l.size && a <= x < e && x != p ==> x !in l.live
  }

  ghost predicate FreeWrites(v: Mem, w: Mem, a: int, e: int) {
    && w[a + HEAD] == e - a + PINUSE && w[e] == e - a && w[e + HEAD] == ClearPinuse(v[e + HEAD])
    && forall x :: x != a + HEAD && x != e && x != e + HEAD ==> w[x] == v[x]
  }

  lemma FreeMerge(v: Mem, w: Mem, l: Layout, p: int, a: int, e: int)
    requires Shape(l) && Tags(v, l) && FreeRun(l, p, a, e) && e in l.live && FreeWrites(v, w, a, e)
    ensures var l' := Merge(l, a, e);
            && Shape(l') && Tags(w, l') && l'.live == l.live - {p}
            && forall q :: q in l.size && (q < a || e <= q) ==> Untouched(v, w, q, l.size[q])
  {
    hide Tiling, TagOK, NextLive, Untouched, FreeWrites, Pin, PrevOK;
    var l' := Merge(l, a, e);
    LiveChunks(l);
    MergeTiling(l, a, e);
    forall x | x in l'.size ensures TagOK(w, l', x) {
      MergeTag(v, w, l, p, a, e, x);
    }
    forall x | x in l'.size && x !in l'.live ensures NextLive(l', x) {
      MergeNext(l, p, a, e, x);
    }
    forall q | q in l.size && (q < a || e <= q) ensures Untouched(v, w, q, l.size[q]) {
      MergeUntouch(v, w, l, a, e, q);
    }
    TopWords(l, e);
    Reaches(l, a, e);
    MergeTop(v, w, l, a, e);
  }

  lemma LiveChunks(l: Layout)
    requires Tiling(l)
    ensures l.live <= l.size.Keys
  {
  }

  lemma MergeTop(v: Mem, w: Mem, l: Layout, a: int, e: int)
    requires Tiling(l) && a in l.size && e in l.size && a < e && FreeWrites(v, w, a, e)
    ensures w[l.top + HEAD] == v[l.top + HEAD] && w[l.end + HEAD] == v[l.end + HEAD]
  {
    ChunkFits(l, e);
  }

  lemma MergeTag(v: Mem, w: Mem, l: Layout, p: int, a: int, e: int, x: int)
    requires Shape(l) && Tags(v, l) && FreeRun(l, p, a, e) && e in l.live && FreeWrites(v, w, a, e)
    requires x in Merge(l, a, e).size
    ensures TagOK(w, Merge(l, a, e), x)
  {
    hide Tags, Coalesced;
    var l' := Merge(l, a, e);
    LiveChunks(l);
    Reaches(l, a, e);
    if x == a {
      MergedPin(l, p, a, e);
    } else {
      TagOf(v, l, x);
      OutsideWords(v, w, l, a, e, x);
      ChunkFits(l, x);
      HeadFields(l.size[x], Pin(l, x), x in l.live);
      OutsidePin(l, p, a, e, x);
    }
  }

  lemma TagOf(v: Mem, l: Layout, x: int)
    requires Tags(v, l) && x in l.size
    ensures TagOK(v, l, x)
  {
  }

  lemma MergedPin(l: Layout, p: int, a: int, e: int)
    requires Tiling(l) && FreeRun(l, p, a, e) && e in l.size
    ensures Pin(Merge(l, a, e), a) && a !in Merge(l, a, e).live
  {
    if a != l.base {
      assert PrevOK(l, a);
      ChunkFits(l, l.prev[a]);
    }
  }

  /** Outside a..e only the chunk at e sees another left neighbour. */
  lemma OutsidePin(l: Layout, p: int, a: int, e: int, x: int)
    requires Tiling(l) && FreeRun(l, p, a, e) && e in l.size && x in Merge(l, a, e).size && x != a
    ensures Pin(Merge(l, a, e), x) == (x != e && Pin(l, x))
    ensures x in Merge(l, a, e).live <==> x in l.live
  {
    var l' := Merge(l, a, e);
    ChunkFits(l, a);
    if x != l.base && x != e {
      assert PrevOK(l, x);
      var z := l.prev[x];
      ChunkFits(l, z);
      if a <= z < e {
        Apart2(l, z, e);
      }
    }
  }

  lemma OutsideWords(v: Mem, w: Mem, l: Layout, a: int, e: int, x: int)
    requires Tiling(l) && a in l.size && e in l.size && a < e && FreeWrites(v, w, a, e)
    requires x in l.size && (x < a || e <= x)
    ensures x != e ==> w[x + HEAD] == v[x + HEAD]
    ensures x == e ==> w[x + HEAD] == ClearPinuse(v[x + HEAD])
    ensures w[x + l.size[x]] == v[x + l.size[x]]
  {
    ChunkFits(l, x);
    ChunkFits(l, a);
    ChunkFits(l, e);
    if x < a {
      Apart2(l, x, a);
    } else if e < x {
      Apart2(l, e, x);
    }
  }

  lemma MergeNext(l: Layout, p: int, a: int, e: int, x: int)
    requires Shape(l) && FreeRun(l, p, a, e) && e in l.live && x in Merge(l, a, e).size && x !in Merge(l, a, e).live
    ensures NextLive(Merge(l, a, e), x)
  {
    if x != a {
      assert NextLive(l, x);
      ChunkFits(l, x);
      var n := x + l.size[x];
      PrevUnique(l, n, x);
      if x < a {
        Apart2(l, x, a);
      }
    }
  }

  lemma MergeUntouch(v: Mem, w: Mem, l: Layout, a: int, e: int, q: int)
    requires Tiling(l) && a in l.size && e in l.size && a < e && FreeWrites(v, w, a, e)
    requires q in l.size && (q < a || e <= q)
    ensures Untouched(v, w, q, l.size[q])
  {
    HeadOutside(l, q, a);
    HeadOutside(l, q, e);
    Reaches(l, a, e);
    ChunkFits(l, a);
    if q < a {
      Apart2(l, q, a);
    }
  }

  // ---- a used chunk at the end is freed into top ----

  ghost predicate ToTopWrites(v: Mem, w: Mem, a: int, ts: int) {
    w[a + HEAD] == ts + PINUSE && forall x :: x != a + HEAD ==> w[x] == v[x]
  }

  lemma FreeToTop(v: Mem, w: Mem, l: Layout, p: int, a: int)
    requires Shape(l) && Tags(v, l) && FreeRun(l, p, a, l.top) && ToTopWrites(v, w, a, l.end - a)
    ensures var l' := GiveTop(l, a);
            && Shape(l') && Tags(w, l') && l'.live == l.live - {p}
            && forall q :: q in l.size && q < a ==> Untouched(v, w, q, l.size[q])
  {
    hide TagOK, NextLive, Untouched, Pin, PrevOK;
    var l' := GiveTop(l, a);
    ChunkFits(l, a);
    GiveTopTiling(l, a);
    forall x | x in l'.size ensures TagOK(w, l', x) {
      GiveTag(v, w, l, p, a, x);
    }
    forall x | x in l'.size && x !in l'.live ensures NextLive(l', x) {
      GiveNext(l, p, a, x);
    }
    forall q | q in l.size && q < a ensures Untouched(v, w, q, l.size[q]) {
      HeadsUntouch(v, w, l, q, a, a);
    }
    forall x | x in l.live && x >= a ensures x == p {
      ChunkFits(l, x);
    }
  }

  lemma GiveTag(v: Mem, w: Mem, l: Layout, p: int, a: int, x: int)
    requires Shape(l) && Tags(v, l) && FreeRun(l, p, a, l.top) && ToTopWrites(v, w, a, l.end - a)
    requires x in l.size && x < a
    ensures TagOK(w, GiveTop(l, a), x)
  {
    assert TagOK(v, l, x);
    FootWord(l, x, a);
    if x != l.base {
      assert PrevOK(l, x);
      ChunkFits(l, l.prev[x]);
    }
  }

  lemma GiveNext(l: Layout, p: int, a: int, x: int)
    requires Shape(l) && FreeRun(l, p, a, l.top) && x in l.size && x < a && x !in l.live
    ensures NextLive(GiveTop(l, a), x)
  {
    assert NextLive(l, x);
    Apart2(l, x, a);
    PrevUnique(l, x + l.size[x], x);
  }

  // ---- a used chunk is cut in two used chunks ----

  ghost predicate CutWrites(v: Mem, w: Mem, l: Layout, p: int, nb: int)
    requires p in l.size
  {
    && w[p + HEAD] == nb + (if Pin(l, p) then PINUSE else 0) + CINUSE
    && w[p + nb + HEAD] == l.size[p] - nb + PINUSE + CINUSE
    && forall a :: a != p + HEAD && a != p + nb + HEAD ==> w[a] == v[a]
  }

  lemma CutLive(v: Mem, w: Mem, l: Layout, p: int, nb: int)
    requires Shape(l) && Tags(v, l) && CanSplit(l, p, nb) && p in l.live && CutWrites(v, w, l, p, nb)
    ensures var l' := Split(l, p, nb).(live := l.live + {p + nb});
            && Shape(l') && Tags(w, l')
            && forall q :: q in l.size && q != p ==> Untouched(v, w, q, l.size[q])
    ensures forall a :: p + 8 <= a < p + nb + 4 ==> w[a] == v[a]
  {
    hide Tiling, TagOK, NextLive, Untouched, Pin;
    var l' := Split(l, p, nb).(live := l.live + {p + nb});
    SplitTiling(l, p, nb, l'.live);
    forall x | x in l'.size ensures TagOK(w, l', x) {
      CutTag(v, w, l, p, nb, x);
    }
    forall x | x in l'.size && x !in l'.live ensures NextLive(l', x) {
      StillNextLive(l, l'.live, x);
      CutNext(l, p, nb, x);
    }
    forall q | q in l.size && q != p ensures Untouched(v, w, q, l.size[q]) {
      CutUntouch(v, w, l, p, nb, q);
    }
    TopWords(l, p);
    ChunkFits(l, p);
  }

  lemma CutNext(l: Layout, p: int, nb: int, x: int)
    requires Shape(l) && CanSplit(l, p, nb) && p in l.live && x in l.size && x !in l.live
    ensures NextLive(Split(l, p, nb).(live := l.live + {p + nb}), x)
  {
    assert NextLive(l, x);
    InsideNot(l, p, p + nb);
  }

  lemma CutTag(v: Mem, w: Mem, l: Layout, p: int, nb: int, x: int)
    requires Shape(l) && Tags(v, l) && CanSplit(l, p, nb) && p in l.live && CutWrites(v, w, l, p, nb)
    requires x in Split(l, p, nb).size
    ensures TagOK(w, Split(l, p, nb).(live := l.live + {p + nb}), x)
  {
    hide Tags, Coalesced;
    var l', r, n := Split(l, p, nb).(live := l.live + {p + nb}), p + nb, p + l.size[p];
    InsideNot(l, p, r);
    if x == p {
      PrevUnique(l, p, p);
      CutPin(l, p, nb, p);
    } else if x != r {
      TagOf(v, l, x);
      CutOther(v, w, l, p, nb, x);
      CutPin(l, p, nb, x);
    }
  }

  lemma CutPin(l: Layout, p: int, nb: int, x: int)
    requires Shape(l) && CanSplit(l, p, nb) && p in l.live && x in l.size
    ensures Pin(Split(l, p, nb).(live := l.live + {p + nb}), x) == Pin(l, x)
  {
    InsideNot(l, p, p + nb);
    PrevUnique(l, x, p);
  }

  lemma CutOther(v: Mem, w: Mem, l: Layout, p: int, nb: int, x: int)
    requires Tiling(l) && CanSplit(l, p, nb) && CutWrites(v, w, l, p, nb) && x in l.size && x != p
    ensures w[x + HEAD] == v[x + HEAD] && w[x + l.size[x]] == v[x + l.size[x]]
  {
    ChunkFits(l, x);
    ChunkFits(l, p);
    if x < p {
      Apart2(l, x, p);
    } else {
      Apart2(l, p, x);
    }
  }

  lemma CutUntouch(v: Mem, w: Mem, l: Layout, p: int, nb: int, q: int)
    requires Tiling(l) && CanSplit(l, p, nb) && CutWrites(v, w, l, p, nb) && q in l.size && q != p
    ensures Untouched(v, w, q, l.size[q])
  {
    HeadOutside(l, q, p);
    RegionOutside(l, q, p, p + nb + HEAD);
  }

  // ---- a used chunk next to top grows into it ----

  ghost predicate GrowWrites(v: Mem, w: Mem, l: Layout, p: int, nb: int)
    requires p in l.size
  {
    && w[p + HEAD] == nb + (if Pin(l, p) then PINUSE else 0) + CINUSE
    && w[p + nb + HEAD] == l.end - p - nb + PINUSE
    && forall a :: a != p + HEAD && a != p + nb + HEAD ==> w[a] == v[a]
  }

  lemma GrowLive(v: Mem, w: Mem, l: Layout, p: int, nb: int)
    requires Shape(l) && Tags(v, l) && CanGrow(l, p, nb) && l.size[p] < nb && p in l.live && GrowWrites(v, w, l, p, nb)
    ensures var l' := GrowLast(l, p, nb);
            && Shape(l') && Tags(w, l')
            && forall q :: q in l.size ==> Untouched(v, w, q, l.size[q])
  {
    hide TagOK, NextLive, Untouched, Pin, PrevOK;
    var l' := GrowLast(l, p, nb);
    GrowLastTiling(l, p, nb);
    ChunkFits(l, p);
    forall x | x in l'.size ensures TagOK(w, l', x) {
      GrowTag(v, w, l, p, nb, x);
    }
    forall x | x in l'.size && x !in l'.live ensures NextLive(l', x) {
      GrowNext(l, p, nb, x);
    }
    forall q | q in l.size ensures Untouched(v, w, q, l.size[q]) {
      GrowUntouch(v, w, l, p, nb, q);
    }
  }

  lemma GrowTag(v: Mem, w: Mem, l: Layout, p: int, nb: int, x: int)
    requires Shape(l) && Tags(v, l) && CanGrow(l, p, nb) && p in l.live && GrowWrites(v, w, l, p, nb) && x in l.size
    ensures TagOK(w, GrowLast(l, p, nb), x)
  {
    var l' := GrowLast(l, p, nb);
    assert TagOK(v, l, x);
    ChunkFits(l, x);
    ChunkFits(l, p);
    FootWord(l, x, p);
    if x != l.base {
      assert PrevOK(l, x);
    }
  }

  lemma GrowNext(l: Layout, p: int, nb: int, x: int)
    requires Shape(l) && CanGrow(l, p, nb) && p in l.live && x in l.size && x !in l.live
    ensures NextLive(GrowLast(l, p, nb), x)
  {
    assert NextLive(l, x);
  }

  lemma GrowUntouch(v: Mem, w: Mem, l: Layout, p: int, nb: int, q: int)
    requires Tiling(l) && CanGrow(l, p, nb) && l.size[p] < nb && GrowWrites(v, w, l, p, nb) && q in l.size
    ensures Untouched(v, w, q, l.size[q])
  {
    HeadOutside(l, q, p);
    ChunkFits(l, q);
  }

  // ---- the segment grows at its end, or is set up ----

  ghost predicate InitTopWrites(v: Mem, w: Mem, top: int, ts: int) {
    && w[top + HEAD] == ts + PINUSE && w[top + ts + HEAD] == TOP_FOOT_SIZE
    && forall a :: a != top + HEAD && a != top + ts + HEAD ==> w[a] == v[a]
  }

  lemma ExtendTop(v: Mem, w: Mem, l: Layout, end: int)
    requires Shape(l) && Tags(v, l) && l.end <= end && (end - l.top) % 4 == 0 && l.top < end
    requires InitTopWrites(v, w, l.top, end - l.top)
    ensures Shape(l.(end := end)) && Tags(w, l.(end := end))
    ensures forall q :: q in l.size ==> Untouched(v, w, q, l.size[q])
  {
    hide ChunkOK, PrevOK, TagOK, NextLive, Untouched, Before;
    var l' := l.(end := end);
    forall x | x in l'.size ensures ChunkOK(l', x) && TagOK(w, l', x) {
      ExtendChunk(v, w, l, end, x);
    }
    forall q | Boundary(l', q) && q != l'.base ensures PrevOK(l', q) {
      ExtendPrev(l, end, q);
    }
    forall x | x in l'.size && x !in l'.live ensures NextLive(l', x) {
      ExtendNext(l, end, x);
    }
    forall q | q in l.size ensures Untouched(v, w, q, l.size[q]) {
      ExtendUntouch(v, w, l, end, q);
    }
  }

  lemma ExtendChunk(v: Mem, w: Mem, l: Layout, end: int, x: int)
    requires Tiling(l) && Tags(v, l) && x in l.size && l.top < end && InitTopWrites(v, w, l.top, end - l.top)
    ensures ChunkOK(l.(end := end), x) && TagOK(w, l.(end := end), x)
  {
    assert ChunkOK(l, x);
    assert TagOK(v, l, x);
  }

  lemma ExtendPrev(l: Layout, end: int, q: int)
    requires Tiling(l) && Boundary(l, q) && q != l.base
    ensures PrevOK(l.(end := end), q)
  {
    assert PrevOK(l, q);
  }

  lemma ExtendNext(l: Layout, end: int, x: int)
    requires Coalesced(l) && x in l.size && x !in l.live
    ensures NextLive(l.(end := end), x)
  {
    assert NextLive(l, x);
  }

  lemma ExtendUntouch(v: Mem, w: Mem, l: Layout, end: int, q: int)
    requires Tiling(l) && q in l.size && l.top < end && InitTopWrites(v, w, l.top, end - l.top)
    ensures Untouched(v, w, q, l.size[q])
  {
    ChunkFits(l, q);
  }

  lemma FirstTop(v: Mem, w: Mem, base: int, end: int)
    requires 0 < base < end && base % 8 == 0 && (end - base) % 4 == 0
    requires InitTopWrites(v, w, base, end - base)
    ensures var l := Layout(base, base, end, map[], map[], {}); Shape(l) && Tags(w, l)
  {
  }
}
