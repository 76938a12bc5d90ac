/** The segment as a sequence of adjacent chunks, and the tags (heads and feet) that describe it. */
module Layouts {
  import opened Words
  import opened Memory

  /** base..top is tiled by chunks; `size` gives each its size, `prev` its left neighbour (for top too),
      `live` the ones in use.  The top chunk runs from top to end. */
  datatype Layout = Layout(base: int, top: int, end: int, size: map<int, int>, prev: map<int, int>, live: set<int>)

  ghost predicate Boundary(l: Layout, q: int) {
    q in l.size || q == l.top
  }

  ghost predicate ChunkOK(l: Layout, p: int)
    requires p in l.size
  {
    && l.base <= p && p % 8 == 0 && l.size[p] >= 16 && l.size[p] % 8 == 0
    && p + l.size[p] <= l.top && Boundary(l, p + l.size[p])
  }

  /** Chunks do not overlap. */
  ghost predicate Disjoint(size: map<int, int>) {
    forall p, q {:trigger Before(size, p, q)} :: p in size && q in size && p < q ==> Before(size, p, q)
  }

  ghost predicate Before(size: map<int, int>, p: int, q: int)
    requires p in size
  {
    p + size[p] <= q
  }

  ghost predicate PrevOK(l: Layout, q: int) {
    q in l.prev && l.prev[q] in l.size && l.prev[q] + l.size[l.prev[q]] == q
  }

  ghost predicate NextLive(l: Layout, p: int)
    requires p in l.size
  {
    p + l.size[p] in l.live
  }

  /** The chunks tile base..top, and every chunk but the first knows its left neighbour. */
  ghost predicate Tiling(l: Layout) {
    && 0 < l.base <= l.top <= l.end && l.base % 8 == 0 && l.top % 8 == 0 && (l.end - l.top) % 4 == 0
    && Boundary(l, l.base) && l.live <= l.size.Keys
    && (forall p {:trigger ChunkOK(l, p)} :: p in l.size ==> ChunkOK(l, p))
    && Disjoint(l.size)
    && (forall q {:trigger PrevOK(l, q)} :: Boundary(l, q) && q != l.base ==> PrevOK(l, q))
  }

  /** The right neighbour of a free chunk is in use: no two free chunks touch, and none touches top. */
  ghost predicate Coalesced(l: Layout) {
    forall p {:trigger NextLive(l, p)} :: p in l.size && p !in l.live ==> NextLive(l, p)
  }

  ghost predicate Shape(l: Layout) {
    Tiling(l) && Coalesced(l)
  }

  /** The pinuse bit of the chunk (or top) at q: its left neighbour is in use, or there is none. */
  ghost predicate Pin(l: Layout, q: int) {
    q == l.base || (q in l.prev && l.prev[q] in l.live)
  }

  ghost function HeadOf(l: Layout, p: int): int
    requires p in l.size
  {
    l.size[p] + (if Pin(l, p) then PINUSE else 0) + (if p in l.live then CINUSE else 0)
  }

  ghost predicate TagOK(w: Mem, l: Layout, p: int)
    requires p in l.size
  {
    w[p + HEAD] == HeadOf(l, p) && (p !in l.live ==> w[p + l.size[p]] == l.size[p])
  }

  const TOP_FOOT_SIZE: int := 40

  /** Every head tells size and in-use bits, every free chunk's foot its size; top's head and the
      fake head behind it are set. */
  ghost predicate Tags(w: Mem, l: Layout) {
    && (forall p {:trigger TagOK(w, l, p)} :: p in l.size ==> TagOK(w, l, p))
    && w[l.top + HEAD] == l.end - l.top + PINUSE
    && w[l.end + HEAD] == TOP_FOOT_SIZE
  }

  /** The words of chunk q that are neither its head nor anyone else's: its payload and, while it is
      in use, the foot word it lends to the user. */
  ghost predicate Untouched(v: Mem, w: Mem, q: int, s: int) {
    forall a :: q + 8 <= a < q + s + 4 ==> w[a] == v[a]
  }

  lemma Apart2(l: Layout, p: int, q: int)
    requires Tiling(l) && p in l.size && q in l.size && p < q
    ensures p + l.size[p] <= q
  {
    assert Before(l.size, p, q);
  }

  lemma ChunkFits(l: Layout, p: int)
    requires Tiling(l) && p in l.size
    ensures l.base <= p && p % 8 == 0 && l.size[p] >= 16 && l.size[p] % 8 == 0 && p + l.size[p] <= l.top
    ensures Boundary(l, p + l.size[p])
  {
    assert ChunkOK(l, p);
  }

  /** The head word of a chunk, or of top, is in no chunk's body. */
  lemma HeadOutside(l: Layout, q: int, x: int)
    requires Tiling(l) && q in l.size && Boundary(l, x)
    ensures x + HEAD < q + 8 || q + l.size[q] + 4 <= x + HEAD
  {
    assert ChunkOK(l, q);
    if x in l.size && q < x {
      Apart2(l, q, x);
    }
  }

  /** Any word from within chunk z, head and foot included, is in no other chunk's body. */
  lemma RegionOutside(l: Layout, q: int, z: int, a: int)
    requires Tiling(l) && q in l.size && z in l.size && q != z && z + 4 <= a <= z + l.size[z]
    ensures a < q + 8 || q + l.size[q] + 4 <= a
  {
    if q < z {
      Apart2(l, q, z);
    } else {
      Apart2(l, z, q);
    }
  }

  /** What the tags say about the chunk at p. */
  lemma TagFacts(w: Mem, l: Layout, p: int)
    requires Shape(l) && Tags(w, l) && p in l.size
    ensures ChunkSize(w[p + HEAD]) == l.size[p] && Cinuse(w[p + HEAD]) == (p in l.live) && Pinuse(w[p + HEAD]) == Pin(l, p)
    ensures p % 8 == 0 && l.size[p] >= 16 && l.size[p] % 8 == 0 && l.base <= p && p + l.size[p] <= l.top
    ensures !Pin(l, p) ==> var q := p - w[p]; q in l.size && q !in l.live && q + l.size[q] == p && w[p] == l.size[q]
    ensures p !in l.live ==> Pin(l, p) && p + l.size[p] in l.live && w[p + l.size[p]] == l.size[p]
    ensures l.live <= l.size.Keys
  {
    assert ChunkOK(l, p);
    assert TagOK(w, l, p);
    HeadFields(l.size[p], Pin(l, p), p in l.live);
    if p != l.base {
      assert PrevOK(l, p);
      var q := l.prev[p];
      if q !in l.live {
        assert NextLive(l, q);
        assert TagOK(w, l, q);
      }
    }
    if p !in l.live {
      assert NextLive(l, p);
    }
  }

  // ---- how the layout changes ----

  /** Cut nb bytes off the front of chunk p. */
  function Split(l: Layout, p: int, nb: int): Layout
    requires p in l.size
  {
    l.(size := l.size[p := nb][p + nb := l.size[p] - nb], prev := l.prev[p + nb := p][p + l.size[p] := p + nb])
  }

  /** One free chunk from a to e. */
  ghost function Merge(l: Layout, a: int, e: int): Layout {
    l.(size := (map x | x in l.size && !(a < x < e) :: if x == a then e - a else l.size[x]),
       prev := l.prev[e := a],
       live := (set x | x in l.live && !(a <= x < e)))
  }

  /** A chunk of nb bytes in use, taken from the front of top. */
  function TakeTop(l: Layout, nb: int): Layout {
    l.(size := l.size[l.top := nb], prev := l.prev[l.top + nb := l.top], top := l.top + nb, live := l.live + {l.top})
  }

  /** Everything from a on becomes part of top. */
  ghost function GiveTop(l: Layout, a: int): Layout {
    l.(size := (map x | x in l.size && x < a :: l.size[x]), live := (set x | x in l.live && x < a), top := a)
  }

  /** The last chunk p takes what it needs from top, to a size of nb. */
  function GrowLast(l: Layout, p: int, nb: int): Layout {
    l.(size := l.size[p := nb], prev := l.prev[p + nb := p], top := p + nb)
  }

  ghost predicate CanSplit(l: Layout, p: int, nb: int) {
    p in l.size && nb % 8 == 0 && 16 <= nb <= l.size[p] - 16
  }

  lemma SplitTiling(l: Layout, p: int, nb: int, live: set<int>)
    requires Tiling(l) && CanSplit(l, p, nb) && live <= l.live + {p, p + nb}
    ensures Tiling(Split(l, p, nb).(live := live))
  {
    hide ChunkOK, Before, PrevOK;
    var l0 := Split(l, p, nb);
    var l' := l0.(live := live);
    forall x | x in l'.size ensures ChunkOK(l', x) {
      SplitChunk(l, p, nb, x);
      LiveChunk(l0, live, x);
    }
    forall x, y | x in l'.size && y in l'.size && x < y ensures Before(l'.size, x, y) {
      SplitBefore(l, p, nb, x, y);
    }
    forall q | Boundary(l', q) && q != l'.base ensures PrevOK(l', q) {
      SplitPrev(l, p, nb, q);
      LivePrev(l0, live, q);
    }
    SplitBase(l, p, nb);
  }

  lemma LiveChunk(l: Layout, live: set<int>, x: int)
    requires x in l.size && ChunkOK(l, x)
    ensures ChunkOK(l.(live := live), x)
  {
  }

  lemma LivePrev(l: Layout, live: set<int>, q: int)
    requires PrevOK(l, q)
    ensures PrevOK(l.(live := live), q)
  {
  }

  lemma SplitBase(l: Layout, p: int, nb: int)
    requires Tiling(l) && CanSplit(l, p, nb)
    ensures var l' := Split(l, p, nb); Boundary(l', l.base) && l'.size.Keys == l.size.Keys + {p, p + nb}
  {
  }

  lemma SplitChunk(l: Layout, p: int, nb: int, x: int)
    requires Tiling(l) && CanSplit(l, p, nb) && x in Split(l, p, nb).size
    ensures ChunkOK(Split(l, p, nb), x)
  {
    assert ChunkOK(l, p);
    if x != p && x != p + nb {
      assert ChunkOK(l, x);
    }
  }

  lemma SplitBefore(l: Layout, p: int, nb: int, x: int, y: int)
    requires Tiling(l) && CanSplit(l, p, nb) && x in Split(l, p, nb).size && y in Split(l, p, nb).size && x < y
    ensures Before(Split(l, p, nb).size, x, y)
  {
    var x0, y0 := if x == p + nb then p else x, if y == p + nb then p else y;
    if x0 < y0 {
      Apart2(l, x0, y0);
    }
    if y0 < x0 {
      Apart2(l, y0, x0);
    }
  }

  lemma SplitPrev(l: Layout, p: int, nb: int, q: int)
    requires Tiling(l) && CanSplit(l, p, nb) && Boundary(Split(l, p, nb), q) && q != l.base
    ensures PrevOK(Split(l, p, nb), q)
  {
    if q != p + nb {
      assert PrevOK(l, q);
      var z := l.prev[q];
      if p < z {
        Apart2(l, p, z);
      }
    }
  }

  lemma MergeTiling(l: Layout, a: int, e: int)
    requires Tiling(l) && a in l.size && Boundary(l, e) && a < e
    ensures Tiling(Merge(l, a, e))
  {
    hide ChunkOK, Before, PrevOK;
    var l' := Merge(l, a, e);
    MergeBase(l, a, e);
    forall x | x in l'.size ensures ChunkOK(l', x) {
      MergeChunk(l, a, e, x);
    }
    forall x, y | x in l'.size && y in l'.size && x < y ensures Before(l'.size, x, y) {
      MergeBefore(l, a, e, x, y);
    }
    forall q | Boundary(l', q) && q != l'.base ensures PrevOK(l', q) {
      MergePrev(l, a, e, q);
    }
  }

  lemma MergeBase(l: Layout, a: int, e: int)
    requires Tiling(l) && a in l.size && Boundary(l, e) && a < e
    ensures var l' := Merge(l, a, e); Boundary(l', l.base) && l'.live <= l'.size.Keys
  {
    Reaches(l, a, e);
    assert ChunkOK(l, a);
  }

  lemma MergeBefore(l: Layout, a: int, e: int, x: int, y: int)
    requires Tiling(l) && a in l.size && Boundary(l, e) && a < e
    requires x in Merge(l, a, e).size && y in Merge(l, a, e).size && x < y
    ensures Before(Merge(l, a, e).size, x, y)
  {
    Apart2(l, x, y);
  }

  lemma MergeChunk(l: Layout, a: int, e: int, x: int)
    requires Tiling(l) && a in l.size && Boundary(l, e) && a < e && x in Merge(l, a, e).size
    ensures ChunkOK(Merge(l, a, e), x)
  {
    Reaches(l, a, e);
    assert ChunkOK(l, x);
    assert ChunkOK(l, a);
    if x < a {
      Apart2(l, x, a);
    }
  }

  lemma MergePrev(l: Layout, a: int, e: int, q: int)
    requires Tiling(l) && a in l.size && Boundary(l, e) && a < e
    requires Boundary(Merge(l, a, e), q) && q != l.base
    ensures PrevOK(Merge(l, a, e), q)
  {
    Reaches(l, a, e);
    if q != e {
      assert PrevOK(l, q);
      var z := l.prev[q];
      assert ChunkOK(l, z);
      if q > e && z < e {
        if e in l.size {
          Apart2(l, z, e);
        }
      }
    }
  }

  /** Between two boundaries lie whole chunks. */
  lemma Reaches(l: Layout, a: int, e: int)
    requires Tiling(l) && a in l.size && Boundary(l, e) && a < e
    ensures a + l.size[a] <= e && e <= l.top && (e - a) % 8 == 0
  {
    assert ChunkOK(l, a);
    if e in l.size {
      assert Before(l.size, a, e);
      assert ChunkOK(l, e);
    }
  }

  ghost predicate CanTake(l: Layout, nb: int) {
    nb % 8 == 0 && 16 <= nb < l.end - l.top
  }

  lemma TakeTopTiling(l: Layout, nb: int)
    requires Tiling(l) && CanTake(l, nb)
    ensures Tiling(TakeTop(l, nb))
  {
    hide Before, PrevOK;
    var l' := TakeTop(l, nb);
    TopNotChunk(l);
    Eights(l.top, nb);
    Eights(nb, 0);
    Fours(l.end - l.top, nb);
    forall x | x in l'.size ensures ChunkOK(l', x) {
      if x != l.top {
        assert ChunkOK(l, x);
      }
    }
    forall x, y | x in l'.size && y in l'.size && x < y ensures Before(l'.size, x, y) {
      TakeBefore(l, nb, x, y);
    }
    forall q | Boundary(l', q) && q != l'.base ensures PrevOK(l', q) {
      TakePrev(l, nb, q);
    }
  }

  lemma TopNotChunk(l: Layout)
    requires Tiling(l)
    ensures l.top !in l.size
  {
    if l.top in l.size {
      ChunkFits(l, l.top);
    }
  }

  lemma TakeBefore(l: Layout, nb: int, x: int, y: int)
    requires Tiling(l) && CanTake(l, nb) && x in TakeTop(l, nb).size && y in TakeTop(l, nb).size && x < y
    ensures Before(TakeTop(l, nb).size, x, y)
  {
    if x in l.size {
      assert ChunkOK(l, x);
      if y in l.size {
        Apart2(l, x, y);
      }
    }
    if y in l.size {
      assert ChunkOK(l, y);
    }
  }

  lemma TakePrev(l: Layout, nb: int, q: int)
    requires Tiling(l) && CanTake(l, nb) && Boundary(TakeTop(l, nb), q) && q != l.base
    ensures PrevOK(TakeTop(l, nb), q)
  {
    if q != l.top + nb {
      assert PrevOK(l, q);
      TopNotChunk(l);
    }
  }

  lemma GiveTopTiling(l: Layout, a: int)
    requires Tiling(l) && a in l.size
    ensures Tiling(GiveTop(l, a))
  {
    hide Before, PrevOK;
    var l' := GiveTop(l, a);
    assert ChunkOK(l, a);
    Eights(l.top, a);
    Eights(l.top - a, 0);
    Fours(l.end - l.top, l.top - a);
    forall x | x in l'.size ensures ChunkOK(l', x) {
      assert ChunkOK(l, x);
      Apart2(l, x, a);
    }
    forall x, y | x in l'.size && y in l'.size && x < y ensures Before(l'.size, x, y) {
      GiveBefore(l, a, x, y);
    }
    forall q | Boundary(l', q) && q != l'.base ensures PrevOK(l', q) {
      GivePrev(l, a, q);
    }
  }

  lemma GiveBefore(l: Layout, a: int, x: int, y: int)
    requires Tiling(l) && a in l.size && x in GiveTop(l, a).size && y in GiveTop(l, a).size && x < y
    ensures Before(GiveTop(l, a).size, x, y)
  {
    Apart2(l, x, y);
  }

  lemma GivePrev(l: Layout, a: int, q: int)
    requires Tiling(l) && a in l.size && Boundary(GiveTop(l, a), q) && q != l.base
    ensures PrevOK(GiveTop(l, a), q)
  {
    assert PrevOK(l, q);
    assert ChunkOK(l, l.prev[q]);
  }

  ghost predicate CanGrow(l: Layout, p: int, nb: int) {
    p in l.size && p + l.size[p] == l.top && nb % 8 == 0 && l.size[p] <= nb && p + nb < l.end
  }

  lemma GrowLastTiling(l: Layout, p: int, nb: int)
    requires Tiling(l) && CanGrow(l, p, nb)
    ensures Tiling(GrowLast(l, p, nb))
  {
    hide Before, PrevOK;
    var l' := GrowLast(l, p, nb);
    assert ChunkOK(l, p);
    Eights(p, nb);
    GrownEnd(l.end - l.top, nb, l.size[p]);
    forall x | x in l'.size ensures ChunkOK(l', x) {
      GrowChunk(l, p, nb, x);
    }
    forall x, y | x in l'.size && y in l'.size && x < y ensures Before(l'.size, x, y) {
      GrowBefore(l, p, nb, x, y);
    }
    forall q | Boundary(l', q) && q != l'.base ensures PrevOK(l', q) {
      GrowPrev(l, p, nb, q);
    }
  }

  lemma GrownEnd(rest: int, nb: int, s: int)
    requires rest % 4 == 0 && nb % 8 == 0 && s % 8 == 0
    ensures (rest - (nb - s)) % 4 == 0
  {
    Eights(nb, s);
    Eights(nb - s, 0);
    Fours(rest, nb - s);
  }

  lemma GrowChunk(l: Layout, p: int, nb: int, x: int)
    requires Tiling(l) && CanGrow(l, p, nb) && x in l.size
    ensures ChunkOK(GrowLast(l, p, nb), x)
  {
    assert ChunkOK(l, p);
    assert ChunkOK(l, x);
    if x < p {
      Apart2(l, x, p);
    } else if p < x {
      Apart2(l, p, x);
    }
  }

  lemma GrowBefore(l: Layout, p: int, nb: int, x: int, y: int)
    requires Tiling(l) && CanGrow(l, p, nb) && x in l.size && y in l.size && x < y
    ensures Before(GrowLast(l, p, nb).size, x, y)
  {
    Apart2(l, x, y);
    if x == p {
      ChunkFits(l, y);
    }
  }

  lemma GrowPrev(l: Layout, p: int, nb: int, q: int)
    requires Tiling(l) && CanGrow(l, p, nb) && Boundary(GrowLast(l, p, nb), q) && q != l.base
    ensures PrevOK(GrowLast(l, p, nb), q)
  {
    if q != p + nb {
      assert PrevOK(l, q);
      var z := l.prev[q];
      if z == p {
        TopNotChunk(l);
      }
    }
  }

  lemma LiveTiling(l: Layout, live: set<int>)
    requires Tiling(l) && live <= l.size.Keys
    ensures Tiling(l.(live := live))
  {
    var l' := l.(live := live);
    forall x | x in l'.size ensures ChunkOK(l', x) {
      assert ChunkOK(l, x);
    }
    forall q | Boundary(l', q) && q != l'.base ensures PrevOK(l', q) {
      assert PrevOK(l, q);
    }
  }

  /** Chunk words are not the two head words at top and end. */
  lemma TopWords(l: Layout, p: int)
    requires Tiling(l) && p in l.size
    ensures p + HEAD < l.top + HEAD <= l.end + HEAD && p + l.size[p] <= l.top
  {
    ChunkFits(l, p);
  }

  /** A foot word is no head word. */
  lemma FootWord(l: Layout, x: int, y: int)
    requires Tiling(l) && x in l.size && Boundary(l, y)
    ensures x + l.size[x] != y + HEAD
  {
    ChunkFits(l, x);
    if y in l.size {
      ChunkFits(l, y);
    }
    assert l.top % 8 == 0;
  }

  /** p is the left neighbour exactly of the chunk that starts where p ends. */
  lemma PrevUnique(l: Layout, x: int, p: int)
    requires Tiling(l) && Boundary(l, x) && p in l.size
    ensures x != l.base ==> PrevOK(l, x)
    ensures x == p + l.size[p] ==> x != l.base && l.prev[x] == p
    ensures x != l.base && l.prev[x] == p ==> x == p + l.size[p]
  {
    ChunkFits(l, p);
    if x != l.base {
      assert PrevOK(l, x);
      var z := l.prev[x];
      ChunkFits(l, z);
      if z < p {
        Apart2(l, z, p);
      } else if p < z {
        Apart2(l, p, z);
      }
    }
  }
}
