/** internal_realloc and the copying it does. */
module Realloc {
  import opened Words
  import opened Memory
  import Bitmaps
  import opened MallocState
  import opened Layouts
  import opened LayoutOps
  import opened BinSets
  import opened HeapInv
  import opened ChunkOps
  import opened SysAlloc
  import opened Malloc
  import opened FreeChunk

  // ---- writing into a chunk in use ----

  /** Only words of the chunk in use at q, past its head, differ. */
  ghost predicate WritesOnly(v: Mem, w: Mem, l: Layout, q: int) {
    q in l.size && forall a :: w[a] == v[a] || q + 8 <= a < q + l.size[q] + 4
  }

  lemma ClientWrite(gm: int, v: Mem, w: Mem, smap: Bitmaps.Binmap, tmap: Bitmaps.Binmap, l: Layout, b: Bins,
                    dv: int, dvsize: int, limbo: set<int>, q: int)
    requires Heap(gm, v, smap, tmap, l, b, dv, dvsize, limbo) && q in l.live && WritesOnly(v, w, l, q)
    ensures Heap(gm, w, smap, tmap, l, b, dv, dvsize, limbo)
    ensures Kept(v, w, l, l, l.live - {q}) && Confined(v, w, gm, l.base, l.end + TOP_FOOT_SIZE)
  {
    hide BinsOK, Chunks, Kept, Confined, Untouched, Accounted, TagOK, WritesOnly, DvOK;
    LiveAre(l);
    var keep := l.size.Keys - {q};
    forall x | x in l.size ensures TagOK(w, l, x) {
      WrittenTag(v, w, l, q, x);
    }
    forall x | x in keep ensures Untouched(v, w, x, l.size[x]) {
      WrittenOther(v, w, l, q, x);
    }
    WrittenEnds(v, w, gm, l, q);
    BinnedFree(l, b, dv, dvsize, limbo);
    hide Shape;
    Relaid(gm, v, w, smap, tmap, l, l, b, dv, dvsize, limbo, dv, dvsize, limbo, keep);
    RetaggedKept(gm, v, w, l, l, keep, l.live - {q});
  }

  lemma BinnedFree(l: Layout, b: Bins, dv: int, dvsize: int, limbo: set<int>)
    requires Accounted(l, b, dv, dvsize, limbo)
    ensures Chunks(b) <= l.size.Keys && Chunks(b) !! l.live
  {
    hide Chunks;
    assert Chunks(b) <= Free(l);
  }

  lemma WrittenTag(v: Mem, w: Mem, l: Layout, q: int, x: int)
    requires Shape(l) && Tags(v, l) && q in l.live && WritesOnly(v, w, l, q) && x in l.size
    ensures TagOK(w, l, x)
  {
    TagOf(v, l, x);
    HeadOutside(l, q, x);
    ChunkFits(l, x);
    ChunkFits(l, q);
    if x !in l.live {
      var n := x + l.size[x];
      HeadOutside(l, q, n);
      PrevUnique(l, n, x);
      PrevUnique(l, n, q);
    }
  }

  lemma WrittenOther(v: Mem, w: Mem, l: Layout, q: int, x: int)
    requires Tiling(l) && WritesOnly(v, w, l, q) && x in l.size && x != q
    ensures Untouched(v, w, x, l.size[x])
  {
    if x < q {
      Apart2(l, x, q);
    } else {
      Apart2(l, q, x);
    }
  }

  lemma WrittenEnds(v: Mem, w: Mem, gm: int, l: Layout, q: int)
    requires Placed(gm, l) && Tiling(l) && WritesOnly(v, w, l, q)
    ensures w[l.top + HEAD] == v[l.top + HEAD] && w[l.end + HEAD] == v[l.end + HEAD]
    ensures StateSame(v, w, gm) && Confined(v, w, gm, l.base, l.end + TOP_FOOT_SIZE)
  {
    ChunkFits(l, q);
  }

  // ---- bytes ----

  function Byte(x: int, i: nat): int
    decreases i
  {
    if i == 0 then x % 256 else Byte(x / 256, i - 1)
  }

  /** x with byte i (from the low end) replaced by b. */
  function PutByte(x: int, i: nat, b: int): int
    decreases i
  {
    if i == 0 then x / 256 * 256 + b else PutByte(x / 256, i - 1, b) * 256 + x % 256
  }

  lemma Digit(y: int, b: int)
    requires 0 <= b < 256
    ensures (y * 256 + b) % 256 == b && (y * 256 + b) / 256 == y
  {
  }

  lemma {:induction false} BytePut(x: int, i: nat, b: int, j: nat)
    requires 0 <= b < 256
    ensures Byte(PutByte(x, i, b), j) == if j == i then b else Byte(x, j)
    decreases i
  {
    if i == 0 {
      Digit(x / 256, b);
    } else {
      Digit(PutByte(x / 256, i - 1, b), x % 256);
      if j > 0 {
        BytePut(x / 256, i - 1, b, j - 1);
      }
    }
  }

  lemma {:induction false} ByteRange(x: int, i: nat)
    ensures 0 <= Byte(x, i) < 256
    decreases i
  {
    if i > 0 {
      ByteRange(x / 256, i - 1);
    }
  }

  /** The byte at address a. */
  function ByteAt(w: Mem, a: int): int {
    Byte(w[a / 4 * 4], a % 4)
  }

  lemma StoreLoad(w: Mem, a: int, b: int, c: int)
    requires 0 <= b < 256
    ensures ByteAt(w[a / 4 * 4 := PutByte(w[a / 4 * 4], a % 4, b)], c) == if c == a then b else ByteAt(w, c)
  {
    if c / 4 == a / 4 {
      BytePut(w[a / 4 * 4], a % 4, b, c % 4);
      assert c == a <==> c % 4 == a % 4;
    }
  }

  /** Byte k of the memory at p. */
  function ByteOf(w: Mem, p: int, k: int): int {
    ByteAt(w, p + k)
  }

  /** The n bytes at q in w are those at p in v. */
  ghost predicate SameBytes(v: Mem, p: int, w: Mem, q: int, n: int) {
    forall k :: 0 <= k < n ==> ByteOf(w, q, k) == ByteOf(v, p, k)
  }

  /** memcpy(dst, src, n), byte by byte. */
  method CopyBytes(m: State, dst: int, src: int, n: int)
    requires dst % 4 == 0 && 0 <= n && (dst + n <= src || src + n <= dst)
    modifies m`w
    ensures SameBytes(old(m.w), src, m.w, dst, n)
    ensures forall a :: m.w[a] == old(m.w[a]) || dst <= a < dst + n
  {
    ghost var u := m.w;
    for i := 0 to n
      invariant SameBytes(u, src, m.w, dst, i) && SameBytes(u, src, m.w, src, n)
      invariant forall a :: m.w[a] == u[a] || dst <= a < dst + i
    {
      ghost var v := m.w;
      var a, b := dst + i, ByteAt(m.w, src + i);
      m.w := m.w[a / 4 * 4 := PutByte(m.w[a / 4 * 4], a % 4, b)];
      assert ByteOf(v, src, i) == ByteOf(u, src, i);
      ByteRange(v[(src + i) / 4 * 4], (src + i) % 4);
      OneByte(v, m.w, a, b);
      CopiedOne(u, v, m.w, dst, src, n, i);
      WordOf(dst, i);
    }
  }

  lemma OneByte(v: Mem, w: Mem, a: int, b: int)
    requires 0 <= b < 256 && w == v[a / 4 * 4 := PutByte(v[a / 4 * 4], a % 4, b)]
    ensures forall c :: ByteAt(w, c) == if c == a then b else ByteAt(v, c)
  {
    forall c ensures ByteAt(w, c) == if c == a then b else ByteAt(v, c) {
      StoreLoad(v, a, b, c);
    }
  }

  lemma CopiedOne(u: Mem, v: Mem, w: Mem, dst: int, src: int, n: int, i: int)
    requires 0 <= i < n && (dst + n <= src || src + n <= dst)
    requires SameBytes(u, src, v, dst, i) && SameBytes(u, src, v, src, n)
    requires forall c :: ByteAt(w, c) == if c == dst + i then ByteOf(u, src, i) else ByteAt(v, c)
    ensures SameBytes(u, src, w, dst, i + 1) && SameBytes(u, src, w, src, n)
  {
    hide ByteAt;
    forall k | 0 <= k < i + 1 ensures ByteOf(w, dst, k) == ByteOf(u, src, k) {
      if k < i {
        assert ByteOf(v, dst, k) == ByteOf(u, src, k);
      }
    }
    forall k | 0 <= k < n ensures ByteOf(w, src, k) == ByteOf(u, src, k) {
      assert ByteOf(v, src, k) == ByteOf(u, src, k);
    }
  }

  lemma WordOf(dst: int, i: nat)
    requires dst % 4 == 0
    ensures dst <= (dst + i) / 4 * 4 <= dst + i && (dst + i) / 4 * 4 % 4 == 0
  {
  }

  lemma SameWordsSameBytes(v: Mem, w: Mem, p: int, n: int)
    requires p % 4 == 0 && forall a :: p <= a < p + n ==> w[a] == v[a]
    ensures SameBytes(v, p, w, p, n)
  {
    forall k | 0 <= k < n ensures ByteOf(w, p, k) == ByteOf(v, p, k) {
      WordOf(p, k);
    }
  }

  lemma SameBytesTrans(u: Mem, p: int, v: Mem, q: int, w: Mem, r: int, n: int)
    requires SameBytes(u, p, v, q, n) && SameBytes(v, q, w, r, n)
    ensures SameBytes(u, p, w, r, n)
  {
    hide ByteOf;
    forall k | 0 <= k < n ensures ByteOf(w, r, k) == ByteOf(u, p, k) {
      assert ByteOf(v, q, k) == ByteOf(u, p, k);
    }
  }

  /** The bytes of a chunk that was kept. */
  lemma KeptBytes(v: Mem, w: Mem, l: Layout, l': Layout, s: set<int>, q: int, n: int)
    requires Kept(v, w, l, l', s) && q in s && q % 8 == 0
    ensures q in l.size && (n <= l.size[q] - 4 ==> SameBytes(v, q + 8, w, q + 8, n))
  {
    hide SameBytes;
    Eights(q, q);
    assert KeptAt(v, w, l, l', q);
    if n <= l.size[q] - 4 {
      SameWordsSameBytes(v, w, q + 8, n);
    }
  }

  // ---- chunks in use are cut in two, or grow ----

  /** set_inuse(M, p, s) */
  method SetInuse(m: State, p: int, s: int)
    requires s != 0
    modifies m`w
    ensures m.w == old(m.w)[p + HEAD := (if Pinuse(old(m.w[p + HEAD])) then PINUSE else 0) + s + CINUSE]
                           [p + s + HEAD := SetPinuse(old(m.w[p + s + HEAD]))]
  {
    m.w := m.w[p + HEAD := (if Pinuse(m.w[p + HEAD]) then PINUSE else 0) + s + CINUSE];
    m.w := m.w[p + s + HEAD := SetPinuse(m.w[p + s + HEAD])];
  }

  function CutLayout(l: Layout, p: int, nb: int): Layout
    requires p in l.size
  {
    Layouts.Split(l, p, nb).(live := l.live + {p + nb})
  }

  lemma CutDone(gm: int, v: Mem, w: Mem, smap: Bitmaps.Binmap, tmap: Bitmaps.Binmap, l: Layout, b: Bins,
                dv: int, dvsize: int, p: int, nb: int)
    requires Heap(gm, v, smap, tmap, l, b, dv, dvsize, {}) && CanSplit(l, p, nb) && p in l.live && CutWrites(v, w, l, p, nb)
    ensures var l' := CutLayout(l, p, nb);
            && Heap(gm, w, smap, tmap, l', b, dv, dvsize, {})
            && Kept(v, w, l, l', l.live - {p}) && Confined(v, w, gm, l.base, l.end + TOP_FOOT_SIZE)
            && l'.size[p] == nb && l'.size[p + nb] == l.size[p] - nb && p + nb !in l.live
    ensures forall a :: p + 8 <= a < p + nb + 4 ==> w[a] == v[a]
  {
    hide BinsOK, Chunks, Shape, Tags, Kept, Confined, Untouched, Accounted, CutWrites, DvOK;
    var l', keep := CutLayout(l, p, nb), l.size.Keys - {p};
    LiveAre(l);
    CutLive(v, w, l, p, nb);
    AccountCut(l, b, dv, dvsize, p, nb);
    CutInside(v, w, gm, l, p, nb);
    BinnedFree(l, b, dv, dvsize, {});
    DvKept(l, l', b, dv, dvsize, p);
    Relaid(gm, v, w, smap, tmap, l, l', b, dv, dvsize, {}, dv, dvsize, {}, keep);
    RetaggedKept(gm, v, w, l, l', keep, l.live - {p});
  }

  lemma AccountCut(l: Layout, b: Bins, dv: int, dvsize: int, p: int, nb: int)
    requires Shape(l) && Accounted(l, b, dv, dvsize, {}) && CanSplit(l, p, nb) && p in l.live
    ensures Accounted(CutLayout(l, p, nb), b, dv, dvsize, {}) && p + nb !in l.size
  {
    InsideNot(l, p, p + nb);
    hide Chunks, DvSet;
    assert Free(CutLayout(l, p, nb)) == Free(l);
  }

  lemma DvKept(l: Layout, l': Layout, b: Bins, dv: int, dvsize: int, p: int)
    requires DvOK(l, dv, dvsize) && Accounted(l, b, dv, dvsize, {}) && p in l.live
    requires forall x :: x in l.size && x != p ==> x in l'.size && l'.size[x] == l.size[x]
    ensures DvOK(l', dv, dvsize)
  {
    DvApart(l, b, dv, dvsize, {});
    hide Chunks;
  }

  lemma CutInside(v: Mem, w: Mem, gm: int, l: Layout, p: int, nb: int)
    requires Placed(gm, l) && Shape(l) && CanSplit(l, p, nb) && CutWrites(v, w, l, p, nb)
    ensures StateSame(v, w, gm) && Confined(v, w, gm, l.base, l.end + TOP_FOOT_SIZE)
  {
    ChunkFits(l, p);
  }

  /** Heads as set_inuse leaves them. */
  lemma CutHeads(m: State, p: int, nb: int)
    requires Ready(m, {}) && CanSplit(m.lay, p, nb) && p in m.lay.live
    ensures var h, n := m.w[p + HEAD], p + m.lay.size[p];
            && (Pinuse(h) <==> Pin(m.lay, p)) && SetPinuse(m.w[n + HEAD]) == m.w[n + HEAD]
  {
    TagFacts(m.w, m.lay, p);
    NextHead(m, {}, p);
    hide Heap, Pin;
  }

  lemma HeadBits(s: int, x: int)
    requires s % 8 == 0
    ensures Pinuse(SetPinuse(x)) && SetPinuse(s + CINUSE) == s + PINUSE + CINUSE == SetPinuse(PINUSE + s + CINUSE)
  {
  }

  /** set_inuse of the front, then of the rest, of the chunk p in use. */
  method CutFrontFirst(m: State, p: int, nb: int, r: int, rsize: int)
    requires Ready(m, {}) && CanSplit(m.lay, p, nb) && p in m.lay.live && r == p + nb && rsize == m.lay.size[p] - nb
    modifies m`w, m`lay
    ensures Ready(m, {}) && m.lay == old(CutLayout(m.lay, p, nb)) && m.lay.size[p] == nb && m.lay.size[r] == rsize && r !in old(m.lay.live)
    ensures Kept(old(m.w), m.w, old(m.lay), m.lay, old(m.lay.live) - {p})
    ensures Confined(old(m.w), m.w, m.gm, m.lay.base, m.lay.end + TOP_FOOT_SIZE)
    ensures forall a :: p + 8 <= a < p + nb + 4 ==> m.w[a] == old(m.w[a])
  {
    hide Heap, Kept, Confined, Pin, SetPinuse, Pinuse;
    ghost var v, l := m.w, m.lay;
    CutHeads(m, p, nb);
    HeadBits(nb, v[r + HEAD]);
    SetInuse(m, p, nb);
    SetInuse(m, r, rsize);
    m.lay := CutLayout(l, p, nb);
    CutDone(m.gm, v, m.w, m.smallmap, m.treemap, l, m.bins, m.dv, m.dvsize, p, nb);
  }

  /** The same cut, with the heads written in the other order. */
  method CutRestFirst(m: State, p: int, nb: int, r: int, rsize: int)
    requires Ready(m, {}) && CanSplit(m.lay, p, nb) && p in m.lay.live && r == p + nb && rsize == m.lay.size[p] - nb
    requires rsize % 8 == 0
    modifies m`w, m`lay
    ensures Ready(m, {}) && m.lay == old(CutLayout(m.lay, p, nb)) && m.lay.size[p] == nb && m.lay.size[r] == rsize && r !in old(m.lay.live)
    ensures Kept(old(m.w), m.w, old(m.lay), m.lay, old(m.lay.live) - {p})
    ensures Confined(old(m.w), m.w, m.gm, m.lay.base, m.lay.end + TOP_FOOT_SIZE)
  {
    hide Heap, Kept, Confined, Pin, SetPinuse, Pinuse;
    ghost var v, l := m.w, m.lay;
    CutHeads(m, p, nb);
    HeadBits(rsize, v[r + HEAD]);
    SetInuse(m, r, rsize);
    SetInuse(m, p, nb);
    m.lay := CutLayout(l, p, nb);
    CutDone(m.gm, v, m.w, m.smallmap, m.treemap, l, m.bins, m.dv, m.dvsize, p, nb);
  }

  lemma GrownDone(gm: int, v: Mem, w: Mem, smap: Bitmaps.Binmap, tmap: Bitmaps.Binmap, l: Layout, b: Bins,
                  dv: int, dvsize: int, p: int, nb: int)
    requires Heap(gm, v, smap, tmap, l, b, dv, dvsize, {}) && CanGrow(l, p, nb) && l.size[p] < nb && p in l.live
    requires GrowWrites(v, w, l, p, nb)
    ensures var l' := GrowLast(l, p, nb);
            && Heap(gm, w, smap, tmap, l', b, dv, dvsize, {})
            && Kept(v, w, l, l', l.live - {p}) && Confined(v, w, gm, l.base, l.end + TOP_FOOT_SIZE)
            && Untouched(v, w, p, l.size[p])
  {
    hide BinsOK, Chunks, Shape, Tags, Kept, Confined, Untouched, Accounted, GrowWrites, DvOK;
    var l', keep := GrowLast(l, p, nb), l.size.Keys - {p};
    LiveAre(l);
    GrowLive(v, w, l, p, nb);
    AccountSame(l, l', b, dv, dvsize, {});
    GrowInside(v, w, gm, l, p, nb);
    BinnedFree(l, b, dv, dvsize, {});
    DvKept(l, l', b, dv, dvsize, p);
    Relaid(gm, v, w, smap, tmap, l, l', b, dv, dvsize, {}, dv, dvsize, {}, keep);
    RetaggedKept(gm, v, w, l, l', keep, l.live - {p});
  }

  lemma GrowInside(v: Mem, w: Mem, gm: int, l: Layout, p: int, nb: int)
    requires Placed(gm, l) && Shape(l) && CanGrow(l, p, nb) && GrowWrites(v, w, l, p, nb)
    ensures StateSame(v, w, gm) && Confined(v, w, gm, l.base, l.end + TOP_FOOT_SIZE) && Placed(gm, GrowLast(l, p, nb))
  {
    ChunkFits(l, p);
  }

  /** Expand into top: the last chunk, p, takes what it needs. */
  method GrowIntoTop(m: State, p: int, oldsize: int, nb: int)
    requires Ready(m, {}) && p in m.lay.live && p in m.lay.size && oldsize == m.lay.size[p] < nb && nb % 8 == 0
    requires p + oldsize == m.top && oldsize + m.topsize > nb
    modifies m`w, m`lay, m`top, m`topsize
    ensures Ready(m, {}) && m.lay == old(GrowLast(m.lay, p, nb))
    ensures Kept(old(m.w), m.w, old(m.lay), m.lay, old(m.lay.live) - {p}) && Untouched(old(m.w), m.w, p, oldsize)
    ensures Confined(old(m.w), m.w, m.gm, m.lay.base, m.lay.end + TOP_FOOT_SIZE)
  {
    hide Heap, Kept, Confined, Pin, Pinuse, Untouched, SetPinuse;
    ghost var v, l := m.w, m.lay;
    PinIs(m, p);
    TopFacts(m, {});
    var newsize := oldsize + m.topsize;
    var newtopsize := newsize - nb;
    Eights(oldsize, nb);
    Eights(oldsize - nb, 0);
    Fours(oldsize - nb, m.topsize);
    EvenHead(newtopsize);
    var newtop := p + nb;
    SetInuse(m, p, nb);
    m.w := m.w[newtop + HEAD := SetPinuse(newtopsize)];
    m.top := newtop;
    m.topsize := newtopsize;
    m.lay := GrowLast(l, p, nb);
    GrownDone(m.gm, v, m.w, m.smallmap, m.treemap, l, m.bins, m.dv, m.dvsize, p, nb);
  }

  lemma PinIs(m: State, p: int)
    requires Ready(m, {}) && p in m.lay.live
    ensures p in m.lay.size && (Pinuse(m.w[p + HEAD]) <==> Pin(m.lay, p)) && ChunkSize(m.w[p + HEAD]) == m.lay.size[p]
    ensures p % 8 == 0 && (p + 8) % 4 == 0 && 16 <= m.lay.size[p] && m.lay.size[p] % 8 == 0 && p > 0
  {
    hide Pin, BinsOK, Accounted, DvOK, ChunkSize, Pinuse, Cinuse, Disjoint;
    LiveAre(m.lay);
    TagFacts(m.w, m.lay, p);
    DvZero(m, {});
    Eights(p, p);
  }

  // ---- internal_realloc ----

  /** The chunk p in use has become p', in use and large enough for nb; every other chunk in use is as it was. */
  ghost predicate Resized(v: Mem, w: Mem, l: Layout, l': Layout, p: int, p': int, nb: int) {
    && p' in l'.size && l'.live == l.live - {p} + {p'} && nb <= l'.size[p'] < nb + MIN_CHUNK_SIZE
    && (p' == p || p' !in l.live) && Kept(v, w, l, l', l.live - {p})
  }

  /** The block at mem became the block r: moved or not, with the first bytes of the old one, as many as both have room for. */
  ghost predicate Reallocated(v: Mem, w: Mem, l: Layout, l': Layout, mem: int, r: int, bytes: int) {
    && mem - 8 in l.size && Resized(v, w, l, l', mem - 8, r - 8, RequestSize(bytes))
    && SameBytes(v, mem, w, r, Min(l.size[mem - 8] - 4, bytes))
  }

  function Min(a: int, b: int): int {
    if a < b then a else b
  }

  /** Shrinking: what is split off is in use for a moment, and then freed. */
  method ShrinkInPlace(m: State, p: int, oldsize: int, nb: int)
    requires Ready(m, {}) && p in m.lay.live && p in m.lay.size && oldsize == m.lay.size[p] >= nb && nb % 8 == 0 && 16 <= nb
    modifies m`w, m`smallmap, m`treemap, m`dvsize, m`topsize, m`dv, m`top, m`trimCheck, m`sbrkSize, m`lay, m`bins
    ensures Ready(m, {}) && Resized(old(m.w), m.w, old(m.lay), m.lay, p, p, nb)
    ensures Confined(old(m.w), m.w, m.gm, m.lay.base, m.lay.end + TOP_FOOT_SIZE)
    ensures forall a :: p + 8 <= a < p + nb + 4 ==> m.w[a] == old(m.w[a])
  {
    hide Heap, Kept, Confined, CutLayout;
    ghost var v, l := m.w, m.lay;
    PinIs(m, p);
    NothingKept(m);
    ReadyTop(m);
    var rsize := oldsize - nb;
    if rsize >= MIN_CHUNK_SIZE {
      var remainder := p + nb;
      CutFrontFirst(m, p, nb, remainder, rsize);
      ghost var v1, l1 := m.w, m.lay;
      CutIs(l, p, nb);
      ReadyTop(m);
      Dlfree(m, remainder + 8);
      ReadyTop(m);
      Shrunk(v, v1, m.w, m.gm, l, l1, m.lay, p, nb);
    } else {
      KeptLess(v, m.w, l, m.lay, l.live, l.live - {p});
      assert l.live - {p} + {p} == l.live;
    }
  }

  lemma CutIs(l: Layout, p: int, nb: int)
    requires p in l.size && p in l.live
    ensures var l' := CutLayout(l, p, nb); p in l'.size && l'.live == l.live + {p + nb} && l'.base == l.base && l'.end == l.end && l'.top == l.top
  {
  }

  lemma Shrunk(u: Mem, v: Mem, w: Mem, gm: int, l: Layout, l1: Layout, l2: Layout, p: int, nb: int)
    requires Kept(u, v, l, l1, l.live - {p}) && Confined(u, v, gm, l1.base, l1.end + TOP_FOOT_SIZE)
    requires forall a :: p + 8 <= a < p + nb + 4 ==> v[a] == u[a]
    requires l1.live == l.live + {p + nb} && p in l.live && p + nb !in l.live && p in l1.size && l1.size[p] == nb > 0
    requires Freed(v, w, gm, l1, l2, p + nb)
    ensures Resized(u, w, l, l2, p, p, nb) && Confined(u, w, gm, l2.base, l2.end + TOP_FOOT_SIZE)
    ensures forall a :: p + 8 <= a < p + nb + 4 ==> w[a] == u[a]
  {
    assert l2.live == l.live;
    assert KeptAt(v, w, l1, l2, p);
    hide Kept, Confined;
    KeptLess(v, w, l1, l2, l.live, l.live - {p});
    KeptTrans(u, v, w, l, l1, l2, l.live - {p}, l.live - {p});
    ConfinedTrans(u, v, w, gm, l1.base, l1.end + TOP_FOOT_SIZE, l1.end + TOP_FOOT_SIZE);
  }

  /** Two chunks in use do not overlap. */
  lemma LiveApart(m: State, p: int, q: int)
    requires Ready(m, {}) && p in m.lay.live && q in m.lay.live && p != q
    ensures p in m.lay.size && q in m.lay.size && (p + m.lay.size[p] <= q || q + m.lay.size[q] <= p)
    ensures p % 8 == 0 && q % 8 == 0 && p + m.lay.size[p] <= m.lay.top && m.lay.base <= p
  {
    LiveAre(m.lay);
    ChunkFits(m.lay, p);
    ChunkFits(m.lay, q);
    if p < q {
      Apart2(m.lay, p, q);
    } else {
      Apart2(m.lay, q, p);
    }
    hide BinsOK, Tags;
  }

  /** Copying into the chunk q in use. */
  method FillChunk(m: State, q: int, src: int, n: int)
    requires Ready(m, {}) && q in m.lay.live && q in m.lay.size && 0 <= n <= m.lay.size[q] - 4
    requires q + 8 + n <= src || src + n <= q + 8
    modifies m`w
    ensures Ready(m, {}) && SameBytes(old(m.w), src, m.w, q + 8, n)
    ensures Kept(old(m.w), m.w, m.lay, m.lay, m.lay.live - {q})
    ensures Confined(old(m.w), m.w, m.gm, m.lay.base, m.lay.end + TOP_FOOT_SIZE)
  {
    hide Heap, Kept, Confined, SameBytes;
    ghost var v := m.w;
    PinIs(m, q);
    CopyBytes(m, q + 8, src, n);
    ClientWrite(m.gm, v, m.w, m.smallmap, m.treemap, m.lay, m.bins, m.dv, m.dvsize, {}, q);
  }

  /** malloc, copy, free */
  method MoveChunk(m: State, oldmem: int, oldsize: int, bytes: int) returns (newmem: int)
    requires Ready(m, {}) && oldmem - 8 in m.lay.live && oldmem - 8 in m.lay.size && oldsize == m.lay.size[oldmem - 8]
    requires 0 <= bytes < MAX_REQUEST
    modifies m`w, m`smallmap, m`treemap, m`dvsize, m`topsize, m`dv, m`top, m`trimCheck, m`footprint, m`maxFootprint,
             m`noncontiguous, m`segBase, m`segSize, m`sbrkSize, m`lay, m`bins
    ensures Ready(m, {}) && Confined(old(m.w), m.w, m.gm, m.memBase, m.memBase + m.sbrkSize)
    ensures newmem == 0 ==> m.lay.live == old(m.lay.live) && Kept(old(m.w), m.w, old(m.lay), m.lay, m.lay.live)
    ensures newmem != 0 ==> Reallocated(old(m.w), m.w, old(m.lay), m.lay, oldmem, newmem, bytes) && newmem != oldmem
    ensures newmem != 0 <==> old(CanServe(m, RequestSize(bytes)))
  {
    hide Heap, Kept, Confined, SameBytes, Served, Freed, Resized, RequestSize, CanServe, Fits, Granted, GrantedSize, FirstGranted;
    hide Choice, VictimAfter;
    ghost var v, l, p := m.w, m.lay, oldmem - 8;
    ReadyTop(m);
    NoOverrun(m, RequestSize(bytes));
    RequestSizeLeast(bytes);
    PinIs(m, p);
    newmem := Dlmalloc(m, bytes);
    if newmem != 0 {
      ghost var v1, l1, q := m.w, m.lay, newmem - 8;
      ServedFacts(l, l1, q, RequestSize(bytes));
      KeptSize(v, v1, l, l1, p);
      LiveApart(m, p, q);
      LiveOf(m);
      var oc := oldsize - 4;
      FillChunk(m, newmem - 8, oldmem, Min(oc, bytes));
      ghost var v2 := m.w;
      Dlfree(m, oldmem);
      MovedConfined(v, v1, v2, m.w, m.gm, m.memBase, m.memBase + m.sbrkSize, l1, m.lay, p);
      Moved(v, v1, v2, m.w, l, l1, m.lay, p, q, oldsize, bytes, m.gm);
      ReadyTop(m);
    }
    ReadyTop(m);
  }

  lemma ServedFacts(l: Layout, l1: Layout, q: int, nb: int)
    requires Served(l, l1, q, nb)
    ensures q in l1.size && q in l1.live && q !in l.live && l1.live == l.live + {q} && nb <= l1.size[q] < nb + MIN_CHUNK_SIZE
  {
  }

  lemma KeptSize(v: Mem, w: Mem, l: Layout, l': Layout, p: int)
    requires Kept(v, w, l, l', l.live) && p in l.live
    ensures p in l.size && p in l'.size && p in l'.live && l'.size[p] == l.size[p]
  {
    assert KeptAt(v, w, l, l', p);
  }

  lemma Moved(u: Mem, v1: Mem, v2: Mem, w: Mem, l: Layout, l1: Layout, l2: Layout, p: int, q: int, oldsize: int, bytes: int, gm: int)
    requires Kept(u, v1, l, l1, l.live) && Kept(v1, v2, l1, l1, l1.live - {q}) && Freed(v2, w, gm, l1, l2, p)
    requires Served(l, l1, q, RequestSize(bytes)) && p in l.live && p in l.size && l.size[p] == oldsize
    requires SameBytes(v1, p + 8, v2, q + 8, Min(oldsize - 4, bytes)) && p % 8 == 0 && q % 8 == 0
    requires RequestSize(bytes) >= bytes + 4
    ensures Resized(u, w, l, l2, p, q, RequestSize(bytes))
    ensures SameBytes(u, p + 8, w, q + 8, Min(oldsize - 4, bytes))
  {
    hide Kept, Confined, RequestSize, SameBytes, Available;
    var n := Min(oldsize - 4, bytes);
    KeptBytes(u, v1, l, l1, l.live, p, n);
    SameBytesTrans(u, p + 8, v1, p + 8, v2, q + 8, n);
    KeptBytes(v2, w, l1, l2, l2.live, q, n);
    SameBytesTrans(u, p + 8, v2, q + 8, w, q + 8, n);
    KeptLess(v1, v2, l1, l1, l1.live - {q}, l.live - {p});
    KeptTrans(u, v1, v2, l, l1, l1, l.live, l.live - {p});
    KeptLess(v2, w, l1, l2, l2.live, l.live - {p});
    KeptTrans(u, v2, w, l, l1, l2, l.live - {p}, l.live - {p});
    KeptSizeIn(v2, w, l1, l2, q);
    assert l2.live == l.live - {p} + {q};
  }

  lemma KeptSizeIn(v: Mem, w: Mem, l: Layout, l': Layout, q: int)
    requires Kept(v, w, l, l', l'.live) && q in l'.live
    ensures q in l.size && q in l'.size && l'.size[q] == l.size[q]
  {
    assert KeptAt(v, w, l, l', q);
  }

  lemma MovedConfined(u: Mem, v1: Mem, v2: Mem, w: Mem, gm: int, lo: int, hi: int, l1: Layout, l2: Layout, p: int)
    requires Confined(u, v1, gm, lo, hi) && Confined(v1, v2, gm, l1.base, l1.end + TOP_FOOT_SIZE) && Freed(v2, w, gm, l1, l2, p)
    requires lo <= l1.base && l1.end + TOP_FOOT_SIZE <= hi
    ensures Confined(u, w, gm, lo, hi)
  {
    hide Confined, Kept, Available;
    ConfinedMore(v1, v2, gm, l1.base, l1.end + TOP_FOOT_SIZE, lo, hi);
    ConfinedMore(v2, w, gm, l1.base, l1.end + TOP_FOOT_SIZE, lo, hi);
    ConfinedTrans(u, v1, v2, gm, lo, hi, hi);
    ConfinedTrans(u, v2, w, gm, lo, hi, hi);
  }

  /** The chunk p has nb bytes, or comes right before top and would have them with top's, which must keep some. */
  ghost predicate Resizable(m: State, p: int, nb: int)
    reads m
  {
    p in m.lay.size && (nb <= m.lay.size[p] || (p + m.lay.size[p] == m.top && nb < m.lay.size[p] + m.topsize))
  }

  /** internal_realloc(m, oldmem, bytes).  On success the result holds the first bytes of the old
      block, as many as both have room for; it is the old block itself exactly if that can be resized.
      If not, the request succeeds exactly if a new one for as many bytes would. */
  method InternalRealloc(m: State, oldmem: int, bytes: int) returns (newmem: int)
    requires Inv(m) && oldmem - 8 in m.lay.live && 0 <= bytes < WORD
    modifies m`w, m`smallmap, m`treemap, m`dvsize, m`topsize, m`dv, m`top, m`trimCheck, m`footprint, m`maxFootprint,
             m`noncontiguous, m`segBase, m`segSize, m`sbrkSize, m`lay, m`bins
    ensures Inv(m) && Confined(old(m.w), m.w, m.gm, m.memBase, m.memBase + m.sbrkSize) && oldmem - 8 in old(m.lay.size)
    ensures newmem == 0 ==> m.lay.live == old(m.lay.live) && Kept(old(m.w), m.w, old(m.lay), m.lay, m.lay.live)
    ensures newmem != 0 ==>
              bytes < MAX_REQUEST && Reallocated(old(m.w), m.w, old(m.lay), m.lay, oldmem, newmem, bytes)
    ensures var nb := RequestSize(bytes);
            && (newmem != 0 <==> bytes < MAX_REQUEST && old(Resizable(m, oldmem - 8, nb) || CanServe(m, nb)))
            && (newmem == oldmem <==> bytes < MAX_REQUEST && old(Resizable(m, oldmem - 8, nb)))
  {
    hide Heap, Kept, Confined, SameBytes, Freed, Resized, Reallocated, RequestSize, CanServe;
    ghost var v, l := m.w, m.lay;
    ReadyTop(m);
    LiveOf(m);
    var oldp := oldmem - 8;
    PinIs(m, oldp);
    NoChange(m);
    if bytes >= MAX_REQUEST {
      return 0;
    }
    RequestSizeLeast(bytes);
    var oldsize := ChunkSize(m.w[oldp + HEAD]);
    var next := oldp + oldsize;
    var nb := RequestSize(bytes);
    if oldsize >= nb {
      ShrinkInPlace(m, oldp, oldsize, nb);
      InPlace(m, v, l, oldmem, bytes);
      newmem := oldmem;
    } else if next == m.top && oldsize + m.topsize > nb {
      GrowIntoTop(m, oldp, oldsize, nb);
      Grown(v, m.w, l, m.lay, oldp, nb);
      InPlace(m, v, l, oldmem, bytes);
      newmem := oldmem;
    } else {
      newmem := MoveChunk(m, oldmem, oldsize, bytes);
      ReadyTop(m);
    }
  }

  /** After a step that left the first n bytes of the block in place. */
  lemma InPlace(m: State, v: Mem, l: Layout, mem: int, bytes: int)
    requires Ready(m, {}) && Confined(v, m.w, m.gm, m.lay.base, m.lay.end + TOP_FOOT_SIZE) && mem - 8 in l.size
    requires Resized(v, m.w, l, m.lay, mem - 8, mem - 8, RequestSize(bytes))
    requires mem % 4 == 0 && forall a :: mem <= a < mem + Min(l.size[mem - 8] - 4, bytes) ==> m.w[a] == v[a]
    ensures Inv(m) && Confined(v, m.w, m.gm, m.memBase, m.memBase + m.sbrkSize)
    ensures Reallocated(v, m.w, l, m.lay, mem, mem, bytes)
  {
    hide Heap, Confined, SameBytes, Resized, RequestSize;
    SameWordsSameBytes(v, m.w, mem, Min(l.size[mem - 8] - 4, bytes));
    ReadyTop(m);
    LiveOf(m);
    ConfinedMore(v, m.w, m.gm, m.lay.base, m.lay.end + TOP_FOOT_SIZE, m.memBase, m.memBase + m.sbrkSize);
  }

  lemma Grown(v: Mem, w: Mem, l: Layout, l': Layout, p: int, nb: int)
    requires p in l.live && p in l.size && l' == GrowLast(l, p, nb) && Kept(v, w, l, l', l.live - {p})
    ensures Resized(v, w, l, l', p, p, nb)
  {
    assert l.live - {p} + {p} == l.live;
  }

  /** dlrealloc(oldmem, bytes) */
  method Dlrealloc(m: State, oldmem: int, bytes: int) returns (newmem: int)
    requires Inv(m) && 0 <= bytes < WORD && (oldmem != 0 ==> oldmem - 8 in m.lay.live)
    modifies m`w, m`smallmap, m`treemap, m`dvsize, m`topsize, m`dv, m`top, m`trimCheck, m`footprint, m`maxFootprint,
             m`noncontiguous, m`segBase, m`segSize, m`sbrkSize, m`lay, m`bins
    ensures !old(Overruns(m, RequestSize(bytes))) ==> Inv(m)
    ensures !old(Overruns(m, RequestSize(bytes))) && newmem == 0 ==>
              m.lay.live == old(m.lay.live) && Kept(old(m.w), m.w, old(m.lay), m.lay, m.lay.live)
    ensures !old(Overruns(m, RequestSize(bytes))) && newmem != 0 && oldmem == 0 ==>
              Served(old(m.lay), m.lay, newmem - 8, RequestSize(bytes)) && Kept(old(m.w), m.w, old(m.lay), m.lay, old(m.lay.live))
    ensures newmem != 0 && oldmem != 0 ==>
              Reallocated(old(m.w), m.w, old(m.lay), m.lay, oldmem, newmem, bytes)
    ensures oldmem == 0 && !old(Overruns(m, RequestSize(bytes))) ==> (newmem != 0 <==> old(CanServe(m, RequestSize(bytes))))
    ensures oldmem != 0 ==>
              var nb := RequestSize(bytes);
              && (newmem != 0 <==> bytes < MAX_REQUEST && old(Resizable(m, oldmem - 8, nb) || CanServe(m, nb)))
              && (newmem == oldmem <==> bytes < MAX_REQUEST && old(Resizable(m, oldmem - 8, nb)))
  {
    hide Inv, Kept, Confined, SameBytes, Resized, Reallocated, RequestSize, Served, Overruns, CanServe, Fits, Granted, GrantedSize;
    hide Choice, VictimAfter, FirstGranted, Resizable;
    if oldmem == 0 {
      newmem := Dlmalloc(m, bytes);
    } else {
      newmem := InternalRealloc(m, oldmem, bytes);
    }
  }
}
