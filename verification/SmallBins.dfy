/** insert_small_chunk, unlink_small_chunk and unlink_first_small_chunk on one small bin. */
module SmallBins {
  import opened Words
  import opened Memory
  import Bitmaps
  import opened Rings
  import opened MallocState

  /** Members are at least 8 bytes apart, so their fd and bk words are all different. */
  ghost predicate Spaced(r: seq<int>) {
    forall i, j :: 0 <= i < |r| && 0 <= j < |r| && i != j ==> r[i] + 8 <= r[j] || r[j] + 8 <= r[i]
  }

  /** The bin with header b holds lst, first to last.  A bin left empty says nothing about its header. */
  ghost predicate SmallBin(w: Mem, b: int, lst: seq<int>) {
    (lst != [] ==> Ring(w, [b] + lst)) && Spaced([b] + lst)
  }

  /** a is the fd or bk word of one of the members of r. */
  ghost predicate InPairs(r: seq<int>, a: int) {
    exists i :: 0 <= i < |r| && (a == r[i] + FD || a == r[i] + BK)
  }

  lemma SpacedDistinct(r: seq<int>)
    requires Spaced(r)
    ensures Distinct(r)
  {
  }

  /** insert_small_chunk(M, P, S): P becomes the first chunk of its bin. */
  method InsertSmallChunk(m: State, p: int, s: int, ghost lst: seq<int>, ghost marked: set<int>)
    requires 0 <= s < 256 && Bitmaps.Means(m.smallmap, marked) && (s / 8 in marked <==> lst != [])
    requires SmallBin(m.w, SmallBinAt(m.gm, s / 8), lst) && Spaced([SmallBinAt(m.gm, s / 8), p] + lst)
    modifies m`w, m`smallmap
    ensures SmallBin(m.w, SmallBinAt(m.gm, s / 8), [p] + lst) && Bitmaps.Means(m.smallmap, marked + {s / 8})
    ensures forall a :: m.w[a] == old(m.w[a]) || InPairs([SmallBinAt(m.gm, s / 8), p] + lst, a)
  {
    ghost var v := m.w;
    hide Bitmaps.Means, InPairs, Ring;
    var i := s / 8;
    var b := SmallBinAt(m.gm, i);
    var f := b;
    var isMarked := Bitmaps.IsMarked(m.smallmap, i, marked);
    if !isMarked {
      m.smallmap := Bitmaps.Mark(m.smallmap, i, marked);
    } else {
      f := m.w[b + FD];
      assert marked + {i} == marked;
      HeaderLinks(v, b, lst);
    }
    m.w := m.w[b + FD := p];
    m.w := m.w[f + BK := p];
    m.w := m.w[p + FD := f];
    m.w := m.w[p + BK := b];
    SmallInserted(v, m.w, b, p, f, lst);
  }

  lemma HeaderLinks(w: Mem, b: int, lst: seq<int>)
    requires SmallBin(w, b, lst) && lst != []
    ensures w[b + FD] == lst[0] && w[b + BK] == lst[|lst| - 1]
    ensures w[lst[0] + BK] == b
  {
    var r := [b] + lst;
    assert Links(w, r, 0);
    assert Links(w, r, 1);
  }

  lemma SmallInserted(v: Mem, w: Mem, b: int, p: int, f: int, lst: seq<int>)
    requires SmallBin(v, b, lst) && Spaced([b, p] + lst) && f == (if lst == [] then b else lst[0])
    requires w == v[b + FD := p][f + BK := p][p + FD := f][p + BK := b]
    ensures SmallBin(w, b, [p] + lst)
    ensures forall a :: w[a] == v[a] || InPairs([b, p] + lst, a)
  {
    var all := [b, p] + lst;
    assert [b] + ([p] + lst) == all;
    assert all[0] == b && all[1] == p && (lst != [] ==> all[2] == lst[0]);
    PairFrame(v, w, all, if lst == [] then 0 else 2);
    hide Spaced, InPairs;
    if lst == [] {
      AloneRing(v, w, b, p);
    } else {
      GrownRing(v, w, b, p, f, lst);
    }
  }

  lemma AloneRing(v: Mem, w: Mem, b: int, p: int)
    requires Spaced([b, p]) && w == v[b + FD := p][b + BK := p][p + FD := b][p + BK := b]
    ensures Ring(w, [b, p])
  {
    var all := [b, p];
    assert all[0] == b && all[1] == p;
    assert Links(w, all, 0) && Links(w, all, 1);
  }

  lemma GrownRing(v: Mem, w: Mem, b: int, p: int, f: int, lst: seq<int>)
    requires lst != [] && Ring(v, [b] + lst) && Spaced([b] + lst) && Spaced([b, p] + lst) && f == lst[0]
    requires w == v[b + FD := p][f + BK := p][p + FD := f][p + BK := b]
    ensures Ring(w, [b, p] + lst)
  {
    hide Ring;
    var r, all := [b] + lst, [b, p] + lst;
    assert f == r[Succ(|r|, 0)];
    assert p !in r by { NotMember(b, p, lst); }
    SpacedDistinct(r);
    forall i {:trigger r[i]} | 0 <= i < |r|
      ensures 0 < i ==> w[r[i] + FD] == v[r[i] + FD]
      ensures r[i] != f ==> w[r[i] + BK] == v[r[i] + BK]
    {
      assert all[0] == b && all[1] == p && all[2] == f;
      assert r[i] == all[if i == 0 then 0 else i + 1];
    }
    InsertedFirst(v, w, all, b, p, f);
    RingInsert(v, w, r, p);
    assert InsertSecond(r, p) == all;
  }

  lemma NotMember(b: int, p: int, lst: seq<int>)
    requires Spaced([b, p] + lst)
    ensures p !in [b] + lst
  {
    var all := [b, p] + lst;
    assert all[1] == p && all[0] == b;
    forall i | 0 <= i < |lst| ensures lst[i] != p {
      assert all[i + 2] == lst[i];
    }
  }

  lemma InsertedFirst(v: Mem, w: Mem, all: seq<int>, b: int, p: int, f: int)
    requires Spaced(all) && |all| >= 3 && all[0] == b && all[1] == p && all[2] == f
    requires w == v[b + FD := p][f + BK := p][p + FD := f][p + BK := b]
    ensures w[b + FD] == p && w[f + BK] == p && w[p + FD] == f && w[p + BK] == b
  {
  }

  lemma PairFrame(v: Mem, w: Mem, all: seq<int>, k: nat)
    requires |all| >= 2 && k < |all|
    requires w == v[all[0] + FD := all[1]][all[k] + BK := all[1]][all[1] + FD := all[k]][all[1] + BK := all[0]]
    ensures forall a :: w[a] == v[a] || InPairs(all, a)
  {
    forall a ensures w[a] == v[a] || InPairs(all, a) {
      assert a == all[0] + FD || a == all[k] + BK || a == all[1] + FD || a == all[1] + BK || w[a] == v[a];
    }
  }

  /** unlink_small_chunk(M, P, S): the j-th chunk of its bin is taken out. */
  method UnlinkSmallChunk(m: State, p: int, s: int, ghost lst: seq<int>, ghost j: nat, ghost marked: set<int>)
    requires 0 <= s < 256 && Bitmaps.Means(m.smallmap, marked) && j < |lst| && lst[j] == p
    requires SmallBin(m.w, SmallBinAt(m.gm, s / 8), lst)
    modifies m`w, m`smallmap
    ensures SmallBin(m.w, SmallBinAt(m.gm, s / 8), Without(lst, j))
    ensures Bitmaps.Means(m.smallmap, if |lst| == 1 then marked - {s / 8} else marked)
    ensures forall a :: m.w[a] == old(m.w[a]) || InPairs([SmallBinAt(m.gm, s / 8)] + lst, a)
  {
    hide Bitmaps.Means, InPairs;
    ghost var v, hdr := m.w, SmallBinAt(m.gm, s / 8);
    var f := m.w[p + FD];
    var b := m.w[p + BK];
    var i := s / 8;
    SmallNeighbours(v, hdr, lst, j);
    if f == b {
      m.smallmap := Bitmaps.Clear(m.smallmap, i, marked);
    } else {
      m.w := m.w[f + BK := b];
      m.w := m.w[b + FD := f];
    }
    SmallRemoved(v, m.w, hdr, lst, j);
  }

  /** unlink_first_small_chunk(M, B, P, I) */
  method UnlinkFirstSmallChunk(m: State, b: int, p: int, i: int, ghost lst: seq<int>, ghost marked: set<int>)
    requires 0 <= i < 32 && Bitmaps.Means(m.smallmap, marked) && |lst| > 0 && lst[0] == p && b == SmallBinAt(m.gm, i)
    requires SmallBin(m.w, b, lst)
    modifies m`w, m`smallmap
    ensures SmallBin(m.w, b, lst[1..])
    ensures Bitmaps.Means(m.smallmap, if |lst| == 1 then marked - {i} else marked)
    ensures forall a :: m.w[a] == old(m.w[a]) || InPairs([b] + lst, a)
  {
    hide Bitmaps.Means, InPairs;
    ghost var v := m.w;
    var f := m.w[p + FD];
    SmallNeighbours(v, b, lst, 0);
    if b == f {
      m.smallmap := Bitmaps.Clear(m.smallmap, i, marked);
    } else {
      m.w := m.w[b + FD := f];
      m.w := m.w[f + BK := b];
      assert b + FD != f + BK ==> m.w == v[f + BK := b][b + FD := f];
    }
    assert Without(lst, 0) == lst[1..];
    SmallRemoved(v, m.w, b, lst, 0);
  }

  /** p's fd and bk words, and when they coincide. */
  lemma SmallNeighbours(w: Mem, hdr: int, lst: seq<int>, j: nat)
    requires SmallBin(w, hdr, lst) && j < |lst|
    ensures var r := [hdr] + lst;
            && w[lst[j] + FD] == r[Succ(|r|, j + 1)] && w[lst[j] + BK] == r[Pred(|r|, j + 1)]
            && (r[Succ(|r|, j + 1)] == r[Pred(|r|, j + 1)] <==> |lst| == 1)
            && r[Pred(|r|, j + 1)] + FD != r[Succ(|r|, j + 1)] + BK
            && (j == 0 ==> w[lst[j] + BK] == hdr)
  {
    var r := [hdr] + lst;
    assert Links(w, r, j + 1);
    assert r[j + 1] == lst[j];
    SpacedDistinct(r);
  }

  lemma SmallRemoved(v: Mem, w: Mem, hdr: int, lst: seq<int>, j: nat)
    requires SmallBin(v, hdr, lst) && j < |lst|
    requires var r := [hdr] + lst;
             var f, b := r[Succ(|r|, j + 1)], r[Pred(|r|, j + 1)];
             w == if |lst| == 1 then v else v[f + BK := b][b + FD := f]
    ensures SmallBin(w, hdr, Without(lst, j))
    ensures forall a :: w[a] == v[a] || InPairs([hdr] + lst, a)
  {
    hide Spaced, Ring, InPairs, Distinct, Without;
    var r := [hdr] + lst;
    HeaderStays(hdr, lst, j);
    WithoutSpaced(r, j + 1);
    RemoveFrame(v, w, r, j + 1);
    if |lst| > 1 {
      SmallRingRemoved(v, w, r, j + 1);
    }
  }

  lemma HeaderStays(hdr: int, lst: seq<int>, j: nat)
    requires j < |lst|
    ensures Without([hdr] + lst, j + 1) == [hdr] + Without(lst, j) && |Without(lst, j)| == |lst| - 1
  {
  }

  lemma SmallRingRemoved(v: Mem, w: Mem, r: seq<int>, j: nat)
    requires Ring(v, r) && Spaced(r) && j < |r| && |r| >= 3
    requires var f, b := r[Succ(|r|, j)], r[Pred(|r|, j)]; w == v[f + BK := b][b + FD := f]
    ensures Ring(w, Without(r, j))
  {
    SpacedDistinct(r);
    RemovedPairs(v, w, r, j);
    hide Spaced, Distinct;
    RingRemove(v, w, r, j);
  }

  lemma WithoutSpaced(r: seq<int>, j: nat)
    requires Spaced(r) && j < |r|
    ensures Spaced(Without(r, j))
  {
    var s := Without(r, j);
    forall x, y | 0 <= x < |s| && 0 <= y < |s| && x != y ensures s[x] + 8 <= s[y] || s[y] + 8 <= s[x] {
      assert s[x] == r[if x < j then x else x + 1];
      assert s[y] == r[if y < j then y else y + 1];
    }
  }

  lemma RemoveFrame(v: Mem, w: Mem, r: seq<int>, j: nat)
    requires j < |r|
    requires var f, b := r[Succ(|r|, j)], r[Pred(|r|, j)]; w == v || w == v[f + BK := b][b + FD := f]
    ensures forall a :: w[a] == v[a] || InPairs(r, a)
  {
    var n := |r|;
    forall a ensures w[a] == v[a] || InPairs(r, a) {
      assert a == r[Succ(n, j)] + BK || a == r[Pred(n, j)] + FD || w[a] == v[a];
    }
  }

  lemma RemovedPairs(v: Mem, w: Mem, r: seq<int>, j: nat)
    requires Spaced(r) && j < |r| && |r| >= 3
    requires var f, b := r[Succ(|r|, j)], r[Pred(|r|, j)]; w == v[f + BK := b][b + FD := f]
    ensures var b, f := r[Pred(|r|, j)], r[Succ(|r|, j)];
            && w[b + FD] == f && w[f + BK] == b
            && (forall i {:trigger r[i]} :: 0 <= i < |r| && i != j && r[i] != b ==> w[r[i] + FD] == v[r[i] + FD])
            && (forall i {:trigger r[i]} :: 0 <= i < |r| && i != j && r[i] != f ==> w[r[i] + BK] == v[r[i] + BK])
  {
  }
}
