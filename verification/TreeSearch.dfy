/** The best-fit searches of tmalloc_large and tmalloc_small, without the split that follows them. */
module TreeSearch {
  import opened Words
  import opened Memory
  import Bitmaps
  import opened Rings
  import opened Tries
  import opened MallocState
  import opened TreeBins
  import opened BinIndex
  import opened TreeInsert

  /** v is a chunk of s that fits nb, and none that fits is smaller. */
  ghost predicate BestFit(size: map<int, int>, s: set<int>, nb: int, v: int) {
    v in s && v in size && size[v] >= nb && forall a :: a in s && a in size && size[a] >= nb ==> size[v] <= size[a]
  }

  ghost predicate NoFit(size: map<int, int>, s: set<int>, nb: int) {
    forall a :: a in s && a in size ==> size[a] < nb
  }

  /** (v, rsize) as the loops carry them: nothing found yet, or a chunk of s with rsize bytes to spare. */
  ghost predicate Candidate(size: map<int, int>, s: set<int>, nb: int, v: int, rsize: int) {
    if v == 0 then rsize == WORD - nb else v in s && v in size && size[v] == nb + rsize && 0 <= rsize
  }

  /** a is in u, or larger than everything in u. */
  ghost predicate AtOrAbove(size: map<int, int>, u: Trie, a: int) {
    a in Addrs(u) || (a in size && forall b :: b in Addrs(u) ==> b in size && size[b] < size[a])
  }

  /** Every fitting chunk of s is beaten by the candidate, or by something still to be met in u. */
  ghost predicate Covers(size: map<int, int>, s: set<int>, nb: int, rsize: int, u: Trie) {
    && (forall a :: a in s ==> a in size && 0 <= size[a] < WORD)
    && forall a :: a in s && size[a] >= nb ==> size[a] >= nb + rsize || (u.Node? && AtOrAbove(size, u, a))
  }

  /** As Covers, half way down: u is the subtree whose range, ending below hi, holds nb;
      r is the deepest right subtree not taken. */
  ghost predicate Scans(size: map<int, int>, s: set<int>, nb: int, rsize: int, u: Trie, hi: int, r: Trie) {
    && (forall b :: b in Addrs(r) ==> b in size && size[b] >= hi > nb)
    && (r.Node? ==> Root(r) in Addrs(r))
    && (forall a :: a in s ==> a in size && 0 <= size[a] < WORD)
    && forall a :: a in s && size[a] >= nb ==>
         size[a] >= nb + rsize || a in Addrs(u) || (r.Node? && AtOrAbove(size, r, a))
  }

  /** The candidate after a node of size sz has been compared. */
  function Better(sz: int, nb: int, rsize: int): int {
    if sz >= nb && sz - nb < rsize then sz - nb else rsize
  }

  /** The wrapped unsigned comparison `trem < rsize` does what Better says. */
  lemma TremTest(sz: int, nb: int, rsize: int)
    requires 0 <= sz < WORD && 0 < nb < WORD && 0 <= rsize <= WORD - nb
    ensures Wrap(sz - nb) < rsize <==> sz >= nb && sz - nb < rsize
    ensures Wrap(sz - nb) < rsize ==> Wrap(sz - nb) == sz - nb == Better(sz, nb, rsize)
    ensures Wrap(sz - nb) >= rsize ==> Better(sz, nb, rsize) == rsize
  {
  }

  /** The sizes around one node: its own in [lo, hi), below mid on the left, from mid on the right. */
  ghost predicate Halves(size: map<int, int>, u: Trie, lo: int, mid: int, hi: int)
    requires u.Node?
  {
    && Root(u) in size && Root(u) in Addrs(u) && lo <= size[Root(u)] < hi
    && (forall a :: a in Addrs(u) ==>
          (a in size && size[a] == size[Root(u)]) || a in Addrs(u.left) || a in Addrs(u.right))
    && (forall a :: a in Addrs(u.left) ==> a in Addrs(u) && a in size && size[a] < mid)
    && (forall a :: a in Addrs(u.right) ==> a in Addrs(u) && a in size && mid <= size[a] < hi)
  }

  lemma NodeSplit(size: map<int, int>, u: Trie, lo: int, k: nat)
    requires u.Node? && Ordered(size, u, lo, k) && k > 0
    ensures Halves(size, u, lo, lo + Pow2(k - 1), lo + Pow2(k))
  {
    OrderedRange(size, u.left, lo, k - 1);
    OrderedRange(size, u.right, lo + Pow2(k - 1), k - 1);
    var r := Root(u);
    assert r in u.ring;
    assert r in Members(u.ring);
    assert size[r] < lo + Pow2(k);
    assert forall a :: a in Members(u.ring) ==> a in u.ring;
    assert forall a :: a in u.ring ==> a in size && size[a] == size[r];
    assert Pow2(k) == 2 * Pow2(k - 1);
    hide Pow2, Ordered;
  }

  /** One step down towards nb: the untaken right subtree, if any, becomes the new r. */
  lemma ScanStep(size: map<int, int>, s: set<int>, nb: int, rsize: int, u: Trie, lo: int, mid: int, hi: int, r: Trie, b: bool)
    requires u.Node? && Halves(size, u, lo, mid, hi) && lo <= nb < hi && mid < hi
    requires Scans(size, s, nb, rsize, u, hi, r)
    requires b <==> nb >= mid
    requires if u.right.Node? then Root(u.right) in Addrs(u.right) else Addrs(u.right) == {}
    ensures var rsize' := Better(size[Root(u)], nb, rsize);
            Scans(size, s, nb, rsize', Child(u, b), if b then hi else mid, if !b && u.right.Node? then u.right else r)
  {
    hide Addrs;
    var rsize', r' := Better(size[Root(u)], nb, rsize), if !b && u.right.Node? then u.right else r;
    forall a | a in s && size[a] >= nb
      ensures size[a] >= nb + rsize' || a in Addrs(Child(u, b)) || (r'.Node? && AtOrAbove(size, r', a))
    {
      if size[a] < nb + rsize' && a !in Addrs(u) {
        assert r.Node? && AtOrAbove(size, r, a);
        if r' != r {
          AboveEarlier(size, r, r', a, hi);
        }
      }
    }
  }

  /** r lies entirely at or above hi and r' entirely below it. */
  lemma AboveEarlier(size: map<int, int>, r: Trie, r': Trie, a: int, hi: int)
    requires r.Node? && AtOrAbove(size, r, a) && a in size
    requires forall b :: b in Addrs(r) ==> b in size && size[b] >= hi
    requires forall b :: b in Addrs(r') ==> b in size && size[b] < hi
    requires Root(r) in Addrs(r)
    ensures AtOrAbove(size, r', a)
  {
    hide Addrs;
  }

  /** One step of the leftmost walk: what is passed over is larger than what lies ahead. */
  lemma LeftmostStep(size: map<int, int>, s: set<int>, nb: int, rsize: int, u: Trie, lo: int, mid: int, hi: int)
    requires u.Node? && Halves(size, u, lo, mid, hi)
    requires Covers(size, s, nb, rsize, u)
    requires rsize == 0 || forall b :: b in Addrs(u) ==> b in size && size[b] >= nb
    requires if u.right.Node? then Root(u.right) in Addrs(u.right) else Addrs(u.right) == {}
    requires if u.left.Node? then Root(u.left) in Addrs(u.left) else Addrs(u.left) == {}
    ensures var rsize' := Better(size[Root(u)], nb, rsize);
            var u' := if u.left.Node? then u.left else u.right;
            && Covers(size, s, nb, rsize', u')
            && (rsize' == 0 || forall b :: b in Addrs(u') ==> b in size && size[b] >= nb)
  {
    hide Addrs;
    var rsize', u' := Better(size[Root(u)], nb, rsize), if u.left.Node? then u.left else u.right;
    forall a | a in s && size[a] >= nb
      ensures size[a] >= nb + rsize' || (u'.Node? && AtOrAbove(size, u', a))
    {
    }
  }

  /** A leaf's one size decides it. */
  lemma LeafStep(size: map<int, int>, s: set<int>, nb: int, rsize: int, u: Trie, lo: int, k: nat)
    requires IsLeaf(u) && Ordered(size, u, lo, k) && Covers(size, s, nb, rsize, u)
    requires rsize == 0 || forall b :: b in Addrs(u) ==> b in size && size[b] >= nb
    ensures Root(u) in size && Covers(size, s, nb, Better(size[Root(u)], nb, rsize), Nil)
  {
    var r := Root(u);
    assert r in u.ring;
    assert r in Members(u.ring);
    forall a | a in s && size[a] >= nb ensures size[a] >= nb + Better(size[r], nb, rsize) {
      if a in Addrs(u) {
        assert a in u.ring;
      }
    }
  }

  // ---- the loops ----

  /** What a tree bin must satisfy to be searched. */
  ghost predicate Searchable(w: Mem, slot: int, t: Trie, idx: int, size: map<int, int>) {
    && 0 <= idx < NTREEBINS && Tree(w, slot, t, idx)
    && Ordered(size, t, BinLo(idx), BinBits(idx)) && HeadsMatch(w, size, Addrs(t))
  }

  /** p points to the subtree of t at path, or is 0 where there is none. */
  ghost predicate PointsTo(p: int, t: Trie, path: Path) {
    ValidPath(t, path) && p == Root(At(t, path)) && (p != 0 <==> At(t, path).Node?)
  }

  /** leftmost_child(t) */
  method LeftmostChild(m: State, t: int) returns (c: int)
    ensures c == if m.w[t + CHILD0] != 0 then m.w[t + CHILD0] else m.w[t + CHILD1]
  {
    c := if m.w[t + CHILD0] != 0 then m.w[t + CHILD0] else m.w[t + CHILD1];
  }

  lemma AtFacts(w: Mem, slot: int, t: Trie, idx: int, size: map<int, int>, path: Path)
    requires Searchable(w, slot, t, idx, size) && ValidPath(t, path) && At(t, path).Node?
    ensures 0 <= idx < NTREEBINS
    ensures var u := At(t, path);
            && NodeFacts(w, size, u) && Addrs(u) <= Addrs(t) && |path| <= BinBits(idx)
            && Ordered(size, u, LoAt(BinLo(idx), BinBits(idx), path), BinBits(idx) - |path|)
            && (if u.right.Node? then Root(u.right) in Addrs(u.right) else Addrs(u.right) == {})
            && (if u.left.Node? then Root(u.left) in Addrs(u.left) else Addrs(u.left) == {})
            && (u.left.Node? && u.right.Node? ==> Root(u.left) != Root(u.right))
            && Root(u) in Addrs(u)
  {
    hide BinLo, BinBits, LoAt, Ordered, At, ValidPath, Addrs, Unique, Rep, Apart, HeadsMatch, NodeFacts, Pow2;
    Here(w, slot, t, idx, size, path);
    SlotInside(slot, slot, t, path, w, idx);
    AtOrdered(size, t, BinLo(idx), BinBits(idx), path);
    var u := At(t, path);
    ChildRoots(size, u, LoAt(BinLo(idx), BinBits(idx), path), BinBits(idx) - |path|);
  }

  lemma ChildRoots(size: map<int, int>, u: Trie, lo: int, k: nat)
    requires u.Node? && Ordered(size, u, lo, k) && Unique(u)
    ensures if u.right.Node? then Root(u.right) in Addrs(u.right) else Addrs(u.right) == {}
    ensures if u.left.Node? then Root(u.left) in Addrs(u.left) else Addrs(u.left) == {}
    ensures u.left.Node? && u.right.Node? ==> Root(u.left) != Root(u.right)
    ensures Root(u) in Addrs(u)
  {
    RootMember(size, u, lo, k);
    if k > 0 {
      if u.left.Node? {
        RootMember(size, u.left, lo, k - 1);
      }
      if u.right.Node? {
        RootMember(size, u.right, lo + Pow2(k - 1), k - 1);
      }
    }
  }

  lemma RootMember(size: map<int, int>, u: Trie, lo: int, k: nat)
    requires u.Node? && Ordered(size, u, lo, k)
    ensures Root(u) in Addrs(u)
  {
    var r := Root(u);
    assert r in u.ring;
    assert r in Members(u.ring);
  }

  /** The state of the leftmost loop: what p (0 or a subtree of t) still covers. */
  ghost predicate Pending(size: map<int, int>, s: set<int>, nb: int, rsize: int, t: Trie, p: int, path: Path) {
    && (p != 0 ==> PointsTo(p, t, path) && (rsize == 0 || forall b :: b in Addrs(At(t, path)) ==> b in size && size[b] >= nb))
    && Covers(size, s, nb, rsize, if p != 0 then At(t, path) else Nil)
  }

  ghost function Height(t: Trie, p: int, path: Path): Trie {
    if p != 0 && ValidPath(t, path) then At(t, path) else Nil
  }

  /** One round of the leftmost loop. */
  lemma LeftmostRound(w: Mem, slot: int, t: Trie, idx: int, size: map<int, int>, path: Path, s: set<int>, nb: int, rsize: int, p: int)
    returns (path': Path)
    requires Searchable(w, slot, t, idx, size) && p != 0 && Pending(size, s, nb, rsize, t, p, path)
    requires Addrs(t) <= s
    ensures p in s && p in size && 0 <= size[p] < WORD && ChunkSize(w[p + HEAD]) == size[p]
    ensures var c := if w[p + CHILD0] != 0 then w[p + CHILD0] else w[p + CHILD1];
            && Pending(size, s, nb, Better(size[p], nb, rsize), t, c, path')
            && (c == 0 || Height(t, c, path') < Height(t, p, path))
  {
    hide Searchable, BinLo, BinBits, LoAt, Ordered, Covers, Addrs, At, ValidPath;
    var u := At(t, path);
    AtFacts(w, slot, t, idx, size, path);
    var lo, k := LoAt(BinLo(idx), BinBits(idx), path), BinBits(idx) - |path|;
    path' := path + [!u.left.Node?];
    PathStep(t, path, !u.left.Node?);
    LeftmostBelow(size, s, nb, rsize, u, lo, k);
  }

  lemma LeftmostBelow(size: map<int, int>, s: set<int>, nb: int, rsize: int, u: Trie, lo: int, k: nat)
    requires u.Node? && Ordered(size, u, lo, k) && Covers(size, s, nb, rsize, u) && Root(u) in s
    requires rsize == 0 || forall b :: b in Addrs(u) ==> b in size && size[b] >= nb
    requires if u.right.Node? then Root(u.right) in Addrs(u.right) else Addrs(u.right) == {}
    requires if u.left.Node? then Root(u.left) in Addrs(u.left) else Addrs(u.left) == {}
    ensures Root(u) in size && 0 <= size[Root(u)] < WORD
    ensures var rsize' := Better(size[Root(u)], nb, rsize);
            var u' := if u.left.Node? then u.left else u.right;
            && Covers(size, s, nb, rsize', u')
            && (u'.Node? ==> rsize' == 0 || forall b :: b in Addrs(u') ==> b in size && size[b] >= nb)
  {
    if IsLeaf(u) {
      LeafStep(size, s, nb, rsize, u, lo, k);
    } else {
      SplitBelow(size, u, lo, k);
      hide Ordered, Addrs, Pow2, Halves;
      LeftmostStep(size, s, nb, rsize, u, lo, lo + Pow2(k - 1), lo + Pow2(k));
    }
  }

  lemma SplitBelow(size: map<int, int>, u: Trie, lo: int, k: nat)
    requires u.Node? && !IsLeaf(u) && Ordered(size, u, lo, k)
    ensures k > 0 && Halves(size, u, lo, lo + Pow2(k - 1), lo + Pow2(k))
  {
    assert k > 0;
    NodeSplit(size, u, lo, k);
  }

  /** while (t != 0): find the smallest of the tree or subtree at t. */
  method SmallestFrom(m: State, nb: int, v0: int, rsize0: int, t0: int, ghost slot: int, ghost t: Trie, ghost idx: int,
                      ghost path0: Path, ghost size: map<int, int>, ghost s: set<int>)
    returns (v: int, rsize: int)
    requires 0 < nb < WORD && Searchable(m.w, slot, t, idx, size) && Addrs(t) <= s && 0 !in s
    requires Candidate(size, s, nb, v0, rsize0) && 0 <= rsize0 <= WORD - nb
    requires Pending(size, s, nb, rsize0, t, t0, path0)
    ensures Candidate(size, s, nb, v, rsize) && Covers(size, s, nb, rsize, Nil)
  {
    v, rsize := v0, rsize0;
    var tt := t0;
    ghost var path := path0;
    hide Searchable, Pending, Covers, Height, Addrs;
    while tt != 0
      invariant Candidate(size, s, nb, v, rsize) && 0 <= rsize <= WORD - nb
      invariant Pending(size, s, nb, rsize, t, tt, path)
      decreases tt != 0, Height(t, tt, path)
    {
      ghost var path' := LeftmostRound(m.w, slot, t, idx, size, path, s, nb, rsize, tt);
      TremTest(size[tt], nb, rsize);
      var trem := Wrap(ChunkSize(m.w[tt + HEAD]) - nb);
      if trem < rsize {
        rsize := trem;
        v := tt;
      }
      tt := LeftmostChild(m, tt);
      path := path';
    }
    PendingDone(size, s, nb, rsize, t, path);
  }

  lemma PendingDone(size: map<int, int>, s: set<int>, nb: int, rsize: int, t: Trie, path: Path)
    requires Pending(size, s, nb, rsize, t, 0, path)
    ensures Covers(size, s, nb, rsize, Nil)
  {
  }

  // ---- the first loop of tmalloc_large ----

  /** The state of the loop: tt is the subtree whose range holds nb, rst the deepest untaken right subtree. */
  ghost predicate Descending(size: map<int, int>, t: Trie, lo: int, k: nat, path: Path, nb: int, key: int,
                             tt: int, rsize: int, rst: int, rpath: Path) {
    && OnTheWay(size, t, lo, k, path, nb, key) && tt != 0 && PointsTo(tt, t, path) && (rst != 0 ==> PointsTo(rst, t, rpath))
    && Scans(size, Addrs(t), nb, rsize, At(t, path), LoAt(lo, k, path) + Pow2(k - |path|),
             if rst != 0 then At(t, rpath) else Nil)
  }

  /** if (rt != 0 && rt != t) rst = rt; */
  function NextRst(rt: int, t: int, rst: int): int {
    if rt != 0 && rt != t then rt else rst
  }

  lemma DescentRound(w: Mem, slot: int, t: Trie, idx: int, size: map<int, int>, path: Path, nb: int, key: int,
                     tt: int, rsize: int, rst: int, rpath: Path, b: bool) returns (path': Path, rpath': Path)
    requires Searchable(w, slot, t, idx, size) && b == (key / 0x8000_0000 % 2 == 1)
    requires Descending(size, t, BinLo(idx), BinBits(idx), path, nb, key, tt, rsize, rst, rpath)
    ensures 0 <= idx < NTREEBINS && tt in Addrs(t) && tt in size && 0 <= size[tt] < WORD && ChunkSize(w[tt + HEAD]) == size[tt]
    ensures size[tt] != nb ==>
              var c := w[ChildSlot(tt, b)];
              var rst' := NextRst(w[tt + CHILD1], c, rst);
              var rsize' := Better(size[tt], nb, rsize);
              if c != 0 then
                && Descending(size, t, BinLo(idx), BinBits(idx), path', nb, Wrap(2 * key), c, rsize', rst', rpath')
                && Height(t, c, path') < Height(t, tt, path)
              else Pending(size, Addrs(t), nb, rsize', t, rst', rpath')
  {
    hide Searchable, BinLo, BinBits, LoAt, Ordered, Addrs, At, ValidPath, OnTheWay, Scans, Covers, Pow2;
    var u := At(t, path);
    AtFacts(w, slot, t, idx, size, path);
    var lo, k := LoAt(BinLo(idx), BinBits(idx), path), BinBits(idx) - |path|;
    var r := if rst != 0 then At(t, rpath) else Nil;
    ScanBound(size, Addrs(t), nb, rsize, u, lo + Pow2(k), r, tt);
    path', rpath' := path, rpath;
    if size[tt] != nb {
      TreeOrdered(w, slot, t, idx, size);
      StepDown(size, t, BinLo(idx), BinBits(idx), path, nb, key, b);
      path' := path + [b];
      PathStep(t, path, true);
      rpath' := if !b && u.right.Node? then path + [true] else rpath;
      ScanRound(size, t, BinLo(idx), BinBits(idx), path, nb, key, rsize, r, b);
      ScansCover(size, Addrs(t), nb, Better(size[tt], nb, rsize),
                 LoAt(BinLo(idx), BinBits(idx), path') + Pow2(k - 1), if !b && u.right.Node? then u.right else r);
    }
  }

  lemma TreeOrdered(w: Mem, slot: int, t: Trie, idx: int, size: map<int, int>)
    requires Searchable(w, slot, t, idx, size)
    ensures Ordered(size, t, BinLo(idx), BinBits(idx))
  {
  }

  lemma ScanBound(size: map<int, int>, s: set<int>, nb: int, rsize: int, u: Trie, hi: int, r: Trie, a: int)
    requires Scans(size, s, nb, rsize, u, hi, r) && a in s
    ensures a in size && 0 <= size[a] < WORD
  {
  }

  /** Where the walk towards nb ends, what is left is covered by r alone. */
  lemma ScansCover(size: map<int, int>, s: set<int>, nb: int, rsize: int, hi: int, r: Trie)
    ensures Scans(size, s, nb, rsize, Nil, hi, r) ==> Covers(size, s, nb, rsize, r)
    ensures forall u: Trie :: Scans(size, s, nb, rsize, u, hi, r) ==> forall b :: b in Addrs(r) ==> b in size && size[b] >= nb
  {
  }

  lemma ScanRound(size: map<int, int>, t: Trie, lo: int, k: nat, path: Path, nb: int, key: int, rsize: int, r: Trie, b: bool)
    requires Ordered(size, t, lo, k) && OnTheWay(size, t, lo, k, path, nb, key) && At(t, path).Node?
    requires Ordered(size, At(t, path), LoAt(lo, k, path), k - |path|)
    requires Root(At(t, path)) in size && size[Root(At(t, path))] != nb
    requires b <==> key / 0x8000_0000 % 2 == 1
    requires Scans(size, Addrs(t), nb, rsize, At(t, path), LoAt(lo, k, path) + Pow2(k - |path|), r)
    requires var u := At(t, path); if u.right.Node? then Root(u.right) in Addrs(u.right) else Addrs(u.right) == {}
    ensures var u := At(t, path);
            |path| < k && Scans(size, Addrs(t), nb, Better(size[Root(u)], nb, rsize), Child(u, b),
                  LoAt(lo, k, path + [b]) + Pow2(k - |path| - 1), if !b && u.right.Node? then u.right else r)
  {
    hide Scans, Ordered, Addrs, OffPath, ValidPath, At, LoAt;
    var u, lo1, kk := At(t, path), LoAt(lo, k, path), k - |path|;
    NotAlone(size, u, lo1, kk, nb);
    NodeSplit(size, u, lo1, kk);
    LoStep(lo, k, path, b);
    KeyStep(nb - lo1, kk);
    hide Halves;
    ScanStep(size, Addrs(t), nb, rsize, u, lo1, lo1 + Pow2(kk - 1), lo1 + Pow2(kk), r, b);
  }

  lemma StartScan(w: Mem, slot: int, t: Trie, idx: int, size: map<int, int>, nb: int, key: int, tt: int)
    requires 256 <= nb < WORD && idx == TreeIndex(nb) && key == Wrap(nb * Pow2(LeftShift(idx)))
    requires Searchable(w, slot, t, idx, size) && tt == w[slot]
    requires forall a :: a in Addrs(t) ==> a in size && 0 <= size[a] < WORD && a != 0
    ensures if tt != 0 then Descending(size, t, BinLo(idx), BinBits(idx), [], nb, key, tt, WORD - nb, 0, [])
            else Pending(size, Addrs(t), nb, WORD - nb, t, 0, [])
    ensures Wrap(-nb) == WORD - nb
  {
    hide Ordered, Pow2, TreeIndex, BinLo, BinBits, LeftShift, OnTheWay, HeadsMatch, Scans, Covers;
    StartOfWalk(size, t, nb, idx, key);
    BinRange(nb);
    RootNonZero(w, slot, slot, t, idx);
    WrapSmall(-nb);
    ScansAll(size, t, nb, BinLo(idx) + Pow2(BinBits(idx)));
  }

  lemma ScansAll(size: map<int, int>, t: Trie, nb: int, hi: int)
    requires forall a :: a in Addrs(t) ==> a in size && 0 <= size[a] < WORD
    ensures Scans(size, Addrs(t), nb, WORD - nb, t, hi, Nil)
    ensures t.Nil? ==> Covers(size, Addrs(t), nb, WORD - nb, t) && Covers(size, Addrs(t), nb, WORD - nb, Nil)
  {
  }

  lemma ExactFit(size: map<int, int>, t: Trie, lo: int, k: nat, path: Path, nb: int, key: int,
                 tt: int, rsize: int, rst: int, rpath: Path)
    requires Descending(size, t, lo, k, path, nb, key, tt, rsize, rst, rpath)
    ensures Pending(size, Addrs(t), nb, 0, t, tt, path)
  {
    hide OnTheWay, Addrs, At, ValidPath;
  }

  /** The for loop of tmalloc_large, from the root tt0 != 0 of bin idx. */
  method Descend(m: State, nb: int, idx: int, tt0: int, ghost t: Trie, ghost size: map<int, int>)
    returns (v: int, rsize: int, tt: int, ghost path: Path)
    requires 0 < nb < WORD && 0 <= idx < NTREEBINS
    requires Searchable(m.w, TreeBinAt(m.gm, idx), t, idx, size) && 0 !in Addrs(t)
    requires Descending(size, t, BinLo(idx), BinBits(idx), [], nb, Wrap(nb * Pow2(LeftShift(idx))), tt0, WORD - nb, 0, [])
    ensures Candidate(size, Addrs(t), nb, v, rsize) && 0 <= rsize <= WORD - nb
    ensures Pending(size, Addrs(t), nb, rsize, t, tt, path)
  {
    hide Searchable, BinLo, BinBits, Addrs, Descending, Pending, Height, LeftShift, Pow2;
    v, rsize, path, tt := 0, WORD - nb, [], tt0;
    var key := Wrap(nb * Pow2(LeftShift(idx)));
    var rst := 0;
    ghost var rpath: Path := [];
    while true
      invariant Descending(size, t, BinLo(idx), BinBits(idx), path, nb, key, tt, rsize, rst, rpath)
      invariant Candidate(size, Addrs(t), nb, v, rsize) && 0 < rsize <= WORD - nb
      decreases Height(t, tt, path)
    {
      ghost var b := key / 0x8000_0000 % 2 == 1;
      ghost var path', rpath' := DescentRound(m.w, TreeBinAt(m.gm, idx), t, idx, size, path, nb, key, tt, rsize, rst, rpath, b);
      TremTest(size[tt], nb, rsize);
      ExactFit(size, t, BinLo(idx), BinBits(idx), path, nb, key, tt, rsize, rst, rpath);
      var trem := Wrap(ChunkSize(m.w[tt + HEAD]) - nb);
      if trem < rsize {
        v, rsize := tt, trem;
        if rsize == 0 {
          return;
        }
      }
      var rt := m.w[tt + CHILD1];
      tt := if key / 0x8000_0000 % 2 == 1 then m.w[tt + CHILD1] else m.w[tt + CHILD0];
      if rt != 0 && rt != tt {
        rst := rt;
      }
      path, rpath := path', rpath';
      if tt == 0 {
        tt, path := rst, rpath;
        return;
      }
      key := Wrap(2 * key);
    }
  }

  /** Search bin idx for a node of size nb; leave in tt the subtree that may still hold a better fit. */
  method SearchBin(m: State, nb: int, idx: int, ghost t: Trie, ghost size: map<int, int>)
    returns (v: int, rsize: int, tt: int, ghost path: Path)
    requires 256 <= nb < WORD && idx == TreeIndex(nb)
    requires Searchable(m.w, TreeBinAt(m.gm, idx), t, idx, size)
    requires forall a :: a in Addrs(t) ==> a in size && 0 <= size[a] < WORD && a != 0
    ensures Candidate(size, Addrs(t), nb, v, rsize) && 0 <= rsize <= WORD - nb
    ensures Pending(size, Addrs(t), nb, rsize, t, tt, path)
  {
    hide Searchable, BinLo, BinBits, Addrs, Descending, Pending, TreeIndex, LeftShift, Pow2;
    v, rsize, path := 0, Wrap(-nb), [];
    tt := m.w[TreeBinAt(m.gm, idx)];
    StartScan(m.w, TreeBinAt(m.gm, idx), t, idx, size, nb, Wrap(nb * Pow2(LeftShift(idx))), tt);
    if tt != 0 {
      v, rsize, tt, path := Descend(m, nb, idx, tt, t, size);
    }
  }

  // ---- all 32 tree bins ----

  ghost function TreeChunks(trees: seq<Trie>): set<int> {
    set i, a | 0 <= i < |trees| && a in Addrs(trees[i]) :: a
  }

  /** Each bin is searchable and holds only sizes that belong to it; the map marks the non-empty ones. */
  ghost predicate TreeBinsOK(w: Mem, gm: int, treemap: Bitmaps.Binmap, trees: seq<Trie>, size: map<int, int>, marked: set<int>) {
    && |trees| == NTREEBINS && Bitmaps.Means(treemap, marked)
    && (forall i :: 0 <= i < NTREEBINS ==> TreeBinOK(w, gm, i, trees[i], size))
    && (forall i :: i in marked <==> 0 <= i < NTREEBINS && trees[i].Node?)
  }

  ghost predicate TreeBinOK(w: Mem, gm: int, i: int, t: Trie, size: map<int, int>)
    requires 0 <= i < NTREEBINS
  {
    Searchable(w, TreeBinAt(gm, i), t, i, size) && Binned(size, t, i)
  }

  ghost predicate Binned(size: map<int, int>, t: Trie, i: int) {
    forall a :: a in Addrs(t) ==> a > 0 && a in size && 256 <= size[a] < WORD && TreeIndex(size[a]) == i
  }

  /** A fit in the bin of nb beats everything in other bins. */
  lemma BestOverall(trees: seq<Trie>, size: map<int, int>, idx: int, nb: int, v: int)
    requires |trees| == NTREEBINS && 256 <= nb < WORD && idx == TreeIndex(nb)
    requires forall i :: 0 <= i < NTREEBINS ==> Binned(size, trees[i], i)
    requires BestFit(size, Addrs(trees[idx]), nb, v)
    ensures BestFit(size, TreeChunks(trees), nb, v)
  {
    forall a | a in TreeChunks(trees) && a in size && size[a] >= nb ensures size[v] <= size[a] {
      var i :| 0 <= i < |trees| && a in Addrs(trees[i]);
      if i < idx {
        LaterBinLarger(size[a], nb);
      } else if idx < i {
        LaterBinLarger(size[v], size[a]);
      }
    }
  }

  /** With nothing that fits in bin idx, the smallest chunk of the next non-empty bin is the best fit. */
  lemma NextBinBest(trees: seq<Trie>, size: map<int, int>, idx: int, j: int, nb: int, v: int)
    requires |trees| == NTREEBINS && 256 <= nb < WORD && idx == TreeIndex(nb) && idx < j < NTREEBINS
    requires forall i :: 0 <= i < NTREEBINS ==> Binned(size, trees[i], i)
    requires NoFit(size, Addrs(trees[idx]), nb) && forall i :: idx < i < j ==> trees[i].Nil?
    requires BestFit(size, Addrs(trees[j]), nb, v)
    ensures BestFit(size, TreeChunks(trees), nb, v)
  {
    forall a | a in TreeChunks(trees) && a in size && size[a] >= nb ensures size[v] <= size[a] {
      var i :| 0 <= i < |trees| && a in Addrs(trees[i]);
      if i < idx {
        LaterBinLarger(size[a], nb);
      } else if j < i {
        LaterBinLarger(size[v], size[a]);
      }
    }
  }

  lemma NoneOverall(trees: seq<Trie>, size: map<int, int>, idx: int, nb: int)
    requires |trees| == NTREEBINS && 256 <= nb < WORD && idx == TreeIndex(nb)
    requires forall i :: 0 <= i < NTREEBINS ==> Binned(size, trees[i], i)
    requires NoFit(size, Addrs(trees[idx]), nb) && forall i :: idx < i < NTREEBINS ==> trees[i].Nil?
    ensures NoFit(size, TreeChunks(trees), nb)
  {
    forall a | a in TreeChunks(trees) && a in size ensures size[a] < nb {
      var i :| 0 <= i < |trees| && a in Addrs(trees[i]);
      if i < idx {
        LaterBinLarger(size[a], nb);
      }
    }
  }

  /** Any chunk of a bin above idx fits nb. */
  lemma LaterBinFits(trees: seq<Trie>, size: map<int, int>, idx: int, j: int, nb: int)
    requires |trees| == NTREEBINS && 256 <= nb < WORD && idx == TreeIndex(nb) && idx < j < NTREEBINS
    requires Binned(size, trees[j], j)
    ensures forall a :: a in Addrs(trees[j]) ==> a in size && size[a] > nb
  {
    forall a | a in Addrs(trees[j]) ensures size[a] > nb {
      LaterBinLarger(nb, size[a]);
    }
  }

  lemma CandidateBest(size: map<int, int>, s: set<int>, nb: int, v: int, rsize: int)
    requires Candidate(size, s, nb, v, rsize) && Covers(size, s, nb, rsize, Nil)
    ensures v == 0 ==> NoFit(size, s, nb)
    ensures v != 0 ==> BestFit(size, s, nb, v) && rsize == size[v] - nb
  {
  }

  /** A whole bin all of whose chunks fit, before any candidate was found. */
  lemma WholeBinPending(w: Mem, slot: int, t: Trie, idx: int, size: map<int, int>, nb: int, rsize: int)
    requires Searchable(w, slot, t, idx, size) && Binned(size, t, idx) && t.Node?
    requires forall a :: a in Addrs(t) ==> a in size && size[a] >= nb
    ensures w[slot] != 0 && Pending(size, Addrs(t), nb, rsize, t, w[slot], [])
  {
    RootNonZero(w, slot, slot, t, idx);
    assert ValidPath(t, []) && At(t, []) == t;
  }

  /** The search of tmalloc_large: the best-fitting chunk of all tree bins, or 0 when none fits. */
  method BestFitLarge(m: State, nb: int, ghost trees: seq<Trie>, ghost size: map<int, int>, ghost marked: set<int>)
    returns (v: int, rsize: int)
    requires 256 <= nb < WORD && TreeBinsOK(m.w, m.gm, m.treemap, trees, size, marked)
    ensures v == 0 ==> NoFit(size, TreeChunks(trees), nb)
    ensures v != 0 ==> BestFit(size, TreeChunks(trees), nb, v) && rsize == size[v] - nb
  {
    hide Searchable, Binned, Addrs, Pending, Covers, BestFit, NoFit, TreeIndex, TreeChunks, Candidate, Bitmaps.Means;
    var idx := TreeIndex(nb);
    ghost var t := trees[idx];
    assert TreeBinOK(m.w, m.gm, idx, t, size);
    assert forall i :: 0 <= i < NTREEBINS ==> Binned(size, trees[i], i) by {
      forall i | 0 <= i < NTREEBINS ensures Binned(size, trees[i], i) {
        assert TreeBinOK(m.w, m.gm, i, trees[i], size);
      }
    }
    BinnedBounds(size, t, idx);
    var tt;
    ghost var path;
    v, rsize, tt, path := SearchBin(m, nb, idx, t, size);
    if tt == 0 && v == 0 {
      PendingDone(size, Addrs(t), nb, rsize, t, path);
      CandidateBest(size, Addrs(t), nb, v, rsize);
      v, rsize := NextBin(m, nb, idx, trees, size, marked);
    } else {
      SomeCandidate(m.w, TreeBinAt(m.gm, idx), t, idx, size, nb, v, rsize, tt, path);
      v, rsize := SmallestFrom(m, nb, v, rsize, tt, TreeBinAt(m.gm, idx), t, idx, path, size, Addrs(t));
      CandidateBest(size, Addrs(t), nb, v, rsize);
      BestOverall(trees, size, idx, nb, v);
    }
  }

  /** A candidate, or a subtree still to search, means that something in the bin fits. */
  lemma SomeCandidate(w: Mem, slot: int, t: Trie, idx: int, size: map<int, int>, nb: int, v: int, rsize: int, tt: int, path: Path)
    requires Searchable(w, slot, t, idx, size) && (v != 0 || tt != 0) && 0 < nb < WORD
    requires Candidate(size, Addrs(t), nb, v, rsize) && Pending(size, Addrs(t), nb, rsize, t, tt, path)
    ensures !NoFit(size, Addrs(t), nb)
  {
    hide Searchable, Covers, Addrs, At, ValidPath;
    if v != 0 {
      assert v in Addrs(t);
    } else {
      AtFacts(w, slot, t, idx, size, path);
      var r := Root(At(t, path));
      assert r in Addrs(At(t, path));
      assert r in Addrs(t);
    }
  }

  lemma BinnedBounds(size: map<int, int>, t: Trie, i: int)
    requires Binned(size, t, i)
    ensures forall a :: a in Addrs(t) ==> a in size && 0 <= size[a] < WORD && a != 0
    ensures 0 !in Addrs(t)
  {
  }

  /** Nothing in bin idx fits: take the smallest chunk of the next non-empty bin. */
  method NextBin(m: State, nb: int, idx: int, ghost trees: seq<Trie>, ghost size: map<int, int>, ghost marked: set<int>)
    returns (v: int, rsize: int)
    requires 256 <= nb < WORD && TreeBinsOK(m.w, m.gm, m.treemap, trees, size, marked) && idx == TreeIndex(nb)
    requires NoFit(size, Addrs(trees[idx]), nb) && forall i :: 0 <= i < NTREEBINS ==> Binned(size, trees[i], i)
    ensures v == 0 ==> NoFit(size, TreeChunks(trees), nb)
    ensures v != 0 ==> BestFit(size, TreeChunks(trees), nb, v) && rsize == size[v] - nb
  {
    hide Searchable, Binned, Addrs, Pending, Covers, BestFit, NoFit, TreeIndex, TreeChunks, Candidate, Bitmaps.Means;
    v, rsize := 0, Wrap(-nb);
    var found, i := Bitmaps.FirstAbove(m.treemap, idx, marked);
    if found {
      ghost var t := trees[i];
      assert TreeBinOK(m.w, m.gm, i, t, size);
      BinnedBounds(size, t, i);
      LaterBinFits(trees, size, idx, i, nb);
      StartCandidate(size, Addrs(t), nb);
      WholeBinPending(m.w, TreeBinAt(m.gm, i), t, i, size, nb, rsize);
      v, rsize := SmallestFrom(m, nb, v, rsize, m.w[TreeBinAt(m.gm, i)], TreeBinAt(m.gm, i), t, i, [], size, Addrs(t));
      CandidateBest(size, Addrs(t), nb, v, rsize);
      if v != 0 {
        assert forall j :: idx < j < i ==> j !in marked;
        NextBinBest(trees, size, idx, i, nb, v);
      } else {
        SomethingFits(m.w, TreeBinAt(m.gm, i), t, i, size, nb);
      }
    } else {
      NoneOverall(trees, size, idx, nb);
    }
  }

  lemma StartCandidate(size: map<int, int>, s: set<int>, nb: int)
    requires 0 < nb < WORD
    ensures Candidate(size, s, nb, 0, Wrap(-nb)) && 0 <= Wrap(-nb) <= WORD - nb
  {
  }

  lemma SomethingFits(w: Mem, slot: int, t: Trie, idx: int, size: map<int, int>, nb: int)
    requires Searchable(w, slot, t, idx, size) && t.Node? && forall a :: a in Addrs(t) ==> a in size && size[a] > nb
    ensures !NoFit(size, Addrs(t), nb)
  {
    RootMember(size, t, BinLo(idx), BinBits(idx));
    var r := Root(t);
    assert r in Addrs(t);
  }

  /** The search of tmalloc_small: the smallest chunk of all tree bins. */
  method BestFitSmall(m: State, nb: int, ghost trees: seq<Trie>, ghost size: map<int, int>, ghost marked: set<int>)
    returns (v: int, rsize: int)
    requires 0 < nb < 256 && TreeBinsOK(m.w, m.gm, m.treemap, trees, size, marked) && marked != {}
    ensures BestFit(size, TreeChunks(trees), nb, v) && rsize == size[v] - nb
  {
    hide Searchable, Binned, Addrs, Pending, Covers, TreeChunks, Bitmaps.Means;
    var i := Bitmaps.First(m.treemap, marked);
    ghost var t := trees[i];
    assert TreeBinOK(m.w, m.gm, i, t, size);
    BinnedFits(size, t, i, nb);
    WholeBinPending(m.w, TreeBinAt(m.gm, i), t, i, size, nb, WORD - nb);
    var tt := m.w[TreeBinAt(m.gm, i)];
    FirstRound(m.w, TreeBinAt(m.gm, i), t, i, size, nb, tt);
    v := tt;
    rsize := ChunkSize(m.w[tt + HEAD]) - nb;
    ghost var path := LeftmostRound(m.w, TreeBinAt(m.gm, i), t, i, size, [], Addrs(t), nb, WORD - nb, tt);
    tt := LeftmostChild(m, tt);
    v, rsize := SmallestFrom(m, nb, v, rsize, tt, TreeBinAt(m.gm, i), t, i, path, size, Addrs(t));
    CandidateBest(size, Addrs(t), nb, v, rsize);
    assert forall k :: 0 <= k < NTREEBINS && trees[k].Node? ==> i <= k;
    forall k | 0 <= k < NTREEBINS ensures Binned(size, trees[k], k) {
      assert TreeBinOK(m.w, m.gm, k, trees[k], size);
    }
    FirstBinBest(trees, size, i, nb, v);
  }

  lemma BinnedFits(size: map<int, int>, t: Trie, i: int, nb: int)
    requires Binned(size, t, i) && nb < 256
    ensures forall a :: a in Addrs(t) ==> a in size && nb <= size[a] < WORD && a != 0
  {
  }

  lemma FirstRound(w: Mem, slot: int, t: Trie, idx: int, size: map<int, int>, nb: int, tt: int)
    requires Searchable(w, slot, t, idx, size) && t.Node? && tt == w[slot]
    requires forall a :: a in Addrs(t) ==> a in size && nb <= size[a] < WORD && a != 0
    ensures tt in Addrs(t) && tt in size && tt != 0 && ChunkSize(w[tt + HEAD]) == size[tt]
    ensures Better(size[tt], nb, WORD - nb) == size[tt] - nb
  {
    RootNonZero(w, slot, slot, t, idx);
    hide Ordered, Rep, Unique, Addrs, Apart, Tree;
  }

  lemma FirstBinBest(trees: seq<Trie>, size: map<int, int>, i: int, nb: int, v: int)
    requires |trees| == NTREEBINS && 0 < nb < 256 && 0 <= i < NTREEBINS
    requires forall k :: 0 <= k < NTREEBINS ==> Binned(size, trees[k], k)
    requires forall k :: 0 <= k < NTREEBINS && trees[k].Node? ==> i <= k
    requires v != 0 ==> BestFit(size, Addrs(trees[i]), nb, v)
    requires v != 0
    ensures BestFit(size, TreeChunks(trees), nb, v)
  {
    forall a | a in TreeChunks(trees) && a in size && size[a] >= nb ensures size[v] <= size[a] {
      var k :| 0 <= k < |trees| && a in Addrs(trees[k]);
      if i < k {
        LaterBinLarger(size[v], size[a]);
      }
    }
  }
}
