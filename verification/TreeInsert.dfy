/** insert_large_chunk. */
module TreeInsert {
  import opened Words
  import opened Memory
  import Bitmaps
  import opened Rings
  import opened Tries
  import opened MallocState
  import opened TreeBins
  import opened BinIndex

  /** Walking down t in search of size s: s lies in the range at position path, key holds the
      steering bits still to come, and no node passed so far has size s. */
  ghost predicate OnTheWay(size: map<int, int>, t: Trie, lo: int, k: nat, path: Path, s: int, key: int) {
    && k <= 32 && ValidPath(t, path) && |path| <= k
    && LoAt(lo, k, path) <= s < LoAt(lo, k, path) + Pow2(k - |path|)
    && key == (s - LoAt(lo, k, path)) * Pow2(32 - (k - |path|))
    && OffPath(size, t, path, s)
  }

  lemma {:induction false} LoStep(lo: int, k: nat, path: Path, b: bool)
    requires |path| < k
    ensures LoAt(lo, k, path + [b]) == LoAt(lo, k, path) + if b then Pow2(k - |path| - 1) else 0
    decreases path
  {
    if path != [] {
      assert (path + [b])[1..] == path[1..] + [b];
      LoStep(if path[0] then lo + Pow2(k - 1) else lo, k - 1, path[1..], b);
    } else {
      assert (path + [b])[1..] == [];
    }
  }

  lemma {:induction false} OffStep(size: map<int, int>, t: Trie, path: Path, b: bool, v: int)
    requires ValidPath(t, path) && At(t, path).Node? && ValidPath(t, path + [b])
    requires OffPath(size, t, path, v) && (Root(At(t, path)) in size ==> size[Root(At(t, path))] != v)
    ensures OffPath(size, t, path + [b], v)
    decreases path
  {
    if path != [] {
      assert (path + [b])[1..] == path[1..] + [b];
      OffStep(size, Child(t, path[0]), path[1..], b, v);
    } else {
      assert (path + [b])[1..] == [];
    }
  }

  /** The sign bit of the key leads into the half that holds s. */
  lemma StepDown(size: map<int, int>, t: Trie, lo: int, k: nat, path: Path, s: int, key: int, b: bool)
    requires OnTheWay(size, t, lo, k, path, s, key) && At(t, path).Node?
    requires Ordered(size, t, lo, k) && Root(At(t, path)) in size && size[Root(At(t, path))] != s
    requires b <==> key / 0x8000_0000 % 2 == 1
    ensures ValidPath(t, path + [b]) && At(t, path + [b]) == Child(At(t, path), b)
    ensures OnTheWay(size, t, lo, k, path + [b], s, Wrap(2 * key))
  {
    hide Ordered, ValidPath, At, LoAt, OffPath, Pow2;
    AtOrdered(size, t, lo, k, path);
    PathStep(t, path, b);
    OffStep(size, t, path, b, s);
    var kk := k - |path|;
    NotAlone(size, At(t, path), LoAt(lo, k, path), kk, s);
    LoStep(lo, k, path, b);
    var d, lo1 := s - LoAt(lo, k, path), LoAt(lo, k, path + [b]);
    KeyStep(d, kk);
    hide *;
    assert k - |path + [b]| == kk - 1;
    HalfOfRange(d, kk);
  }

  lemma HalfOfRange(d: int, k: nat)
    requires k > 0 && 0 <= d < Pow2(k)
    ensures d >= Pow2(k - 1) ==> d - Pow2(k - 1) < Pow2(k - 1)
  {
  }

  /** A node of another size in a range that also holds s: the range has two halves. */
  lemma NotAlone(size: map<int, int>, u: Trie, lo: int, k: nat, s: int)
    requires u.Node? && Ordered(size, u, lo, k) && Root(u) in size && size[Root(u)] != s && lo <= s < lo + Pow2(k)
    ensures k > 0
  {
  }

  ghost predicate HeadsMatch(w: Mem, size: map<int, int>, s: set<int>) {
    forall p :: p in s ==> p in size && ChunkSize(w[p + HEAD]) == size[p]
  }

  /** Either the node at path has size s, or s belongs at its empty child pointer c. */
  ghost predicate PlaceFound(size: map<int, int>, t: Trie, lo: int, k: nat, path: Path, s: int,
                             same: bool, tt: int, c: int, b: bool) {
    && ValidPath(t, path) && At(t, path).Node? && tt == Root(At(t, path)) && |path| <= k
    && tt in size && (same <==> size[tt] == s) && OffPath(size, t, path, s)
    && (!same ==>
          && |path| < k && c == ChildSlot(tt, b)
          && ValidPath(t, path + [b]) && At(t, path + [b]) == Nil
          && OffPath(size, t, path + [b], s)
          && LoAt(lo, k, path + [b]) <= s < LoAt(lo, k, path + [b]) + Pow2(k - |path| - 1))
  }

  /** The for loop of the macro: stop at a node of size s, or at the empty child pointer where s belongs. */
  method FindPlace(m: State, s: int, i: int, h: int, ghost t: Trie, ghost size: map<int, int>)
    returns (same: bool, tt: int, c: int, ghost path: Path, ghost b: bool)
    requires 256 <= s < WORD && i == TreeIndex(s) && h == TreeBinAt(m.gm, i)
    requires t.Node? && Tree(m.w, h, t, i) && Ordered(size, t, BinLo(i), BinBits(i)) && HeadsMatch(m.w, size, Addrs(t))
    ensures PlaceFound(size, t, BinLo(i), BinBits(i), path, s, same, tt, c, b)
  {
    hide Tree, Ordered, OnTheWay, HeadsMatch, Pow2, BinLo, BinBits, PlaceFound, ValidPath, OffPath, TreeIndex;
    ghost var lo, k := BinLo(i), BinBits(i);
    tt, path, b, c := m.w[h], [], false, 0;
    var key := Wrap(s * Pow2(LeftShift(i)));
    StartOfWalk(size, t, s, i, key);
    Here(m.w, h, t, i, size, []);
    while true
      invariant OnTheWay(size, t, lo, k, path, s, key)
      invariant ValidPath(t, path) && At(t, path).Node? && tt == Root(At(t, path)) && NodeFacts(m.w, size, At(t, path))
      decreases At(t, path)
    {
      if ChunkSize(m.w[tt + HEAD]) == s {
        FoundSame(size, t, lo, k, path, s, key);
        same := true;
        return;
      }
      b := key / 0x8000_0000 % 2 == 1;
      StepDown(size, t, lo, k, path, s, key, b);
      c := if key / 0x8000_0000 % 2 == 1 then tt + CHILD1 else tt + CHILD0;
      key := Wrap(2 * key);
      if m.w[c] == 0 {
        FoundEmpty(size, t, lo, k, path, s, key, b);
        same := false;
        return;
      }
      tt, path := m.w[c], path + [b];
      Here(m.w, h, t, i, size, path);
    }
  }

  lemma StartOfWalk(size: map<int, int>, t: Trie, s: int, i: int, key: int)
    requires 256 <= s < WORD && i == TreeIndex(s) && key == Wrap(s * Pow2(LeftShift(i)))
    ensures OnTheWay(size, t, BinLo(i), BinBits(i), [], s, key) && ValidPath(t, []) && At(t, []) == t
  {
    hide Pow2, TreeIndex, BinLo, BinBits, Wrap, LeftShift;
    FirstKey(s);
    BinRange(s);
  }

  lemma FoundSame(size: map<int, int>, t: Trie, lo: int, k: nat, path: Path, s: int, key: int)
    requires OnTheWay(size, t, lo, k, path, s, key) && At(t, path).Node?
    requires Root(At(t, path)) in size && size[Root(At(t, path))] == s
    ensures forall c, b :: PlaceFound(size, t, lo, k, path, s, true, Root(At(t, path)), c, b)
  {
  }

  lemma FoundEmpty(size: map<int, int>, t: Trie, lo: int, k: nat, path: Path, s: int, key: int, b: bool)
    requires ValidPath(t, path) && At(t, path).Node? && OnTheWay(size, t, lo, k, path + [b], s, key)
    requires Root(At(t, path)) in size && size[Root(At(t, path))] != s
    requires At(t, path + [b]) == Nil
    ensures PlaceFound(size, t, lo, k, path, s, false, Root(At(t, path)), ChildSlot(Root(At(t, path)), b), b)
  {
    OffPrefix(size, t, path, b, s);
  }

  lemma {:induction false} OffPrefix(size: map<int, int>, t: Trie, path: Path, b: bool, v: int)
    requires ValidPath(t, path) && ValidPath(t, path + [b]) && OffPath(size, t, path + [b], v)
    ensures OffPath(size, t, path, v)
    decreases path
  {
    if path != [] {
      assert (path + [b])[1..] == path[1..] + [b];
      OffPrefix(size, Child(t, path[0]), path[1..], b, v);
    }
  }

  /** The words of the node at the head of u that the walk reads. */
  ghost predicate NodeFacts(w: Mem, size: map<int, int>, u: Trie)
    requires u.Node?
  {
    && w[Root(u) + CHILD1] == Root(u.right) && w[Root(u) + CHILD0] == Root(u.left)
    && (Root(u.right) != 0 <==> u.right.Node?) && (Root(u.left) != 0 <==> u.left.Node?)
    && Root(u) in size && ChunkSize(w[Root(u) + HEAD]) == size[Root(u)]
  }

  lemma Here(w: Mem, slot: int, t: Trie, idx: int, size: map<int, int>, path: Path)
    requires Tree(w, slot, t, idx) && HeadsMatch(w, size, Addrs(t))
    requires ValidPath(t, path) && At(t, path).Node?
    ensures NodeFacts(w, size, At(t, path))
    ensures path == [] ==> w[slot] == Root(t)
  {
    WalkHere(w, slot, slot, t, idx, path);
    SlotInside(slot, slot, t, path, w, idx);
    var u := At(t, path);
    ApartSubset(Addrs(t), Addrs(u));
    RootNonZero(w, SlotAt(slot, t, path), ParentAt(slot, t, path), u, idx);
  }

  // ---- the writes ----

  /** Memory after X->index = I; X->child[0] = X->child[1] = 0 and X's other four words were written. */
  ghost function NewNode(v: Mem, x: int, idx: int, parent: int, fd: int, bk: int): Mem {
    v[x + INDEX := idx][x + CHILD0 := 0][x + CHILD1 := 0][x + PARENT := parent][x + FD := fd][x + BK := bk]
  }

  ghost predicate CanInsert(t: Trie, slot: int, x: int) {
    x !in Addrs(t) && Apart(Addrs(t) + {x}) && Outside(slot, {x})
  }

  lemma SingletonRep(w: Mem, slot: int, parent: int, x: int, idx: int)
    requires w[slot] == x && w[x + INDEX] == idx && w[x + CHILD0] == 0 && w[x + CHILD1] == 0
    requires w[x + PARENT] == parent && w[x + FD] == x && w[x + BK] == x
    ensures Rep(w, slot, parent, Node([x], Nil, Nil), idx)
    ensures Unique(Node([x], Nil, Nil)) && Addrs(Node([x], Nil, Nil)) == {x}
  {
    var r := [x];
    assert Members(r) == {x};
    assert Links(w, r, 0);
  }

  /** A subtree s with x added replaces the one at path. */
  lemma InsertDone(v: Mem, w: Mem, slot: int, t: Trie, idx: int, path: Path, s: Trie, x: int)
    requires Tree(v, slot, t, idx) && ValidPath(t, path) && CanInsert(t, slot, x)
    requires Rep(w, SlotAt(slot, t, path), ParentAt(slot, t, path), s, idx)
    requires Unique(s) && Addrs(s) == Addrs(At(t, path)) + {x}
    requires forall a :: w[a] == v[a] || a == SlotAt(slot, t, path) || InLinks(Addrs(At(t, path)) + {x}, a)
    ensures var t' := Put(t, path, s);
            && Tree(w, slot, t', idx) && Addrs(t') == Addrs(t) + {x}
            && (forall a :: w[a] == v[a] || a == slot || InLinks(Addrs(t) + {x}, a))
  {
    SlotInside(slot, slot, t, path, v, idx);
    PutAddrs(t, path, s);
    ApartSubset(Addrs(t) + {x}, Addrs(s));
    RootNonZero(w, SlotAt(slot, t, path), ParentAt(slot, t, path), s, idx);
    SpliceByFrame(v, w, slot, t, idx, path, s, {x});
    assert Addrs(Put(t, path, s)) == Addrs(t) + {x};
    assert Outside(slot, Addrs(t) + {x});
    InsertFrame(v, w, slot, t, path, x);
  }

  lemma InsertFrame(v: Mem, w: Mem, slot: int, t: Trie, path: Path, x: int)
    requires ValidPath(t, path)
    requires forall a :: w[a] == v[a] || a == SlotAt(slot, t, path) || InLinks(Addrs(At(t, path)) + {x}, a)
    requires Addrs(At(t, path)) <= Addrs(t)
    requires if path == [] then SlotAt(slot, t, path) == slot
             else var q := ParentAt(slot, t, path); q in Addrs(t) && SlotAt(slot, t, path) == ChildSlot(q, path[|path| - 1])
    ensures forall a :: w[a] == v[a] || a == slot || InLinks(Addrs(t) + {x}, a)
  {
    forall a ensures w[a] == v[a] || a == slot || InLinks(Addrs(t) + {x}, a) {
      if a == SlotAt(slot, t, path) && path != [] {
        var q := ParentAt(slot, t, path);
        assert q in Addrs(t) + {x} && q + FD <= a <= q + INDEX;
      } else if InLinks(Addrs(At(t, path)) + {x}, a) {
        var p :| p in Addrs(At(t, path)) + {x} && p + FD <= a <= p + INDEX;
        assert p in Addrs(t) + {x};
      }
    }
  }

  /** *C = X at an empty child pointer (or at the empty bin). */
  lemma LeafDone(v: Mem, w: Mem, slot: int, t: Trie, idx: int, path: Path, x: int)
    requires Tree(v, slot, t, idx) && ValidPath(t, path) && At(t, path) == Nil && CanInsert(t, slot, x)
    requires w == NewNode(v, x, idx, ParentAt(slot, t, path), x, x)[SlotAt(slot, t, path) := x]
    ensures var t' := Put(t, path, Node([x], Nil, Nil));
            && Tree(w, slot, t', idx) && Addrs(t') == Addrs(t) + {x}
            && (forall a :: w[a] == v[a] || a == slot || InLinks(Addrs(t) + {x}, a))
  {
    var su, pu := SlotAt(slot, t, path), ParentAt(slot, t, path);
    SlotInside(slot, slot, t, path, v, idx);
    assert su < x || x + 32 <= su by {
      if path == [] {
      } else {
        ApartPair(Addrs(t) + {x}, pu, x);
      }
    }
    hide Tree, CanInsert, Rep, Addrs, Unique;
    SingletonRep(w, su, pu, x, idx);
    NewNodeFrame(v, w, x, idx, pu, x, x, su);
    InsertDone(v, w, slot, t, idx, path, Node([x], Nil, Nil), x);
  }

  lemma NewNodeFrame(v: Mem, w: Mem, x: int, idx: int, parent: int, fd: int, bk: int, su: int)
    requires w == NewNode(v, x, idx, parent, fd, bk)[su := x]
    ensures forall a :: w[a] == v[a] || a == su || InLinks(Addrs(Nil) + {x}, a)
  {
    var s := Addrs(Nil) + {x};
    assert x in s;
  }

  /** T->fd = F->bk = X beside a node of X's own size. */
  lemma RingDone(v: Mem, w: Mem, slot: int, t: Trie, idx: int, path: Path, x: int)
    requires Tree(v, slot, t, idx) && ValidPath(t, path) && At(t, path).Node? && CanInsert(t, slot, x)
    requires var tt := Root(At(t, path));
             w == NewNode(v, x, idx, 0, v[tt + FD], tt)[v[tt + FD] + BK := x][tt + FD := x]
    ensures |At(t, path).ring| > 0
    ensures var u := At(t, path);
            var t' := Put(t, path, u.(ring := InsertSecond(u.ring, x)));
            && Tree(w, slot, t', idx) && Addrs(t') == Addrs(t) + {x}
            && (forall a :: w[a] == v[a] || a == slot || InLinks(Addrs(t) + {x}, a))
  {
    hide Chained, Distinct, NewNode, InsertSecond, Put;
    var su, pu, u := SlotAt(slot, t, path), ParentAt(slot, t, path), At(t, path);
    PositionFacts(v, slot, t, idx, path);
    ApartSubset(Addrs(t) + {x}, Addrs(u) + {x});
    var tt, f := First(u.ring), u.ring[Succ(|u.ring|, 0)];
    assert Links(v, u.ring, 0);
    assert tt in Members(u.ring) && f in Members(u.ring);
    InsertedNode(v, w, su, pu, u, idx, x, f);
    InsertDone(v, w, slot, t, idx, path, u.(ring := InsertSecond(u.ring, x)), x);
  }

  lemma InsertedNode(v: Mem, w: Mem, su: int, pu: int, u: Trie, idx: int, x: int, f: int)
    requires u.Node? && |u.ring| > 0 && Rep(v, su, pu, u, idx) && Unique(u)
    requires x !in Addrs(u) && Apart(Addrs(u) + {x}) && f == u.ring[Succ(|u.ring|, 0)]
    requires Outside(su, Addrs(u) + {x})
    requires w == NewNode(v, x, idx, 0, f, First(u.ring))[f + BK := x][First(u.ring) + FD := x]
    ensures var s := u.(ring := InsertSecond(u.ring, x));
            Rep(w, su, pu, s, idx) && Unique(s) && Addrs(s) == Addrs(u) + {x}
    ensures forall a :: w[a] == v[a] || InLinks(Addrs(u) + {x}, a)
  {
    hide Ring, Chained, Distinct, Apart, NewNode, InsertSecond, InLinks, InsertedAround, Orphan;
    var ring, all := u.ring, Addrs(u) + {x};
    var tt := First(ring);
    assert tt in Members(ring) && f in Members(ring);
    NotInLinks(all, su);
    InsertWords(v, w, all, x, idx, f, tt);
    InsertFrameWords(v, w, all, x, idx, f, tt);
    InsertedRing(v, w, all, ring, x, idx, f);
    InsertMembers(ring, x);
    InsertedChildren(v, w, all, u, idx, x, f);
  }

  lemma InsertedChildren(v: Mem, w: Mem, all: set<int>, u: Trie, idx: int, x: int, f: int)
    requires u.Node? && |u.ring| > 0 && Unique(u) && Addrs(u) <= all && x !in Addrs(u) && f in Members(u.ring)
    requires Rep(v, First(u.ring) + CHILD0, First(u.ring), u.left, idx)
    requires Rep(v, First(u.ring) + CHILD1, First(u.ring), u.right, idx)
    requires InsertedAround(v, w, all, x, f, First(u.ring))
    ensures Rep(w, First(u.ring) + CHILD0, First(u.ring), u.left, idx)
    ensures Rep(w, First(u.ring) + CHILD1, First(u.ring), u.right, idx)
    ensures w[First(u.ring) + PARENT] == v[First(u.ring) + PARENT]
  {
    var tt := First(u.ring);
    assert tt in Members(u.ring);
    hide Rep;
    RepFrame(v, w, tt + CHILD0, tt, u.left, idx);
    RepFrame(v, w, tt + CHILD1, tt, u.right, idx);
  }

  /** Of the chunks in all other than x, only tt's fd and f's bk may have changed. */
  ghost predicate InsertedAround(v: Mem, w: Mem, all: set<int>, x: int, f: int, tt: int) {
    forall p :: p in all && p != x ==> KeptBeside(v, w, f, tt, p)
  }

  ghost predicate KeptBeside(v: Mem, w: Mem, f: int, tt: int, p: int) {
    && w[p + CHILD0] == v[p + CHILD0] && w[p + CHILD1] == v[p + CHILD1]
    && w[p + PARENT] == v[p + PARENT] && w[p + INDEX] == v[p + INDEX]
    && (p == tt || w[p + FD] == v[p + FD]) && (p == f || w[p + BK] == v[p + BK])
  }

  /** Word by word, what a ring insertion does to the chunks in all. */
  lemma InsertWords(v: Mem, w: Mem, all: set<int>, x: int, idx: int, f: int, tt: int)
    requires Apart(all) && x in all && f in all && tt in all && x != f && x != tt
    requires w == NewNode(v, x, idx, 0, f, tt)[f + BK := x][tt + FD := x]
    ensures w[tt + FD] == x && w[f + BK] == x && w[x + FD] == f && w[x + BK] == tt && w[x + INDEX] == idx && Orphan(w, x)
    ensures InsertedAround(v, w, all, x, f, tt)
  {
    hide Apart, NewNode, KeptBeside, Orphan;
    ApartPair(all, x, f);
    ApartPair(all, x, tt);
    ApartPair(all, f, tt);
    InsertNew(v, w, x, idx, f, tt);
    forall p | p in all && p != x ensures KeptBeside(v, w, f, tt, p) {
      ApartPair(all, p, x);
      ApartPair(all, p, f);
      ApartPair(all, p, tt);
      InsertOther(v, w, x, idx, f, tt, p);
    }
  }

  lemma InsertNew(v: Mem, w: Mem, x: int, idx: int, f: int, tt: int)
    requires w == NewNode(v, x, idx, 0, f, tt)[f + BK := x][tt + FD := x]
    requires f + 32 <= x || x + 32 <= f
    requires tt + 32 <= x || x + 32 <= tt
    requires tt == f || tt + 32 <= f || f + 32 <= tt
    ensures w[tt + FD] == x && w[f + BK] == x && w[x + FD] == f && w[x + BK] == tt && w[x + INDEX] == idx && Orphan(w, x)
  {
  }

  lemma InsertOther(v: Mem, w: Mem, x: int, idx: int, f: int, tt: int, p: int)
    requires w == NewNode(v, x, idx, 0, f, tt)[f + BK := x][tt + FD := x]
    requires p + 32 <= x || x + 32 <= p
    requires p == f || p + 32 <= f || f + 32 <= p
    requires p == tt || p + 32 <= tt || tt + 32 <= p
    ensures KeptBeside(v, w, f, tt, p)
  {
    hide NewNode;
    WordBeside(v, w, x, idx, f, tt, p + CHILD0);
    WordBeside(v, w, x, idx, f, tt, p + CHILD1);
    WordBeside(v, w, x, idx, f, tt, p + PARENT);
    WordBeside(v, w, x, idx, f, tt, p + INDEX);
    WordBeside(v, w, x, idx, f, tt, p + FD);
    WordBeside(v, w, x, idx, f, tt, p + BK);
  }

  lemma WordBeside(v: Mem, w: Mem, x: int, idx: int, f: int, tt: int, a: int)
    requires w == NewNode(v, x, idx, 0, f, tt)[f + BK := x][tt + FD := x]
    requires a < x + FD || x + INDEX < a
    ensures w[a] == if a == tt + FD || a == f + BK then x else v[a]
  {
  }

  lemma InsertFrameWords(v: Mem, w: Mem, all: set<int>, x: int, idx: int, f: int, tt: int)
    requires x in all && f in all && tt in all
    requires w == NewNode(v, x, idx, 0, f, tt)[f + BK := x][tt + FD := x]
    ensures forall a :: w[a] == v[a] || InLinks(all, a)
  {
  }

  lemma InsertedRing(v: Mem, w: Mem, all: set<int>, ring: seq<int>, x: int, idx: int, f: int)
    requires Ring(v, ring) && Distinct(ring) && Chained(v, ring, idx) && x !in ring && f == ring[Succ(|ring|, 0)]
    requires Members(ring) <= all
    requires w[First(ring) + FD] == x && w[f + BK] == x && w[x + FD] == f && w[x + BK] == First(ring)
    requires w[x + INDEX] == idx && Orphan(w, x)
    requires InsertedAround(v, w, all, x, f, First(ring))
    ensures Ring(w, InsertSecond(ring, x)) && Distinct(InsertSecond(ring, x)) && Chained(w, InsertSecond(ring, x), idx)
    ensures InsertSecond(ring, x) != [] && First(InsertSecond(ring, x)) == First(ring)
    ensures forall a :: a in InsertSecond(ring, x) <==> a in ring || a == x
  {
    assert forall a :: a in ring ==> a in Members(ring);
    forall i {:trigger ring[i]} | 0 <= i < |ring|
      ensures 0 < i ==> w[ring[i] + FD] == v[ring[i] + FD]
      ensures ring[i] != f ==> w[ring[i] + BK] == v[ring[i] + BK]
    {
      var a := ring[i];
      assert a in ring;
    }
    RingInsert(v, w, ring, x);
    forall a | a in InsertSecond(ring, x) && a != First(ring) ensures Orphan(w, a) {
      if a != x {
        assert Orphan(v, a);
      }
    }
  }

  lemma LeafOrdered(size: map<int, int>, t: Trie, lo: int, k: nat, path: Path, x: int)
    requires Ordered(size, t, lo, k) && Unique(t) && ValidPath(t, path) && At(t, path) == Nil && |path| <= k
    requires x in size && x !in Addrs(t) && OffPath(size, t, path, size[x])
    requires LoAt(lo, k, path) <= size[x] < LoAt(lo, k, path) + Pow2(k - |path|)
    ensures Ordered(size, Put(t, path, Node([x], Nil, Nil)), lo, k)
  {
    SingletonOrdered(size, x, LoAt(lo, k, path), k - |path|);
    hide Ordered, OffPath, Pow2, LoAt;
    PutOrdered(size, t, lo, k, path, Node([x], Nil, Nil));
  }

  lemma SingletonOrdered(size: map<int, int>, x: int, lo: int, k: nat)
    requires x in size && lo <= size[x] < lo + Pow2(k)
    ensures Ordered(size, Node([x], Nil, Nil), lo, k)
    ensures Unique(Node([x], Nil, Nil)) && Addrs(Node([x], Nil, Nil)) == {x}
  {
    assert Members([x]) == {x};
  }

  lemma RingNodeOrdered(size: map<int, int>, t: Trie, lo: int, k: nat, path: Path, x: int)
    requires Ordered(size, t, lo, k) && Unique(t) && ValidPath(t, path) && At(t, path).Node? && |path| <= k
    requires |At(t, path).ring| > 0 && Unique(At(t, path)) && Addrs(At(t, path)) <= Addrs(t)
    requires x in size && x !in Addrs(t) && OffPath(size, t, path, size[x])
    requires Root(At(t, path)) in size && size[Root(At(t, path))] == size[x]
    ensures var u := At(t, path); Ordered(size, Put(t, path, u.(ring := InsertSecond(u.ring, x))), lo, k)
  {
    hide Ordered, OffPath, Pow2, LoAt, ValidPath, At, Distinct, InsertSecond, Unique, Addrs;
    var u := At(t, path);
    var s := u.(ring := InsertSecond(u.ring, x));
    AtOrdered(size, t, lo, k, path);
    RingGrown(u, x);
    RingGrownOrdered(size, u, LoAt(lo, k, path), k - |path|, x);
    forall a | a in Addrs(s) ensures a in size && OffPath(size, t, path, size[a]) {
      if a != x {
        BelowOffPath(size, t, lo, k, path, a);
      }
    }
    PutOrdered(size, t, lo, k, path, s);
  }

  lemma RingGrown(u: Trie, x: int)
    requires u.Node? && |u.ring| > 0 && Unique(u) && x !in Addrs(u)
    ensures Distinct(u.ring) && x !in u.ring
    ensures var s := u.(ring := InsertSecond(u.ring, x)); Unique(s) && Addrs(s) == Addrs(u) + {x}
  {
    hide Distinct, InsertSecond;
    assert x !in Members(u.ring);
    InsertMembers(u.ring, x);
  }

  lemma RingGrownOrdered(size: map<int, int>, u: Trie, lo: int, k: nat, x: int)
    requires u.Node? && |u.ring| > 0 && Ordered(size, u, lo, k) && Distinct(u.ring) && x !in u.ring
    requires x in size && Root(u) in size && size[Root(u)] == size[x]
    ensures Ordered(size, u.(ring := InsertSecond(u.ring, x)), lo, k)
  {
    InsertMembers(u.ring, x);
    var r := InsertSecond(u.ring, x);
    forall a | a in r ensures a in size && size[a] == size[First(r)] {
      assert a in Members(r);
      assert a == x || a in u.ring;
    }
  }

  lemma InsertMembers(r: seq<int>, x: int)
    requires |r| > 0 && x !in r && Distinct(r)
    ensures Distinct(InsertSecond(r, x)) && Members(InsertSecond(r, x)) == Members(r) + {x}
  {
    var s := InsertSecond(r, x);
    forall a | a in r ensures a in s {
      var k :| 0 <= k < |r| && r[k] == a;
      assert s[if k == 0 then 0 else k + 1] == a;
    }
  }

  /** insert_large_chunk(M, X, S): the bin then holds exactly one chunk more, as a trie of the same kind. */
  method InsertLargeChunk(m: State, x: int, s: int, ghost t: Trie, ghost size: map<int, int>, ghost marked: set<int>)
    returns (ghost t': Trie)
    requires 256 <= s < WORD && x in size && size[x] == s
    requires Bitmaps.Means(m.treemap, marked) && (TreeIndex(s) in marked <==> t.Node?)
    requires Tree(m.w, TreeBinAt(m.gm, TreeIndex(s)), t, TreeIndex(s)) && CanInsert(t, TreeBinAt(m.gm, TreeIndex(s)), x)
    requires Ordered(size, t, BinLo(TreeIndex(s)), BinBits(TreeIndex(s))) && HeadsMatch(m.w, size, Addrs(t))
    modifies m`w, m`treemap
    ensures Tree(m.w, TreeBinAt(m.gm, TreeIndex(s)), t', TreeIndex(s)) && Addrs(t') == Addrs(t) + {x}
    ensures Ordered(size, t', BinLo(TreeIndex(s)), BinBits(TreeIndex(s)))
    ensures Bitmaps.Means(m.treemap, marked + {TreeIndex(s)})
    ensures forall a :: m.w[a] == old(m.w[a]) || a == TreeBinAt(m.gm, TreeIndex(s)) || InLinks(Addrs(t) + {x}, a)
  {
    hide TreeIndex, Tree, Ordered, Pow2, BinLo, BinBits, HeadsMatch, InLinks, Bitmaps.Means, CanInsert, Addrs, PlaceFound, NewNode;
    var i := TreeIndex(s);
    var h := TreeBinAt(m.gm, i);
    ghost var v := m.w;
    var isMarked := Bitmaps.IsMarked(m.treemap, i, marked);
    if !isMarked {
      m.treemap := Bitmaps.Mark(m.treemap, i, marked);
      NewWords(m, x, i, h, x, x);
      m.w := m.w[h := x];
      t' := InsertFirst(v, m.w, h, t, i, x, s, size);
    } else {
      assert marked + {i} == marked;
      var same, tt, c;
      ghost var path, b;
      same, tt, c, path, b := FindPlace(m, s, i, h, t, size);
      if !same {
        NewWords(m, x, i, tt, x, x);
        m.w := m.w[c := x];
        t' := InsertLeaf(v, m.w, h, t, i, x, s, size, path, tt, c, b);
      } else {
        var f := m.w[tt + FD];
        NewWords(m, x, i, 0, f, tt);
        m.w := m.w[f + BK := x][tt + FD := x];
        t' := InsertRing(v, m.w, h, t, i, x, s, size, path, tt, c, b);
      }
    }
  }

  /** The six link words of X. */
  method NewWords(m: State, x: int, i: int, parent: int, fd: int, bk: int)
    modifies m`w
    ensures m.w == NewNode(old(m.w), x, i, parent, fd, bk)
  {
    m.w := m.w[x + INDEX := i][x + CHILD0 := 0][x + CHILD1 := 0];
    m.w := m.w[x + PARENT := parent][x + FD := fd][x + BK := bk];
  }

  lemma InsertFirst(v: Mem, w: Mem, h: int, t: Trie, i: int, x: int, s: int, size: map<int, int>) returns (t': Trie)
    requires 256 <= s < WORD && i == TreeIndex(s) && x in size && size[x] == s && t == Nil
    requires Tree(v, h, t, i) && CanInsert(t, h, x)
    requires w == NewNode(v, x, i, h, x, x)[h := x]
    ensures Tree(w, h, t', i) && Addrs(t') == Addrs(t) + {x} && Ordered(size, t', BinLo(i), BinBits(i))
    ensures forall a :: w[a] == v[a] || a == h || InLinks(Addrs(t) + {x}, a)
  {
    LeafDone(v, w, h, t, i, [], x);
    BinRange(s);
    LeafOrdered(size, t, BinLo(i), BinBits(i), [], x);
    t' := Node([x], Nil, Nil);
  }

  lemma InsertLeaf(v: Mem, w: Mem, h: int, t: Trie, i: int, x: int, s: int, size: map<int, int>,
                   path: Path, tt: int, c: int, b: bool) returns (t': Trie)
    requires 256 <= s < WORD && i == TreeIndex(s) && x in size && size[x] == s
    requires Tree(v, h, t, i) && CanInsert(t, h, x) && Ordered(size, t, BinLo(i), BinBits(i))
    requires PlaceFound(size, t, BinLo(i), BinBits(i), path, s, false, tt, c, b)
    requires w == NewNode(v, x, i, tt, x, x)[c := x]
    ensures Tree(w, h, t', i) && Addrs(t') == Addrs(t) + {x} && Ordered(size, t', BinLo(i), BinBits(i))
    ensures forall a :: w[a] == v[a] || a == h || InLinks(Addrs(t) + {x}, a)
  {
    var path' := path + [b];
    SlotStep(h, h, t, path, b);
    t' := Put(t, path', Node([x], Nil, Nil));
    hide Ordered, OffPath, Pow2, LoAt, Rep, At, ValidPath;
    LeafDone(v, w, h, t, i, path', x);
    LeafOrdered(size, t, BinLo(i), BinBits(i), path', x);
  }

  lemma InsertRing(v: Mem, w: Mem, h: int, t: Trie, i: int, x: int, s: int, size: map<int, int>,
                   path: Path, tt: int, c: int, b: bool) returns (t': Trie)
    requires 256 <= s < WORD && i == TreeIndex(s) && x in size && size[x] == s
    requires Tree(v, h, t, i) && CanInsert(t, h, x) && Ordered(size, t, BinLo(i), BinBits(i))
    requires PlaceFound(size, t, BinLo(i), BinBits(i), path, s, true, tt, c, b)
    requires w == NewNode(v, x, i, 0, v[tt + FD], tt)[v[tt + FD] + BK := x][tt + FD := x]
    ensures Tree(w, h, t', i) && Addrs(t') == Addrs(t) + {x} && Ordered(size, t', BinLo(i), BinBits(i))
    ensures forall a :: w[a] == v[a] || a == h || InLinks(Addrs(t) + {x}, a)
  {
    hide Ordered, OffPath, Pow2, LoAt, Rep, At, ValidPath, Addrs, Unique, NewNode, BinLo, BinBits, TreeIndex;
    var u := At(t, path);
    PositionFacts(v, h, t, i, path);
    t' := Put(t, path, u.(ring := InsertSecond(u.ring, x)));
    RingDone(v, w, h, t, i, path, x);
    RingNodeOrdered(size, t, BinLo(i), BinBits(i), path, x);
  }
}
