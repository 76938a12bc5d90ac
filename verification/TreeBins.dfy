/** insert_large_chunk and unlink_large_chunk on the words of one tree bin. */
module TreeBins {
  import opened Words
  import opened Memory
  import Bitmaps
  import opened Rings
  import opened Tries
  import opened MallocState

  /** Memory at slot represents t, and t's chunks are proper: distinct, apart, away from the bin word. */
  ghost predicate Tree(w: Mem, slot: int, t: Trie, idx: int) {
    Rep(w, slot, slot, t, idx) && Unique(t) && Apart(Addrs(t)) && Outside(slot, Addrs(t)) && slot > 0
  }

  /** x is out of its ring or has given up its replacement: the ring rr (empty if none) will take
      x's place above the children l and r, which still hang off x. */
  ghost predicate Detached(w: Mem, x: int, rr: seq<int>, l: Trie, r: Trie, idx: int) {
    && Rep(w, x + CHILD0, x, l, idx) && Rep(w, x + CHILD1, x, r, idx)
    && (rr == [] ==> l.Nil? && r.Nil?)
    && (rr != [] ==>
          && Ring(w, rr) && Chained(w, rr, idx)
          && w[First(rr) + CHILD0] == 0 && w[First(rr) + CHILD1] == 0)
  }

  function Rest(rr: seq<int>, l: Trie, r: Trie): Trie {
    if rr == [] then Nil else Node(rr, l, r)
  }

  lemma {:induction false} FindNode(t: Trie, x: int) returns (path: Path, j: nat)
    requires x in Addrs(t)
    ensures ValidPath(t, path) && At(t, path).Node? && j < |At(t, path).ring| && At(t, path).ring[j] == x
    decreases t
  {
    if x in Members(t.ring) {
      path := [];
      j :| 0 <= j < |t.ring| && t.ring[j] == x;
    } else if x in Addrs(t.left) {
      path, j := FindNode(t.left, x);
      path := [false] + path;
    } else {
      path, j := FindNode(t.right, x);
      path := [true] + path;
    }
  }

  // ---- taking x out of a ring that has other members ----

  lemma RingStep(v: Mem, w: Mem, u: Trie, j: nat, idx: int, slot: int, parent: int)
    requires u.Node? && j < |u.ring| && |u.ring| >= 2
    requires Rep(v, slot, parent, u, idx) && Unique(u) && Apart(Addrs(u))
    requires var f, b := u.ring[Succ(|u.ring|, j)], u.ring[Pred(|u.ring|, j)];
             w == v[f + BK := b][b + FD := f]
    ensures Ring(w, Without(u.ring, j)) && Distinct(Without(u.ring, j))
    ensures forall a :: a in Without(u.ring, j) <==> a in u.ring && a != u.ring[j]
    ensures forall a :: a in u.ring ==> w[a + PARENT] == v[a + PARENT] && w[a + INDEX] == idx
    ensures forall a :: a in u.ring && a != First(u.ring) ==> Orphan(w, a)
  {
    var ring := u.ring;
    var f, b := ring[Succ(|ring|, j)], ring[Pred(|ring|, j)];
    assert f in Members(ring) && b in Members(ring);
    hide Apart, Ring, Links, Distinct;
    ApartSubset(Addrs(u), Members(ring));
    TwoWrites(v, w, Members(ring), f, b);
    RingStepLinks(v, w, ring, j);
    assert forall a :: a in ring ==> a in Members(ring);
  }

  lemma RingStepChildren(v: Mem, w: Mem, u: Trie, j: nat, idx: int, slot: int, parent: int)
    requires u.Node? && j < |u.ring| && |u.ring| >= 2
    requires Rep(v, slot, parent, u, idx) && Unique(u) && Apart(Addrs(u))
    requires var f, b := u.ring[Succ(|u.ring|, j)], u.ring[Pred(|u.ring|, j)];
             w == v[f + BK := b][b + FD := f]
    ensures Rep(w, First(u.ring) + CHILD0, First(u.ring), u.left, idx)
    ensures Rep(w, First(u.ring) + CHILD1, First(u.ring), u.right, idx)
  {
    var ring := u.ring;
    var f, b, h := ring[Succ(|ring|, j)], ring[Pred(|ring|, j)], First(ring);
    assert f in Members(ring) && b in Members(ring) && h in Members(ring);
    hide Apart, Ring, Chained;
    TwoWrites(v, w, Addrs(u), f, b);
    RepFrame(v, w, h + CHILD0, h, u.left, idx);
    RepFrame(v, w, h + CHILD1, h, u.right, idx);
  }

  /** F->bk = B; B->fd = F touches no other word of any chunk. */
  lemma TwoWrites(v: Mem, w: Mem, s: set<int>, f: int, b: int)
    requires Apart(s) && f in s && b in s && w == v[f + BK := b][b + FD := f]
    ensures forall p :: p in s ==>
              && w[p + CHILD0] == v[p + CHILD0] && w[p + CHILD1] == v[p + CHILD1]
              && w[p + PARENT] == v[p + PARENT] && w[p + INDEX] == v[p + INDEX]
              && (p != f && p != b ==> SameLinks(v, w, p))
  {
    forall p | p in s
      ensures w[p + CHILD0] == v[p + CHILD0] && w[p + CHILD1] == v[p + CHILD1]
      ensures w[p + PARENT] == v[p + PARENT] && w[p + INDEX] == v[p + INDEX]
      ensures p != f && p != b ==> SameLinks(v, w, p)
    {
      ApartPair(s, p, f);
      ApartPair(s, p, b);
    }
  }

  lemma RingStepLinks(v: Mem, w: Mem, ring: seq<int>, j: nat)
    requires Ring(v, ring) && Distinct(ring) && j < |ring| && |ring| >= 2
    requires Apart(Members(ring))
    requires var f, b := ring[Succ(|ring|, j)], ring[Pred(|ring|, j)];
             w == v[f + BK := b][b + FD := f]
    ensures Ring(w, Without(ring, j)) && Distinct(Without(ring, j))
    ensures forall a :: a in Without(ring, j) <==> a in ring && a != ring[j]
  {
    var f, b := ring[Succ(|ring|, j)], ring[Pred(|ring|, j)];
    assert f in Members(ring) && b in Members(ring);
    forall i {:trigger ring[i]} | 0 <= i < |ring| ensures ring[i] != b ==> w[ring[i] + FD] == v[ring[i] + FD]
      ensures ring[i] != f ==> w[ring[i] + BK] == v[ring[i] + BK]
    {
      var a := ring[i];
      assert a in Members(ring);
    }
    RingRemove(v, w, ring, j);
  }

  // ---- finding and cutting off the leaf that replaces a single node ----

  /** Follow child[1], or child[0] where there is no child[1], down to a leaf. */
  method WalkToLeaf(m: State, rp0: int, ghost parent: int, ghost c: Trie, ghost idx: int)
    returns (r: int, rp: int, ghost path: Path)
    requires c.Node? && Rep(m.w, rp0, parent, c, idx) && Unique(c) && Apart(Addrs(c))
    ensures ValidPath(c, path) && IsLeaf(At(c, path)) && At(c, path).ring == LastLeaf(c)
    ensures r == Root(At(c, path)) && rp == SlotAt(rp0, c, path)
    ensures Put(c, path, Nil) == Prune(c)
  {
    rp, path := rp0, [];
    r := m.w[rp];
    RootNonZero(m.w, rp0, parent, c, idx);
    WalkHere(m.w, rp0, parent, c, idx, path);
    while m.w[r + CHILD1] != 0 || m.w[r + CHILD0] != 0
      invariant WalkInv(c, path) && r == Root(At(c, path)) && rp == SlotAt(rp0, c, path)
      invariant m.w[r + CHILD1] == Root(At(c, path).right) && m.w[r + CHILD0] == Root(At(c, path).left)
      invariant m.w[r + CHILD1] != 0 <==> At(c, path).right.Node?
      invariant m.w[r + CHILD0] != 0 <==> At(c, path).left.Node?
      decreases At(c, path)
    {
      ghost var b := m.w[r + CHILD1] != 0;
      WalkStep(c, path, b);
      SlotStep(rp0, parent, c, path, b);
      rp := if m.w[r + CHILD1] != 0 then r + CHILD1 else r + CHILD0;
      r := m.w[rp];
      path := path + [b];
      WalkHere(m.w, rp0, parent, c, idx, path);
    }
  }

  /** The leaf below the current position is the leaf of the whole subtree. */
  ghost predicate WalkInv(c: Trie, path: Path) {
    && c.Node? && ValidPath(c, path) && At(c, path).Node?
    && LastLeaf(At(c, path)) == LastLeaf(c)
    && Put(c, path, Prune(At(c, path))) == Prune(c)
  }

  lemma WalkStep(c: Trie, path: Path, b: bool)
    requires WalkInv(c, path)
    requires b <==> At(c, path).right.Node?
    requires At(c, path).right.Node? || At(c, path).left.Node?
    ensures WalkInv(c, path + [b]) && At(c, path + [b]) == Child(At(c, path), b)
  {
    PathStep(c, path, b);
    PutStep(c, path, b, Prune(Child(At(c, path), b)));
    assert [b][1..] == [];
  }

  lemma WalkHere(w: Mem, slot: int, parent: int, c: Trie, idx: int, path: Path)
    requires Rep(w, slot, parent, c, idx) && Unique(c) && Apart(Addrs(c))
    requires ValidPath(c, path) && At(c, path).Node?
    ensures var u := At(c, path);
            && w[Root(u) + CHILD1] == Root(u.right) && w[Root(u) + CHILD0] == Root(u.left)
            && (Root(u.right) != 0 <==> u.right.Node?) && (Root(u.left) != 0 <==> u.left.Node?)
  {
    hide Rep, Apart, Unique;
    SlotInside(slot, parent, c, path, w, idx);
    var u := At(c, path);
    ApartSubset(Addrs(c), Addrs(u));
    ChildRoots(w, SlotAt(slot, c, path), ParentAt(parent, c, path), u, idx);
  }

  lemma ChildRoots(w: Mem, slot: int, parent: int, u: Trie, idx: int)
    requires u.Node? && Rep(w, slot, parent, u, idx) && Apart(Addrs(u))
    ensures w[Root(u) + CHILD1] == Root(u.right) && w[Root(u) + CHILD0] == Root(u.left)
    ensures (Root(u.right) != 0 <==> u.right.Node?) && (Root(u.left) != 0 <==> u.left.Node?)
  {
    ApartSubset(Addrs(u), Addrs(u.left));
    ApartSubset(Addrs(u), Addrs(u.right));
    RootNonZero(w, Root(u) + CHILD0, Root(u), u.left, idx);
    RootNonZero(w, Root(u) + CHILD1, Root(u), u.right, idx);
  }

  /** *RP = 0 cuts the leaf out of the subtree c hanging at rp0 and leaves its ring intact. */
  lemma CutLeaf(v: Mem, w: Mem, rp0: int, parent: int, c: Trie, idx: int, path: Path)
    requires c.Node? && Rep(v, rp0, parent, c, idx) && Unique(c) && Apart(Addrs(c)) && Outside(rp0, Addrs(c))
    requires ValidPath(c, path) && IsLeaf(At(c, path)) && Put(c, path, Nil) == Prune(c)
    requires w == v[SlotAt(rp0, c, path) := 0]
    ensures Rep(w, rp0, parent, Prune(c), idx)
    ensures var rr := At(c, path).ring;
            && |rr| > 0 && Ring(w, rr) && Chained(w, rr, idx)
            && w[First(rr) + CHILD0] == 0 && w[First(rr) + CHILD1] == 0
    ensures SlotAt(rp0, c, path) == rp0 || InLinks(Addrs(c), SlotAt(rp0, c, path))
  {
    var rp, u := SlotAt(rp0, c, path), At(c, path);
    SlotInside(rp0, parent, c, path, v, idx);
    CutFrame(v, w, rp0, rp, Addrs(c), Addrs(u), if path == [] then 0 else ParentAt(parent, c, path),
             path != [] && path[|path| - 1]);
    assert First(u.ring) in Members(u.ring);
    NodeFrame(v, w, u.ring, idx);
    if path != [] {
      assert rp != rp0 by {
        assert ParentAt(parent, c, path) in Addrs(c);
      }
    }
    Splice(v, w, rp0, parent, c, idx, path, Nil);
  }

  lemma CutFrame(v: Mem, w: Mem, rp0: int, rp: int, all: set<int>, leaf: set<int>, q: int, b: bool)
    requires Apart(all) && Outside(rp0, all) && leaf <= all
    requires rp == rp0 || (q in all - leaf && rp == ChildSlot(q, b))
    requires w == v[rp := 0]
    ensures forall p :: p in leaf ==> SameLinks(v, w, p)
    ensures forall p :: p in all ==> SameLinksBut(v, w, p, rp)
    ensures rp != rp0 ==> w[rp0] == v[rp0]
    ensures rp == rp0 || InLinks(all, rp)
  {
    if rp != rp0 {
      assert q + FD <= rp <= q + INDEX;
      forall p | p in leaf ensures SameLinks(v, w, p) {
        ApartPair(all, p, q);
      }
    }
  }

  /** Cut the leaf of child d off and return it. */
  method DetachBelow(m: State, x: int, d: bool, ghost u: Trie, ghost idx: int, ghost slot: int, ghost parent: int)
    returns (r: int)
    requires u.Node? && u.ring == [x] && Child(u, d).Node? && (d || u.right.Nil?)
    requires Rep(m.w, slot, parent, u, idx) && Unique(u) && Apart(Addrs(u))
    modifies m`w
    ensures |LastLeaf(Child(u, d))| > 0 && r == First(LastLeaf(Child(u, d)))
    ensures Detached(m.w, x, LastLeaf(Child(u, d)), if d then u.left else Prune(u.left),
                     if d then Prune(u.right) else u.right, idx)
    ensures forall a :: m.w[a] == old(m.w[a]) || InLinks(Addrs(u), a)
    ensures m.w[x + PARENT] == old(m.w[x + PARENT]) && m.w[x + INDEX] == old(m.w[x + INDEX])
  {
    hide Rep, Apart, Unique, Addrs, Ring, Chained, Orphan, Prune, LastLeaf, InLinks;
    ghost var v, c := m.w, Child(u, d);
    BelowFacts(v, x, d, u, idx, slot, parent);
    ghost var path;
    var rp;
    r, rp, path := WalkToLeaf(m, ChildSlot(x, d), x, c, idx);
    m.w := m.w[rp := 0];
    CutLeaf(v, m.w, ChildSlot(x, d), x, c, idx, path);
    CutOther(v, m.w, x, u, d, rp, idx);
  }

  /** x is alone in its ring: cut off the deepest leaf below it, if there is one. */
  method DetachLeaf(m: State, x: int, ghost u: Trie, ghost idx: int, ghost slot: int, ghost parent: int)
    returns (r: int, ghost rr: seq<int>, ghost l: Trie, ghost rt: Trie)
    requires u.Node? && u.ring == [x]
    requires Rep(m.w, slot, parent, u, idx) && Unique(u) && Apart(Addrs(u))
    modifies m`w
    ensures Detached(m.w, x, rr, l, rt, idx)
    ensures r == if rr == [] then 0 else First(rr)
    ensures IsLeaf(u) ==> rr == [] && l == Nil && rt == Nil
    ensures u.right.Node? ==> rr == LastLeaf(u.right) && l == u.left && rt == Prune(u.right)
    ensures u.right.Nil? && u.left.Node? ==> rr == LastLeaf(u.left) && l == Prune(u.left) && rt == Nil
    ensures forall a :: m.w[a] == old(m.w[a]) || InLinks(Addrs(u), a)
    ensures m.w[x + PARENT] == old(m.w[x + PARENT]) && m.w[x + INDEX] == old(m.w[x + INDEX])
  {
    ChildFacts(m.w, x, u, idx, slot, parent);
    rr, l, rt := [], Nil, Nil;
    r := m.w[x + CHILD1];
    if r != 0 {
      r := DetachBelow(m, x, true, u, idx, slot, parent);
      rr, l, rt := LastLeaf(u.right), u.left, Prune(u.right);
    } else {
      r := m.w[x + CHILD0];
      if r != 0 {
        r := DetachBelow(m, x, false, u, idx, slot, parent);
        rr, l := LastLeaf(u.left), Prune(u.left);
      }
    }
  }

  lemma BelowFacts(w: Mem, x: int, d: bool, u: Trie, idx: int, slot: int, parent: int)
    requires u.Node? && u.ring == [x] && Rep(w, slot, parent, u, idx) && Unique(u) && Apart(Addrs(u))
    ensures Rep(w, ChildSlot(x, d), x, Child(u, d), idx) && Rep(w, ChildSlot(x, !d), x, Child(u, !d), idx)
    ensures Unique(Child(u, d)) && Apart(Addrs(Child(u, d))) && Outside(ChildSlot(x, d), Addrs(Child(u, d)))
  {
    ChildFacts(w, x, u, idx, slot, parent);
  }

  lemma ChildFacts(w: Mem, x: int, u: Trie, idx: int, slot: int, parent: int)
    requires u.Node? && u.ring == [x] && Rep(w, slot, parent, u, idx) && Unique(u) && Apart(Addrs(u))
    ensures Rep(w, x + CHILD0, x, u.left, idx) && Rep(w, x + CHILD1, x, u.right, idx)
    ensures Apart(Addrs(u.left)) && Apart(Addrs(u.right))
    ensures Outside(x + CHILD0, Addrs(u.left)) && Outside(x + CHILD1, Addrs(u.right))
    ensures w[x + CHILD1] != 0 <==> u.right.Node?
    ensures w[x + CHILD0] != 0 <==> u.left.Node?
  {
    assert x in Members(u.ring);
    ApartSubset(Addrs(u), Addrs(u.left));
    ApartSubset(Addrs(u), Addrs(u.right));
    RootNonZero(w, x + CHILD0, x, u.left, idx);
    RootNonZero(w, x + CHILD1, x, u.right, idx);
  }

  /** A write inside child d, or to the pointer to it, leaves the rest of x's node alone. */
  lemma CutOther(v: Mem, w: Mem, x: int, u: Trie, d: bool, rp: int, idx: int)
    requires u.Node? && u.ring == [x] && Unique(u) && Apart(Addrs(u))
    requires Rep(v, ChildSlot(x, !d), x, Child(u, !d), idx)
    requires w == v[rp := 0]
    requires rp == ChildSlot(x, d) || InLinks(Addrs(Child(u, d)), rp)
    ensures Rep(w, ChildSlot(x, !d), x, Child(u, !d), idx)
    ensures w[x + PARENT] == v[x + PARENT] && w[x + INDEX] == v[x + INDEX]
    ensures forall a :: w[a] == v[a] || InLinks(Addrs(u), a)
  {
    assert x in Members(u.ring);
    if rp == ChildSlot(x, d) {
      assert InLinks(Addrs(u), rp) by { assert x in Addrs(u); }
      forall p | p in Addrs(Child(u, !d)) ensures SameLinks(v, w, p) {
        ApartPair(Addrs(u), p, x);
      }
    } else {
      var q :| q in Addrs(Child(u, d)) && q + FD <= rp <= q + INDEX;
      assert InLinks(Addrs(u), rp) by { assert q in Addrs(u); }
      ApartPair(Addrs(u), x, q);
      forall p | p in Addrs(Child(u, !d)) ensures SameLinks(v, w, p) {
        ApartPair(Addrs(u), p, q);
      }
    }
    RepFrame(v, w, ChildSlot(x, !d), x, Child(u, !d), idx);
  }

  // ---- giving the replacement x's place ----

  /** Moving a subtree under a new parent: only the parent word of its root changes. */
  lemma Reparent(v: Mem, w: Mem, slot: int, slot': int, parent: int, parent': int, t: Trie, idx: int)
    requires Rep(v, slot, parent, t, idx) && Unique(t)
    requires w[slot'] == Root(t)
    requires forall p :: p in Addrs(t) && p != Root(t) ==> SameLinks(v, w, p)
    requires t.Node? ==> SameLinksBut(v, w, Root(t), Root(t) + PARENT) && w[Root(t) + PARENT] == parent'
    ensures Rep(w, slot', parent', t, idx)
  {
    if t.Node? {
      var r := First(t.ring);
      assert r in Members(t.ring);
      hide Ring;
      assert forall a :: a in t.ring ==> a in Members(t.ring);
      ReparentRing(v, w, t.ring, idx);
      RepFrame(v, w, r + CHILD0, r, t.left, idx);
      RepFrame(v, w, r + CHILD1, r, t.right, idx);
    }
  }

  lemma ReparentRing(v: Mem, w: Mem, ring: seq<int>, idx: int)
    requires Ring(v, ring) && Chained(v, ring, idx)
    requires forall p :: p in ring && p != First(ring) ==> SameLinks(v, w, p)
    requires SameLinksBut(v, w, First(ring), First(ring) + PARENT)
    ensures Ring(w, ring) && Chained(w, ring, idx)
  {
    RingFrame(v, w, ring);
    forall a | a in ring && a != First(ring) ensures Orphan(w, a) {
      assert Orphan(v, a);
    }
  }

  /** R->parent = XP, then R takes over X's children. */
  method RelinkChildren(m: State, x: int, xp: int, r: int, ghost rr: seq<int>, ghost l: Trie, ghost rt: Trie, ghost idx: int)
    requires rr != [] && r == First(rr) && Detached(m.w, x, rr, l, rt, idx)
    requires Unique(Node(rr, l, rt)) && x !in Addrs(Node(rr, l, rt)) && Apart({x} + Addrs(Node(rr, l, rt)))
    modifies m`w
    ensures forall slot :: m.w[slot] == r ==> Rep(m.w, slot, xp, Node(rr, l, rt), idx)
    ensures forall a :: m.w[a] == old(m.w[a]) || InLinks(Addrs(Node(rr, l, rt)), a)
  {
    hide Rep, Unique, Addrs, Apart, Ring, Chained, Detached, InLinks;
    ghost var v := m.w;
    RelinkFacts(v, x, rr, l, rt, idx);
    m.w := m.w[r + PARENT := xp];
    var c0 := m.w[x + CHILD0];
    if c0 != 0 {
      m.w := m.w[r + CHILD0 := c0][c0 + PARENT := r];
    }
    var c1 := m.w[x + CHILD1];
    if c1 != 0 {
      m.w := m.w[r + CHILD1 := c1][c1 + PARENT := r];
    }
    RelinkDone(v, m.w, x, xp, rr, l, rt, idx);
  }

  /** The memory after RelinkChildren, as one expression. */
  ghost function Relinked(v: Mem, r: int, xp: int, c0: int, c1: int): Mem {
    var w1 := v[r + PARENT := xp];
    var w2 := if c0 != 0 then w1[r + CHILD0 := c0][c0 + PARENT := r] else w1;
    if c1 != 0 then w2[r + CHILD1 := c1][c1 + PARENT := r] else w2
  }

  lemma RelinkFacts(v: Mem, x: int, rr: seq<int>, l: Trie, rt: Trie, idx: int)
    requires rr != [] && Detached(v, x, rr, l, rt, idx)
    requires Unique(Node(rr, l, rt)) && x !in Addrs(Node(rr, l, rt)) && Apart({x} + Addrs(Node(rr, l, rt)))
    ensures v[x + CHILD0] == Root(l) && v[x + CHILD1] == Root(rt)
    ensures Root(l) != 0 <==> l.Node?
    ensures Root(rt) != 0 <==> rt.Node?
    ensures l.Node? ==> Root(l) in Addrs(l)
    ensures rt.Node? ==> Root(rt) in Addrs(rt)
    ensures var r := First(rr);
            && (r + 32 <= x || x + 32 <= r)
            && (l.Node? ==> Root(l) + 32 <= x || x + 32 <= Root(l))
            && (l.Node? ==> Root(l) + 32 <= r || r + 32 <= Root(l))
            && (rt.Node? ==> Root(rt) + 32 <= r || r + 32 <= Root(rt))
            && (l.Node? && rt.Node? ==> Root(rt) + 32 <= Root(l) || Root(l) + 32 <= Root(rt))
  {
    var all := {x} + Addrs(Node(rr, l, rt));
    var r := First(rr);
    assert r in rr;
    assert r in Members(rr);
    ApartSubset(all, Addrs(l));
    ApartSubset(all, Addrs(rt));
    RootNonZero(v, x + CHILD0, x, l, idx);
    RootNonZero(v, x + CHILD1, x, rt, idx);
    ApartPair(all, r, x);
    if l.Node? {
      ApartPair(all, Root(l), x);
      ApartPair(all, Root(l), r);
    }
    if rt.Node? {
      ApartPair(all, Root(rt), r);
    }
    if l.Node? && rt.Node? {
      ApartPair(all, Root(rt), Root(l));
    }
  }

  lemma RelinkDone(v: Mem, w: Mem, x: int, xp: int, rr: seq<int>, l: Trie, rt: Trie, idx: int)
    requires rr != [] && Detached(v, x, rr, l, rt, idx)
    requires Unique(Node(rr, l, rt)) && x !in Addrs(Node(rr, l, rt)) && Apart({x} + Addrs(Node(rr, l, rt)))
    requires w == Relinked(v, First(rr), xp, Root(l), Root(rt))
    ensures forall slot :: w[slot] == First(rr) ==> Rep(w, slot, xp, Node(rr, l, rt), idx)
    ensures forall a :: w[a] == v[a] || InLinks(Addrs(Node(rr, l, rt)), a)
  {
    hide Ring, Chained, Apart, Relinked;
    RelinkFacts(v, x, rr, l, rt, idx);
    var all, r := {x} + Addrs(Node(rr, l, rt)), First(rr);
    assert r in Members(rr);
    RelinkNode(v, w, xp, all, rr, Root(l), Root(rt), idx);
    RelinkChild(v, w, x, xp, r, all, l, rt, false, idx);
    RelinkChild(v, w, x, xp, r, all, rt, l, true, idx);
    RelinkRep(w, xp, rr, l, rt, idx);
    RelinkFrame(v, w, First(rr), xp, Root(l), Root(rt), Addrs(Node(rr, l, rt)));
  }

  lemma RelinkFrame(v: Mem, w: Mem, r: int, xp: int, c0: int, c1: int, s: set<int>)
    requires w == Relinked(v, r, xp, c0, c1)
    requires r in s && (c0 != 0 ==> c0 in s) && (c1 != 0 ==> c1 in s)
    ensures forall a :: w[a] == v[a] || InLinks(s, a)
  {
  }

  lemma RelinkNode(v: Mem, w: Mem, xp: int, all: set<int>, rr: seq<int>, c0: int, c1: int, idx: int)
    requires rr != [] && Ring(v, rr) && Chained(v, rr, idx)
    requires v[First(rr) + CHILD0] == 0 && v[First(rr) + CHILD1] == 0
    requires Apart(all) && Members(rr) <= all
    requires (c0 == 0 || c0 in all - Members(rr)) && (c1 == 0 || c1 in all - Members(rr)) && (c0 == 0 || c0 != c1)
    requires w == Relinked(v, First(rr), xp, c0, c1)
    ensures Ring(w, rr) && Chained(w, rr, idx) && w[First(rr) + PARENT] == xp
  {
    var r := First(rr);
    assert r in Members(rr);
    assert forall a :: a in rr ==> a in Members(rr);
    hide Ring, Chained, Apart, Relinked;
    RelinkWords(v, w, all, r, xp, c0, c1);
    RelinkRing(v, w, rr, idx);
  }

  /** Child d of x, the trie c, now hangs off r; o is the other child. */
  lemma RelinkChild(v: Mem, w: Mem, x: int, xp: int, r: int, all: set<int>, c: Trie, o: Trie, d: bool, idx: int)
    requires Rep(v, ChildSlot(x, d), x, c, idx) && Unique(c)
    requires Apart(all) && Addrs(c) <= all && r in all - Addrs(c)
    requires c.Node? ==> Root(c) in Addrs(c)
    requires c.Nil? ==> Root(c) == 0
    requires Root(o) == 0 || Root(o) in all - Addrs(c) - {r}
    requires v[r + CHILD0] == 0 && v[r + CHILD1] == 0
    requires w == Relinked(v, r, xp, Root(if d then o else c), Root(if d then c else o))
    ensures Rep(w, ChildSlot(r, d), r, c, idx)
  {
    hide Rep, Unique, Addrs, Apart, Relinked;
    var c0, c1 := Root(if d then o else c), Root(if d then c else o);
    if c.Node? {
      ApartPositive(all, Root(c));
    }
    RelinkWords(v, w, all, r, xp, c0, c1);
    Reparent(v, w, ChildSlot(x, d), ChildSlot(r, d), x, r, c, idx);
  }

  lemma RelinkRep(w: Mem, xp: int, rr: seq<int>, l: Trie, rt: Trie, idx: int)
    requires rr != [] && Ring(w, rr) && Chained(w, rr, idx) && w[First(rr) + PARENT] == xp
    requires Rep(w, First(rr) + CHILD0, First(rr), l, idx) && Rep(w, First(rr) + CHILD1, First(rr), rt, idx)
    ensures forall slot :: w[slot] == First(rr) ==> Rep(w, slot, xp, Node(rr, l, rt), idx)
  {
  }

  /** Word by word, what RelinkChildren does to the chunks in all. */
  lemma RelinkWords(v: Mem, w: Mem, all: set<int>, r: int, xp: int, c0: int, c1: int)
    requires Apart(all) && r in all && (c0 == 0 || (c0 in all && c0 != r)) && (c1 == 0 || (c1 in all && c1 != r))
    requires c0 == 0 || c0 != c1
    requires w == Relinked(v, r, xp, c0, c1)
    requires v[r + CHILD0] == 0 && v[r + CHILD1] == 0
    ensures w[r + CHILD0] == c0 && w[r + CHILD1] == c1 && w[r + PARENT] == xp
    ensures w[r + FD] == v[r + FD] && w[r + BK] == v[r + BK] && w[r + INDEX] == v[r + INDEX]
    ensures c0 != 0 ==> SameLinksBut(v, w, c0, c0 + PARENT) && w[c0 + PARENT] == r
    ensures c1 != 0 ==> SameLinksBut(v, w, c1, c1 + PARENT) && w[c1 + PARENT] == r
    ensures forall p :: p in all && p != r && (c0 == 0 || p != c0) && (c1 == 0 || p != c1) ==> SameLinks(v, w, p)
  {
    forall p | p in all && p != r && (c0 == 0 || p != c0) && (c1 == 0 || p != c1) ensures SameLinks(v, w, p) {
      RelinkOther(v, w, all, r, xp, c0, c1, p);
    }
    if c0 != 0 && c1 != 0 {
      ApartPair(all, c0, c1);
    }
    if c0 != 0 {
      ApartPair(all, c0, r);
    }
    if c1 != 0 {
      ApartPair(all, c1, r);
    }
    hide Apart;
  }

  lemma RelinkOther(v: Mem, w: Mem, all: set<int>, r: int, xp: int, c0: int, c1: int, p: int)
    requires Apart(all) && r in all && (c0 == 0 || c0 in all) && (c1 == 0 || c1 in all)
    requires w == Relinked(v, r, xp, c0, c1)
    requires p in all && p != r && (c0 == 0 || p != c0) && (c1 == 0 || p != c1)
    ensures SameLinks(v, w, p)
  {
    ApartPair(all, p, r);
    if c0 != 0 {
      ApartPair(all, p, c0);
    }
    if c1 != 0 {
      ApartPair(all, p, c1);
    }
    hide Apart;
  }

  lemma RelinkRing(v: Mem, w: Mem, rr: seq<int>, idx: int)
    requires rr != [] && Ring(v, rr) && Chained(v, rr, idx)
    requires forall a :: a in rr && a != First(rr) ==> SameLinks(v, w, a)
    requires var r := First(rr); w[r + FD] == v[r + FD] && w[r + BK] == v[r + BK] && w[r + INDEX] == v[r + INDEX]
    ensures Ring(w, rr) && Chained(w, rr, idx)
  {
    RingFrame(v, w, rr);
    forall a | a in rr && a != First(rr) ensures Orphan(w, a) {
      assert Orphan(v, a);
    }
  }

  // ---- the pointer to x ----

  /** The other child pointer of x's parent is not x. */
  lemma {:induction false} SiblingDiffers(w: Mem, slot: int, parent: int, t: Trie, idx: int, path: Path)
    requires Rep(w, slot, parent, t, idx) && Unique(t) && Apart(Addrs(t))
    requires ValidPath(t, path) && path != [] && At(t, path).Node? && |At(t, path).ring| > 0
    ensures w[ChildSlot(ParentAt(parent, t, path), !path[|path| - 1])] != Root(At(t, path))
    decreases path
  {
    var b, r := path[0], First(t.ring);
    var c, o := Child(t, b), Child(t, !b);
    ApartSubset(Addrs(t), Addrs(c));
    ApartSubset(Addrs(t), Addrs(o));
    if path[1..] == [] {
      RootNonZero(w, ChildSlot(r, b), r, c, idx);
      RootNonZero(w, ChildSlot(r, !b), r, o, idx);
    } else {
      SiblingDiffers(w, ChildSlot(r, b), r, c, idx, path[1..]);
      assert path[1..][|path| - 2] == path[|path| - 1];
    }
  }

  /** What unlinking at a position needs to know before anything is written. */
  lemma PositionFacts(w: Mem, slot: int, t: Trie, idx: int, path: Path)
    requires Tree(w, slot, t, idx) && ValidPath(t, path) && At(t, path).Node?
    ensures var u, su, pu := At(t, path), SlotAt(slot, t, path), ParentAt(slot, t, path);
            && Addrs(u) <= Addrs(t) && Unique(u) && Apart(Addrs(u))
            && Rep(w, su, pu, u, idx) && |u.ring| > 0 && Outside(su, Addrs(u)) && pu > 0
            && (path == [] ==> w[slot] == Root(u) && su == slot)
            && (path != [] ==>
                  && w[slot] == Root(t) && Root(t) !in Addrs(u)
                  && pu in Addrs(t) - Addrs(u) && su == ChildSlot(pu, path[|path| - 1])
                  && w[ChildSlot(pu, !path[|path| - 1])] != Root(u) && w[su] == Root(u))
  {
    SlotInside(slot, slot, t, path, w, idx);
    var u, su, pu := At(t, path), SlotAt(slot, t, path), ParentAt(slot, t, path);
    ApartSubset(Addrs(t), Addrs(u));
    if path != [] {
      SiblingDiffers(w, slot, slot, t, idx, path);
      AtAddrs(Child(t, path[0]), path[1..]);
      var r := First(t.ring);
      assert r in Members(t.ring);
      ApartPositive(Addrs(t), pu);
      SlotOutside(Addrs(t), Addrs(u), pu, path[|path| - 1]);
    }
  }

  lemma SlotOutside(all: set<int>, inner: set<int>, q: int, b: bool)
    requires Apart(all) && inner <= all && q in all - inner
    ensures Outside(ChildSlot(q, b), inner)
  {
    forall p | p in inner ensures ChildSlot(q, b) < p || p + 32 <= ChildSlot(q, b) {
      ApartPair(all, p, q);
    }
  }

  /** Redirect the pointer to x, in the bin or in x's parent, to r. */
  method SetPointer(m: State, x: int, xp: int, r: int, ghost slot: int, ghost b: bool, ghost idx: int, ghost marked: set<int>)
    requires 0 <= idx < 32 && Bitmaps.Means(m.treemap, marked) && idx in marked
    requires slot == TreeBinAt(m.gm, idx) && m.w[x + INDEX] == idx
    requires m.w[slot] == x || (m.w[ChildSlot(xp, b)] == x && m.w[ChildSlot(xp, !b)] != x)
    modifies m`w, m`treemap
    ensures m.w == old(m.w)[(if old(m.w)[slot] == x then slot else ChildSlot(xp, b)) := r]
    ensures Bitmaps.Means(m.treemap, if old(m.w)[slot] == x && r == 0 then marked - {idx} else marked)
  {
    var h := TreeBinAt(m.gm, m.w[x + INDEX]);
    if x == m.w[h] {
      var bin := m.w[x + INDEX];
      m.w := m.w[h := r];
      if r == 0 {
        m.treemap := Bitmaps.Clear(m.treemap, bin, marked);
      }
    } else if m.w[xp + CHILD0] == x {
      m.w := m.w[xp + CHILD0 := r];
    } else {
      m.w := m.w[xp + CHILD1 := r];
    }
  }

  // ---- unlink_large_chunk ----

  /** The subtree that takes the place of u once member j of its ring is gone: the rest of the ring
      if there is one (headed by the member before x when x was the head), else the deepest leaf. */
  function RemoveAt(u: Trie, j: nat): Trie
    requires u.Node? && j < |u.ring|
  {
    if |u.ring| >= 2 then u.(ring := RestOfRing(u.ring, j))
    else if u.right.Node? then Node(LastLeaf(u.right), u.left, Prune(u.right))
    else if u.left.Node? then Node(LastLeaf(u.left), Prune(u.left), Nil)
    else Nil
  }

  function RestOfRing(ring: seq<int>, j: nat): (r: seq<int>)
    requires j < |ring| && |ring| >= 2
    ensures |r| == |ring| - 1
  {
    if j > 0 then Without(ring, j) else LastFirst(Without(ring, 0))
  }

  lemma RestOfRingMembers(ring: seq<int>, j: nat)
    requires j < |ring| && |ring| >= 2 && Distinct(ring)
    ensures Distinct(RestOfRing(ring, j)) && Members(RestOfRing(ring, j)) == Members(ring) - {ring[j]}
  {
    WithoutMembers(ring, j);
    if j == 0 {
      RotateMembers(Without(ring, 0));
    }
  }

  lemma RemoveAtAddrs(u: Trie, j: nat)
    requires u.Node? && j < |u.ring| && Unique(u)
    ensures Unique(RemoveAt(u, j)) && Addrs(RemoveAt(u, j)) == Addrs(u) - {u.ring[j]}
  {
    var x := u.ring[j];
    hide Distinct;
    assert x in Members(u.ring);
    if |u.ring| >= 2 {
      RestOfRingMembers(u.ring, j);
      hide RestOfRing;
    } else {
      assert Members(u.ring) == {x};
      if u.right.Node? {
        PruneAddrs(u.right);
      } else if u.left.Node? {
        PruneAddrs(u.left);
      }
    }
  }

  lemma RemoveAtOrdered(size: map<int, int>, u: Trie, j: nat, lo: int, k: nat)
    requires u.Node? && j < |u.ring| && Unique(u) && Ordered(size, u, lo, k)
    ensures Ordered(size, RemoveAt(u, j), lo, k)
  {
    hide NodeOrdered;
    if |u.ring| >= 2 {
      RestOfRingMembers(u.ring, j);
      RingOrdered(size, u.ring, RestOfRing(u.ring, j), Addrs(u.left) + Addrs(u.right), lo, lo + Pow2(k));
    } else if u.right.Node? {
      RemoveHeadOrdered(size, u, u.right, u.left, lo, k, lo + Pow2(k - 1), lo);
      assert Addrs(u.left) + Addrs(Prune(u.right)) == Addrs(Prune(u.right)) + Addrs(u.left);
    } else if u.left.Node? {
      RemoveHeadOrdered(size, u, u.left, u.right, lo, k, lo, lo + Pow2(k - 1));
    }
  }

  lemma RemoveHeadOrdered(size: map<int, int>, u: Trie, c: Trie, o: Trie, lo: int, k: nat, loC: int, loO: int)
    requires u.Node? && c.Node? && k > 0 && Unique(c)
    requires Ordered(size, c, loC, k - 1) && Ordered(size, o, loO, k - 1)
    requires loC + loO == 2 * lo + Pow2(k - 1) && (lo == loC || lo == loO)
    ensures Ordered(size, Prune(c), loC, k - 1)
    ensures NodeOrdered(size, LastLeaf(c), Addrs(Prune(c)) + Addrs(o), lo, lo + Pow2(k))
  {
    hide Ordered, Addrs, Prune, LastLeaf, Unique;
    PruneOrdered(size, c, loC, k - 1);
    LeafOnTop(size, c, o, lo, k, loC, loO);
  }

  lemma RingOrdered(size: map<int, int>, r: seq<int>, r': seq<int>, below: set<int>, lo: int, hi: int)
    requires NodeOrdered(size, r, below, lo, hi) && |r'| > 0
    requires Members(r') <= Members(r)
    ensures NodeOrdered(size, r', below, lo, hi)
  {
    assert forall a :: a in r' ==> a in Members(r');
    var f := First(r');
    assert f in r';
  }

  /** The leaf of child c may stand above what is left of c and above the other child o. */
  lemma LeafOnTop(size: map<int, int>, c: Trie, o: Trie, lo: int, k: nat, loC: int, loO: int)
    requires c.Node? && k > 0 && Ordered(size, o, loO, k - 1) && loC + loO == 2 * lo + Pow2(k - 1)
    requires lo == loC || lo == loO
    requires NodeOrdered(size, LastLeaf(c), Addrs(Prune(c)), loC, loC + Pow2(k - 1))
    ensures NodeOrdered(size, LastLeaf(c), Addrs(Prune(c)) + Addrs(o), lo, lo + Pow2(k))
  {
    OrderedRange(size, o, loO, k - 1);
  }

  lemma RotateMembers(r: seq<int>)
    requires |r| > 0 && Distinct(r)
    ensures Distinct(LastFirst(r))
    ensures forall a :: a in LastFirst(r) <==> a in r
  {
    var s := LastFirst(r);
    forall a | a in r ensures a in s {
      var k :| 0 <= k < |r| && r[k] == a;
      assert s[if k == |r| - 1 then 0 else k + 1] == a;
    }
  }

  /** x has ring neighbours: F->bk = R; R->fd = F. */
  method UnlinkFromRing(m: State, x: int, ghost u: Trie, ghost j: nat, ghost idx: int, ghost slot: int, ghost parent: int)
    returns (r: int)
    requires u.Node? && |u.ring| >= 2 && j < |u.ring| && u.ring[j] == x
    requires Rep(m.w, slot, parent, u, idx) && Unique(u) && Apart(Addrs(u))
    modifies m`w
    ensures j == 0 ==> Detached(m.w, x, RestOfRing(u.ring, 0), u.left, u.right, idx) && r == First(RestOfRing(u.ring, 0))
    ensures j > 0 ==> forall s :: m.w[s] == First(u.ring) ==> Rep(m.w, s, parent, RemoveAt(u, j), idx)
    ensures forall a :: m.w[a] == old(m.w[a]) || InLinks(Addrs(u), a)
    ensures m.w[x + PARENT] == old(m.w[x + PARENT]) && m.w[x + INDEX] == old(m.w[x + INDEX])
  {
    ghost var v := m.w;
    assert Links(v, u.ring, j);
    var f := m.w[x + FD];
    r := m.w[x + BK];
    m.w := m.w[f + BK := r][r + FD := f];
    RingUnlinked(v, m.w, u, j, idx, slot, parent);
  }

  lemma RingUnlinked(v: Mem, w: Mem, u: Trie, j: nat, idx: int, slot: int, parent: int)
    requires u.Node? && j < |u.ring| && |u.ring| >= 2
    requires Rep(v, slot, parent, u, idx) && Unique(u) && Apart(Addrs(u))
    requires var f, b := u.ring[Succ(|u.ring|, j)], u.ring[Pred(|u.ring|, j)];
             w == v[f + BK := b][b + FD := f]
    ensures j == 0 ==> Detached(w, u.ring[0], RestOfRing(u.ring, 0), u.left, u.right, idx)
    ensures j == 0 ==> u.ring[Pred(|u.ring|, 0)] == First(RestOfRing(u.ring, 0))
    ensures j > 0 ==> forall s :: w[s] == First(u.ring) ==> Rep(w, s, parent, RemoveAt(u, j), idx)
    ensures forall a :: w[a] == v[a] || InLinks(Addrs(u), a)
    ensures w[u.ring[j] + PARENT] == v[u.ring[j] + PARENT] && w[u.ring[j] + INDEX] == v[u.ring[j] + INDEX]
  {
    var f, b, x := u.ring[Succ(|u.ring|, j)], u.ring[Pred(|u.ring|, j)], u.ring[j];
    assert f in Members(u.ring) && b in Members(u.ring) && x in Members(u.ring);
    RingStep(v, w, u, j, idx, slot, parent);
    RingStepChildren(v, w, u, j, idx, slot, parent);
    assert v[First(u.ring) + PARENT] == parent;
    assert w[First(u.ring) + PARENT] == parent && v[x + INDEX] == idx by {
      var h := First(u.ring);
      assert h in u.ring && x in u.ring;
    }
    hide Rep, Unique, Apart, Ring;
    WriteFrame(v, w, Addrs(u), f, b);
    RestChained(w, u.ring, j, idx);
    if j == 0 {
      RingRotate(w, Without(u.ring, 0));
    } else {
      RestRep(w, parent, RestOfRing(u.ring, j), u.left, u.right, idx);
    }
  }

  lemma WriteFrame(v: Mem, w: Mem, s: set<int>, f: int, b: int)
    requires f in s && b in s && w == v[f + BK := b][b + FD := f]
    ensures forall a :: w[a] == v[a] || InLinks(s, a)
  {
  }

  lemma RestRep(w: Mem, parent: int, ring: seq<int>, l: Trie, r: Trie, idx: int)
    requires |ring| > 0 && Ring(w, ring) && Chained(w, ring, idx) && w[First(ring) + PARENT] == parent
    requires Rep(w, First(ring) + CHILD0, First(ring), l, idx) && Rep(w, First(ring) + CHILD1, First(ring), r, idx)
    ensures forall s :: w[s] == First(ring) ==> Rep(w, s, parent, Node(ring, l, r), idx)
  {
  }

  lemma RestChained(w: Mem, ring: seq<int>, j: nat, idx: int)
    requires |ring| >= 2 && j < |ring| && Distinct(ring)
    requires forall a :: a in Without(ring, j) <==> a in ring && a != ring[j]
    requires forall a :: a in ring ==> w[a + INDEX] == idx
    requires forall a :: a in ring && a != First(ring) ==> Orphan(w, a)
    ensures Chained(w, RestOfRing(ring, j), idx)
    ensures j > 0 ==> First(RestOfRing(ring, j)) == First(ring)
    ensures j == 0 ==> var h := First(RestOfRing(ring, j)); w[h + CHILD0] == 0 && w[h + CHILD1] == 0
  {
    RestOfRingMembers(ring, j);
    var rest := RestOfRing(ring, j);
    assert forall a :: a in rest ==> a in Members(rest);
    assert forall a :: a in Members(ring) ==> a in ring;
    var h := First(rest);
    assert h in rest;
    if j == 0 {
      assert Orphan(w, h);
    }
  }

  /** Rebuilding the tree around a replaced subtree from a description of what memory changed. */
  lemma SpliceByFrame(v: Mem, w: Mem, slot: int, t: Trie, idx: int, path: Path, s: Trie, added: set<int>)
    requires Tree(v, slot, t, idx) && ValidPath(t, path)
    requires Rep(w, SlotAt(slot, t, path), ParentAt(slot, t, path), s, idx)
    requires forall a :: w[a] == v[a] || a == SlotAt(slot, t, path) || InLinks(Addrs(At(t, path)) + added, a)
    requires Apart(Addrs(t) + added) && Outside(slot, added) && added !! Addrs(t)
    requires Root(s) == 0 || Root(s) in Addrs(s)
    ensures Rep(w, slot, slot, Put(t, path, s), idx)
  {
    SlotInside(slot, slot, t, path, v, idx);
    var su, u := SlotAt(slot, t, path), At(t, path);
    hide Rep, Unique;
    forall p | p in Addrs(t) - Addrs(u) ensures SameLinksBut(v, w, p, su) {
      UntouchedNode(v, w, su, Addrs(u) + added, Addrs(t) + added, p);
    }
    if path != [] {
      var q := ParentAt(slot, t, path);
      assert q in Addrs(t);
      assert slot != su;
      UntouchedWord(v, w, su, Addrs(u) + added, slot);
    }
    Splice(v, w, slot, slot, t, idx, path, s);
  }

  lemma UntouchedNode(v: Mem, w: Mem, su: int, s: set<int>, all: set<int>, p: int)
    requires forall a :: w[a] == v[a] || a == su || InLinks(s, a)
    requires Apart(all) && s <= all && p in all - s
    ensures SameLinksBut(v, w, p, su)
  {
    forall a | p + FD <= a <= p + INDEX ensures !InLinks(s, a) {
      if InLinks(s, a) {
        var q :| q in s && q + FD <= a <= q + INDEX;
        ApartPair(all, p, q);
      }
    }
  }

  lemma UntouchedWord(v: Mem, w: Mem, su: int, s: set<int>, a: int)
    requires w[a] == v[a] || a == su || InLinks(s, a)
    requires a != su && Outside(a, s)
    ensures w[a] == v[a]
  {
  }

  /** What the three words the macro tests say about x's place in its ring and in the tree. */
  lemma NodeTests(w: Mem, su: int, pu: int, u: Trie, j: nat, idx: int)
    requires u.Node? && j < |u.ring| && Rep(w, su, pu, u, idx) && Unique(u) && pu > 0
    ensures var x := u.ring[j];
            && (w[x + BK] != x <==> |u.ring| >= 2)
            && (w[x + PARENT] != 0 <==> j == 0) && (j == 0 ==> w[x + PARENT] == pu)
            && w[x + INDEX] == idx && x in Addrs(u)
  {
    var x := u.ring[j];
    assert Links(w, u.ring, j);
    assert x in u.ring;
    assert x in Members(u.ring);
    if j > 0 {
      assert x != First(u.ring);
      assert Orphan(w, x);
    }
  }

  /** A write to the pointer above u leaves what hangs off x alone. */
  lemma DetachedFrame(v: Mem, w: Mem, x: int, rr: seq<int>, l: Trie, r: Trie, idx: int, su: int, val: int, all: set<int>)
    requires Detached(v, x, rr, l, r, idx) && w == v[su := val]
    requires Outside(su, all) && x in all && Addrs(Rest(rr, l, r)) <= all
    ensures Detached(w, x, rr, l, r, idx)
  {
    hide Ring, Chained, Rep;
    InRest(rr, l, r);
    RepFrameOutside(v, w, x + CHILD0, x, l, idx, su, val, all);
    RepFrameOutside(v, w, x + CHILD1, x, r, idx, su, val, all);
    if rr != [] {
      var h := First(rr);
      assert h in rr;
      assert h in Members(rr);
      assert forall a :: a in Members(rr) ==> a in all;
      NodeFrame(v, w, rr, idx);
    }
  }

  lemma InRest(rr: seq<int>, l: Trie, r: Trie)
    requires rr == [] ==> l.Nil? && r.Nil?
    ensures Addrs(l) <= Addrs(Rest(rr, l, r)) && Addrs(r) <= Addrs(Rest(rr, l, r))
    ensures rr != [] ==> Members(rr) <= Addrs(Rest(rr, l, r))
  {
  }

  lemma RepFrameOutside(v: Mem, w: Mem, slot: int, parent: int, t: Trie, idx: int, su: int, val: int, all: set<int>)
    requires Rep(v, slot, parent, t, idx) && w == v[su := val]
    requires Outside(su, all) && Addrs(t) <= all && slot != su
    ensures Rep(w, slot, parent, t, idx)
  {
    forall p | p in Addrs(t) ensures SameLinks(v, w, p) {
      assert p in all;
    }
    hide Rep;
    RepFrame(v, w, slot, parent, t, idx);
  }

  /** Choose the replacement R: the ring neighbour behind x, or the deepest leaf below it, or none. */
  method TakeReplacement(m: State, x: int, ghost u: Trie, ghost j: nat, ghost idx: int, ghost su: int, ghost pu: int)
    returns (r: int, ghost rr: seq<int>, ghost l: Trie, ghost rt: Trie)
    requires u.Node? && j < |u.ring| && u.ring[j] == x && pu > 0
    requires Rep(m.w, su, pu, u, idx) && Unique(u) && Apart(Addrs(u))
    modifies m`w
    ensures j == 0 ==> Detached(m.w, x, rr, l, rt, idx) && r == (if rr == [] then 0 else First(rr))
    ensures j == 0 ==> Rest(rr, l, rt) == RemoveAt(u, 0)
    ensures j > 0 ==> forall s :: m.w[s] == First(u.ring) ==> Rep(m.w, s, pu, RemoveAt(u, j), idx)
    ensures forall a :: m.w[a] == old(m.w[a]) || InLinks(Addrs(u), a)
    ensures m.w[x + PARENT] == old(m.w[x + PARENT]) && m.w[x + INDEX] == old(m.w[x + INDEX])
  {
    NodeTests(m.w, su, pu, u, j, idx);
    hide Rep, Unique, Apart, Detached, InLinks;
    rr, l, rt := [], Nil, Nil;
    if m.w[x + BK] != x {
      r := UnlinkFromRing(m, x, u, j, idx, su, pu);
      rr, l, rt := RestOfRing(u.ring, j), u.left, u.right;
    } else {
      assert u.ring == [x];
      r, rr, l, rt := DetachLeaf(m, x, u, idx, su, pu);
      RemoveLone(u, rr, l, rt);
    }
  }

  lemma RemoveLone(u: Trie, rr: seq<int>, l: Trie, rt: Trie)
    requires u.Node? && |u.ring| == 1
    requires IsLeaf(u) ==> rr == [] && l == Nil && rt == Nil
    requires u.right.Node? ==> rr == LastLeaf(u.right) && l == u.left && rt == Prune(u.right)
    requires u.right.Nil? && u.left.Node? ==> rr == LastLeaf(u.left) && l == Prune(u.left) && rt == Nil
    requires rr == [] ==> IsLeaf(u)
    ensures Rest(rr, l, rt) == RemoveAt(u, 0)
  {
  }

  /** x was in the tree: R (or nothing) takes its place under XP. */
  method TakePlace(m: State, x: int, xp: int, r: int, ghost rr: seq<int>, ghost l: Trie, ghost rt: Trie,
                   ghost su: int, ghost b: bool, ghost atRoot: bool, ghost all: set<int>, ghost idx: int, ghost marked: set<int>)
    requires 0 <= idx < 32 && Bitmaps.Means(m.treemap, marked) && idx in marked && m.w[x + INDEX] == idx
    requires Detached(m.w, x, rr, l, rt, idx) && r == (if rr == [] then 0 else First(rr))
    requires Unique(Rest(rr, l, rt)) && Addrs(Rest(rr, l, rt)) <= all - {x} && x in all && Apart(all) && Outside(su, all)
    requires if atRoot then su == TreeBinAt(m.gm, idx) && m.w[su] == x
             else m.w[TreeBinAt(m.gm, idx)] != x && su == ChildSlot(xp, b) && m.w[su] == x && m.w[ChildSlot(xp, !b)] != x
    modifies m`w, m`treemap
    ensures Rep(m.w, su, xp, Rest(rr, l, rt), idx)
    ensures forall a :: m.w[a] == old(m.w[a]) || a == su || InLinks(all, a)
    ensures Bitmaps.Means(m.treemap, if atRoot && rr == [] then marked - {idx} else marked)
  {
    ghost var v := m.w;
    assert rr != [] ==> r > 0 by {
      if rr != [] {
        HeadPositive(rr, l, rt, all);
      }
    }
    ApartSubset(all, {x} + Addrs(Rest(rr, l, rt)));
    SetPointer(m, x, xp, r, TreeBinAt(m.gm, idx), b, idx, marked);
    assert m.w == v[su := r];
    DetachedFrame(v, m.w, x, rr, l, rt, idx, su, r, all);
    ghost var w1 := m.w;
    hide Detached, Unique, Apart, Bitmaps.Means;
    if r != 0 {
      RelinkChildren(m, x, xp, r, rr, l, rt, idx);
      LinksSubset(w1, m.w, Addrs(Rest(rr, l, rt)), all);
      NotInLinks(all, su);
    }
  }

  lemma HeadPositive(rr: seq<int>, l: Trie, rt: Trie, all: set<int>)
    requires rr != [] && Addrs(Node(rr, l, rt)) <= all && Apart(all)
    ensures First(rr) > 0
  {
    var h := First(rr);
    assert h in rr;
    assert h in Members(rr);
  }

  lemma LinksSubset(v: Mem, w: Mem, s: set<int>, all: set<int>)
    requires s <= all && forall a :: w[a] == v[a] || InLinks(s, a)
    ensures forall a :: w[a] == v[a] || InLinks(all, a)
  {
    forall a ensures w[a] == v[a] || InLinks(all, a) {
      if InLinks(s, a) {
        var p :| p in s && p + FD <= a <= p + INDEX;
        assert p in all;
      }
    }
  }

  lemma NotInLinks(s: set<int>, a: int)
    requires Outside(a, s)
    ensures !InLinks(s, a)
  {
  }

  /** unlink_large_chunk(M, X): the bin then holds exactly the other chunks, as a trie of the same kind,
      and its map bit is cleared precisely when the bin is left empty. */
  method UnlinkLargeChunk(m: State, x: int, ghost t: Trie, ghost idx: int, ghost marked: set<int>)
    returns (ghost t': Trie)
    requires 0 <= idx < 32 && Bitmaps.Means(m.treemap, marked) && idx in marked
    requires Tree(m.w, TreeBinAt(m.gm, idx), t, idx) && x in Addrs(t)
    modifies m`w, m`treemap
    ensures Tree(m.w, TreeBinAt(m.gm, idx), t', idx) && Addrs(t') == Addrs(t) - {x}
    ensures forall size, lo, k: nat :: Ordered(size, t, lo, k) ==> Ordered(size, t', lo, k)
    ensures Bitmaps.Means(m.treemap, if t' == Nil then marked - {idx} else marked)
    ensures forall a :: m.w[a] == old(m.w[a]) || a == TreeBinAt(m.gm, idx) || InLinks(Addrs(t), a)
  {
    ghost var v, slot := m.w, TreeBinAt(m.gm, idx);
    ghost var path, j := FindNode(t, x);
    ghost var u := At(t, path);
    PositionFacts(v, slot, t, idx, path);
    ghost var su, pu := SlotAt(slot, t, path), ParentAt(slot, t, path);
    NodeTests(v, su, pu, u, j, idx);
    var xp := m.w[x + PARENT];
    var r;
    ghost var rr, l, rt;
    r, rr, l, rt := TakeReplacement(m, x, u, j, idx, su, pu);
    ghost var w1 := m.w;
    RemoveAtAddrs(u, j);
    if xp != 0 {
      PointersKept(v, w1, slot, t, idx, path);
      TakePlace(m, x, xp, r, rr, l, rt, su, path != [] && path[|path| - 1], path == [], Addrs(u), idx, marked);
    } else {
      PointersKept(v, w1, slot, t, idx, path);
    }
    t' := Put(t, path, RemoveAt(u, j));
    UnlinkDone(v, m.w, slot, t, idx, path, j);
  }

  /** Steps inside u do not move the pointers to it. */
  lemma PointersKept(v: Mem, w: Mem, slot: int, t: Trie, idx: int, path: Path)
    requires Tree(v, slot, t, idx) && ValidPath(t, path) && At(t, path).Node?
    requires forall a :: w[a] == v[a] || InLinks(Addrs(At(t, path)), a)
    ensures w[slot] == v[slot] && w[SlotAt(slot, t, path)] == v[SlotAt(slot, t, path)]
    ensures path != [] ==>
              var q, b := ParentAt(slot, t, path), path[|path| - 1];
              w[ChildSlot(q, b)] == v[ChildSlot(q, b)] && w[ChildSlot(q, !b)] == v[ChildSlot(q, !b)]
  {
    PositionFacts(v, slot, t, idx, path);
    var u := At(t, path);
    NotInLinks(Addrs(u), slot);
    if path != [] {
      var q, b := ParentAt(slot, t, path), path[|path| - 1];
      SlotOutside(Addrs(t), Addrs(u), q, b);
      SlotOutside(Addrs(t), Addrs(u), q, !b);
      NotInLinks(Addrs(u), ChildSlot(q, b));
      NotInLinks(Addrs(u), ChildSlot(q, !b));
    }
  }

  lemma UnlinkDone(v: Mem, w: Mem, slot: int, t: Trie, idx: int, path: Path, j: nat)
    requires Tree(v, slot, t, idx) && ValidPath(t, path) && At(t, path).Node? && j < |At(t, path).ring|
    requires Rep(w, SlotAt(slot, t, path), ParentAt(slot, t, path), RemoveAt(At(t, path), j), idx)
    requires forall a :: w[a] == v[a] || a == SlotAt(slot, t, path) || InLinks(Addrs(At(t, path)), a)
    ensures var t' := Put(t, path, RemoveAt(At(t, path), j));
            && Tree(w, slot, t', idx) && Addrs(t') == Addrs(t) - {At(t, path).ring[j]}
            && (t' == Nil <==> path == [] && RemoveAt(At(t, path), j) == Nil)
            && (forall size, lo, k: nat :: Ordered(size, t, lo, k) ==> Ordered(size, t', lo, k))
            && (forall a :: w[a] == v[a] || a == slot || InLinks(Addrs(t), a))
  {
    hide RemoveAt, Ordered, Distinct;
    var u := At(t, path);
    var s := RemoveAt(u, j);
    PositionFacts(v, slot, t, idx, path);
    UnlinkedSets(t, path, j);
    assert Addrs(t) + {} == Addrs(t) && Addrs(u) + {} == Addrs(u);
    ApartSubset(Addrs(u), Addrs(s));
    RootNonZero(w, SlotAt(slot, t, path), ParentAt(slot, t, path), s, idx);
    SpliceByFrame(v, w, slot, t, idx, path, s, {});
    ApartSubset(Addrs(t), Addrs(Put(t, path, s)));
    UnlinkFrame(v, w, slot, t, path);
  }

  /** Without a chunk: the same other chunks, in the same order. */
  lemma UnlinkedSets(t: Trie, path: Path, j: nat)
    requires ValidPath(t, path) && At(t, path).Node? && j < |At(t, path).ring| && Unique(t) && Unique(At(t, path))
    requires Addrs(At(t, path)) <= Addrs(t)
    ensures var s := RemoveAt(At(t, path), j);
            var t' := Put(t, path, s);
            && Addrs(s) <= Addrs(At(t, path)) && Unique(s)
            && Addrs(t') == Addrs(t) - {At(t, path).ring[j]} && Unique(t') && (t' == Nil <==> path == [] && s == Nil)
            && forall size, lo, k: nat :: Ordered(size, t, lo, k) ==> Ordered(size, t', lo, k)
  {
    hide RemoveAt, Ordered, Distinct;
    var s := RemoveAt(At(t, path), j);
    RemoveAtAddrs(At(t, path), j);
    PutAddrs(t, path, s);
    forall size, lo, k: nat | Ordered(size, t, lo, k) ensures Ordered(size, Put(t, path, s), lo, k) {
      UnlinkOrdered(size, t, lo, k, path, j);
    }
  }

  lemma UnlinkFrame(v: Mem, w: Mem, slot: int, t: Trie, path: Path)
    requires ValidPath(t, path)
    requires forall a :: w[a] == v[a] || a == SlotAt(slot, t, path) || InLinks(Addrs(At(t, path)), a)
    requires Addrs(At(t, path)) <= Addrs(t)
    requires if path == [] then SlotAt(slot, t, path) == slot
             else var q := ParentAt(slot, t, path); q in Addrs(t) && SlotAt(slot, t, path) == ChildSlot(q, path[|path| - 1])
    ensures forall a :: w[a] == v[a] || a == slot || InLinks(Addrs(t), a)
  {
    forall a ensures w[a] == v[a] || a == slot || InLinks(Addrs(t), a) {
      if a == SlotAt(slot, t, path) && path != [] {
        var q := ParentAt(slot, t, path);
        assert q in Addrs(t) && q + FD <= a <= q + INDEX;
      } else if InLinks(Addrs(At(t, path)), a) {
        var p :| p in Addrs(At(t, path)) && p + FD <= a <= p + INDEX;
        assert p in Addrs(t);
      }
    }
  }

  lemma UnlinkOrdered(size: map<int, int>, t: Trie, lo: int, k: nat, path: Path, j: nat)
    requires Ordered(size, t, lo, k) && Unique(t) && ValidPath(t, path)
    requires At(t, path).Node? && j < |At(t, path).ring|
    requires Unique(At(t, path)) && Addrs(At(t, path)) <= Addrs(t)
    ensures Ordered(size, Put(t, path, RemoveAt(At(t, path), j)), lo, k)
  {
    var u := At(t, path);
    AtOrdered(size, t, lo, k, path);
    RemoveAtOrdered(size, u, j, LoAt(lo, k, path), k - |path|);
    RemoveAtAddrs(u, j);
    forall a | a in Addrs(RemoveAt(u, j)) ensures a in size && OffPath(size, t, path, size[a]) {
      BelowOffPath(size, t, lo, k, path, a);
    }
    PutOrdered(size, t, lo, k, path, RemoveAt(u, j));
  }
}
