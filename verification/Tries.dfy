/** The shape of one tree bin: a bitwise trie keyed on chunk size whose nodes are
    rings of same-size chunks.  Only the first member of a ring is in the tree. */
module Tries {
  import opened Words
  import opened Memory
  import opened Rings

  datatype Trie = Nil | Node(ring: seq<int>, left: Trie, right: Trie)

  /** What a tree pointer to t holds. */
  function Root(t: Trie): int {
    if t.Node? && |t.ring| > 0 then First(t.ring) else 0
  }

  /** The ring member that sits in the tree. */
  function First(ring: seq<int>): int
    requires |ring| > 0
  {
    ring[0]
  }

  ghost function Members(r: seq<int>): set<int> {
    set a | a in r
  }

  /** Every chunk stored in t, tree nodes and chained ones alike. */
  ghost function Addrs(t: Trie): set<int> {
    match t
    case Nil => {}
    case Node(ring, left, right) => Members(ring) + Addrs(left) + Addrs(right)
  }

  ghost predicate Unique(t: Trie) {
    match t
    case Nil => true
    case Node(ring, left, right) =>
      && Distinct(ring)
      && Members(ring) !! Addrs(left) && Members(ring) !! Addrs(right) && Addrs(left) !! Addrs(right)
      && Unique(left) && Unique(right)
  }

  /** Chunks big enough for the tree never overlap, so their link words do not either. */
  ghost predicate Apart(s: set<int>) {
    && (forall p :: p in s ==> p > 0)
    && forall p, q :: p in s && q in s && p < q ==> p + 32 <= q
  }

  lemma ApartPair(s: set<int>, p: int, q: int)
    requires Apart(s) && p in s && q in s
    ensures p == q || p + 32 <= q || q + 32 <= p
  {
  }

  lemma ApartPositive(s: set<int>, p: int)
    requires Apart(s) && p in s
    ensures p > 0
  {
  }

  lemma ApartSubset(s: set<int>, s': set<int>)
    requires Apart(s) && s' <= s
    ensures Apart(s')
  {
  }

  ghost predicate Outside(slot: int, s: set<int>) {
    forall p :: p in s ==> slot < p || p + 32 <= slot
  }

  /** The ring members carry the bin index; the chained ones have no parent and no children. */
  ghost predicate Chained(w: Mem, ring: seq<int>, idx: int)
    requires |ring| > 0
  {
    && (forall a :: a in ring ==> w[a + INDEX] == idx)
    && (forall a :: a in ring && a != First(ring) ==> Orphan(w, a))
  }

  ghost predicate Orphan(w: Mem, a: int) {
    w[a + PARENT] == 0 && w[a + CHILD0] == 0 && w[a + CHILD1] == 0
  }

  /** The words of memory w represent t, reached from the pointer at address slot,
      with `parent` in the parent word of its root. */
  ghost predicate Rep(w: Mem, slot: int, parent: int, t: Trie, idx: int)
    decreases t
  {
    && w[slot] == Root(t)
    && (t.Node? ==>
          && Ring(w, t.ring)
          && w[First(t.ring) + PARENT] == parent
          && Chained(w, t.ring, idx)
          && Rep(w, First(t.ring) + CHILD0, First(t.ring), t.left, idx)
          && Rep(w, First(t.ring) + CHILD1, First(t.ring), t.right, idx))
  }

  /** Sizes of the nodes of t lie in [lo, lo + 2^k); the left subtree holds the lower
      half, the right one the upper half, and no size occurs in two nodes. */
  ghost predicate Ordered(size: map<int, int>, t: Trie, lo: int, k: nat)
    decreases t
  {
    t.Node? ==>
      && NodeOrdered(size, t.ring, Addrs(t.left) + Addrs(t.right), lo, lo + Pow2(k))
      && (k == 0 ==> t.left.Nil? && t.right.Nil?)
      && (k > 0 ==> Ordered(size, t.left, lo, k - 1) && Ordered(size, t.right, lo + Pow2(k - 1), k - 1))
  }

  /** One ring of chunks of one size in [lo, hi), different from all sizes below it. */
  ghost predicate NodeOrdered(size: map<int, int>, ring: seq<int>, below: set<int>, lo: int, hi: int) {
    && |ring| > 0 && First(ring) in size
    && lo <= size[First(ring)] < hi
    && (forall a :: a in ring ==> a in size && size[a] == size[First(ring)])
    && (forall a :: a in below ==> a in size && size[a] != size[First(ring)])
  }

  lemma {:induction false} OrderedRange(size: map<int, int>, t: Trie, lo: int, k: nat)
    requires Ordered(size, t, lo, k)
    ensures forall a :: a in Addrs(t) ==> a in size && lo <= size[a] < lo + Pow2(k)
    decreases t
  {
    if t.Node? {
      if k > 0 {
        OrderedRange(size, t.left, lo, k - 1);
        OrderedRange(size, t.right, lo + Pow2(k - 1), k - 1);
      }
      assert forall a :: a in Members(t.ring) ==> a in t.ring;
    }
  }

  lemma {:induction false} RepFrame(v: Mem, w: Mem, slot: int, parent: int, t: Trie, idx: int)
    requires Rep(v, slot, parent, t, idx)
    requires w[slot] == v[slot] && forall p :: p in Addrs(t) ==> SameLinks(v, w, p)
    ensures Rep(w, slot, parent, t, idx)
    decreases t
  {
    if t.Node? {
      NodeFrame(v, w, t.ring, idx);
      assert First(t.ring) in Members(t.ring);
      assert SameLinks(v, w, First(t.ring));
      RepFrame(v, w, First(t.ring) + CHILD0, First(t.ring), t.left, idx);
      RepFrame(v, w, First(t.ring) + CHILD1, First(t.ring), t.right, idx);
    }
  }

  lemma NodeFrame(v: Mem, w: Mem, ring: seq<int>, idx: int)
    requires Ring(v, ring) && Chained(v, ring, idx)
    requires forall p :: p in Members(ring) ==> SameLinks(v, w, p)
    ensures Ring(w, ring) && Chained(w, ring, idx)
  {
    assert forall a :: a in ring ==> a in Members(ring);
    RingFrame(v, w, ring);
  }

  // ---- positions in a trie ----

  type Path = seq<bool>

  function Child(t: Trie, b: bool): Trie
    requires t.Node?
  {
    if b then t.right else t.left
  }

  predicate ValidPath(t: Trie, path: Path) {
    path == [] || (t.Node? && ValidPath(Child(t, path[0]), path[1..]))
  }

  function At(t: Trie, path: Path): Trie
    requires ValidPath(t, path)
    decreases path
  {
    if path == [] then t else At(Child(t, path[0]), path[1..])
  }

  function Put(t: Trie, path: Path, s: Trie): Trie
    requires ValidPath(t, path)
    decreases path
  {
    if path == [] then s
    else if path[0] then t.(right := Put(t.right, path[1..], s))
    else t.(left := Put(t.left, path[1..], s))
  }

  /** The address of child pointer b of the node at p. */
  function ChildSlot(p: int, b: bool): int {
    if b then p + CHILD1 else p + CHILD0
  }

  function SlotAt(slot: int, t: Trie, path: Path): int
    requires ValidPath(t, path)
    decreases path
  {
    if path == [] then slot else SlotAt(ChildSlot(Root(t), path[0]), Child(t, path[0]), path[1..])
  }

  function ParentAt(parent: int, t: Trie, path: Path): int
    requires ValidPath(t, path)
    decreases path
  {
    if path == [] then parent else ParentAt(Root(t), Child(t, path[0]), path[1..])
  }

  function LoAt(lo: int, k: nat, path: Path): int
    requires |path| <= k
    decreases path
  {
    if path == [] then lo else LoAt(if path[0] then lo + Pow2(k - 1) else lo, k - 1, path[1..])
  }

  /** v is none of the sizes at the nodes above position path. */
  ghost predicate OffPath(size: map<int, int>, t: Trie, path: Path, v: int)
    requires ValidPath(t, path)
    decreases path
  {
    path == [] || ((Root(t) in size ==> size[Root(t)] != v) && OffPath(size, Child(t, path[0]), path[1..], v))
  }

  /** Below the root, a position's pointer is a child word of a node that is not part of the position's subtree. */
  lemma {:induction false} SlotInside(slot: int, parent: int, t: Trie, path: Path, w: Mem, idx: int)
    requires ValidPath(t, path) && Unique(t) && Rep(w, slot, parent, t, idx)
    ensures Addrs(At(t, path)) <= Addrs(t) && Unique(At(t, path))
    ensures Rep(w, SlotAt(slot, t, path), ParentAt(parent, t, path), At(t, path), idx)
    ensures path == [] || (
              var q := ParentAt(parent, t, path);
              && q in Addrs(t) - Addrs(At(t, path))
              && SlotAt(slot, t, path) == ChildSlot(q, path[|path| - 1]))
    decreases path
  {
    if path != [] {
      var c := Child(t, path[0]);
      SlotInside(ChildSlot(Root(t), path[0]), Root(t), c, path[1..], w, idx);
      assert Root(t) in Members(t.ring);
      if path[1..] != [] {
        assert path[1..][|path| - 2] == path[|path| - 1];
      }
    }
  }

  /** Replacing the subtree at a position: if memory changes only in that subtree's nodes,
      in the new nodes and in the pointer to it, the whole tree is represented again. */
  lemma {:induction false} Splice(v: Mem, w: Mem, slot: int, parent: int, t: Trie, idx: int, path: Path, s: Trie)
    requires Rep(v, slot, parent, t, idx) && Unique(t) && Apart(Addrs(t)) && ValidPath(t, path)
    requires Outside(slot, Addrs(t))
    requires Rep(w, SlotAt(slot, t, path), ParentAt(parent, t, path), s, idx)
    requires path != [] ==> w[slot] == v[slot]
    requires forall p :: p in Addrs(t) - Addrs(At(t, path)) ==> SameLinksBut(v, w, p, SlotAt(slot, t, path))
    requires path != [] ==> Root(s) == 0 || Root(s) in Addrs(s)
    ensures Rep(w, slot, parent, Put(t, path, s), idx)
    decreases path
  {
    if path != [] {
      var b, r := path[0], First(t.ring);
      var c := Child(t, b);
      assert r in Members(t.ring);
      SlotInside(slot, parent, t, path, v, idx);
      SlotInside(ChildSlot(r, b), r, c, path[1..], v, idx);
      SpliceRoot(v, w, parent, t, idx, b, ParentAt(parent, t, path), path[|path| - 1], Addrs(At(t, path)));
      Splice(v, w, ChildSlot(r, b), r, c, idx, path[1..], s);
    }
  }

  /** A write to a child pointer of q touches no other node. */
  lemma OtherNode(v: Mem, w: Mem, p: int, q: int, b: bool)
    requires SameLinksBut(v, w, p, ChildSlot(q, b)) && (p + 32 <= q || q + 32 <= p)
    ensures SameLinks(v, w, p)
  {
  }

  lemma SpliceRing(v: Mem, w: Mem, ring: seq<int>, idx: int, q: int, b: bool)
    requires Ring(v, ring) && Chained(v, ring, idx)
    requires forall a :: a in ring && a != q ==> SameLinks(v, w, a)
    requires q in ring ==> q == First(ring) && SameLinksBut(v, w, q, ChildSlot(q, b))
    ensures Ring(w, ring) && Chained(w, ring, idx)
    ensures w[First(ring) + PARENT] == v[First(ring) + PARENT]
  {
    RingFrame(v, w, ring);
    var r := First(ring);
    assert r in ring;
    forall a | a in ring && a != r ensures Orphan(w, a) {
      assert Orphan(v, a);
    }
  }

  /** The part of Splice about the root node t.ring and the child !d not on the path:
      memory changed only at child word b of node q and in the chunks of `gone`. */
  lemma SpliceRoot(v: Mem, w: Mem, parent: int, t: Trie, idx: int, d: bool, q: int, b: bool, gone: set<int>)
    requires t.Node? && Ring(v, t.ring) && v[First(t.ring) + PARENT] == parent && Chained(v, t.ring, idx)
    requires Rep(v, ChildSlot(First(t.ring), !d), First(t.ring), Child(t, !d), idx)
    requires Unique(t) && Apart(Addrs(t)) && gone <= Addrs(Child(t, d))
    requires forall p :: p in Addrs(t) - gone ==> SameLinksBut(v, w, p, ChildSlot(q, b))
    requires (q == First(t.ring) && b == d) || q in Addrs(Child(t, d))
    ensures Ring(w, t.ring) && w[First(t.ring) + PARENT] == parent && Chained(w, t.ring, idx)
    ensures Rep(w, ChildSlot(First(t.ring), !d), First(t.ring), Child(t, !d), idx)
    ensures q != First(t.ring) ==> w[ChildSlot(First(t.ring), d)] == v[ChildSlot(First(t.ring), d)]
    ensures Outside(ChildSlot(First(t.ring), d), Addrs(Child(t, d)))
  {
    var r, o := First(t.ring), Child(t, !d);
    hide Ring, Chained, Rep;
    assert r in Members(t.ring);
    forall p | p in Members(t.ring) + Addrs(o) && p != q ensures SameLinks(v, w, p) {
      assert p in Addrs(t) - gone;
      OtherNode(v, w, p, q, b);
    }
    assert forall a :: a in t.ring ==> a in Members(t.ring);
    SpliceRing(v, w, t.ring, idx, q, b);
    RepFrame(v, w, ChildSlot(r, !d), r, o, idx);
  }

  // ---- sets and order under replacement ----

  lemma {:induction false} PutAddrs(t: Trie, path: Path, s: Trie)
    requires ValidPath(t, path) && Unique(t) && Unique(s)
    requires Addrs(s) !! Addrs(t) - Addrs(At(t, path))
    ensures Addrs(At(t, path)) <= Addrs(t)
    ensures Addrs(Put(t, path, s)) == Addrs(t) - Addrs(At(t, path)) + Addrs(s)
    ensures Unique(Put(t, path, s))
    decreases path
  {
    if path != [] {
      AtAddrs(Child(t, path[0]), path[1..]);
      PutAddrs(Child(t, path[0]), path[1..], s);
    }
  }

  lemma {:induction false} AtAddrs(t: Trie, path: Path)
    requires ValidPath(t, path)
    ensures Addrs(At(t, path)) <= Addrs(t)
    decreases path
  {
    if path != [] {
      AtAddrs(Child(t, path[0]), path[1..]);
    }
  }

  lemma {:induction false} AtOrdered(size: map<int, int>, t: Trie, lo: int, k: nat, path: Path)
    requires Ordered(size, t, lo, k) && ValidPath(t, path)
    ensures At(t, path).Node? ==> |path| <= k
    ensures |path| <= k + 1
    ensures |path| <= k ==> Ordered(size, At(t, path), LoAt(lo, k, path), k - |path|)
    decreases path
  {
    hide NodeOrdered, Pow2;
    if path != [] && k > 0 {
      AtOrdered(size, Child(t, path[0]), if path[0] then lo + Pow2(k - 1) else lo, k - 1, path[1..]);
    }
  }

  /** Putting an ordered subtree, with sizes not used above it, at a position keeps the order. */
  lemma {:induction false} PutOrdered(size: map<int, int>, t: Trie, lo: int, k: nat, path: Path, s: Trie)
    requires Ordered(size, t, lo, k) && ValidPath(t, path) && |path| <= k
    requires Ordered(size, s, LoAt(lo, k, path), k - |path|)
    requires forall a :: a in Addrs(s) ==> a in size && OffPath(size, t, path, size[a])
    requires Unique(t) && Unique(s) && Addrs(s) !! Addrs(t) - Addrs(At(t, path))
    ensures Ordered(size, Put(t, path, s), lo, k)
    decreases path
  {
    hide NodeOrdered, Pow2;
    if path != [] {
      var d, c := path[0], Child(t, path[0]);
      var lo' := if d then lo + Pow2(k - 1) else lo;
      PutNode(size, t, lo, k, path, s);
      PutOrdered(size, c, lo', k - 1, path[1..], s);
    }
  }

  lemma PutNode(size: map<int, int>, t: Trie, lo: int, k: nat, path: Path, s: Trie)
    requires Ordered(size, t, lo, k) && ValidPath(t, path) && path != []
    requires forall a :: a in Addrs(s) ==> a in size && OffPath(size, t, path, size[a])
    requires Unique(t) && Unique(s) && Addrs(s) !! Addrs(t) - Addrs(At(t, path))
    ensures var t' := Put(t, path, s);
            && NodeOrdered(size, t.ring, Addrs(t'.left) + Addrs(t'.right), lo, lo + Pow2(k))
            && Addrs(s) !! Addrs(Child(t, path[0])) - Addrs(At(Child(t, path[0]), path[1..]))
            && Unique(Child(t, path[0]))
    ensures forall a :: a in Addrs(s) ==> a in size && OffPath(size, Child(t, path[0]), path[1..], size[a])
  {
    var c := Child(t, path[0]);
    AtAddrs(c, path[1..]);
    PutAddrs(c, path[1..], s);
    forall a | a in Addrs(s)
      ensures a in size && OffPath(size, c, path[1..], size[a]) && size[a] != size[First(t.ring)]
    {
      assert OffPath(size, t, path, size[a]);
    }
  }

  /** The sizes in a node's subtree occur at no node above it. */
  lemma {:induction false} BelowOffPath(size: map<int, int>, t: Trie, lo: int, k: nat, path: Path, a: int)
    requires Ordered(size, t, lo, k) && ValidPath(t, path) && a in Addrs(At(t, path))
    ensures a in size && OffPath(size, t, path, size[a])
    decreases path
  {
    if path == [] {
      OrderedRange(size, t, lo, k);
    } else {
      AtAddrs(Child(t, path[0]), path[1..]);
      BelowOffPath(size, Child(t, path[0]), if path[0] then lo + Pow2(k - 1) else lo, k - 1, path[1..], a);
    }
  }

  // ---- the leaf that replaces a removed node ----

  predicate IsLeaf(t: Trie) {
    t.Node? && t.left.Nil? && t.right.Nil?
  }

  /** The ring at the end of the walk that prefers child[1]. */
  function LastLeaf(t: Trie): seq<int>
    requires t.Node?
  {
    if t.right.Node? then LastLeaf(t.right)
    else if t.left.Node? then LastLeaf(t.left)
    else t.ring
  }

  /** t without that leaf. */
  function Prune(t: Trie): Trie
    requires t.Node?
  {
    if t.right.Node? then t.(right := Prune(t.right))
    else if t.left.Node? then t.(left := Prune(t.left))
    else Nil
  }

  lemma {:induction false} PruneAddrs(t: Trie)
    requires t.Node? && Unique(t)
    ensures Unique(Prune(t)) && Distinct(LastLeaf(t))
    ensures Members(LastLeaf(t)) <= Addrs(t) && Addrs(Prune(t)) == Addrs(t) - Members(LastLeaf(t))
    decreases t
  {
    if t.right.Node? {
      PruneAddrs(t.right);
    } else if t.left.Node? {
      PruneAddrs(t.left);
    }
  }

  lemma {:induction false} PruneOrdered(size: map<int, int>, t: Trie, lo: int, k: nat)
    requires t.Node? && Unique(t) && Ordered(size, t, lo, k)
    ensures Ordered(size, Prune(t), lo, k)
    ensures NodeOrdered(size, LastLeaf(t), Addrs(Prune(t)), lo, lo + Pow2(k))
    decreases t
  {
    hide NodeOrdered;
    PruneAddrs(t);
    OrderedRange(size, t, lo, k);
    if t.right.Node? {
      PruneOrdered(size, t.right, lo + Pow2(k - 1), k - 1);
      PruneNode(size, t, t.right, t.left, lo, k, lo + Pow2(k - 1));
      assert Addrs(t.left) + Addrs(Prune(t.right)) == Addrs(Prune(t.right)) + Addrs(t.left);
    } else if t.left.Node? {
      PruneOrdered(size, t.left, lo, k - 1);
      PruneNode(size, t, t.left, t.right, lo, k, lo);
    } else {
      PruneLeafNode(size, t, lo, k);
    }
  }

  lemma PruneLeafNode(size: map<int, int>, t: Trie, lo: int, k: nat)
    requires IsLeaf(t) && Ordered(size, t, lo, k)
    ensures NodeOrdered(size, LastLeaf(t), {}, lo, lo + Pow2(k))
  {
  }

  lemma PruneNode(size: map<int, int>, t: Trie, c: Trie, o: Trie, lo: int, k: nat, lo': int)
    requires t.Node? && c.Node? && k > 0 && Ordered(size, t, lo, k)
    requires (c == t.left && o == t.right && o.Nil? && lo' == lo) || (c == t.right && o == t.left && lo' == lo + Pow2(k - 1))
    requires Unique(c) && Unique(t)
    requires NodeOrdered(size, LastLeaf(c), Addrs(Prune(c)), lo', lo' + Pow2(k - 1))
    ensures LastLeaf(t) == LastLeaf(c)
    ensures Addrs(Prune(t)) == Members(t.ring) + Addrs(Prune(c)) + Addrs(o)
    ensures NodeOrdered(size, LastLeaf(t), Addrs(Prune(t)), lo, lo + Pow2(k))
    ensures NodeOrdered(size, t.ring, Addrs(Prune(c)) + Addrs(o), lo, lo + Pow2(k))
  {
    PruneAddrs(c);
    OrderedRange(size, t.left, lo, k - 1);
    var leaf := LastLeaf(c);
    var f, r := First(leaf), First(t.ring);
    assert f in leaf && f in Members(leaf) && f in Addrs(c);
    assert size[f] != size[r];
    forall a | a in Members(t.ring) + Addrs(Prune(c)) + Addrs(o) ensures a in size && size[a] != size[f] {
      if a in Members(t.ring) {
        assert a in t.ring;
      }
    }
  }

  // ---- extending a position by one step ----

  lemma {:induction false} PathStep(t: Trie, path: Path, b: bool)
    requires ValidPath(t, path) && At(t, path).Node?
    ensures ValidPath(t, path + [b]) && At(t, path + [b]) == Child(At(t, path), b)
    decreases path
  {
    if path != [] {
      PathStep(Child(t, path[0]), path[1..], b);
      assert (path + [b])[1..] == path[1..] + [b];
    }
  }

  lemma {:induction false} SlotStep(slot: int, parent: int, t: Trie, path: Path, b: bool)
    requires ValidPath(t, path) && At(t, path).Node? && ValidPath(t, path + [b])
    ensures SlotAt(slot, t, path + [b]) == ChildSlot(Root(At(t, path)), b)
    ensures ParentAt(parent, t, path + [b]) == Root(At(t, path))
    decreases path
  {
    if path != [] {
      assert (path + [b])[1..] == path[1..] + [b];
      SlotStep(ChildSlot(Root(t), path[0]), Root(t), Child(t, path[0]), path[1..], b);
    }
  }

  lemma {:induction false} PutStep(t: Trie, path: Path, b: bool, s: Trie)
    requires ValidPath(t, path) && At(t, path).Node? && ValidPath(t, path + [b])
    ensures Put(t, path + [b], s) == Put(t, path, Put(At(t, path), [b], s))
    decreases path
  {
    if path != [] {
      assert (path + [b])[1..] == path[1..] + [b];
      PutStep(Child(t, path[0]), path[1..], b, s);
    } else {
      assert ([] + [b])[1..] == [];
    }
  }

  lemma RootNonZero(w: Mem, slot: int, parent: int, t: Trie, idx: int)
    requires Rep(w, slot, parent, t, idx) && Apart(Addrs(t))
    ensures Root(t) != 0 <==> t.Node?
    ensures t.Node? ==> Root(t) in Addrs(t)
  {
    if t.Node? {
      var r := First(t.ring);
      assert r in t.ring;
      assert r in Members(t.ring);
    }
  }
}
