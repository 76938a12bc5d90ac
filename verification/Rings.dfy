/** Circular doubly-linked lists threaded through the fd/bk words of free chunks:
    the small bins (with their header as a member) and the same-size rings that
    hang off a tree node. */
module Rings {
  import opened Memory

  function Succ(n: nat, i: nat): (j: nat)
    requires i < n
    ensures j < n
  {
    if i + 1 < n then i + 1 else 0
  }

  function Pred(n: nat, i: nat): (j: nat)
    requires i < n
    ensures j < n
  {
    if i > 0 then i - 1 else n - 1
  }

  /** Member i points forward to its successor and back to its predecessor. */
  ghost predicate Links(w: Mem, r: seq<int>, i: int)
    requires 0 <= i < |r|
  {
    w[r[i] + FD] == r[Succ(|r|, i)] && w[r[i] + BK] == r[Pred(|r|, i)]
  }

  /** r lists, in fd order, all members of one ring. */
  ghost predicate Ring(w: Mem, r: seq<int>) {
    |r| > 0 && forall i :: 0 <= i < |r| ==> Links(w, r, i)
  }

  ghost predicate Distinct(r: seq<int>) {
    forall i, j :: 0 <= i < j < |r| ==> r[i] != r[j]
  }

  function Without(r: seq<int>, j: nat): seq<int>
    requires j < |r|
  {
    r[..j] + r[j + 1..]
  }

  /** x linked in right after the first member. */
  function InsertSecond(r: seq<int>, x: int): seq<int>
    requires |r| > 0
  {
    [r[0], x] + r[1..]
  }

  /** Writing F->bk = B and B->fd = F around member j takes exactly j out of the ring. */
  lemma RingRemove(v: Mem, w: Mem, r: seq<int>, j: nat)
    requires Ring(v, r) && Distinct(r) && |r| >= 2 && j < |r|
    requires var b, f := r[Pred(|r|, j)], r[Succ(|r|, j)];
             && w[b + FD] == f && w[f + BK] == b
             && (forall i {:trigger r[i]} :: 0 <= i < |r| && i != j && r[i] != b ==> w[r[i] + FD] == v[r[i] + FD])
             && (forall i {:trigger r[i]} :: 0 <= i < |r| && i != j && r[i] != f ==> w[r[i] + BK] == v[r[i] + BK])
    ensures Ring(w, Without(r, j)) && Distinct(Without(r, j))
    ensures forall a :: a in Without(r, j) <==> a in r && a != r[j]
  {
    var s := Without(r, j);
    forall i | 0 <= i < |s|
      ensures Links(w, s, i)
    {
      LinksWithout(v, w, r, j, i);
    }
    WithoutMembers(r, j);
  }

  lemma LinksWithout(v: Mem, w: Mem, r: seq<int>, j: nat, i: nat)
    requires Ring(v, r) && Distinct(r) && |r| >= 2 && j < |r| && i < |r| - 1
    requires var b, f, k := r[Pred(|r|, j)], r[Succ(|r|, j)], if i < j then i else i + 1;
             && w[b + FD] == f && w[f + BK] == b
             && (r[k] != b ==> w[r[k] + FD] == v[r[k] + FD])
             && (r[k] != f ==> w[r[k] + BK] == v[r[k] + BK])
    ensures Links(w, Without(r, j), i)
  {
    var s := Without(r, j);
    var n := |r|;
    var k := if i < j then i else i + 1;
    assert s[i] == r[k];
    assert Links(v, r, k);
    var up, down := Succ(n - 1, i), Pred(n - 1, i);
    assert s[up] == if Succ(n, k) == j then r[Succ(n, j)] else r[Succ(n, k)];
    assert s[down] == if Pred(n, k) == j then r[Pred(n, j)] else r[Pred(n, k)];
  }

  lemma WithoutMembers(r: seq<int>, j: nat)
    requires j < |r| && Distinct(r)
    ensures forall a :: a in Without(r, j) <==> a in r && a != r[j]
  {
    var s := Without(r, j);
    forall a | a in r && a != r[j] ensures a in s {
      var k :| 0 <= k < |r| && r[k] == a;
      assert s[if k < j then k else k - 1] == a;
    }
  }

  /** The four writes of an insertion put x second in the ring. */
  lemma RingInsert(v: Mem, w: Mem, r: seq<int>, x: int)
    requires Ring(v, r) && Distinct(r) && x !in r
    requires var f := r[Succ(|r|, 0)];
             && w[r[0] + FD] == x && w[f + BK] == x && w[x + FD] == f && w[x + BK] == r[0]
             && (forall i {:trigger r[i]} :: 0 < i < |r| ==> w[r[i] + FD] == v[r[i] + FD])
             && (forall i {:trigger r[i]} :: 0 <= i < |r| && r[i] != f ==> w[r[i] + BK] == v[r[i] + BK])
    ensures Ring(w, InsertSecond(r, x)) && Distinct(InsertSecond(r, x))
    ensures forall a :: a in InsertSecond(r, x) <==> a in r || a == x
  {
    var s := InsertSecond(r, x);
    forall i | 0 <= i < |s|
      ensures Links(w, s, i)
    {
      if i != 1 {
        var k := if i == 0 then 0 else i - 1;
        assert s[i] == r[k];
        assert Links(v, r, k);
      }
    }
    forall a | a in r ensures a in s {
      var k :| 0 <= k < |r| && r[k] == a;
      assert s[if k == 0 then 0 else k + 1] == a;
    }
  }

  function LastFirst(r: seq<int>): seq<int>
    requires |r| > 0
  {
    [r[|r| - 1]] + r[..|r| - 1]
  }

  /** A ring may be listed from any member: here from the last one. */
  lemma RingRotate(w: Mem, r: seq<int>)
    requires Ring(w, r) && Distinct(r)
    ensures Ring(w, LastFirst(r)) && Distinct(LastFirst(r))
    ensures forall a :: a in LastFirst(r) <==> a in r
  {
    var s := LastFirst(r);
    forall i | 0 <= i < |s|
      ensures Links(w, s, i)
    {
      var k := if i == 0 then |r| - 1 else i - 1;
      assert s[i] == r[k];
      assert Links(w, r, k);
    }
    forall a | a in r ensures a in s {
      var k :| 0 <= k < |r| && r[k] == a;
      assert s[if k == |r| - 1 then 0 else k + 1] == a;
    }
  }

  lemma RingFrame(v: Mem, w: Mem, r: seq<int>)
    requires Ring(v, r)
    requires forall a :: a in r ==> w[a + FD] == v[a + FD] && w[a + BK] == v[a + BK]
    ensures Ring(w, r)
  {
    forall i | 0 <= i < |r|
      ensures Links(w, r, i)
    {
      assert r[i] in r;
      assert Links(v, r, i);
    }
  }
}
