/** Kernel memory as the allocator sees it: one 32-bit word at each byte address
    it uses.  Chunk fields overlay user payload, so there is a single memory and
    every "this word did not change" has to be argued from addresses. */
module Memory {

  ghost predicate Total(m: imap<int, int>) {
    forall a :: a in m
  }

  type Mem = m: imap<int, int> | Total(m) ghost witness (imap a: int {:trigger a + 0} :: 0)

  // Field offsets of struct malloc_chunk and struct malloc_tree_chunk.
  const HEAD: int := 4
  const FD: int := 8
  const BK: int := 12
  const CHILD0: int := 16
  const CHILD1: int := 20
  const PARENT: int := 24
  const INDEX: int := 28

  /** The six link words of the chunk at p hold the same values in v and w. */
  ghost predicate SameLinks(v: Mem, w: Mem, p: int) {
    && w[p + FD] == v[p + FD] && w[p + BK] == v[p + BK]
    && w[p + CHILD0] == v[p + CHILD0] && w[p + CHILD1] == v[p + CHILD1]
    && w[p + PARENT] == v[p + PARENT] && w[p + INDEX] == v[p + INDEX]
  }

  /** As SameLinks, except that the word at address a may differ. */
  ghost predicate SameLinksBut(v: Mem, w: Mem, p: int, a: int) {
    && (p + FD == a || w[p + FD] == v[p + FD]) && (p + BK == a || w[p + BK] == v[p + BK])
    && (p + CHILD0 == a || w[p + CHILD0] == v[p + CHILD0]) && (p + CHILD1 == a || w[p + CHILD1] == v[p + CHILD1])
    && (p + PARENT == a || w[p + PARENT] == v[p + PARENT]) && (p + INDEX == a || w[p + INDEX] == v[p + INDEX])
  }
}
