/** struct malloc_state (and the kernel's break) together with the memory it manages. */
module MallocState {
  import opened Memory
  import opened Tries
  import opened Layouts
  import Bitmaps

  /** What the bins hold: 32 lists, 32 tries, and which of them are not empty. */
  datatype Bins = Bins(small: seq<seq<int>>, trees: seq<Trie>, smarked: set<int>, tmarked: set<int>)

  class State {
    /** Address of the static struct; its bin arrays live in memory like everything else. */
    const gm: int
    /** VIRT_MEM(mem_base): where the memory that sbrk hands out begins. */
    const memBase: int

    var w: Mem
    var smallmap: Bitmaps.Binmap
    var treemap: Bitmaps.Binmap
    var dvsize: int
    var topsize: int
    var dv: int
    var top: int
    var trimCheck: int
    var footprint: int
    var maxFootprint: int
    /** USE_NONCONTIGUOUS_BIT of mflags */
    var noncontiguous: bool
    var segBase: int
    var segSize: int
    /** the kernel's sbrk_size */
    var sbrkSize: int

    /** The chunks of the segment and the contents of the bins, as the words in memory represent them. */
    ghost var lay: Layout
    ghost var bins: Bins

    /** The state before the first request: zeroed, as static data is. */
    constructor (gm: int, memBase: int, w: Mem)
      ensures this.gm == gm && this.memBase == memBase && this.w == w
      ensures smallmap == 0 && treemap == 0 && dvsize == 0 && topsize == 0 && dv == 0 && top == 0
      ensures trimCheck == 0 && footprint == 0 && maxFootprint == 0 && !noncontiguous
      ensures segBase == 0 && segSize == 0 && sbrkSize == 0
      ensures lay == Layout(0, 0, 0, map[], map[], {})
      ensures bins == Bins(seq(32, i => []), seq(32, i => Nil), {}, {})
    {
      this.gm, this.memBase, this.w := gm, memBase, w;
      smallmap, treemap, dvsize, topsize, dv, top := 0, 0, 0, 0, 0, 0;
      trimCheck, footprint, maxFootprint, noncontiguous := 0, 0, 0, false;
      segBase, segSize, sbrkSize := 0, 0, 0;
      lay := Layout(0, 0, 0, map[], map[], {});
      bins := Bins(seq(32, i => []), seq(32, i => Nil), {}, {});
    }
  }

  /** smallbin_at(M, i): the header's fd and bk words are smallbins[2i + 2] and smallbins[2i + 3]. */
  function SmallBinAt(gm: int, i: int): int {
    gm + 36 + 8 * i
  }

  /** treebin_at(M, i) */
  function TreeBinAt(gm: int, i: int): int {
    gm + 300 + 4 * i
  }

  /** a is a link word of one of the chunks in s. */
  ghost predicate InLinks(s: set<int>, a: int) {
    exists p :: p in s && p + FD <= a <= p + INDEX
  }
}
