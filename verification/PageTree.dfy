/** The kernel's physical pages: the free list threaded through them, their share counts, and the
    two-level page trees that are copied and freed by adjusting those counts. */
module PageTree {
  import opened Words
  import opened Memory

  const PAGE_SIZE: int := 4096
  const PTRS_PER_PAGE: int := 1024
  /** Directory entries from here on belong to the kernel and are not counted. */
  const KERNEL_VIRT_PDINDX: int := 768
  const MAP_PAGE_RESERVED: int := 0x8000

  // ---- entries: a page address and twelve flag bits ----

  /** e & PAGE_MASK */
  function Page(e: int): int {
    e / PAGE_SIZE * PAGE_SIZE
  }

  /** MAP_NR(e) */
  function Nr(e: int): int {
    e / PAGE_SIZE
  }

  function Flags(e: int): int {
    e % PAGE_SIZE
  }

  /** PAGE_RW and PAGE_COW */
  predicate Writable(e: int) {
    e / 2 % 2 == 1
  }

  predicate CopyOnWrite(e: int) {
    e / 0x200 % 2 == 1
  }

  /** (e & ~PAGE_RW) | PAGE_COW */
  function MarkCow(e: int): int {
    e - (if Writable(e) then 2 else 0) + (if CopyOnWrite(e) then 0 else 0x200)
  }

  /** What copying makes of an entry. */
  function Shared(e: int, cow: bool): int {
    if e != 0 && cow then MarkCow(e) else e
  }

  /** Bit 0, bits 2 to 8, and all bits from bit 10 on: all but PAGE_RW and PAGE_COW. */
  predicate SameOtherBits(c: int, e: int) {
    c % 2 == e % 2 && c / 4 % 128 == e / 4 % 128 && c / 0x400 == e / 0x400
  }

  /** A mark clears PAGE_RW and sets PAGE_COW, and leaves the page and every other bit as they are. */
  lemma MarkFacts(e: int)
    requires e >= 0
    ensures SameOtherBits(MarkCow(e), e)
    ensures var c := MarkCow(e);
            !Writable(c) && CopyOnWrite(c) && Page(c) == Page(e) && Nr(c) == Nr(e) && c > 0 && MarkCow(c) == c
  {
    var b0, rw, mid, cow, top, nr := Decomposed(e);
    FieldBits(b0, rw, mid, cow, top, nr);
    FieldBits(b0, 0, mid, 1, top, nr);
    OtherBits(b0, rw, mid, cow, top, nr);
    OtherBits(b0, 0, mid, 1, top, nr);
    hide Writable, CopyOnWrite, Nr;
    assert MarkCow(e) == Fields(b0, 0, mid, 1, top, nr);
  }

  /** An entry in terms of its fields. */
  function Fields(b0: int, rw: int, mid: int, cow: int, top: int, nr: int): int {
    b0 + 2 * rw + 4 * mid + 0x200 * cow + 0x400 * top + PAGE_SIZE * nr
  }

  lemma Decomposed(e: int) returns (b0: int, rw: int, mid: int, cow: int, top: int, nr: int)
    requires e >= 0
    ensures 0 <= b0 < 2 && 0 <= rw < 2 && 0 <= mid < 128 && 0 <= cow < 2 && 0 <= top < 4 && nr >= 0
    ensures e == Fields(b0, rw, mid, cow, top, nr)
  {
    var x1, x2, x3, x4 := e / 2, e / 2 / 2, e / 2 / 2 / 128, e / 2 / 2 / 128 / 2;
    b0, rw, mid, cow, top, nr := e % 2, x1 % 2, x2 % 128, x3 % 2, x4 % 4, x4 / 4;
  }

  lemma FieldBits(b0: int, rw: int, mid: int, cow: int, top: int, nr: int)
    requires 0 <= b0 < 2 && 0 <= rw < 2 && 0 <= mid < 128 && 0 <= cow < 2 && 0 <= top < 4 && nr >= 0
    ensures var e := Fields(b0, rw, mid, cow, top, nr);
            (Writable(e) <==> rw == 1) && (CopyOnWrite(e) <==> cow == 1) && Nr(e) == nr && Page(e) == PAGE_SIZE * nr
  {
    var e, x4 := Fields(b0, rw, mid, cow, top, nr), top + 4 * nr;
    var x3 := cow + 2 * x4;
    var x2 := mid + 128 * x3;
    DivUnique(e, 2, rw + 2 * x2, b0);
    DivUnique(rw + 2 * x2, 2, x2, rw);
    DivUnique(e, 0x200, x3, b0 + 2 * rw + 4 * mid);
    DivUnique(x3, 2, x4, cow);
    DivUnique(e, PAGE_SIZE, nr, b0 + 2 * rw + 4 * mid + 0x200 * cow + 0x400 * top);
  }

  lemma OtherBits(b0: int, rw: int, mid: int, cow: int, top: int, nr: int)
    requires 0 <= b0 < 2 && 0 <= rw < 2 && 0 <= mid < 128 && 0 <= cow < 2 && 0 <= top < 4 && nr >= 0
    ensures var e := Fields(b0, rw, mid, cow, top, nr);
            e % 2 == b0 && e / 4 % 128 == mid && e / 0x400 == top + 4 * nr
  {
    var e, x4 := Fields(b0, rw, mid, cow, top, nr), top + 4 * nr;
    var x2 := mid + 128 * (cow + 2 * x4);
    DivUnique(e, 2, rw + 2 * x2, b0);
    DivUnique(e, 4, x2, b0 + 2 * rw);
    DivUnique(x2, 128, cow + 2 * x4, mid);
    DivUnique(e, 0x400, x4, b0 + 2 * rw + 4 * mid + 0x200 * cow);
  }

  // ---- the free list and the counts ----

  ghost predicate Distinct(s: seq<int>) {
    forall i, j :: 0 <= i < j < |s| ==> s[i] != s[j]
  }

  /** What the first word of the k-th page of the list says. */
  ghost function NextOf(free: seq<int>, k: int): int
    requires 0 <= k < |free|
  {
    if k + 1 < |free| then free[k + 1] else 0
  }

  ghost predicate LinkAt(w: Mem, p: int, next: int) {
    w[p] == next
  }

  ghost predicate Linked(w: Mem, free: seq<int>) {
    forall k :: 0 <= k < |free| ==> LinkAt(w, free[k], NextOf(free, k))
  }

  ghost predicate IsPage(p: int, pages: int) {
    p % PAGE_SIZE == 0 && 0 < p < pages * PAGE_SIZE
  }

  ghost predicate CountOK(counts: Mem, free: seq<int>, nr: int) {
    && 0 <= counts[nr] <= MAP_PAGE_RESERVED
    && (counts[nr] == 0 <==> nr * PAGE_SIZE in free)
  }

  /** The list is linked through its pages, has no page twice, and holds exactly the pages with count 0.
      Page 0 is reserved, so that its address can end the list. */
  ghost predicate PagesOK(w: Mem, counts: Mem, head: int, free: seq<int>, pages: int) {
    && pages > 0 && counts[0] == MAP_PAGE_RESERVED
    && head == (if free == [] then 0 else free[0]) && Linked(w, free) && Distinct(free)
    && (forall p :: p in free ==> IsPage(p, pages))
    && (forall nr {:trigger CountOK(counts, free, nr)} :: 0 < nr < pages ==> CountOK(counts, free, nr))
  }

  /** Only words inside the page at p differ. */
  ghost predicate PageWrites(v: Mem, w: Mem, p: int) {
    forall a :: w[a] == v[a] || p <= a < p + PAGE_SIZE
  }

  class Pager {
    /** mem_end, in pages */
    const pages: int
    /** counted once when the list is built, and never updated */
    const freePageCount: int

    var w: Mem
    /** mem_map */
    var counts: Mem
    var freePageList: int
    /** The pages of the list, first to last. */
    ghost var free: seq<int>

    ghost predicate Valid()
      reads this
    {
      freePageCount != 0 && PagesOK(w, counts, freePageList, free, pages)
    }

    constructor (pages: int, freePageCount: int, w: Mem, counts: Mem, freePageList: int, ghost free: seq<int>)
      requires freePageCount != 0 && PagesOK(w, counts, freePageList, free, pages)
      ensures Valid() && this.free == free && this.counts == counts && this.w == w
    {
      this.pages, this.freePageCount := pages, freePageCount;
      this.w, this.counts, this.freePageList, this.free := w, counts, freePageList, free;
    }

    /** get_page(): the first page of the list, now with count 1; 0 if there is none. */
    method GetPage() returns (p: int)
      requires Valid()
      modifies this
      ensures Valid() && w == old(w)
      ensures if old(free) == [] then p == 0 && free == [] && counts == old(counts)
              else p == old(free[0]) && free == old(free[1..]) && counts == old(counts)[Nr(p) := 1] && IsPage(p, pages)
    {
      p := freePageList;
      if freePageCount == 0 || freePageList == 0 {
        if |free| > 0 {
          FirstIsPage(w, counts, freePageList, free, pages);
        }
        return 0;
      }
      FirstIsPage(w, counts, freePageList, free, pages);
      freePageList := w[p];
      counts := counts[Nr(p) := 1];
      free := free[1..];
      Taken(w, old(counts), old(freePageList), old(free), pages);
    }

    /** free_page(adr): one use less; with the last one the page goes back to the list. */
    method FreePage(adr: int)
      requires Valid() && IsPage(adr, pages) && counts[Nr(adr)] != MAP_PAGE_RESERVED && counts[Nr(adr)] > 0
      modifies this
      ensures Valid() && counts == old(counts)[Nr(adr) := old(counts)[Nr(adr)] - 1]
      ensures if counts[Nr(adr)] == 0 then free == [adr] + old(free) && w == old(w)[adr := old(freePageList)]
              else free == old(free) && w == old(w)
    {
      var nr := counts[Nr(adr)];
      nr := nr - 1;
      counts := counts[Nr(adr) := nr];
      if nr == 0 {
        w := w[adr := freePageList];
        freePageList := adr;
        free := [adr] + free;
        Returned(old(w), old(counts), old(freePageList), old(free), pages, adr);
      } else {
        StillUsed(w, old(counts), freePageList, free, pages, adr, nr);
      }
    }

    /** kmalloc_page(): a page of zeros.  (The kernel aborts if there is none.) */
    method KmallocPage() returns (p: int)
      requires Valid() && free != []
      modifies this
      ensures Valid() && p == old(free[0]) && free == old(free[1..]) && counts == old(counts)[Nr(p) := 1] && IsPage(p, pages)
      ensures PageWrites(old(w), w, p) && forall j :: 0 <= j < PTRS_PER_PAGE ==> w[p + 4 * j] == 0
    {
      p := GetPage();
      ghost var v := w;
      for i := 0 to PTRS_PER_PAGE
        invariant Valid() && free == old(free[1..]) && counts == old(counts)[Nr(p) := 1]
        invariant PageWrites(v, w, p) && forall j :: 0 <= j < i ==> w[p + 4 * j] == 0
      {
        ghost var u := w;
        w := w[p + 4 * i := 0];
        UsedPageWritten(u, w, counts, freePageList, free, pages, p);
      }
    }
  }

  lemma PageNumber(p: int, pages: int)
    requires IsPage(p, pages)
    ensures Nr(p) * PAGE_SIZE == p && 0 < Nr(p) < pages
  {
  }

  lemma FirstIsPage(w: Mem, counts: Mem, head: int, free: seq<int>, pages: int)
    requires PagesOK(w, counts, head, free, pages) && (free != [] || head != 0)
    ensures free != [] && head == free[0] && IsPage(head, pages) && head != 0
  {
    assert free[0] in free;
  }

  lemma Taken(w: Mem, counts: Mem, head: int, free: seq<int>, pages: int)
    requires PagesOK(w, counts, head, free, pages) && free != []
    ensures PagesOK(w, counts[Nr(head) := 1], w[head], free[1..], pages)
  {
    var counts', free' := counts[Nr(head) := 1], free[1..];
    FirstIsPage(w, counts, head, free, pages);
    PageNumber(head, pages);
    forall k | 0 <= k < |free'| ensures LinkAt(w, free'[k], NextOf(free', k)) {
      assert free'[k] == free[k + 1];
      assert LinkAt(w, free[k + 1], NextOf(free, k + 1));
    }
    assert LinkAt(w, free[0], NextOf(free, 0));
    forall nr | 0 < nr < pages ensures CountOK(counts', free', nr) {
      assert CountOK(counts, free, nr);
      assert free == [head] + free';
    }
  }

  lemma Returned(w: Mem, counts: Mem, head: int, free: seq<int>, pages: int, adr: int)
    requires PagesOK(w, counts, head, free, pages) && IsPage(adr, pages) && counts[Nr(adr)] == 1
    ensures PagesOK(w[adr := head], counts[Nr(adr) := 0], adr, [adr] + free, pages)
  {
    var w', counts', free' := w[adr := head], counts[Nr(adr) := 0], [adr] + free;
    PageNumber(adr, pages);
    assert CountOK(counts, free, Nr(adr));
    forall k | 0 <= k < |free'| ensures LinkAt(w', free'[k], NextOf(free', k)) {
      if k > 0 {
        assert free'[k] == free[k - 1] && free[k - 1] in free;
        assert LinkAt(w, free[k - 1], NextOf(free, k - 1));
      }
    }
    forall nr | 0 < nr < pages ensures CountOK(counts', free', nr) {
      assert CountOK(counts, free, nr);
    }
  }

  lemma StillUsed(w: Mem, counts: Mem, head: int, free: seq<int>, pages: int, adr: int, n: int)
    requires PagesOK(w, counts, head, free, pages) && IsPage(adr, pages) && 0 < n <= counts[Nr(adr)]
    ensures PagesOK(w, counts[Nr(adr) := n], head, free, pages)
  {
    PageNumber(adr, pages);
    var counts' := counts[Nr(adr) := n];
    assert CountOK(counts, free, Nr(adr));
    forall nr | 0 < nr < pages ensures CountOK(counts', free, nr) {
      assert CountOK(counts, free, nr);
    }
  }

  /** Writing into a page that is not free leaves the list alone. */
  lemma UsedPageWritten(v: Mem, w: Mem, counts: Mem, head: int, free: seq<int>, pages: int, p: int)
    requires PagesOK(v, counts, head, free, pages) && PageWrites(v, w, p) && p % PAGE_SIZE == 0 && p !in free
    ensures PagesOK(w, counts, head, free, pages)
  {
    forall k | 0 <= k < |free| ensures LinkAt(w, free[k], NextOf(free, k)) {
      assert LinkAt(v, free[k], NextOf(free, k));
      var q := free[k];
      assert q in free;
      PagesApart(q, p);
    }
  }

  lemma PagesApart(p: int, q: int)
    requires p % PAGE_SIZE == 0 && q % PAGE_SIZE == 0 && p != q
    ensures p + PAGE_SIZE <= q || q + PAGE_SIZE <= p
  {
  }

  /** One more use of a page in use. */
  lemma OneMore(w: Mem, counts: Mem, head: int, free: seq<int>, pages: int, nr: int)
    requires PagesOK(w, counts, head, free, pages) && 0 < nr < pages && counts[nr] != 0 && counts[nr] < MAP_PAGE_RESERVED
    ensures PagesOK(w, counts[nr := counts[nr] + 1], head, free, pages)
  {
    var counts' := counts[nr := counts[nr] + 1];
    assert CountOK(counts, free, nr);
    forall x | 0 < x < pages ensures CountOK(counts', free, x) {
      assert CountOK(counts, free, x);
    }
  }

  // ---- page trees ----

  /** Directory entry i of the tree at t, the table it points to (0 if none), and entry j of that table. */
  ghost function Dir(w: Mem, t: int, i: int): int {
    w[t + 4 * i]
  }

  ghost function Table(w: Mem, t: int, i: int): int {
    Page(Dir(w, t, i))
  }

  ghost function Slot(w: Mem, st: int, j: int): int {
    w[st + 4 * j]
  }

  ghost function Entry(w: Mem, t: int, i: int, j: int): int {
    if Table(w, t, i) == 0 then 0 else Slot(w, Table(w, t, i), j)
  }

  /** How many of the first n entries of the table at st map page nr. */
  ghost function RefsTable(w: Mem, st: int, n: int, nr: int): (c: int)
    ensures c >= 0
  {
    if n <= 0 then 0
    else RefsTable(w, st, n - 1, nr) + if Slot(w, st, n - 1) != 0 && Nr(Slot(w, st, n - 1)) == nr then 1 else 0
  }

  /** How often directory entry i of the tree at t counts page nr. */
  ghost function RefsDir(w: Mem, t: int, i: int, nr: int): (c: int)
    ensures c >= 0
  {
    if i < KERNEL_VIRT_PDINDX && Table(w, t, i) != 0 then RefsTable(w, Table(w, t, i), PTRS_PER_PAGE, nr) else 0
  }

  /** How often the first n directory entries count it. */
  ghost function Refs(w: Mem, t: int, n: int, nr: int): (c: int)
    ensures c >= 0
  {
    if n <= 0 then 0 else Refs(w, t, n - 1, nr) + RefsDir(w, t, n - 1, nr)
  }

  /** How many of the first n directory entries have a table. */
  ghost function Tables(w: Mem, t: int, n: int): (c: int)
    ensures c >= 0
  {
    if n <= 0 then 0 else Tables(w, t, n - 1) + if Table(w, t, n - 1) != 0 then 1 else 0
  }

  lemma {:induction false} TablesMonotone(w: Mem, t: int, m: int, n: int)
    requires m <= n
    ensures Tables(w, t, m) <= Tables(w, t, n)
    decreases n - m
  {
    if m < n {
      TablesMonotone(w, t, m, n - 1);
    }
  }

  lemma {:induction false} RefsMonotone(w: Mem, t: int, m: int, n: int, nr: int)
    requires m <= n
    ensures Refs(w, t, m, nr) <= Refs(w, t, n, nr)
    decreases n - m
  {
    if m < n {
      RefsMonotone(w, t, m, n - 1, nr);
    }
  }

  lemma {:induction false} RefsTableMonotone(w: Mem, st: int, m: int, n: int, nr: int)
    requires m <= n
    ensures RefsTable(w, st, m, nr) <= RefsTable(w, st, n, nr)
    decreases n - m
  {
    if m < n {
      RefsTableMonotone(w, st, m, n - 1, nr);
    }
  }

  /** A page that no entry maps has no references. */
  lemma {:induction false} NoRefsTable(w: Mem, st: int, n: int, nr: int)
    requires forall j :: 0 <= j < n && Slot(w, st, j) != 0 ==> Nr(Slot(w, st, j)) != nr
    ensures RefsTable(w, st, n, nr) == 0
    decreases n
  {
    if n > 0 {
      NoRefsTable(w, st, n - 1, nr);
    }
  }

  // ---- copying one table ----

  /** A count after n more uses; reserved pages are not counted. */
  function Added(c: int, n: int): int {
    if c == MAP_PAGE_RESERVED then c else c + n
  }

  /** The entries of table st may be shared: they are proper, and where they are counted they map pages in use. */
  ghost predicate Sharable(w: Mem, counts: Mem, pages: int, st: int, counted: bool) {
    forall j :: 0 <= j < PTRS_PER_PAGE ==> EntryOK(Slot(w, st, j), counts, pages, counted)
  }

  ghost predicate EntryOK(e: int, counts: Mem, pages: int, counted: bool) {
    e >= 0 && (counted && e != 0 ==> Nr(e) < pages && counts[Nr(e)] > 0)
  }

  /** After j entries: the source's are marked if that is asked for, and the copy has them. */
  ghost predicate Copied(v: Mem, w: Mem, st: int, dt: int, j: int, cow: bool) {
    && (forall k :: 0 <= k < j ==> Slot(w, dt, k) == Shared(Slot(v, st, k), cow) && Slot(w, st, k) == Shared(Slot(v, st, k), cow))
    && (forall k :: j <= k < PTRS_PER_PAGE ==> Slot(w, dt, k) == 0 && Slot(w, st, k) == Slot(v, st, k))
    && (forall a :: w[a] == v[a] || st <= a < st + PAGE_SIZE || dt <= a < dt + PAGE_SIZE)
  }

  ghost predicate CountedTo(counts0: Mem, counts: Mem, pages: int, v: Mem, st: int, j: int, counted: bool) {
    forall nr {:trigger RefsTable(v, st, j, nr)} :: 0 <= nr < pages ==>
      counts[nr] == Added(counts0[nr], if counted then RefsTable(v, st, j, nr) else 0)
  }

  lemma CopiedOne(v: Mem, u: Mem, w: Mem, st: int, dt: int, j: int, cow: bool)
    requires Copied(v, u, st, dt, j, cow) && 0 <= j < PTRS_PER_PAGE && st % PAGE_SIZE == 0 && dt % PAGE_SIZE == 0 && st != dt
    requires var e := Slot(v, st, j);
             if e == 0 then w == u else w == u[st + 4 * j := Shared(e, cow)][dt + 4 * j := Shared(e, cow)]
    ensures Copied(v, w, st, dt, j + 1, cow)
  {
    PagesApart(st, dt);
    hide Shared;
    SharedZero(cow);
    var e := Slot(v, st, j);
    if e != 0 {
      forall k | 0 <= k < PTRS_PER_PAGE && k != j ensures Slot(w, dt, k) == Slot(u, dt, k) && Slot(w, st, k) == Slot(u, st, k) {
      }
    }
  }

  lemma SharedZero(cow: bool)
    ensures Shared(0, cow) == 0
  {
  }

  lemma SharedFacts(e: int, cow: bool)
    requires e >= 0
    ensures var c := Shared(e, cow); c >= 0 && Nr(c) == Nr(e) && (c == 0 <==> e == 0) && Shared(c, cow) == c
    ensures cow ==> !Writable(Shared(e, cow))
  {
    MarkFacts(e);
  }

  lemma CountedOne(counts0: Mem, counts: Mem, counts': Mem, pages: int, v: Mem, st: int, j: int, counted: bool)
    requires CountedTo(counts0, counts, pages, v, st, j, counted) && 0 <= j
    requires var e := Slot(v, st, j);
             e != 0 ==> counts' == if counts[Nr(e)] != MAP_PAGE_RESERVED && counted then counts[Nr(e) := counts[Nr(e)] + 1] else counts
    requires Slot(v, st, j) == 0 ==> counts' == counts
    requires counted ==> forall nr {:trigger RefsTable(v, st, j, nr)} :: 0 <= nr < pages && counts0[nr] != MAP_PAGE_RESERVED ==>
                           counts0[nr] + RefsTable(v, st, j, nr) < MAP_PAGE_RESERVED
    ensures CountedTo(counts0, counts', pages, v, st, j + 1, counted)
  {
    forall nr | 0 <= nr < pages
      ensures counts'[nr] == Added(counts0[nr], if counted then RefsTable(v, st, j + 1, nr) else 0)
    {
      assert RefsTable(v, st, j, nr) >= 0;
      assert RefsTable(v, st, j + 1, nr)
          == RefsTable(v, st, j, nr) + if Slot(v, st, j) != 0 && Nr(Slot(v, st, j)) == nr then 1 else 0;
    }
  }

  /** Table st is copied to the page of zeros at dt; its pages, if counted, have one more use per entry. */
  method CopyTable(s: Pager, st: int, dt: int, i: int, cow: bool)
    requires s.Valid() && st % PAGE_SIZE == 0 && dt % PAGE_SIZE == 0 && st != dt && st !in s.free && dt !in s.free
    requires forall k :: 0 <= k < PTRS_PER_PAGE ==> Slot(s.w, dt, k) == 0
    requires Sharable(s.w, s.counts, s.pages, st, i < KERNEL_VIRT_PDINDX)
    requires i < KERNEL_VIRT_PDINDX ==>
               forall nr {:trigger RefsTable(s.w, st, PTRS_PER_PAGE, nr)} :: 0 <= nr < s.pages && s.counts[nr] != MAP_PAGE_RESERVED ==>
                 s.counts[nr] + RefsTable(s.w, st, PTRS_PER_PAGE, nr) < MAP_PAGE_RESERVED
    modifies s`w, s`counts
    ensures s.Valid() && Copied(old(s.w), s.w, st, dt, PTRS_PER_PAGE, cow)
    ensures CountedTo(old(s.counts), s.counts, s.pages, old(s.w), st, PTRS_PER_PAGE, i < KERNEL_VIRT_PDINDX)
  {
    hide PagesOK, Copied, CountedTo, MarkCow;
    ghost var v, counts0 := s.w, s.counts;
    NothingCopied(v, counts0, s.pages, st, dt, cow, i < KERNEL_VIRT_PDINDX);
    for j := 0 to PTRS_PER_PAGE
      invariant s.Valid() && Copied(v, s.w, st, dt, j, cow)
      invariant CountedTo(counts0, s.counts, s.pages, v, st, j, i < KERNEL_VIRT_PDINDX)
    {
      ghost var u, c := s.w, s.counts;
      Remaining(v, u, st, dt, j, cow);
      var e := s.w[st + 4 * j];
      Roomy(v, counts0, c, s.pages, st, j, e, i < KERNEL_VIRT_PDINDX);
      if e != 0 {
        if cow {
          s.w := s.w[st + 4 * j := MarkCow(e)];
        }
        s.w := s.w[dt + 4 * j := s.w[st + 4 * j]];
        SharedFacts(e, cow);
        WrittenTables(u, s.w, c, s.freePageList, s.free, s.pages, st, dt, j, e, cow);
        var index := Nr(s.w[st + 4 * j]);
        if s.counts[index] != MAP_PAGE_RESERVED && i < KERNEL_VIRT_PDINDX {
          ReservedZero(s.w, c, s.freePageList, s.free, s.pages, index);
          OneMore(s.w, c, s.freePageList, s.free, s.pages, index);
          s.counts := s.counts[index := s.counts[index] + 1];
        }
      }
      CopiedOne(v, u, s.w, st, dt, j, cow);
      CountedOne(counts0, c, s.counts, s.pages, v, st, j, i < KERNEL_VIRT_PDINDX);
    }
  }

  lemma NothingCopied(v: Mem, counts: Mem, pages: int, st: int, dt: int, cow: bool, counted: bool)
    requires forall k :: 0 <= k < PTRS_PER_PAGE ==> Slot(v, dt, k) == 0
    ensures Copied(v, v, st, dt, 0, cow) && CountedTo(counts, counts, pages, v, st, 0, counted)
  {
    forall nr | 0 <= nr < pages ensures counts[nr] == Added(counts[nr], if counted then RefsTable(v, st, 0, nr) else 0) {
    }
  }

  lemma Remaining(v: Mem, u: Mem, st: int, dt: int, j: int, cow: bool)
    requires Copied(v, u, st, dt, j, cow) && 0 <= j < PTRS_PER_PAGE
    ensures u[st + 4 * j] == Slot(v, st, j)
  {
    assert Slot(u, st, j) == Slot(v, st, j);
  }

  /** The entry's page has room for one more use. */
  lemma Roomy(v: Mem, counts0: Mem, counts: Mem, pages: int, st: int, j: int, e: int, counted: bool)
    requires CountedTo(counts0, counts, pages, v, st, j, counted) && 0 <= j < PTRS_PER_PAGE && e == Slot(v, st, j)
    requires Sharable(v, counts0, pages, st, counted)
    requires counted ==> forall nr {:trigger RefsTable(v, st, PTRS_PER_PAGE, nr)} :: 0 <= nr < pages && counts0[nr] != MAP_PAGE_RESERVED ==>
                           counts0[nr] + RefsTable(v, st, PTRS_PER_PAGE, nr) < MAP_PAGE_RESERVED
    ensures e >= 0
    ensures counted ==> forall nr {:trigger RefsTable(v, st, j, nr)} :: 0 <= nr < pages && counts0[nr] != MAP_PAGE_RESERVED ==>
                          counts0[nr] + RefsTable(v, st, j, nr) < MAP_PAGE_RESERVED
    ensures counted && e != 0 && counts[Nr(e)] != MAP_PAGE_RESERVED ==>
              0 <= Nr(e) < pages && 0 < counts[Nr(e)] < MAP_PAGE_RESERVED
  {
    assert EntryOK(Slot(v, st, j), counts0, pages, counted);
    if counted {
      forall nr | 0 <= nr < pages && counts0[nr] != MAP_PAGE_RESERVED
        ensures counts0[nr] + RefsTable(v, st, j, nr) < MAP_PAGE_RESERVED
      {
        RefsTableMonotone(v, st, j, PTRS_PER_PAGE, nr);
        assert counts0[nr] + RefsTable(v, st, PTRS_PER_PAGE, nr) < MAP_PAGE_RESERVED;
      }
      if e != 0 {
        assert RefsTable(v, st, j, Nr(e)) >= 0;
      }
    }
  }

  lemma WrittenTables(u: Mem, w: Mem, counts: Mem, head: int, free: seq<int>, pages: int, st: int, dt: int, j: int, e: int, cow: bool)
    requires PagesOK(u, counts, head, free, pages) && st % PAGE_SIZE == 0 && dt % PAGE_SIZE == 0 && st !in free && dt !in free
    requires 0 <= j < PTRS_PER_PAGE && w == u[st + 4 * j := Shared(e, cow)][dt + 4 * j := Shared(e, cow)]
    ensures PagesOK(w, counts, head, free, pages)
  {
    var x := u[st + 4 * j := Shared(e, cow)];
    hide PagesOK, Shared;
    UsedPageWritten(u, x, counts, head, free, pages, st);
    UsedPageWritten(x, w, counts, head, free, pages, dt);
  }

  lemma ReservedZero(w: Mem, counts: Mem, head: int, free: seq<int>, pages: int, nr: int)
    requires PagesOK(w, counts, head, free, pages) && counts[nr] != MAP_PAGE_RESERVED
    ensures nr != 0
  {
  }

  // ---- copying a tree ----

  /** The tree can be copied: its pages are in use and its tables are not its directory. */
  ghost predicate TreeOK(v: Mem, counts: Mem, free: seq<int>, pages: int, tree: int) {
    && tree % PAGE_SIZE == 0 && tree !in free
    && forall i :: 0 <= i < PTRS_PER_PAGE ==> DirOK(v, counts, free, pages, tree, i)
  }

  ghost predicate DirOK(v: Mem, counts: Mem, free: seq<int>, pages: int, tree: int, i: int) {
    var st := Table(v, tree, i);
    Dir(v, tree, i) >= 0 && (st != 0 ==> st !in free && st != tree && Sharable(v, counts, pages, st, i < KERNEL_VIRT_PDINDX))
  }

  /** There are pages for the copy, and the share counts do not overflow into the mark of reserved pages. */
  ghost predicate RoomToCopy(v: Mem, counts: Mem, free: seq<int>, pages: int, tree: int) {
    && 1 + Tables(v, tree, PTRS_PER_PAGE) <= |free|
    && forall nr {:trigger Refs(v, tree, PTRS_PER_PAGE, nr)} :: 0 <= nr < pages && counts[nr] != MAP_PAGE_RESERVED ==>
         counts[nr] + Refs(v, tree, PTRS_PER_PAGE, nr) < MAP_PAGE_RESERVED
  }

  /** The copy's table i: the free pages are taken in order, the directory's first. */
  ghost function NewTable(v: Mem, free: seq<int>, tree: int, i: int): int
    requires 0 <= i < PTRS_PER_PAGE && 1 + Tables(v, tree, PTRS_PER_PAGE) <= |free|
  {
    if Table(v, tree, i) == 0 then 0
    else
      TablesMonotone(v, tree, i + 1, PTRS_PER_PAGE);
      free[1 + Tables(v, tree, i)]
  }

  ghost predicate SlotsShared(v: Mem, w: Mem, st: int, p: int, cow: bool) {
    forall j :: 0 <= j < PTRS_PER_PAGE ==> Slot(w, p, j) == Shared(Slot(v, st, j), cow)
  }

  ghost predicate SlotsTouched(v: Mem, w: Mem, st: int, cow: bool) {
    forall j :: 0 <= j < PTRS_PER_PAGE ==> Slot(w, st, j) == Slot(v, st, j) || Slot(w, st, j) == Shared(Slot(v, st, j), cow)
  }

  /** Directory entry i has been copied. */
  ghost predicate EntryCopied(v: Mem, w: Mem, free: seq<int>, tree: int, d: int, i: int, cow: bool)
    requires 0 <= i < PTRS_PER_PAGE && 1 + Tables(v, tree, PTRS_PER_PAGE) <= |free|
  {
    var st, dt := Table(v, tree, i), NewTable(v, free, tree, i);
    if st == 0 then Dir(w, d, i) == 0
    else Dir(w, d, i) == dt + Flags(Dir(v, tree, i)) && SlotsShared(v, w, st, dt, cow) && SlotsShared(v, w, st, st, cow)
  }

  /** Directory entry i of the source may only have its table's entries marked. */
  ghost predicate EntryTouched(v: Mem, w: Mem, tree: int, i: int, cow: bool) {
    Dir(w, tree, i) == Dir(v, tree, i) && (Table(v, tree, i) != 0 ==> SlotsTouched(v, w, Table(v, tree, i), cow))
  }

  ghost predicate TreeCopied(v: Mem, w: Mem, free: seq<int>, tree: int, d: int, n: int, cow: bool)
    requires 0 <= n <= PTRS_PER_PAGE && 1 + Tables(v, tree, PTRS_PER_PAGE) <= |free|
  {
    && (forall i :: 0 <= i < n ==> EntryCopied(v, w, free, tree, d, i, cow))
    && (forall i :: 0 <= i < PTRS_PER_PAGE ==> EntryTouched(v, w, tree, i, cow))
  }

  /** Counts after n directory entries and `taken` fresh pages. */
  ghost predicate TreeCounted(counts0: Mem, counts: Mem, pages: int, v: Mem, free: seq<int>, tree: int, n: int, taken: int)
    requires 0 <= taken <= |free|
  {
    forall nr {:trigger Refs(v, tree, n, nr)} :: 0 <= nr < pages ==>
      counts[nr] == if nr * PAGE_SIZE in free[..taken] then 1 else Added(counts0[nr], Refs(v, tree, n, nr))
  }

  /** Memory between two directory entries: a fresh page dt is cleared, filled from st, and entered into the directory d. */
  ghost predicate OneTable(u: Mem, w: Mem, st: int, dt: int, d: int, i: int, e: int, cow: bool) {
    && SlotsShared(u, w, st, dt, cow) && SlotsShared(u, w, st, st, cow) && Dir(w, d, i) == e
    && (forall a :: w[a] == u[a] || st <= a < st + PAGE_SIZE || dt <= a < dt + PAGE_SIZE || a == d + 4 * i)
  }

  lemma SlotKept(u: Mem, w: Mem, st: int, dt: int, d: int, i: int, e: int, cow: bool, p: int, j: int)
    requires OneTable(u, w, st, dt, d, i, e, cow) && 0 <= j < PTRS_PER_PAGE && 0 <= i < PTRS_PER_PAGE
    requires st % PAGE_SIZE == 0 && dt % PAGE_SIZE == 0 && d % PAGE_SIZE == 0 && p % PAGE_SIZE == 0
    requires p != st && p != dt && (p != d || j != i)
    ensures w[p + 4 * j] == u[p + 4 * j]
  {
    PagesApart(p, st);
    PagesApart(p, dt);
    if p != d {
      PagesApart(p, d);
    }
  }

  lemma FreshDiffer(free: seq<int>, i: int, j: int, pages: int)
    requires Distinct(free) && (forall p :: p in free ==> IsPage(p, pages)) && 0 <= i < |free| && 0 <= j < |free|
    ensures IsPage(free[i], pages) && (i != j ==> free[i] != free[j])
  {
    assert free[i] in free;
  }

  /** What the entries already copied need to survive the next one. */
  lemma EntryStaysCopied(v: Mem, u: Mem, w: Mem, free: seq<int>, pages: int, tree: int, d: int, k: int, n: int, e: int, cow: bool, counts: Mem)
    requires Distinct(free) && (forall p :: p in free ==> IsPage(p, pages)) && TreeOK(v, counts, free, pages, tree)
    requires 1 + Tables(v, tree, PTRS_PER_PAGE) <= |free| && d == free[0] && 0 <= k < n < PTRS_PER_PAGE
    requires EntryCopied(v, u, free, tree, d, k, cow) && EntryTouched(v, u, tree, n, cow) && Table(v, tree, n) != 0
    requires OneTable(u, w, Table(v, tree, n), NewTable(v, free, tree, n), d, n, e, cow)
    ensures EntryCopied(v, w, free, tree, d, k, cow)
  {
    hide TreeOK, Distinct, Tables, NewTable, SlotsShared, OneTable, Table;
    DirectoryApart(v, free, pages, tree, n, counts);
    SlotKept(u, w, Table(v, tree, n), NewTable(v, free, tree, n), d, n, e, cow, d, k);
    if Table(v, tree, k) != 0 {
      CopyStays(v, u, w, free, pages, tree, d, k, n, e, cow, counts);
    }
  }

  /** The next entry's table and its copy are not the new directory. */
  lemma DirectoryApart(v: Mem, free: seq<int>, pages: int, tree: int, n: int, counts: Mem)
    requires Distinct(free) && (forall p :: p in free ==> IsPage(p, pages)) && TreeOK(v, counts, free, pages, tree)
    requires 1 + Tables(v, tree, PTRS_PER_PAGE) <= |free| && 0 <= n < PTRS_PER_PAGE && Table(v, tree, n) != 0
    ensures var st, dt, d := Table(v, tree, n), NewTable(v, free, tree, n), free[0];
            && d != st && d != dt && st != tree && dt != tree && d != tree && tree % PAGE_SIZE == 0
            && st % PAGE_SIZE == 0 && dt % PAGE_SIZE == 0 && d % PAGE_SIZE == 0
  {
    assert DirOK(v, counts, free, pages, tree, n);
    TablesMonotone(v, tree, n + 1, PTRS_PER_PAGE);
    FreshDiffer(free, 1 + Tables(v, tree, n), 0, pages);
    FreshDiffer(free, 0, 0, pages);
    assert free[0] in free && NewTable(v, free, tree, n) in free;
    hide TreeOK, Distinct, DirOK;
  }

  lemma CopyStays(v: Mem, u: Mem, w: Mem, free: seq<int>, pages: int, tree: int, d: int, k: int, n: int, e: int, cow: bool, counts: Mem)
    requires Distinct(free) && (forall p :: p in free ==> IsPage(p, pages)) && TreeOK(v, counts, free, pages, tree)
    requires 1 + Tables(v, tree, PTRS_PER_PAGE) <= |free| && d == free[0] && 0 <= k < n < PTRS_PER_PAGE
    requires Table(v, tree, k) != 0 && Table(v, tree, n) != 0
    requires var sk, dk := Table(v, tree, k), NewTable(v, free, tree, k); SlotsShared(v, u, sk, dk, cow) && SlotsShared(v, u, sk, sk, cow)
    requires OneTable(u, w, Table(v, tree, n), NewTable(v, free, tree, n), d, n, e, cow)
    ensures var sk, dk := Table(v, tree, k), NewTable(v, free, tree, k); SlotsShared(v, w, sk, dk, cow) && SlotsShared(v, w, sk, sk, cow)
  {
    var st, dt, sk, dk := Table(v, tree, n), NewTable(v, free, tree, n), Table(v, tree, k), NewTable(v, free, tree, k);
    PagesDiffer(v, free, pages, tree, k, n, counts);
    hide TreeOK, Distinct, Tables, NewTable, DirOK, SlotsShared;
    CopyUntouched(v, u, w, st, dt, d, n, e, cow, sk, dk);
    if sk != st {
      CopyUntouched(v, u, w, st, dt, d, n, e, cow, sk, sk);
    } else {
      forall j | 0 <= j < PTRS_PER_PAGE ensures Slot(v, st, j) >= 0 {
        SourceSlot(v, counts, pages, free, tree, n, j);
      }
      SharedTwice(v, u, w, st, cow);
    }
  }

  lemma PagesDiffer(v: Mem, free: seq<int>, pages: int, tree: int, k: int, n: int, counts: Mem)
    requires Distinct(free) && (forall p :: p in free ==> IsPage(p, pages)) && TreeOK(v, counts, free, pages, tree)
    requires 1 + Tables(v, tree, PTRS_PER_PAGE) <= |free| && 0 <= k < n < PTRS_PER_PAGE
    requires Table(v, tree, k) != 0 && Table(v, tree, n) != 0
    ensures var st, dt, sk, dk, d := Table(v, tree, n), NewTable(v, free, tree, n), Table(v, tree, k), NewTable(v, free, tree, k), free[0];
            && dk != dt && dk != st && dk != d && sk != dt && sk != d
            && st % PAGE_SIZE == 0 && dt % PAGE_SIZE == 0 && sk % PAGE_SIZE == 0 && dk % PAGE_SIZE == 0 && d % PAGE_SIZE == 0
  {
    var dt, dk, d := NewTable(v, free, tree, n), NewTable(v, free, tree, k), free[0];
    assert DirOK(v, counts, free, pages, tree, n) && DirOK(v, counts, free, pages, tree, k);
    TablesMonotone(v, tree, k + 1, n);
    TablesMonotone(v, tree, n + 1, PTRS_PER_PAGE);
    FreshDiffer(free, 1 + Tables(v, tree, n), 1 + Tables(v, tree, k), pages);
    FreshDiffer(free, 1 + Tables(v, tree, k), 0, pages);
    FreshDiffer(free, 0, 0, pages);
    assert dk in free && dt in free && d in free;
    hide TreeOK, Distinct, DirOK;
  }

  lemma CopyUntouched(v: Mem, u: Mem, w: Mem, st: int, dt: int, d: int, n: int, e: int, cow: bool, sk: int, p: int)
    requires OneTable(u, w, st, dt, d, n, e, cow) && 0 <= n < PTRS_PER_PAGE && p != st && p != dt && p != d
    requires st % PAGE_SIZE == 0 && dt % PAGE_SIZE == 0 && d % PAGE_SIZE == 0 && p % PAGE_SIZE == 0
    requires SlotsShared(v, u, sk, p, cow)
    ensures SlotsShared(v, w, sk, p, cow)
  {
    hide Shared, OneTable;
    forall j | 0 <= j < PTRS_PER_PAGE ensures Slot(w, p, j) == Shared(Slot(v, sk, j), cow) {
      SlotKept(u, w, st, dt, d, n, e, cow, p, j);
    }
  }

  lemma SharedTwice(v: Mem, u: Mem, w: Mem, st: int, cow: bool)
    requires SlotsShared(v, u, st, st, cow) && SlotsShared(u, w, st, st, cow)
    requires forall j :: 0 <= j < PTRS_PER_PAGE ==> Slot(v, st, j) >= 0
    ensures SlotsShared(v, w, st, st, cow)
  {
    hide Shared;
    forall j | 0 <= j < PTRS_PER_PAGE ensures Slot(w, st, j) == Shared(Slot(v, st, j), cow) {
      SharedFacts(Slot(v, st, j), cow);
    }
  }

  lemma SourceSlot(v: Mem, counts: Mem, pages: int, free: seq<int>, tree: int, k: int, j: int)
    requires TreeOK(v, counts, free, pages, tree) && 0 <= k < PTRS_PER_PAGE && 0 <= j < PTRS_PER_PAGE && Table(v, tree, k) != 0
    ensures var e := Slot(v, Table(v, tree, k), j); e >= 0 && EntryOK(e, counts, pages, k < KERNEL_VIRT_PDINDX)
  {
    assert DirOK(v, counts, free, pages, tree, k);
    assert EntryOK(Slot(v, Table(v, tree, k), j), counts, pages, k < KERNEL_VIRT_PDINDX);
  }

  lemma EntryStaysTouched(v: Mem, u: Mem, w: Mem, free: seq<int>, pages: int, tree: int, d: int, k: int, n: int, e: int, cow: bool, counts: Mem)
    requires Distinct(free) && (forall p :: p in free ==> IsPage(p, pages)) && TreeOK(v, counts, free, pages, tree)
    requires 1 + Tables(v, tree, PTRS_PER_PAGE) <= |free| && d == free[0] && 0 <= k < PTRS_PER_PAGE && 0 <= n < PTRS_PER_PAGE
    requires EntryTouched(v, u, tree, k, cow) && EntryTouched(v, u, tree, n, cow) && Table(v, tree, n) != 0
    requires OneTable(u, w, Table(v, tree, n), NewTable(v, free, tree, n), d, n, e, cow)
    ensures EntryTouched(v, w, tree, k, cow)
  {
    var st, dt, sk := Table(v, tree, n), NewTable(v, free, tree, n), Table(v, tree, k);
    hide TreeOK, Distinct, Tables, NewTable, OneTable, Table, SlotsTouched, Dir;
    DirectoryApart(v, free, pages, tree, n, counts);
    DirIs(u, tree, k);
    DirIs(w, tree, k);
    SlotKept(u, w, st, dt, d, n, e, cow, tree, k);
    if sk != 0 {
      SourceApart(v, free, pages, tree, k, n, counts);
      forall j | 0 <= j < PTRS_PER_PAGE ensures Slot(v, sk, j) >= 0 {
        SourceSlot(v, counts, pages, free, tree, k, j);
      }
      TouchedStays(v, u, w, st, dt, d, n, e, cow, sk);
    }
  }

  lemma DirIs(w: Mem, t: int, i: int)
    ensures Dir(w, t, i) == w[t + 4 * i]
  {
  }

  /** A source table is none of the fresh pages. */
  lemma SourceApart(v: Mem, free: seq<int>, pages: int, tree: int, k: int, n: int, counts: Mem)
    requires (forall p :: p in free ==> IsPage(p, pages)) && TreeOK(v, counts, free, pages, tree)
    requires 1 + Tables(v, tree, PTRS_PER_PAGE) <= |free| && 0 <= k < PTRS_PER_PAGE && 0 <= n < PTRS_PER_PAGE
    requires Table(v, tree, k) != 0 && Table(v, tree, n) != 0
    ensures var sk := Table(v, tree, k); sk != NewTable(v, free, tree, n) && sk != free[0] && sk % PAGE_SIZE == 0
  {
    assert DirOK(v, counts, free, pages, tree, k);
    TablesMonotone(v, tree, n + 1, PTRS_PER_PAGE);
    assert free[0] in free && NewTable(v, free, tree, n) in free;
    hide TreeOK, DirOK;
  }

  lemma TouchedStays(v: Mem, u: Mem, w: Mem, st: int, dt: int, d: int, n: int, e: int, cow: bool, sk: int)
    requires OneTable(u, w, st, dt, d, n, e, cow) && 0 <= n < PTRS_PER_PAGE && sk != dt && sk != d && SlotsTouched(v, u, sk, cow)
    requires st % PAGE_SIZE == 0 && dt % PAGE_SIZE == 0 && d % PAGE_SIZE == 0 && sk % PAGE_SIZE == 0
    requires forall j :: 0 <= j < PTRS_PER_PAGE ==> Slot(v, sk, j) >= 0
    ensures SlotsTouched(v, w, sk, cow)
  {
    hide Shared;
    forall j | 0 <= j < PTRS_PER_PAGE ensures Slot(w, sk, j) == Slot(v, sk, j) || Slot(w, sk, j) == Shared(Slot(v, sk, j), cow) {
      SharedFacts(Slot(v, sk, j), cow);
      assert Slot(u, sk, j) == Slot(v, sk, j) || Slot(u, sk, j) == Shared(Slot(v, sk, j), cow);
      if sk != st {
        SlotKept(u, w, st, dt, d, n, e, cow, sk, j);
      }
    }
  }

  lemma EntryDone(v: Mem, u: Mem, w: Mem, free: seq<int>, tree: int, d: int, n: int, cow: bool)
    requires 0 <= n < PTRS_PER_PAGE && 1 + Tables(v, tree, PTRS_PER_PAGE) <= |free| && Table(v, tree, n) != 0
    requires EntryTouched(v, u, tree, n, cow) && forall j :: 0 <= j < PTRS_PER_PAGE ==> Slot(v, Table(v, tree, n), j) >= 0
    requires var st, dt := Table(v, tree, n), NewTable(v, free, tree, n); OneTable(u, w, st, dt, d, n, dt + Flags(Dir(v, tree, n)), cow)
    ensures EntryCopied(v, w, free, tree, d, n, cow)
  {
    var st, dt := Table(v, tree, n), NewTable(v, free, tree, n);
    hide Shared, Tables, NewTable;
    forall j | 0 <= j < PTRS_PER_PAGE
      ensures Slot(w, dt, j) == Shared(Slot(v, st, j), cow) && Slot(w, st, j) == Shared(Slot(v, st, j), cow)
    {
      SharedFacts(Slot(v, st, j), cow);
      assert Slot(u, st, j) == Slot(v, st, j) || Slot(u, st, j) == Shared(Slot(v, st, j), cow);
    }
  }

  /** Memory outside the source's tables and the fresh pages taken so far is as it was. */
  ghost predicate TreeConfined(v: Mem, w: Mem, free: seq<int>, taken: int, tree: int)
    requires 0 <= taken <= |free|
  {
    forall a :: w[a] == v[a] || Page(a) in free[..taken] || Page(a) in SourceTables(v, tree)
  }

  ghost function SourceTables(v: Mem, tree: int): set<int> {
    set i | 0 <= i < PTRS_PER_PAGE && Table(v, tree, i) != 0 :: Table(v, tree, i)
  }

  lemma PageOf(a: int, p: int)
    requires p % PAGE_SIZE == 0
    ensures p <= a < p + PAGE_SIZE <==> Page(a) == p
  {
  }

  lemma ConfinedStep(v: Mem, u: Mem, w: Mem, free: seq<int>, taken: int, tree: int, st: int, dt: int, d: int, n: int, e: int, cow: bool)
    requires 0 < taken < |free| && TreeConfined(v, u, free, taken, tree) && dt == free[taken] && d == free[0] && 0 <= n < PTRS_PER_PAGE
    requires st in SourceTables(v, tree) && OneTable(u, w, st, dt, d, n, e, cow)
    requires st % PAGE_SIZE == 0 && dt % PAGE_SIZE == 0 && d % PAGE_SIZE == 0
    ensures TreeConfined(v, w, free, taken + 1, tree)
  {
    forall a ensures w[a] == v[a] || Page(a) in free[..taken + 1] || Page(a) in SourceTables(v, tree) {
      PageOf(a, st);
      PageOf(a, dt);
      PageOf(a, d);
      assert dt == free[..taken + 1][taken] && d == free[..taken + 1][0];
      assert Page(a) in free[..taken] ==> Page(a) in free[..taken + 1];
    }
  }

  /** An entry without a table. */
  lemma EmptyStep(v: Mem, u: Mem, w: Mem, free: seq<int>, pages: int, tree: int, d: int, n: int, cow: bool, counts: Mem)
    requires Distinct(free) && (forall p :: p in free ==> IsPage(p, pages)) && TreeOK(v, counts, free, pages, tree)
    requires 1 + Tables(v, tree, PTRS_PER_PAGE) <= |free| && d == free[0] && 0 <= n < PTRS_PER_PAGE
    requires TreeCopied(v, u, free, tree, d, n, cow) && Table(v, tree, n) == 0 && w == u[d + 4 * n := 0]
    ensures TreeCopied(v, w, free, tree, d, n + 1, cow)
  {
    hide Distinct, Tables, NewTable, EntryTouched, EntryCopied, TreeOK;
    forall i | 0 <= i < n ensures EntryCopied(v, w, free, tree, d, i, cow) {
      EmptyCopied(v, u, w, free, pages, tree, d, n, cow, counts, i);
    }
    EmptyEntry(v, u, w, free, tree, d, n, cow);
    forall i | 0 <= i < PTRS_PER_PAGE ensures EntryTouched(v, w, tree, i, cow) {
      EmptyTouched(v, u, w, free, pages, tree, d, n, cow, counts, i);
    }
  }

  lemma EmptyEntry(v: Mem, u: Mem, w: Mem, free: seq<int>, tree: int, d: int, n: int, cow: bool)
    requires 0 <= n < PTRS_PER_PAGE && 1 + Tables(v, tree, PTRS_PER_PAGE) <= |free|
    requires Table(v, tree, n) == 0 && w == u[d + 4 * n := 0]
    ensures EntryCopied(v, w, free, tree, d, n, cow)
  {
  }

  lemma EmptyCopied(v: Mem, u: Mem, w: Mem, free: seq<int>, pages: int, tree: int, d: int, n: int, cow: bool, counts: Mem, i: int)
    requires Distinct(free) && (forall p :: p in free ==> IsPage(p, pages)) && TreeOK(v, counts, free, pages, tree)
    requires 1 + Tables(v, tree, PTRS_PER_PAGE) <= |free| && d == free[0] && 0 <= i < n < PTRS_PER_PAGE
    requires EntryCopied(v, u, free, tree, d, i, cow) && w == u[d + 4 * n := 0]
    ensures EntryCopied(v, w, free, tree, d, i, cow)
  {
    FreshDiffer(free, 0, 0, pages);
    assert d in free;
    hide Distinct, Tables, NewTable, Shared;
    if Table(v, tree, i) != 0 {
      assert DirOK(v, counts, free, pages, tree, i);
      NewTableIs(v, free, pages, tree, i);
      NotDirectory(u, w, d, n, NewTable(v, free, tree, i));
      NotDirectory(u, w, d, n, Table(v, tree, i));
      hide TreeOK, DirOK;
    }
  }

  lemma EmptyTouched(v: Mem, u: Mem, w: Mem, free: seq<int>, pages: int, tree: int, d: int, n: int, cow: bool, counts: Mem, i: int)
    requires (forall p :: p in free ==> IsPage(p, pages)) && TreeOK(v, counts, free, pages, tree)
    requires free != [] && d == free[0] && 0 <= i < PTRS_PER_PAGE && 0 <= n < PTRS_PER_PAGE
    requires EntryTouched(v, u, tree, i, cow) && w == u[d + 4 * n := 0]
    ensures EntryTouched(v, w, tree, i, cow)
  {
    assert d in free;
    assert DirOK(v, counts, free, pages, tree, i);
    hide Shared;
    NotDirectory(u, w, d, n, tree);
    assert Slot(w, tree, i) == Slot(u, tree, i);
    if Table(v, tree, i) != 0 {
      NotDirectory(u, w, d, n, Table(v, tree, i));
    }
    hide TreeOK, DirOK;
  }

  lemma EmptyConfined(v: Mem, u: Mem, w: Mem, free: seq<int>, taken: int, tree: int, d: int, n: int)
    requires 0 < taken <= |free| && TreeConfined(v, u, free, taken, tree) && d == free[0] && d % PAGE_SIZE == 0 && 0 <= n < PTRS_PER_PAGE
    requires w == u[d + 4 * n := 0]
    ensures TreeConfined(v, w, free, taken, tree)
  {
    PageOf(d + 4 * n, d);
    assert d == free[..taken][0];
  }

  lemma NewTableIs(v: Mem, free: seq<int>, pages: int, tree: int, i: int)
    requires Distinct(free) && (forall p :: p in free ==> IsPage(p, pages)) && 0 <= i < PTRS_PER_PAGE
    requires 1 + Tables(v, tree, PTRS_PER_PAGE) <= |free| && Table(v, tree, i) != 0
    ensures 0 < 1 + Tables(v, tree, i) < |free|
    ensures var p := NewTable(v, free, tree, i); IsPage(p, pages) && p != free[0] && p in free && p == free[1 + Tables(v, tree, i)]
  {
    TablesMonotone(v, tree, i + 1, PTRS_PER_PAGE);
    FreshDiffer(free, 1 + Tables(v, tree, i), 0, pages);
  }

  lemma NotDirectory(u: Mem, w: Mem, d: int, n: int, p: int)
    requires w == u[d + 4 * n := 0] && p % PAGE_SIZE == 0 && d % PAGE_SIZE == 0 && p != d && 0 <= n < PTRS_PER_PAGE
    ensures forall j :: 0 <= j < PTRS_PER_PAGE ==> Slot(w, p, j) == Slot(u, p, j)
  {
    PagesApart(p, d);
  }

  // ---- the counts ----

  lemma {:induction false} SameRefsTable(v: Mem, u: Mem, st: int, n: int, nr: int, cow: bool)
    requires 0 <= n <= PTRS_PER_PAGE && SlotsTouched(v, u, st, cow) && forall j :: 0 <= j < PTRS_PER_PAGE ==> Slot(v, st, j) >= 0
    ensures RefsTable(u, st, n, nr) == RefsTable(v, st, n, nr)
    decreases n
  {
    hide Shared;
    if n > 0 {
      SameRefsTable(v, u, st, n - 1, nr, cow);
      SharedFacts(Slot(v, st, n - 1), cow);
      assert Slot(u, st, n - 1) == Slot(v, st, n - 1) || Slot(u, st, n - 1) == Shared(Slot(v, st, n - 1), cow);
    }
  }

  /** A free page is mapped nowhere. */
  lemma FreeUnmapped(v: Mem, counts: Mem, free: seq<int>, pages: int, tree: int, n: int, nr: int)
    requires TreeOK(v, counts, free, pages, tree) && 0 <= n < PTRS_PER_PAGE && counts[nr] == 0
    ensures RefsDir(v, tree, n, nr) == 0
  {
    if n < KERNEL_VIRT_PDINDX && Table(v, tree, n) != 0 {
      var st := Table(v, tree, n);
      assert DirOK(v, counts, free, pages, tree, n);
      forall j | 0 <= j < PTRS_PER_PAGE && Slot(v, st, j) != 0 ensures Nr(Slot(v, st, j)) != nr {
        assert EntryOK(Slot(v, st, j), counts, pages, true);
      }
      NoRefsTable(v, st, PTRS_PER_PAGE, nr);
    }
  }

  lemma TreeCountedOne(counts0: Mem, c: Mem, c1: Mem, c2: Mem, w0: Mem, head: int, pages: int, v: Mem, u: Mem, free: seq<int>,
                       tree: int, n: int, taken: int, cow: bool)
    requires PagesOK(w0, counts0, head, free, pages) && TreeOK(v, counts0, free, pages, tree) && 0 <= n < PTRS_PER_PAGE
    requires RoomToCopy(v, counts0, free, pages, tree) && taken == 1 + Tables(v, tree, n) < |free|
    requires TreeCounted(counts0, c, pages, v, free, tree, n, taken) && c1 == c[Nr(free[taken]) := 1] && Table(v, tree, n) != 0
    requires SlotsTouched(v, u, Table(v, tree, n), cow)
    requires CountedTo(c1, c2, pages, u, Table(v, tree, n), PTRS_PER_PAGE, n < KERNEL_VIRT_PDINDX)
    ensures TreeCounted(counts0, c2, pages, v, free, tree, n + 1, taken + 1)
  {
    hide PagesOK, TreeOK, RefsTable, RefsDir, Refs, RoomToCopy, Tables, SlotsTouched;
    forall nr | 0 <= nr < pages
      ensures c2[nr] == if nr * PAGE_SIZE in free[..taken + 1] then 1 else Added(counts0[nr], Refs(v, tree, n + 1, nr))
    {
      CountedHere(counts0, c, c1, c2, w0, head, pages, v, u, free, tree, n, taken, cow, nr);
    }
  }

  lemma CountedHere(counts0: Mem, c: Mem, c1: Mem, c2: Mem, w0: Mem, head: int, pages: int, v: Mem, u: Mem, free: seq<int>,
                    tree: int, n: int, taken: int, cow: bool, nr: int)
    requires PagesOK(w0, counts0, head, free, pages) && TreeOK(v, counts0, free, pages, tree) && 0 <= n < PTRS_PER_PAGE
    requires RoomToCopy(v, counts0, free, pages, tree) && 0 < taken < |free|
    requires TreeCounted(counts0, c, pages, v, free, tree, n, taken) && c1 == c[Nr(free[taken]) := 1] && Table(v, tree, n) != 0
    requires SlotsTouched(v, u, Table(v, tree, n), cow) && 0 <= nr < pages
    requires CountedTo(c1, c2, pages, u, Table(v, tree, n), PTRS_PER_PAGE, n < KERNEL_VIRT_PDINDX)
    ensures c2[nr] == if nr * PAGE_SIZE in free[..taken + 1] then 1 else Added(counts0[nr], Refs(v, tree, n + 1, nr))
  {
    hide PagesOK, TreeOK, RefsTable, RefsDir, RoomToCopy, Tables, SlotsTouched, CountedTo, Table;
    var st := Table(v, tree, n);
    var refs := if n < KERNEL_VIRT_PDINDX then RefsTable(u, st, PTRS_PER_PAGE, nr) else 0;
    RefsHere(counts0, free, pages, v, u, tree, n, cow, nr);
    CountedAt(c1, c2, pages, u, st, n < KERNEL_VIRT_PDINDX, nr);
    assert c[nr] == if nr * PAGE_SIZE in free[..taken] then 1 else Added(counts0[nr], Refs(v, tree, n, nr)) by {
      assert Refs(v, tree, n, nr) >= 0;
    }
    FreeNumber(w0, counts0, head, free, pages, taken, nr);
    if nr * PAGE_SIZE in free[..taken + 1] {
      FreeUnmapped(v, counts0, free, pages, tree, n, nr);
    } else {
      RoomHere(counts0, free, pages, v, tree, n, nr);
    }
  }

  lemma CountedAt(c1: Mem, c2: Mem, pages: int, u: Mem, st: int, counted: bool, nr: int)
    requires CountedTo(c1, c2, pages, u, st, PTRS_PER_PAGE, counted) && 0 <= nr < pages
    ensures c2[nr] == Added(c1[nr], if counted then RefsTable(u, st, PTRS_PER_PAGE, nr) else 0)
  {
    assert RefsTable(u, st, PTRS_PER_PAGE, nr) >= 0;
  }

  lemma RefsHere(counts0: Mem, free: seq<int>, pages: int, v: Mem, u: Mem, tree: int, n: int, cow: bool, nr: int)
    requires TreeOK(v, counts0, free, pages, tree) && 0 <= n < PTRS_PER_PAGE && Table(v, tree, n) != 0
    requires SlotsTouched(v, u, Table(v, tree, n), cow)
    ensures RefsDir(v, tree, n, nr) == if n < KERNEL_VIRT_PDINDX then RefsTable(u, Table(v, tree, n), PTRS_PER_PAGE, nr) else 0
  {
    forall j | 0 <= j < PTRS_PER_PAGE ensures Slot(v, Table(v, tree, n), j) >= 0 {
      SourceSlot(v, counts0, pages, free, tree, n, j);
    }
    SameRefsTable(v, u, Table(v, tree, n), PTRS_PER_PAGE, nr, cow);
  }

  lemma FreeNumber(w0: Mem, counts0: Mem, head: int, free: seq<int>, pages: int, taken: int, nr: int)
    requires PagesOK(w0, counts0, head, free, pages) && 0 <= taken < |free| && 0 <= nr < pages
    ensures nr * PAGE_SIZE in free[..taken + 1] <==> nr * PAGE_SIZE in free[..taken] || nr == Nr(free[taken])
    ensures nr * PAGE_SIZE in free ==> counts0[nr] == 0
    ensures nr * PAGE_SIZE in free[..taken + 1] ==> nr * PAGE_SIZE in free
    ensures nr == Nr(free[taken]) ==> nr * PAGE_SIZE !in free[..taken]
  {
    assert free[taken] in free;
    PageNumber(free[taken], pages);
    assert free[..taken + 1] == free[..taken] + [free[taken]];
    if nr * PAGE_SIZE in free {
      assert IsPage(nr * PAGE_SIZE, pages);
      assert CountOK(counts0, free, nr);
    }
  }

  lemma RoomHere(counts0: Mem, free: seq<int>, pages: int, v: Mem, tree: int, n: int, nr: int)
    requires RoomToCopy(v, counts0, free, pages, tree) && 0 <= n < PTRS_PER_PAGE && 0 <= nr < pages
    ensures counts0[nr] != MAP_PAGE_RESERVED ==> counts0[nr] + Refs(v, tree, n, nr) + RefsDir(v, tree, n, nr) < MAP_PAGE_RESERVED
  {
    RefsMonotone(v, tree, n + 1, PTRS_PER_PAGE, nr);
    assert Refs(v, tree, PTRS_PER_PAGE, nr) >= 0;
  }

  // ---- copy_page_tree ----

  lemma StartCopy(v: Mem, w: Mem, counts0: Mem, counts: Mem, head: int, free: seq<int>, pages: int, tree: int, cow: bool)
    requires PagesOK(v, counts0, head, free, pages) && TreeOK(v, counts0, free, pages, tree) && RoomToCopy(v, counts0, free, pages, tree)
    requires PageWrites(v, w, free[0]) && counts == counts0[Nr(free[0]) := 1]
    ensures TreeCopied(v, w, free, tree, free[0], 0, cow) && TreeConfined(v, w, free, 1, tree)
    ensures TreeCounted(counts0, counts, pages, v, free, tree, 0, 1)
  {
    var d := free[0];
    assert d in free;
    PageNumber(d, pages);
    forall i | 0 <= i < PTRS_PER_PAGE ensures EntryTouched(v, w, tree, i, cow) {
      assert DirOK(v, counts0, free, pages, tree, i);
      PagesApart(tree, d);
      if Table(v, tree, i) != 0 {
        PagesApart(Table(v, tree, i), d);
      }
    }
    forall a ensures w[a] == v[a] || Page(a) in free[..1] {
      PageOf(a, d);
      assert free[..1][0] == d;
    }
    forall nr | 0 <= nr < pages
      ensures counts[nr] == if nr * PAGE_SIZE in free[..1] then 1 else Added(counts0[nr], Refs(v, tree, 0, nr))
    {
      FreeNumber(v, counts0, head, free, pages, 0, nr);
    }
  }

  /** The fresh page and the source table are as CopyTable wants them. */
  lemma ReadyToCopy(v: Mem, u: Mem, u1: Mem, counts0: Mem, c: Mem, c1: Mem, head: int, free: seq<int>, pages: int, tree: int, d: int, n: int, cow: bool)
    requires PagesOK(v, counts0, head, free, pages) && TreeOK(v, counts0, free, pages, tree) && RoomToCopy(v, counts0, free, pages, tree)
    requires 0 <= n < PTRS_PER_PAGE && Table(v, tree, n) != 0 && 0 < 1 + Tables(v, tree, n) < |free|
    requires EntryTouched(v, u, tree, n, cow) && TreeCounted(counts0, c, pages, v, free, tree, n, 1 + Tables(v, tree, n))
    requires var dt := free[1 + Tables(v, tree, n)]; PageWrites(u, u1, dt) && c1 == c[Nr(dt) := 1]
    ensures var st, dt := Table(v, tree, n), free[1 + Tables(v, tree, n)];
            && st != dt && st !in free && dt % PAGE_SIZE == 0 && SlotsTouched(v, u1, st, cow) && dt == NewTable(v, free, tree, n)
            && Sharable(u1, c1, pages, st, n < KERNEL_VIRT_PDINDX)
            && forall j :: 0 <= j < PTRS_PER_PAGE ==> Slot(u1, st, j) == Slot(u, st, j) && Slot(v, st, j) >= 0
  {
    var st, taken := Table(v, tree, n), 1 + Tables(v, tree, n);
    var dt := free[taken];
    assert dt in free;
    assert DirOK(v, counts0, free, pages, tree, n);
    assert IsPage(dt, pages);
    hide PagesOK, TreeOK, RoomToCopy, Tables, TreeCounted, Refs, Shared, EntryOK, PageWrites, DirOK;
    forall j | 0 <= j < PTRS_PER_PAGE
      ensures Slot(u1, st, j) == Slot(u, st, j) && Slot(v, st, j) >= 0
      ensures Slot(u1, st, j) == Slot(v, st, j) || Slot(u1, st, j) == Shared(Slot(v, st, j), cow)
      ensures EntryOK(Slot(u1, st, j), c1, pages, n < KERNEL_VIRT_PDINDX)
    {
      assert Slot(u, st, j) == Slot(v, st, j) || Slot(u, st, j) == Shared(Slot(v, st, j), cow);
      ReadySlot(v, u, u1, counts0, c, c1, head, free, pages, tree, n, taken, cow, j);
    }
  }

  lemma ReadySlot(v: Mem, u: Mem, u1: Mem, counts0: Mem, c: Mem, c1: Mem, head: int, free: seq<int>, pages: int, tree: int, n: int,
                  taken: int, cow: bool, j: int)
    requires PagesOK(v, counts0, head, free, pages) && TreeOK(v, counts0, free, pages, tree)
    requires 0 <= n < PTRS_PER_PAGE && Table(v, tree, n) != 0 && 0 < taken < |free| && 0 <= j < PTRS_PER_PAGE
    requires TreeCounted(counts0, c, pages, v, free, tree, n, taken) && c1 == c[Nr(free[taken]) := 1]
    requires var st := Table(v, tree, n); Slot(u, st, j) == Slot(v, st, j) || Slot(u, st, j) == Shared(Slot(v, st, j), cow)
    requires PageWrites(u, u1, free[taken]) && IsPage(free[taken], pages) && Table(v, tree, n) != free[taken]
    ensures var st := Table(v, tree, n);
            && Slot(u1, st, j) == Slot(u, st, j) && Slot(v, st, j) >= 0
            && EntryOK(Slot(u1, st, j), c1, pages, n < KERNEL_VIRT_PDINDX)
  {
    var st := Table(v, tree, n);
    PagesApart(st, free[taken]);
    SourceSlot(v, counts0, pages, free, tree, n, j);
    SharedFacts(Slot(v, st, j), cow);
    hide PagesOK, TreeOK, TreeCounted, Shared;
    if n < KERNEL_VIRT_PDINDX && Slot(v, st, j) != 0 {
      StillCounted(v, counts0, c, c1, head, free, pages, tree, n, taken, Nr(Slot(v, st, j)));
    }
  }

  lemma StillCounted(v: Mem, counts0: Mem, c: Mem, c1: Mem, head: int, free: seq<int>, pages: int, tree: int, n: int, taken: int, nr: int)
    requires PagesOK(v, counts0, head, free, pages) && 0 < taken < |free| && TreeCounted(counts0, c, pages, v, free, tree, n, taken)
    requires c1 == c[Nr(free[taken]) := 1] && 0 <= nr < pages && counts0[nr] > 0
    ensures c1[nr] > 0
  {
    FreeNumber(v, counts0, head, free, pages, taken, nr);
    assert Refs(v, tree, n, nr) >= 0;
    hide PagesOK;
  }

  lemma RoomForTable(v: Mem, u1: Mem, counts0: Mem, c: Mem, c1: Mem, head: int, free: seq<int>, pages: int, tree: int, n: int, taken: int, cow: bool, nr: int)
    requires PagesOK(v, counts0, head, free, pages) && TreeOK(v, counts0, free, pages, tree) && RoomToCopy(v, counts0, free, pages, tree)
    requires 0 <= n < KERNEL_VIRT_PDINDX && Table(v, tree, n) != 0 && 0 < taken < |free| && SlotsTouched(v, u1, Table(v, tree, n), cow)
    requires TreeCounted(counts0, c, pages, v, free, tree, n, taken) && c1 == c[Nr(free[taken]) := 1] && 0 <= nr < pages
    ensures c1[nr] != MAP_PAGE_RESERVED ==> c1[nr] + RefsTable(u1, Table(v, tree, n), PTRS_PER_PAGE, nr) < MAP_PAGE_RESERVED
  {
    RefsHere(counts0, free, pages, v, u1, tree, n, cow, nr);
    assert Refs(v, tree, n, nr) >= 0;
    FreeNumber(v, counts0, head, free, pages, taken, nr);
    if counts0[nr] == 0 {
      FreeUnmapped(v, counts0, free, pages, tree, n, nr);
    }
    RoomHere(counts0, free, pages, v, tree, n, nr);
    hide PagesOK, TreeOK, RefsTable, RefsDir, Refs, RoomToCopy, Tables, SlotsTouched;
  }

  lemma TableMade(u: Mem, u1: Mem, u2: Mem, w: Mem, st: int, dt: int, d: int, n: int, e: int, cow: bool)
    requires PageWrites(u, u1, dt) && Copied(u1, u2, st, dt, PTRS_PER_PAGE, cow) && w == u2[d + 4 * n := e] && 0 <= n < PTRS_PER_PAGE
    requires st % PAGE_SIZE == 0 && dt % PAGE_SIZE == 0 && d % PAGE_SIZE == 0 && st != dt && d != st && d != dt
    ensures OneTable(u, w, st, dt, d, n, e, cow)
  {
    PagesApart(st, dt);
    PagesApart(st, d);
    PagesApart(dt, d);
    hide Shared;
    forall j | 0 <= j < PTRS_PER_PAGE
      ensures Slot(w, dt, j) == Shared(Slot(u, st, j), cow) && Slot(w, st, j) == Shared(Slot(u, st, j), cow)
    {
      assert Slot(u2, dt, j) == Shared(Slot(u1, st, j), cow) && Slot(u2, st, j) == Shared(Slot(u1, st, j), cow);
      assert Slot(u1, st, j) == Slot(u, st, j);
    }
  }

  /** One directory entry with a table has been copied. */
  lemma TableStep(v: Mem, u: Mem, w: Mem, free: seq<int>, pages: int, tree: int, d: int, n: int, cow: bool, counts: Mem)
    requires Distinct(free) && (forall p :: p in free ==> IsPage(p, pages)) && TreeOK(v, counts, free, pages, tree)
    requires 1 + Tables(v, tree, PTRS_PER_PAGE) <= |free| && d == free[0] && 0 <= n < PTRS_PER_PAGE && Table(v, tree, n) != 0
    requires TreeCopied(v, u, free, tree, d, n, cow)
    requires var st, dt := Table(v, tree, n), NewTable(v, free, tree, n); OneTable(u, w, st, dt, d, n, dt + Flags(Dir(v, tree, n)), cow)
    ensures TreeCopied(v, w, free, tree, d, n + 1, cow)
  {
    hide Distinct, Tables, NewTable, EntryTouched, EntryCopied, TreeOK, OneTable;
    var e := NewTable(v, free, tree, n) + Flags(Dir(v, tree, n));
    assert EntryTouched(v, u, tree, n, cow);
    forall i | 0 <= i < n ensures EntryCopied(v, w, free, tree, d, i, cow) {
      assert EntryCopied(v, u, free, tree, d, i, cow);
      EntryStaysCopied(v, u, w, free, pages, tree, d, i, n, e, cow, counts);
    }
    forall j | 0 <= j < PTRS_PER_PAGE ensures Slot(v, Table(v, tree, n), j) >= 0 {
      SourceSlot(v, counts, pages, free, tree, n, j);
    }
    EntryDone(v, u, w, free, tree, d, n, cow);
    forall i | 0 <= i < PTRS_PER_PAGE ensures EntryTouched(v, w, tree, i, cow) {
      assert EntryTouched(v, u, tree, i, cow);
      EntryStaysTouched(v, u, w, free, pages, tree, d, i, n, e, cow, counts);
    }
  }

  /** copy_page_tree(tree, mode): a directory and tables of their own, the same entries, one more use of every counted page. */
  method CopyPageTree(s: Pager, tree: int, cow: bool) returns (d: int)
    requires s.Valid() && TreeOK(s.w, s.counts, s.free, s.pages, tree) && RoomToCopy(s.w, s.counts, s.free, s.pages, tree)
    modifies s
    ensures s.Valid() && d == old(s.free[0]) && s.free == old(s.free)[1 + Tables(old(s.w), tree, PTRS_PER_PAGE)..]
    ensures TreeCopied(old(s.w), s.w, old(s.free), tree, d, PTRS_PER_PAGE, cow)
    ensures TreeCounted(old(s.counts), s.counts, s.pages, old(s.w), old(s.free), tree, PTRS_PER_PAGE, 1 + Tables(old(s.w), tree, PTRS_PER_PAGE))
    ensures TreeConfined(old(s.w), s.w, old(s.free), 1 + Tables(old(s.w), tree, PTRS_PER_PAGE), tree)
  {
    hide PagesOK, TreeOK, RoomToCopy, TreeCopied, TreeCounted, TreeConfined, Tables, Distinct, IsPage, PageWrites;
    ghost var v, counts0, free0, head0 := s.w, s.counts, s.free, s.freePageList;
    FreePages(v, counts0, head0, free0, s.pages);
    Room(v, counts0, free0, s.pages, tree);
    NoTables(v, tree);
    d := s.KmallocPage();
    StartCopy(v, s.w, counts0, s.counts, head0, free0, s.pages, tree, cow);
    for i := 0 to PTRS_PER_PAGE
      invariant s.Valid() && 1 + Tables(v, tree, i) <= |free0| && s.free == free0[1 + Tables(v, tree, i)..]
      invariant TreeCopied(v, s.w, free0, tree, d, i, cow)
      invariant TreeCounted(counts0, s.counts, s.pages, v, free0, tree, i, 1 + Tables(v, tree, i))
      invariant TreeConfined(v, s.w, free0, 1 + Tables(v, tree, i), tree)
    {
      TablesMonotone(v, tree, i + 1, PTRS_PER_PAGE);
      OneMoreTable(v, tree, i);
      CopyEntry(s, tree, d, i, cow, v, counts0, free0, head0);
    }
  }

  lemma NoTables(v: Mem, tree: int)
    ensures Tables(v, tree, 0) == 0
  {
  }

  lemma OneMoreTable(v: Mem, tree: int, i: int)
    requires 0 <= i
    ensures Tables(v, tree, i + 1) == Tables(v, tree, i) + (if Table(v, tree, i) != 0 then 1 else 0)
  {
  }

  lemma FreePages(w: Mem, counts: Mem, head: int, free: seq<int>, pages: int)
    requires PagesOK(w, counts, head, free, pages)
    ensures Distinct(free) && forall p :: p in free ==> IsPage(p, pages)
  {
  }

  lemma SourceEntry(v: Mem, u: Mem, counts: Mem, free: seq<int>, pages: int, tree: int, d: int, n: int, cow: bool)
    requires 0 <= n < PTRS_PER_PAGE && 1 + Tables(v, tree, PTRS_PER_PAGE) <= |free| && TreeCopied(v, u, free, tree, d, n, cow)
    requires TreeOK(v, counts, free, pages, tree)
    ensures EntryTouched(v, u, tree, n, cow) && u[tree + 4 * n] == Dir(v, tree, n) && Page(u[tree + 4 * n]) == Table(v, tree, n)
    ensures Table(v, tree, n) != 0 ==> Table(v, tree, n) in SourceTables(v, tree) && Table(v, tree, n) != tree && Table(v, tree, n) !in free
    ensures tree % PAGE_SIZE == 0 && tree !in free && Table(v, tree, n) % PAGE_SIZE == 0
  {
    assert EntryTouched(v, u, tree, n, cow);
    assert DirOK(v, counts, free, pages, tree, n);
  }

  lemma Room(v: Mem, counts: Mem, free: seq<int>, pages: int, tree: int)
    requires RoomToCopy(v, counts, free, pages, tree)
    ensures 1 + Tables(v, tree, PTRS_PER_PAGE) <= |free|
  {
  }

  lemma DirectoryUsed(free: seq<int>, pages: int, taken: int)
    requires Distinct(free) && (forall p :: p in free ==> IsPage(p, pages)) && 0 < taken <= |free|
    ensures free[0] % PAGE_SIZE == 0 && free[0] !in free[taken..]
    ensures taken < |free| ==> free[taken] != free[0] && free[taken] % PAGE_SIZE == 0 && free[taken] in free
                               && free[taken..][1..] == free[taken + 1..] && free[taken] !in free[taken + 1..] && free[0] !in free[taken + 1..]
  {
    FreshDiffer(free, 0, 0, pages);
    if taken < |free| {
      FreshDiffer(free, taken, 0, pages);
    }
  }

  lemma RoomForAll(v: Mem, u1: Mem, counts0: Mem, c: Mem, c1: Mem, head: int, free: seq<int>, pages: int, tree: int, n: int, taken: int, cow: bool)
    requires PagesOK(v, counts0, head, free, pages) && TreeOK(v, counts0, free, pages, tree) && RoomToCopy(v, counts0, free, pages, tree)
    requires 0 <= n < PTRS_PER_PAGE && Table(v, tree, n) != 0 && 0 < taken < |free| && SlotsTouched(v, u1, Table(v, tree, n), cow)
    requires TreeCounted(counts0, c, pages, v, free, tree, n, taken) && c1 == c[Nr(free[taken]) := 1]
    ensures n < KERNEL_VIRT_PDINDX ==>
              forall nr {:trigger RefsTable(u1, Table(v, tree, n), PTRS_PER_PAGE, nr)} :: 0 <= nr < pages && c1[nr] != MAP_PAGE_RESERVED ==>
                c1[nr] + RefsTable(u1, Table(v, tree, n), PTRS_PER_PAGE, nr) < MAP_PAGE_RESERVED
  {
    hide PagesOK, TreeOK, RoomToCopy, TreeCounted, SlotsTouched;
    if n < KERNEL_VIRT_PDINDX {
      forall nr | 0 <= nr < pages && c1[nr] != MAP_PAGE_RESERVED
        ensures c1[nr] + RefsTable(u1, Table(v, tree, n), PTRS_PER_PAGE, nr) < MAP_PAGE_RESERVED
      {
        RoomForTable(v, u1, counts0, c, c1, head, free, pages, tree, n, taken, cow, nr);
      }
    }
  }

  /** The directory entry is still there after its table has been copied. */
  lemma DirStays(u: Mem, u1: Mem, u2: Mem, st: int, dt: int, tree: int, n: int, cow: bool)
    requires PageWrites(u, u1, dt) && Copied(u1, u2, st, dt, PTRS_PER_PAGE, cow) && 0 <= n < PTRS_PER_PAGE
    requires st % PAGE_SIZE == 0 && dt % PAGE_SIZE == 0 && tree % PAGE_SIZE == 0 && tree != st && tree != dt
    ensures u2[tree + 4 * n] == u[tree + 4 * n]
  {
    PagesApart(tree, st);
    PagesApart(tree, dt);
  }

  /** The outer loop's step where there is a table. */
  lemma EntryWithTable(v: Mem, u: Mem, u1: Mem, u2: Mem, w: Mem, counts0: Mem, c: Mem, c1: Mem, c2: Mem, head0: int, free0: seq<int>,
                       pages: int, tree: int, d: int, n: int, taken: int, cow: bool)
    requires PagesOK(v, counts0, head0, free0, pages) && TreeOK(v, counts0, free0, pages, tree) && RoomToCopy(v, counts0, free0, pages, tree)
    requires 1 + Tables(v, tree, PTRS_PER_PAGE) <= |free0| && d == free0[0] && 0 <= n < PTRS_PER_PAGE && Table(v, tree, n) != 0
    requires taken == 1 + Tables(v, tree, n) < |free0| && free0[taken] == NewTable(v, free0, tree, n)
    requires TreeCopied(v, u, free0, tree, d, n, cow) && TreeCounted(counts0, c, pages, v, free0, tree, n, taken)
    requires TreeConfined(v, u, free0, taken, tree) && c1 == c[Nr(free0[taken]) := 1] && PageWrites(u, u1, free0[taken])
    requires var st, dt := Table(v, tree, n), free0[taken];
             && SlotsTouched(v, u1, st, cow) && Copied(u1, u2, st, dt, PTRS_PER_PAGE, cow)
             && CountedTo(c1, c2, pages, u1, st, PTRS_PER_PAGE, n < KERNEL_VIRT_PDINDX)
             && w == u2[d + 4 * n := dt + Flags(Dir(v, tree, n))]
    ensures TreeCopied(v, w, free0, tree, d, n + 1, cow) && TreeConfined(v, w, free0, taken + 1, tree)
    ensures TreeCounted(counts0, c2, pages, v, free0, tree, n + 1, taken + 1)
  {
    hide PagesOK, TreeOK, TreeCopied, TreeCounted, TreeConfined, RoomToCopy, Copied, CountedTo, OneTable, SlotsTouched,
         Tables, NewTable, Distinct, PageWrites, IsPage;
    var st, dt := Table(v, tree, n), free0[taken];
    FreePages(v, counts0, head0, free0, pages);
    SourceEntry(v, u, counts0, free0, pages, tree, d, n, cow);
    DirectoryApart(v, free0, pages, tree, n, counts0);
    TableMade(u, u1, u2, w, st, dt, d, n, dt + Flags(Dir(v, tree, n)), cow);
    TableStep(v, u, w, free0, pages, tree, d, n, cow, counts0);
    ConfinedStep(v, u, w, free0, taken, tree, st, dt, d, n, dt + Flags(Dir(v, tree, n)), cow);
    TreeCountedOne(counts0, c, c1, c2, v, head0, pages, v, u1, free0, tree, n, taken, cow);
  }

  /** The outer loop's step where there is none. */
  lemma EntryWithout(v: Mem, u: Mem, w: Mem, counts0: Mem, c: Mem, head0: int, free0: seq<int>, pages: int, tree: int, d: int, n: int,
                     taken: int, cow: bool)
    requires PagesOK(v, counts0, head0, free0, pages) && TreeOK(v, counts0, free0, pages, tree)
    requires 1 + Tables(v, tree, PTRS_PER_PAGE) <= |free0| && d == free0[0] && 0 <= n < PTRS_PER_PAGE && Table(v, tree, n) == 0
    requires 0 < taken == 1 + Tables(v, tree, n) <= |free0| && w == u[d + 4 * n := 0]
    requires TreeCopied(v, u, free0, tree, d, n, cow) && TreeCounted(counts0, c, pages, v, free0, tree, n, taken)
    requires TreeConfined(v, u, free0, taken, tree)
    ensures TreeCopied(v, w, free0, tree, d, n + 1, cow) && TreeConfined(v, w, free0, taken, tree)
    ensures TreeCounted(counts0, c, pages, v, free0, tree, n + 1, taken)
  {
    hide PagesOK, TreeOK, TreeCopied, TreeCounted, TreeConfined, Tables, Distinct, IsPage, Table;
    FreePages(v, counts0, head0, free0, pages);
    FirstAligned(free0, pages);
    EmptyStep(v, u, w, free0, pages, tree, d, n, cow, counts0);
    EmptyConfined(v, u, w, free0, taken, tree, d, n);
    EmptyCounted(counts0, c, pages, v, free0, tree, n, taken);
  }

  lemma FirstAligned(free: seq<int>, pages: int)
    requires free != [] && forall p :: p in free ==> IsPage(p, pages)
    ensures free[0] % PAGE_SIZE == 0
  {
    assert free[0] in free;
  }

  /** The body of the outer loop. */
  method CopyEntry(s: Pager, tree: int, d: int, i: int, cow: bool, ghost v: Mem, ghost counts0: Mem, ghost free0: seq<int>, ghost head0: int)
    requires s.Valid() && PagesOK(v, counts0, head0, free0, s.pages) && TreeOK(v, counts0, free0, s.pages, tree)
    requires RoomToCopy(v, counts0, free0, s.pages, tree) && 0 <= i < PTRS_PER_PAGE && d == free0[0]
    requires 1 + Tables(v, tree, i + 1) <= |free0|
    requires Tables(v, tree, i + 1) == Tables(v, tree, i) + (if Table(v, tree, i) != 0 then 1 else 0)
    requires s.free == free0[1 + Tables(v, tree, i)..] && TreeCopied(v, s.w, free0, tree, d, i, cow)
    requires TreeCounted(counts0, s.counts, s.pages, v, free0, tree, i, 1 + Tables(v, tree, i))
    requires TreeConfined(v, s.w, free0, 1 + Tables(v, tree, i), tree)
    modifies s
    ensures s.Valid() && s.free == free0[1 + Tables(v, tree, i + 1)..] && TreeCopied(v, s.w, free0, tree, d, i + 1, cow)
    ensures TreeCounted(counts0, s.counts, s.pages, v, free0, tree, i + 1, 1 + Tables(v, tree, i + 1))
    ensures TreeConfined(v, s.w, free0, 1 + Tables(v, tree, i + 1), tree)
  {
    hide PagesOK, TreeOK, TreeCopied, TreeCounted, TreeConfined, RoomToCopy, Copied, CountedTo, OneTable, SlotsTouched, SlotsShared, Sharable;
    ghost var u, c, taken := s.w, s.counts, 1 + Tables(v, tree, i);
    FreePages(v, counts0, head0, free0, s.pages);
    Room(v, counts0, free0, s.pages, tree);
    SourceEntry(v, u, counts0, free0, s.pages, tree, d, i, cow);
    DirectoryUsed(free0, s.pages, taken);
    hide Tables, NewTable, Distinct;
    var st := Page(s.w[tree + 4 * i]);
    if st != 0 {
      var dt := s.KmallocPage();
      ghost var u1, c1 := s.w, s.counts;
      assert dt == free0[taken];
      ReadyToCopy(v, u, u1, counts0, c, c1, head0, free0, s.pages, tree, d, i, cow);
      RoomForAll(v, u1, counts0, c, c1, head0, free0, s.pages, tree, i, taken, cow);
      CopyTable(s, st, dt, i, cow);
      ghost var u2 := s.w;
      DirStays(u, u1, u2, st, dt, tree, i, cow);
      s.w := s.w[d + 4 * i := dt + Flags(s.w[tree + 4 * i])];
      UsedPageWritten(u2, s.w, s.counts, s.freePageList, s.free, s.pages, d);
      EntryWithTable(v, u, u1, u2, s.w, counts0, c, c1, s.counts, head0, free0, s.pages, tree, d, i, taken, cow);
    } else {
      s.w := s.w[d + 4 * i := 0];
      UsedPageWritten(u, s.w, s.counts, s.freePageList, s.free, s.pages, d);
      EntryWithout(v, u, s.w, counts0, c, head0, free0, s.pages, tree, d, i, taken, cow);
    }
  }

  lemma EmptyCounted(counts0: Mem, c: Mem, pages: int, v: Mem, free: seq<int>, tree: int, n: int, taken: int)
    requires 0 <= taken <= |free| && TreeCounted(counts0, c, pages, v, free, tree, n, taken) && 0 <= n && Table(v, tree, n) == 0
    ensures TreeCounted(counts0, c, pages, v, free, tree, n + 1, taken)
  {
    forall nr | 0 <= nr < pages
      ensures c[nr] == if nr * PAGE_SIZE in free[..taken] then 1 else Added(counts0[nr], Refs(v, tree, n + 1, nr))
    {
      assert Refs(v, tree, n, nr) == Refs(v, tree, n + 1, nr);
    }
  }

  // ---- free_page_tree ----

  /** How many of the first n directory entries have their table in page nr. */
  ghost function Uses(w: Mem, t: int, n: int, nr: int): (c: int)
    ensures c >= 0
  {
    if n <= 0 then 0 else Uses(w, t, n - 1, nr) + if Table(w, t, n - 1) != 0 && Nr(Table(w, t, n - 1)) == nr then 1 else 0
  }

  /** How often freeing the tree releases page nr. */
  ghost function Cost(w: Mem, t: int, nr: int): int {
    Refs(w, t, PTRS_PER_PAGE, nr) + Uses(w, t, PTRS_PER_PAGE, nr) + if Nr(t) == nr then 1 else 0
  }

  function Removed(c: int, n: int): int {
    if c == MAP_PAGE_RESERVED then c else c - n
  }

  /** Releases after i directory entries and j entries of the next table. */
  ghost function UsedAt(w: Mem, t: int, i: int, j: int, nr: int): (c: int)
    ensures c >= 0
  {
    Refs(w, t, i, nr) + Uses(w, t, i, nr)
    + if i < KERNEL_VIRT_PDINDX && Table(w, t, i) != 0 then RefsTable(w, Table(w, t, i), j, nr) else 0
  }

  /** The tree can be freed: its own pages are ordinary pages, and nothing is counted less often than the tree uses it. */
  ghost predicate CanFree(w: Mem, counts: Mem, pages: int, t: int) {
    && IsPage(t, pages) && counts[Nr(t)] != MAP_PAGE_RESERVED
    && (forall i :: 0 <= i < PTRS_PER_PAGE ==> FreeableEntry(w, counts, pages, t, i))
    && (forall nr {:trigger Cost(w, t, nr)} :: 0 < nr < pages && counts[nr] != MAP_PAGE_RESERVED ==> Cost(w, t, nr) <= counts[nr])
  }

  ghost predicate FreeableEntry(w: Mem, counts: Mem, pages: int, t: int, i: int) {
    var st := Table(w, t, i);
    st != 0 ==>
      && IsPage(st, pages) && counts[Nr(st)] != MAP_PAGE_RESERVED
      && (i < KERNEL_VIRT_PDINDX ==> forall j :: 0 <= j < PTRS_PER_PAGE ==> 0 <= Slot(w, st, j) && Nr(Slot(w, st, j)) < pages)
  }

  /** Under way: the counts have gone down by what was released, and pages still counted are as they were. */
  ghost predicate FreeInv(v: Mem, counts0: Mem, w: Mem, c: Mem, pages: int, t: int, i: int, j: int) {
    && (forall nr {:trigger UsedAt(v, t, i, j, nr)} :: 0 < nr < pages ==> c[nr] == Removed(counts0[nr], UsedAt(v, t, i, j, nr)))
    && c[0] == counts0[0]
    && (forall a :: w[a] == v[a] || c[Nr(a)] == 0)
  }

  lemma {:induction false} UsesMonotone(w: Mem, t: int, m: int, n: int, nr: int)
    requires m <= n
    ensures Uses(w, t, m, nr) <= Uses(w, t, n, nr)
    decreases n - m
  {
    if m < n {
      UsesMonotone(w, t, m, n - 1, nr);
    }
  }

  /** What is still to be released. */
  lemma StillCosts(w: Mem, t: int, i: int, j: int, nr: int)
    requires 0 <= i < PTRS_PER_PAGE && 0 <= j <= PTRS_PER_PAGE
    ensures UsedAt(w, t, i, j, nr) + (if Table(w, t, i) != 0 && Nr(Table(w, t, i)) == nr then 1 else 0) + (if Nr(t) == nr then 1 else 0)
            <= Cost(w, t, nr)
    ensures j < PTRS_PER_PAGE && i < KERNEL_VIRT_PDINDX && Table(w, t, i) != 0 && Slot(w, Table(w, t, i), j) != 0
            && Nr(Slot(w, Table(w, t, i), j)) == nr ==>
              UsedAt(w, t, i, j, nr) + 1 <= Cost(w, t, nr)
  {
    RefsMonotone(w, t, i + 1, PTRS_PER_PAGE, nr);
    UsesMonotone(w, t, i + 1, PTRS_PER_PAGE, nr);
    RefsTableMonotone(w, Table(w, t, i), j, PTRS_PER_PAGE, nr);
    if j < PTRS_PER_PAGE {
      RefsTableMonotone(w, Table(w, t, i), j + 1, PTRS_PER_PAGE, nr);
    }
    hide RefsTable;
    assert Refs(w, t, i + 1, nr) == Refs(w, t, i, nr) + RefsDir(w, t, i, nr);
    if j < PTRS_PER_PAGE {
      NextRef(w, Table(w, t, i), j, nr);
    }
  }

  lemma NextRef(w: Mem, st: int, j: int, nr: int)
    requires 0 <= j
    ensures RefsTable(w, st, j + 1, nr) == RefsTable(w, st, j, nr) + if Slot(w, st, j) != 0 && Nr(Slot(w, st, j)) == nr then 1 else 0
  {
  }

  /** The count of a page that is still to be released is positive, and its contents are as they were. */
  lemma StillThere(v: Mem, counts0: Mem, w: Mem, c: Mem, pages: int, t: int, i: int, j: int, nr: int, a: int)
    requires CanFree(v, counts0, pages, t) && FreeInv(v, counts0, w, c, pages, t, i, j) && 0 < nr < pages
    requires counts0[nr] < MAP_PAGE_RESERVED && UsedAt(v, t, i, j, nr) + 1 <= Cost(v, t, nr)
    ensures Nr(a) == nr ==> c[nr] > 0 && w[a] == v[a]
    ensures 0 < c[nr] < MAP_PAGE_RESERVED
  {
    assert Cost(v, t, nr) <= counts0[nr];
    assert c[nr] == Removed(counts0[nr], UsedAt(v, t, i, j, nr));
    hide Cost, UsedAt, FreeableEntry;
  }

  lemma FreeStart(v: Mem, counts: Mem, pages: int, t: int)
    ensures FreeInv(v, counts, v, counts, pages, t, 0, 0)
  {
    forall nr | 0 < nr < pages ensures counts[nr] == Removed(counts[nr], UsedAt(v, t, 0, 0, nr)) {
      if Table(v, t, 0) != 0 {
        assert RefsTable(v, Table(v, t, 0), 0, nr) == 0;
      }
    }
  }

  /** Nothing was released. */
  lemma FreeSame(v: Mem, counts0: Mem, w: Mem, c: Mem, pages: int, t: int, i: int, j: int, i': int, j': int)
    requires FreeInv(v, counts0, w, c, pages, t, i, j)
    requires forall nr {:trigger UsedAt(v, t, i', j', nr)} :: 0 < nr < pages && counts0[nr] != MAP_PAGE_RESERVED ==>
               UsedAt(v, t, i', j', nr) == UsedAt(v, t, i, j, nr)
    ensures FreeInv(v, counts0, w, c, pages, t, i', j')
  {
    hide UsedAt;
    forall nr | 0 < nr < pages ensures c[nr] == Removed(counts0[nr], UsedAt(v, t, i', j', nr)) {
      assert c[nr] == Removed(counts0[nr], UsedAt(v, t, i, j, nr));
    }
  }

  lemma CountBound(w: Mem, counts: Mem, head: int, free: seq<int>, pages: int, nr: int)
    requires PagesOK(w, counts, head, free, pages) && 0 < nr < pages
    ensures 0 <= counts[nr] <= MAP_PAGE_RESERVED && counts[0] == MAP_PAGE_RESERVED
  {
    assert CountOK(counts, free, nr);
  }

  /** What freeing entry j of table i finds. */
  lemma EntryToFree(v: Mem, counts0: Mem, w0: Mem, head0: int, free0: seq<int>, w: Mem, c: Mem, pages: int, t: int, i: int, j: int)
    requires PagesOK(w0, counts0, head0, free0, pages) && CanFree(v, counts0, pages, t) && FreeInv(v, counts0, w, c, pages, t, i, j)
    requires 0 <= i < PTRS_PER_PAGE && 0 <= j < PTRS_PER_PAGE && Table(v, t, i) != 0
    ensures var st := Table(v, t, i); var e := Slot(v, st, j); w[st + 4 * j] == e
    ensures var st := Table(v, t, i); var e := Slot(v, st, j);
            Page(e) != 0 && i < KERNEL_VIRT_PDINDX && c[Nr(Page(e))] != MAP_PAGE_RESERVED ==>
              IsPage(Page(e), pages) && Nr(Page(e)) == Nr(e) && 0 < c[Nr(e)] && counts0[Nr(e)] != MAP_PAGE_RESERVED
    ensures var st := Table(v, t, i); var e := Slot(v, st, j);
            forall nr {:trigger UsedAt(v, t, i, j + 1, nr)} :: 0 < nr < pages && counts0[nr] != MAP_PAGE_RESERVED ==>
              UsedAt(v, t, i, j + 1, nr) == UsedAt(v, t, i, j, nr)
                + if Page(e) != 0 && i < KERNEL_VIRT_PDINDX && c[Nr(Page(e))] != MAP_PAGE_RESERVED && nr == Nr(Page(e)) then 1 else 0
  {
    var st := Table(v, t, i);
    var e := Slot(v, st, j);
    assert FreeableEntry(v, counts0, pages, t, i);
    PageNumber(st, pages);
    StillCosts(v, t, i, j, Nr(st));
    CountBound(w0, counts0, head0, free0, pages, Nr(st));
    InPageNr(st, j);
    hide PagesOK, Cost;
    StillThere(v, counts0, w, c, pages, t, i, j, Nr(st), st + 4 * j);
    if i < KERNEL_VIRT_PDINDX {
      assert 0 <= Slot(v, st, j);
      EntryPage(e, pages);
      if 0 < Nr(e) {
        CountBound(w0, counts0, head0, free0, pages, Nr(e));
        assert c[Nr(e)] == Removed(counts0[Nr(e)], UsedAt(v, t, i, j, Nr(e)));
        if counts0[Nr(e)] != MAP_PAGE_RESERVED {
          StillCosts(v, t, i, j, Nr(e));
          StillThere(v, counts0, w, c, pages, t, i, j, Nr(e), 0);
        }
      }
      forall nr | 0 < nr < pages
        ensures UsedAt(v, t, i, j + 1, nr) == UsedAt(v, t, i, j, nr) + if e != 0 && nr == Nr(e) then 1 else 0
      {
        NextRef(v, st, j, nr);
      }
    }
  }

  lemma InPageNr(p: int, j: int)
    requires p % PAGE_SIZE == 0 && 0 <= j < PTRS_PER_PAGE
    ensures Nr(p + 4 * j) == Nr(p)
  {
  }

  lemma EntryPage(e: int, pages: int)
    requires 0 <= e && Nr(e) < pages
    ensures Page(e) != 0 <==> 0 < Nr(e)
    ensures 0 < Nr(e) ==> IsPage(Page(e), pages) && Nr(Page(e)) == Nr(e) && e != 0
  {
  }

  /** The inner loop: every counted entry of table st is released once. */
  method FreeEntries(s: Pager, t: int, i: int, st: int, ghost v: Mem, ghost counts0: Mem, ghost head0: int, ghost free0: seq<int>)
    requires s.Valid() && PagesOK(v, counts0, head0, free0, s.pages) && CanFree(v, counts0, s.pages, t)
    requires 0 <= i < PTRS_PER_PAGE && st == Table(v, t, i) != 0 && FreeInv(v, counts0, s.w, s.counts, s.pages, t, i, 0)
    modifies s
    ensures s.Valid() && FreeInv(v, counts0, s.w, s.counts, s.pages, t, i, PTRS_PER_PAGE)
  {
    hide PagesOK, CanFree, FreeInv, UsedAt, Slot, Table, IsPage;
    for j := 0 to PTRS_PER_PAGE
      invariant s.Valid() && FreeInv(v, counts0, s.w, s.counts, s.pages, t, i, j)
    {
      ghost var w, c := s.w, s.counts;
      EntryToFree(v, counts0, v, head0, free0, s.w, s.counts, s.pages, t, i, j);
      var tmp := Page(s.w[st + 4 * j]);
      var map_ := s.counts[Nr(tmp)];
      if tmp != 0 && i < KERNEL_VIRT_PDINDX && map_ != MAP_PAGE_RESERVED {
        s.FreePage(tmp);
        ReleasedHere(v, counts0, w, c, s.w, s.counts, s.pages, t, i, j, i, j + 1, tmp);
      } else {
        FreeSame(v, counts0, s.w, s.counts, s.pages, t, i, j, i, j + 1);
      }
    }
  }

  lemma ReleasedHere(v: Mem, counts0: Mem, w: Mem, c: Mem, w': Mem, c': Mem, pages: int, t: int, i: int, j: int, i': int, j': int, adr: int)
    requires FreeInv(v, counts0, w, c, pages, t, i, j) && IsPage(adr, pages) && counts0[Nr(adr)] != MAP_PAGE_RESERVED
    requires forall nr {:trigger UsedAt(v, t, i', j', nr)} :: 0 < nr < pages && counts0[nr] != MAP_PAGE_RESERVED ==>
               UsedAt(v, t, i', j', nr) == UsedAt(v, t, i, j, nr) + if nr == Nr(adr) then 1 else 0
    requires c' == c[Nr(adr) := c[Nr(adr)] - 1] && c[Nr(adr)] > 0
    requires forall a :: w'[a] == w[a] || (a == adr && c'[Nr(adr)] == 0)
    ensures FreeInv(v, counts0, w', c', pages, t, i', j')
  {
    PageNumber(adr, pages);
    hide UsedAt;
    forall nr | 0 < nr < pages ensures c'[nr] == Removed(counts0[nr], UsedAt(v, t, i', j', nr)) {
      assert c[nr] == Removed(counts0[nr], UsedAt(v, t, i, j, nr));
    }
  }

  lemma TableToFree(v: Mem, counts0: Mem, head0: int, free0: seq<int>, w: Mem, c: Mem, pages: int, t: int, i: int)
    requires PagesOK(v, counts0, head0, free0, pages) && CanFree(v, counts0, pages, t) && 0 <= i < PTRS_PER_PAGE && Table(v, t, i) != 0
    requires FreeInv(v, counts0, w, c, pages, t, i, PTRS_PER_PAGE)
    ensures var st := Table(v, t, i); IsPage(st, pages) && 0 < c[Nr(st)] < MAP_PAGE_RESERVED && counts0[Nr(st)] != MAP_PAGE_RESERVED
  {
    var st := Table(v, t, i);
    assert FreeableEntry(v, counts0, pages, t, i);
    PageNumber(st, pages);
    StillCosts(v, t, i, PTRS_PER_PAGE, Nr(st));
    CountBound(v, counts0, head0, free0, pages, Nr(st));
    hide PagesOK, Cost;
    StillThere(v, counts0, w, c, pages, t, i, PTRS_PER_PAGE, Nr(st), 0);
  }

  lemma NextEntry(v: Mem, t: int, i: int, nr: int)
    requires 0 <= i < PTRS_PER_PAGE
    ensures UsedAt(v, t, i + 1, 0, nr)
         == UsedAt(v, t, i, PTRS_PER_PAGE, nr) + if Table(v, t, i) != 0 && nr == Nr(Table(v, t, i)) then 1 else 0
  {
    assert Refs(v, t, i + 1, nr) == Refs(v, t, i, nr) + RefsDir(v, t, i, nr);
    assert RefsTable(v, Table(v, t, i + 1), 0, nr) == 0;
    hide RefsTable;
  }

  lemma TableReleased(v: Mem, counts0: Mem, w: Mem, c: Mem, w': Mem, c': Mem, pages: int, t: int, i: int, st: int)
    requires FreeInv(v, counts0, w, c, pages, t, i, PTRS_PER_PAGE) && IsPage(st, pages) && counts0[Nr(st)] != MAP_PAGE_RESERVED
    requires 0 <= i < PTRS_PER_PAGE && st == Table(v, t, i) != 0
    requires c' == c[Nr(st) := c[Nr(st)] - 1] && c[Nr(st)] > 0
    requires forall a :: w'[a] == w[a] || (a == st && c'[Nr(st)] == 0)
    ensures FreeInv(v, counts0, w', c', pages, t, i + 1, 0)
  {
    hide UsedAt, FreeInv, IsPage;
    forall nr ensures UsedAt(v, t, i + 1, 0, nr) == UsedAt(v, t, i, PTRS_PER_PAGE, nr) + if nr == Nr(st) then 1 else 0 {
      NextEntry(v, t, i, nr);
    }
    ReleasedHere(v, counts0, w, c, w', c', pages, t, i, PTRS_PER_PAGE, i + 1, 0, st);
  }

  /** Directory entry i as the loop reads it. */
  lemma DirToFree(v: Mem, counts0: Mem, head0: int, free0: seq<int>, w: Mem, c: Mem, pages: int, t: int, i: int)
    requires PagesOK(v, counts0, head0, free0, pages) && CanFree(v, counts0, pages, t) && 0 <= i < PTRS_PER_PAGE
    requires FreeInv(v, counts0, w, c, pages, t, i, 0)
    ensures w[t + 4 * i] == Dir(v, t, i) && Page(w[t + 4 * i]) == Table(v, t, i)
    ensures Table(v, t, i) == 0 ==>
              forall nr {:trigger UsedAt(v, t, i + 1, 0, nr)} :: 0 < nr < pages && counts0[nr] != MAP_PAGE_RESERVED ==>
                UsedAt(v, t, i + 1, 0, nr) == UsedAt(v, t, i, 0, nr)
  {
    PageNumber(t, pages);
    StillCosts(v, t, i, 0, Nr(t));
    CountBound(v, counts0, head0, free0, pages, Nr(t));
    InPageNr(t, i);
    hide PagesOK, Cost;
    StillThere(v, counts0, w, c, pages, t, i, 0, Nr(t), t + 4 * i);
    forall nr ensures Table(v, t, i) == 0 ==> UsedAt(v, t, i + 1, 0, nr) == UsedAt(v, t, i, 0, nr) {
      NextEntry(v, t, i, nr);
    }
  }

  /** free_page_tree(tree): every counted page, every table and the directory is released as often as the
      tree uses it; the pages that are left without a use are free. */
  method FreePageTree(s: Pager, t: int)
    requires s.Valid() && CanFree(s.w, s.counts, s.pages, t)
    modifies s
    ensures s.Valid() && s.counts[0] == MAP_PAGE_RESERVED
    ensures forall nr {:trigger Cost(old(s.w), t, nr)} :: 0 < nr < s.pages ==> s.counts[nr] == Removed(old(s.counts)[nr], Cost(old(s.w), t, nr))
    ensures forall a :: s.w[a] == old(s.w[a]) || s.counts[Nr(a)] == 0
  {
    hide PagesOK, CanFree, FreeInv, UsedAt, Table, IsPage, Dir, Cost;
    ghost var v, counts0, head0, free0 := s.w, s.counts, s.freePageList, s.free;
    FreeStart(v, counts0, s.pages, t);
    for i := 0 to PTRS_PER_PAGE
      invariant s.Valid() && FreeInv(v, counts0, s.w, s.counts, s.pages, t, i, 0)
    {
      DirToFree(v, counts0, head0, free0, s.w, s.counts, s.pages, t, i);
      var st := Page(s.w[t + 4 * i]);
      if st != 0 {
        assert st == Table(v, t, i);
        FreeEntries(s, t, i, st, v, counts0, head0, free0);
        ghost var w, c := s.w, s.counts;
        TableToFree(v, counts0, head0, free0, w, c, s.pages, t, i);
        s.FreePage(st);
        TableReleased(v, counts0, w, c, s.w, s.counts, s.pages, t, i, st);
      } else {
        FreeSame(v, counts0, s.w, s.counts, s.pages, t, i, 0, i + 1, 0);
      }
    }
    ghost var w, c := s.w, s.counts;
    LastToFree(v, counts0, head0, free0, w, c, s.pages, t);
    s.FreePage(t);
    AllReleased(v, counts0, w, c, s.w, s.counts, s.pages, t);
    ReservedStays(s.w, s.counts, s.freePageList, s.free, s.pages);
  }

  lemma ReservedStays(w: Mem, counts: Mem, head: int, free: seq<int>, pages: int)
    requires PagesOK(w, counts, head, free, pages)
    ensures counts[0] == MAP_PAGE_RESERVED
  {
  }

  lemma LastToFree(v: Mem, counts0: Mem, head0: int, free0: seq<int>, w: Mem, c: Mem, pages: int, t: int)
    requires PagesOK(v, counts0, head0, free0, pages) && CanFree(v, counts0, pages, t)
    requires FreeInv(v, counts0, w, c, pages, t, PTRS_PER_PAGE, 0)
    ensures IsPage(t, pages) && 0 < c[Nr(t)] < MAP_PAGE_RESERVED && counts0[Nr(t)] != MAP_PAGE_RESERVED
  {
    PageNumber(t, pages);
    CountBound(v, counts0, head0, free0, pages, Nr(t));
    hide PagesOK, RefsTable, Refs, Uses;
    assert UsedAt(v, t, PTRS_PER_PAGE, 0, Nr(t)) + 1 == Cost(v, t, Nr(t));
    StillThere(v, counts0, w, c, pages, t, PTRS_PER_PAGE, 0, Nr(t), 0);
  }

  lemma AllReleased(v: Mem, counts0: Mem, w: Mem, c: Mem, w': Mem, c': Mem, pages: int, t: int)
    requires FreeInv(v, counts0, w, c, pages, t, PTRS_PER_PAGE, 0) && IsPage(t, pages) && counts0[Nr(t)] != MAP_PAGE_RESERVED
    requires c' == c[Nr(t) := c[Nr(t)] - 1] && c[Nr(t)] > 0
    requires forall a :: w'[a] == w[a] || (a == t && c'[Nr(t)] == 0)
    ensures forall nr {:trigger Cost(v, t, nr)} :: 0 < nr < pages ==> c'[nr] == Removed(counts0[nr], Cost(v, t, nr))
    ensures forall a :: w'[a] == v[a] || c'[Nr(a)] == 0
  {
    PageNumber(t, pages);
    hide RefsTable, Refs, Uses;
    forall nr | 0 < nr < pages ensures c'[nr] == Removed(counts0[nr], Cost(v, t, nr)) {
      assert c[nr] == Removed(counts0[nr], UsedAt(v, t, PTRS_PER_PAGE, 0, nr));
    }
  }

  // ---- the copy compared with its source ----

  /** Both trees have the same entries; in copy-on-write mode none is writable. */
  lemma CopyResolves(v: Mem, w: Mem, counts: Mem, free: seq<int>, pages: int, tree: int, d: int, cow: bool, i: int, j: int)
    requires (forall p :: p in free ==> IsPage(p, pages)) && Distinct(free) && TreeOK(v, counts, free, pages, tree)
    requires 1 + Tables(v, tree, PTRS_PER_PAGE) <= |free| && TreeCopied(v, w, free, tree, d, PTRS_PER_PAGE, cow)
    requires 0 <= i < PTRS_PER_PAGE && 0 <= j < PTRS_PER_PAGE
    ensures Entry(w, d, i, j) == Entry(w, tree, i, j) == Shared(Entry(v, tree, i, j), cow)
    ensures cow ==> !Writable(Entry(w, d, i, j)) && !Writable(Entry(w, tree, i, j))
  {
    hide Tables, NewTable, Distinct, Shared, TreeOK;
    assert EntryCopied(v, w, free, tree, d, i, cow);
    assert EntryTouched(v, w, tree, i, cow);
    SharedZero(cow);
    SharedFacts(0, cow);
    CopiedTable(v, w, free, pages, tree, d, i, cow);
    if Table(v, tree, i) != 0 {
      NewTableIs(v, free, pages, tree, i);
      SourceSlot(v, counts, pages, free, tree, i, j);
      SharedFacts(Slot(v, Table(v, tree, i), j), cow);
      assert Slot(w, NewTable(v, free, tree, i), j) == Shared(Slot(v, Table(v, tree, i), j), cow);
      assert Slot(w, Table(v, tree, i), j) == Shared(Slot(v, Table(v, tree, i), j), cow);
    }
  }

  lemma CopiedTable(v: Mem, w: Mem, free: seq<int>, pages: int, tree: int, d: int, i: int, cow: bool)
    requires (forall p :: p in free ==> IsPage(p, pages)) && Distinct(free) && 0 <= i < PTRS_PER_PAGE
    requires 1 + Tables(v, tree, PTRS_PER_PAGE) <= |free| && EntryCopied(v, w, free, tree, d, i, cow)
    ensures Table(w, d, i) == NewTable(v, free, tree, i)
  {
    if Table(v, tree, i) == 0 {
      assert Page(0) == 0;
    } else {
      NewTableIs(v, free, pages, tree, i);
      WithFlags(NewTable(v, free, tree, i), Flags(Dir(v, tree, i)));
    }
  }

  lemma WithFlags(p: int, f: int)
    requires p % PAGE_SIZE == 0 && 0 <= f < PAGE_SIZE
    ensures Page(p + f) == p && Nr(p + f) == Nr(p)
  {
  }

  /** The page nr has been taken for the copy. */
  ghost predicate Fresh(free: seq<int>, taken: int, nr: int)
    requires 0 <= taken <= |free|
  {
    nr * PAGE_SIZE in free[..taken]
  }

  lemma {:induction false} SameSharedRefs(v: Mem, w: Mem, st: int, dt: int, n: int, nr: int, cow: bool)
    requires 0 <= n <= PTRS_PER_PAGE && SlotsShared(v, w, st, dt, cow) && forall j :: 0 <= j < PTRS_PER_PAGE ==> Slot(v, st, j) >= 0
    ensures RefsTable(w, dt, n, nr) == RefsTable(v, st, n, nr)
    decreases n
  {
    hide Shared;
    if n > 0 {
      SameSharedRefs(v, w, st, dt, n - 1, nr, cow);
      SharedFacts(Slot(v, st, n - 1), cow);
      assert Slot(w, dt, n - 1) == Shared(Slot(v, st, n - 1), cow);
    }
  }

  /** The copy counts every page as often as its source. */
  lemma {:induction false} CopyRefs(v: Mem, w: Mem, counts: Mem, free: seq<int>, pages: int, tree: int, d: int, cow: bool, n: int, nr: int)
    requires (forall p :: p in free ==> IsPage(p, pages)) && Distinct(free) && TreeOK(v, counts, free, pages, tree)
    requires 1 + Tables(v, tree, PTRS_PER_PAGE) <= |free| && TreeCopied(v, w, free, tree, d, PTRS_PER_PAGE, cow)
    requires 0 <= n <= PTRS_PER_PAGE
    ensures Refs(w, d, n, nr) == Refs(v, tree, n, nr)
    decreases n
  {
    hide Tables, NewTable, Distinct, TreeOK, RefsTable;
    if n > 0 {
      CopyRefs(v, w, counts, free, pages, tree, d, cow, n - 1, nr);
      assert EntryCopied(v, w, free, tree, d, n - 1, cow);
      CopiedTable(v, w, free, pages, tree, d, n - 1, cow);
      if Table(v, tree, n - 1) != 0 {
        NewTableIs(v, free, pages, tree, n - 1);
        var st := Table(v, tree, n - 1);
        forall j | 0 <= j < PTRS_PER_PAGE ensures Slot(v, st, j) >= 0 {
          SourceSlot(v, counts, pages, free, tree, n - 1, j);
        }
        SameSharedRefs(v, w, st, NewTable(v, free, tree, n - 1), PTRS_PER_PAGE, nr, cow);
      }
    }
  }

  /** Every fresh page is the directory, or the table of one entry. */
  lemma {:induction false} CopyUses(v: Mem, w: Mem, free: seq<int>, pages: int, tree: int, d: int, cow: bool, n: int, nr: int)
    requires (forall p :: p in free ==> IsPage(p, pages)) && Distinct(free)
    requires 1 + Tables(v, tree, PTRS_PER_PAGE) <= |free| && TreeCopied(v, w, free, tree, d, PTRS_PER_PAGE, cow) && d == free[0]
    requires 0 <= n <= PTRS_PER_PAGE
    ensures 1 + Tables(v, tree, n) <= |free|
    ensures Uses(w, d, n, nr) + (if Nr(d) == nr then 1 else 0) == if Fresh(free, 1 + Tables(v, tree, n), nr) then 1 else 0
    decreases n
  {
    TablesMonotone(v, tree, n, PTRS_PER_PAGE);
    hide NewTable;
    if n == 0 {
      assert free[..1] == [d];
      assert d in free;
      PageNumber(d, pages);
    } else {
      CopyUses(v, w, free, pages, tree, d, cow, n - 1, nr);
      assert EntryCopied(v, w, free, tree, d, n - 1, cow);
      CopiedTable(v, w, free, pages, tree, d, n - 1, cow);
      if Table(v, tree, n - 1) != 0 {
        NewTableIs(v, free, pages, tree, n - 1);
        var taken := 1 + Tables(v, tree, n - 1);
        PageNumber(free[taken], pages);
        assert free[..taken + 1] == free[..taken] + [free[taken]];
        assert free[taken] !in free[..taken];
      }
    }
  }

  // ---- freeing the copy undoes the copying ----

  /** A copy can be freed. */
  lemma CopyFreeable(v: Mem, w: Mem, counts0: Mem, c: Mem, head: int, free: seq<int>, pages: int, tree: int, d: int, cow: bool)
    requires PagesOK(v, counts0, head, free, pages) && TreeOK(v, counts0, free, pages, tree) && RoomToCopy(v, counts0, free, pages, tree)
    requires TreeCopied(v, w, free, tree, d, PTRS_PER_PAGE, cow) && d == free[0]
    requires TreeCounted(counts0, c, pages, v, free, tree, PTRS_PER_PAGE, 1 + Tables(v, tree, PTRS_PER_PAGE))
    ensures CanFree(w, c, pages, d)
  {
    var taken := 1 + Tables(v, tree, PTRS_PER_PAGE);
    assert d in free;
    FreshCount(v, counts0, c, head, free, pages, tree, taken, 0);
    hide PagesOK, TreeOK, RoomToCopy, TreeCopied, TreeCounted, FreeableEntry, Cost;
    forall i | 0 <= i < PTRS_PER_PAGE ensures FreeableEntry(w, c, pages, d, i) {
      CopyFreeableEntry(v, w, counts0, c, head, free, pages, tree, d, cow, i);
    }
    forall nr | 0 < nr < pages && c[nr] != MAP_PAGE_RESERVED ensures Cost(w, d, nr) <= c[nr] {
      CopyCost(v, w, counts0, c, head, free, pages, tree, d, cow, nr);
    }
  }

  lemma FreshCount(v: Mem, counts0: Mem, c: Mem, head: int, free: seq<int>, pages: int, tree: int, taken: int, k: int)
    requires PagesOK(v, counts0, head, free, pages) && 0 <= k < taken <= |free|
    requires TreeCounted(counts0, c, pages, v, free, tree, PTRS_PER_PAGE, taken)
    ensures IsPage(free[k], pages) && c[Nr(free[k])] == 1
  {
    var p := free[k];
    assert p in free;
    PageNumber(p, pages);
    assert p == free[..taken][k];
    assert Refs(v, tree, PTRS_PER_PAGE, Nr(p)) >= 0;
  }

  lemma CopyFreeableEntry(v: Mem, w: Mem, counts0: Mem, c: Mem, head: int, free: seq<int>, pages: int, tree: int, d: int, cow: bool, i: int)
    requires PagesOK(v, counts0, head, free, pages) && TreeOK(v, counts0, free, pages, tree) && RoomToCopy(v, counts0, free, pages, tree)
    requires TreeCopied(v, w, free, tree, d, PTRS_PER_PAGE, cow) && d == free[0] && 0 <= i < PTRS_PER_PAGE
    requires TreeCounted(counts0, c, pages, v, free, tree, PTRS_PER_PAGE, 1 + Tables(v, tree, PTRS_PER_PAGE))
    ensures FreeableEntry(w, c, pages, d, i)
  {
    FreePages(v, counts0, head, free, pages);
    Room(v, counts0, free, pages, tree);
    Occupied(v, counts0, head, free, pages);
    assert EntryCopied(v, w, free, tree, d, i, cow);
    hide RoomToCopy, TreeCopied, Distinct;
    CopiedTable(v, w, free, pages, tree, d, i, cow);
    if Table(v, tree, i) != 0 {
      NewTableIs(v, free, pages, tree, i);
      TablesMonotone(v, tree, i + 1, PTRS_PER_PAGE);
      FreshCount(v, counts0, c, head, free, pages, tree, 1 + Tables(v, tree, PTRS_PER_PAGE), 1 + Tables(v, tree, i));
      hide PagesOK, TreeOK, TreeCounted, Shared, NewTable, Tables;
      var st, dt := Table(v, tree, i), NewTable(v, free, tree, i);
      if i < KERNEL_VIRT_PDINDX {
        forall j | 0 <= j < PTRS_PER_PAGE ensures 0 <= Slot(w, dt, j) && Nr(Slot(w, dt, j)) < pages {
          SourceSlot(v, counts0, pages, free, tree, i, j);
          SharedFacts(Slot(v, st, j), cow);
          assert Slot(w, dt, j) == Shared(Slot(v, st, j), cow);
        }
      }
    }
  }

  lemma Occupied(w: Mem, counts: Mem, head: int, free: seq<int>, pages: int)
    requires PagesOK(w, counts, head, free, pages)
    ensures 0 < pages
  {
  }

  /** What the copy costs is what the copying added. */
  lemma CopyCost(v: Mem, w: Mem, counts0: Mem, c: Mem, head: int, free: seq<int>, pages: int, tree: int, d: int, cow: bool, nr: int)
    requires PagesOK(v, counts0, head, free, pages) && TreeOK(v, counts0, free, pages, tree) && RoomToCopy(v, counts0, free, pages, tree)
    requires TreeCopied(v, w, free, tree, d, PTRS_PER_PAGE, cow) && d == free[0] && 0 < nr < pages
    requires TreeCounted(counts0, c, pages, v, free, tree, PTRS_PER_PAGE, 1 + Tables(v, tree, PTRS_PER_PAGE))
    ensures c[nr] != MAP_PAGE_RESERVED ==> Cost(w, d, nr) <= c[nr]
    ensures Removed(c[nr], Cost(w, d, nr)) == counts0[nr]
  {
    var taken := 1 + Tables(v, tree, PTRS_PER_PAGE);
    FreePages(v, counts0, head, free, pages);
    CountBound(v, counts0, head, free, pages, nr);
    Room(v, counts0, free, pages, tree);
    CopyRefs(v, w, counts0, free, pages, tree, d, cow, PTRS_PER_PAGE, nr);
    CopyUses(v, w, free, pages, tree, d, cow, PTRS_PER_PAGE, nr);
    CopiedCount(counts0, c, pages, v, free, tree, taken, nr);
    assert counts0[nr] != MAP_PAGE_RESERVED ==> counts0[nr] + Refs(v, tree, PTRS_PER_PAGE, nr) < MAP_PAGE_RESERVED;
    if Fresh(free, taken, nr) {
      TakenWasFree(v, counts0, head, free, pages, taken, nr);
      FreeRefs(v, counts0, free, pages, tree, PTRS_PER_PAGE, nr);
    }
    hide PagesOK, TreeOK, TreeCopied, Refs, Uses, Tables;
  }

  lemma CopiedCount(counts0: Mem, c: Mem, pages: int, v: Mem, free: seq<int>, tree: int, taken: int, nr: int)
    requires 0 <= taken <= |free| && TreeCounted(counts0, c, pages, v, free, tree, PTRS_PER_PAGE, taken) && 0 <= nr < pages
    ensures c[nr] == if Fresh(free, taken, nr) then 1 else Added(counts0[nr], Refs(v, tree, PTRS_PER_PAGE, nr))
  {
    assert Refs(v, tree, PTRS_PER_PAGE, nr) >= 0;
  }

  lemma TakenWasFree(w: Mem, counts: Mem, head: int, free: seq<int>, pages: int, taken: int, nr: int)
    requires PagesOK(w, counts, head, free, pages) && 0 <= taken <= |free| && 0 < nr < pages && Fresh(free, taken, nr)
    ensures counts[nr] == 0
  {
    assert nr * PAGE_SIZE in free;
    assert CountOK(counts, free, nr);
  }

  lemma {:induction false} FreeRefs(v: Mem, counts: Mem, free: seq<int>, pages: int, tree: int, n: int, nr: int)
    requires TreeOK(v, counts, free, pages, tree) && 0 <= n <= PTRS_PER_PAGE && counts[nr] == 0
    ensures Refs(v, tree, n, nr) == 0
    decreases n
  {
    if n > 0 {
      FreeRefs(v, counts, free, pages, tree, n - 1, nr);
      FreeUnmapped(v, counts, free, pages, tree, n - 1, nr);
    }
  }

  /** The free pages are the pages with count 0. */
  lemma SameFreePages(w: Mem, counts: Mem, head: int, free: seq<int>, w': Mem, counts': Mem, head': int, free': seq<int>, pages: int)
    requires PagesOK(w, counts, head, free, pages) && PagesOK(w', counts', head', free', pages)
    requires forall nr :: 0 < nr < pages ==> counts'[nr] == counts[nr]
    ensures forall p :: p in free <==> p in free'
  {
    forall p | IsPage(p, pages) ensures p in free <==> p in free' {
      PageNumber(p, pages);
      assert CountOK(counts, free, Nr(p)) && CountOK(counts', free', Nr(p));
    }
  }

  /** copy_page_tree followed by free_page_tree: every share count and the set of free pages are as before. */
  method CopyAndFree(s: Pager, tree: int, cow: bool)
    requires s.Valid() && TreeOK(s.w, s.counts, s.free, s.pages, tree) && RoomToCopy(s.w, s.counts, s.free, s.pages, tree)
    modifies s
    ensures s.Valid()
    ensures forall nr :: 0 <= nr < s.pages ==> s.counts[nr] == old(s.counts[nr])
    ensures forall p :: p in s.free <==> p in old(s.free)
  {
    hide PagesOK, TreeOK, RoomToCopy, TreeCopied, TreeCounted, TreeConfined, CanFree, Cost, Tables;
    ghost var v, counts0, free0, head0 := s.w, s.counts, s.free, s.freePageList;
    Room(v, counts0, free0, s.pages, tree);
    ReservedStays(v, counts0, head0, free0, s.pages);
    var d := CopyPageTree(s, tree, cow);
    ghost var w, c := s.w, s.counts;
    CopyFreeable(v, w, counts0, c, head0, free0, s.pages, tree, d, cow);
    FreePageTree(s, d);
    forall nr | 0 <= nr < s.pages ensures s.counts[nr] == counts0[nr] {
      if nr > 0 {
        CopyCost(v, w, counts0, c, head0, free0, s.pages, tree, d, cow, nr);
      }
    }
    SameFreePages(v, counts0, head0, free0, s.w, s.counts, s.freePageList, s.free, s.pages);
  }

  // ---- changing one tree leaves another alone ----

  const PAGE_TABLE: int := 0x27

  /** Where a virtual address is looked up: directory entry and table entry. */
  function DirIndex(va: int): int {
    va / 0x40_0000
  }

  function TabIndex(va: int): int {
    va / PAGE_SIZE % PTRS_PER_PAGE
  }

  lemma IndexRange(va: int)
    requires 0 <= va < WORD
    ensures 0 <= DirIndex(va) < PTRS_PER_PAGE && 0 <= TabIndex(va) < PTRS_PER_PAGE
  {
  }

  /** Together with the place in the page they make up the address: 10, 10 and 12 bits. */
  lemma AddressParts(va: int)
    requires 0 <= va < WORD
    ensures va == DirIndex(va) * 0x40_0000 + TabIndex(va) * 0x1000 + va % 0x1000
    ensures 0 <= DirIndex(va) < 0x400 && 0 <= TabIndex(va) < 0x400
  {
    var nr := va / PAGE_SIZE;
    DivMod(va, PAGE_SIZE);
    DivMod(nr, PTRS_PER_PAGE);
    DivUnique(va, 0x40_0000, nr / PTRS_PER_PAGE, nr % PTRS_PER_PAGE * PAGE_SIZE + va % PAGE_SIZE);
  }

  /** Addresses in the same 4096 bytes. */
  predicate SamePage(x: int, y: int) {
    x / PAGE_SIZE == y / PAGE_SIZE
  }

  /** Exactly the addresses of one page are looked up in the same place. */
  lemma SamePlace(x: int, y: int)
    requires 0 <= x < WORD && 0 <= y < WORD
    ensures SamePage(x, y) <==> DirIndex(x) == DirIndex(y) && TabIndex(x) == TabIndex(y)
  {
    hide DirIndex, TabIndex;
    AddressParts(x);
    AddressParts(y);
    DivUnique(x, PAGE_SIZE, DirIndex(x) * 0x400 + TabIndex(x), x % PAGE_SIZE);
    DivUnique(y, PAGE_SIZE, DirIndex(y) * 0x400 + TabIndex(y), y % PAGE_SIZE);
  }

  /** What looking up va in the tree gives. */
  ghost function Found(w: Mem, t: int, va: int): int {
    Entry(w, t, DirIndex(va), TabIndex(va))
  }

  ghost predicate NoTableTwice(w: Mem, t: int) {
    forall h, k :: 0 <= h < k < PTRS_PER_PAGE && Table(w, t, h) != 0 ==> Table(w, t, h) != Table(w, t, k)
  }

  ghost predicate SameTables(v: Mem, w: Mem, t: int) {
    forall k :: 0 <= k < PTRS_PER_PAGE ==> Table(w, t, k) == Table(v, t, k)
  }

  /** At the addresses of va's page, and unless tables are shared only at these, there is a new entry. */
  ghost predicate OnlyPage(v: Mem, w: Mem, t: int, va: int, e: int) {
    && (forall x :: 0 <= x < WORD && SamePage(x, va) ==> Found(w, t, x) == e)
    && (NoTableTwice(v, t) ==>
          NoTableTwice(w, t) && forall x :: 0 <= x < WORD && !SamePage(x, va) ==> Found(w, t, x) == Found(v, t, x))
  }

  lemma PageOnly(v: Mem, w: Mem, t: int, va: int, e: int)
    requires 0 <= va < WORD && OnlyEntry(v, w, t, DirIndex(va), TabIndex(va), e) && Table(w, t, DirIndex(va)) != 0
    requires NoTableTwice(v, t) ==> NoTableTwice(w, t)
    ensures OnlyPage(v, w, t, va, e)
  {
    hide DirIndex, TabIndex, SamePage, Entry, Table;
    IndexRange(va);
    forall x | 0 <= x < WORD
      ensures SamePage(x, va) ==> Found(w, t, x) == e
      ensures !SamePage(x, va) && NoTableTwice(w, t) ==> Found(w, t, x) == Found(v, t, x)
    {
      IndexRange(x);
      SamePlace(x, va);
      if DirIndex(x) < DirIndex(va) || DirIndex(x) > DirIndex(va) {
        assert NoTableTwice(w, t) ==> Table(w, t, DirIndex(x)) != Table(w, t, DirIndex(va));
      }
    }
  }

  lemma TablesKept(v: Mem, w: Mem, t: int)
    requires SameTables(v, w, t) && NoTableTwice(v, t)
    ensures NoTableTwice(w, t)
  {
    hide Table;
  }

  /** The tree's own pages: its directory and tables. */
  ghost function Own(w: Mem, t: int): set<int> {
    {t} + SourceTables(w, t)
  }

  /** A tree in use: its pages are not free, and its directory is not one of its tables. */
  ghost predicate InUse(w: Mem, free: seq<int>, t: int) {
    t % PAGE_SIZE == 0 && t !in SourceTables(w, t) && forall p :: p in Own(w, t) ==> p !in free
  }

  ghost predicate SameEntries(v: Mem, w: Mem, t: int) {
    forall i, j :: 0 <= i < PTRS_PER_PAGE && 0 <= j < PTRS_PER_PAGE ==> Entry(w, t, i, j) == Entry(v, t, i, j)
  }

  lemma TableOwned(w: Mem, t: int, i: int)
    requires 0 <= i < PTRS_PER_PAGE && Table(w, t, i) != 0
    ensures Table(w, t, i) in SourceTables(w, t) && Table(w, t, i) in Own(w, t) && Table(w, t, i) % PAGE_SIZE == 0
  {
  }

  /** Writing within a page that is none of the tree's own changes nothing for the tree. */
  lemma ForeignWrite(v: Mem, w: Mem, p: int, t: int)
    requires PageWrites(v, w, p) && p % PAGE_SIZE == 0 && p !in Own(v, t) && t % PAGE_SIZE == 0
    ensures SameEntries(v, w, t) && Own(w, t) == Own(v, t) && SourceTables(w, t) == SourceTables(v, t)
    ensures forall i :: 0 <= i < PTRS_PER_PAGE ==> Dir(w, t, i) == Dir(v, t, i)
  {
    PagesApart(t, p);
    forall i | 0 <= i < PTRS_PER_PAGE ensures Dir(w, t, i) == Dir(v, t, i) && Table(w, t, i) == Table(v, t, i) {
    }
    forall i, j | 0 <= i < PTRS_PER_PAGE && 0 <= j < PTRS_PER_PAGE ensures Entry(w, t, i, j) == Entry(v, t, i, j) {
      if Table(v, t, i) != 0 {
        TableOwned(v, t, i);
        PagesApart(Table(v, t, i), p);
      }
    }
    assert SourceTables(w, t) == SourceTables(v, t);
  }

  /** get_table_entry(tree, virtual); tree 0 stands for the current one. */
  method GetTableEntry(s: Pager, tree: int, cr3: int, va: int) returns (e: int)
    requires 0 <= va < WORD
    ensures e == Found(s.w, if tree == 0 then cr3 else tree, va)
  {
    var dir := if tree == 0 then cr3 else tree;
    var table := Page(s.w[dir + 4 * DirIndex(va)]);
    if table == 0 {
      return 0;
    }
    e := s.w[table + 4 * TabIndex(va)];
  }

  /** The entry (i, j) of t is e; all other entries of its table, and all of other tables, are as before. */
  ghost predicate OnlyEntry(v: Mem, w: Mem, t: int, i: int, j: int, e: int) {
    && Entry(w, t, i, j) == e
    && forall h, k :: 0 <= h < PTRS_PER_PAGE && 0 <= k < PTRS_PER_PAGE && (k != j || Table(w, t, h) != Table(w, t, i)) ==>
         Entry(w, t, h, k) == Entry(v, t, h, k)
  }

  /** Two trees in use, with no page in common. */
  ghost predicate TwoTrees(w: Mem, free: seq<int>, t: int, other: int) {
    InUse(w, free, t) && InUse(w, free, other) && Own(w, t) !! Own(w, other)
  }

  lemma SlotSet(v: Mem, w: Mem, free: seq<int>, t: int, other: int, i: int, j: int, e: int)
    requires TwoTrees(v, free, t, other) && 0 <= i < PTRS_PER_PAGE && 0 <= j < PTRS_PER_PAGE && Table(v, t, i) != 0
    requires w == v[Table(v, t, i) + 4 * j := e]
    ensures TwoTrees(w, free, t, other) && SameEntries(v, w, other) && OnlyEntry(v, w, t, i, j, e) && SameTables(v, w, t)
    ensures Table(v, t, i) !in free && Table(v, t, i) % PAGE_SIZE == 0 && PageWrites(v, w, Table(v, t, i))
  {
    TableOwned(v, t, i);
    hide SameEntries, OnlyEntry, Entry, SourceTables;
    ForeignWrite(v, w, Table(v, t, i), other);
    OwnTableWritten(v, w, t, i, j, e);
  }

  /** set_table_entry(tree, virtual, entry): nothing happens where there is no table. */
  method SetTableEntry(s: Pager, tree: int, cr3: int, va: int, entry: int, ghost other: int)
    requires s.Valid() && 0 <= va < WORD && TwoTrees(s.w, s.free, if tree == 0 then cr3 else tree, other)
    modifies s`w
    ensures var t := if tree == 0 then cr3 else tree;
            && s.Valid() && TwoTrees(s.w, s.free, t, other) && SameEntries(old(s.w), s.w, other)
            && if Table(old(s.w), t, DirIndex(va)) == 0 then s.w == old(s.w)
               else OnlyEntry(old(s.w), s.w, t, DirIndex(va), TabIndex(va), entry) && OnlyPage(old(s.w), s.w, t, va, entry)
  {
    hide OnlyPage, NoTableTwice, PagesOK, TwoTrees, SameEntries, OnlyEntry, PageWrites, TabIndex, DirIndex;
    ghost var v := s.w;
    IndexRange(va);
    EntriesSame(v, other);
    var dir := if tree == 0 then cr3 else tree;
    var table := Page(s.w[dir + 4 * DirIndex(va)]);
    if table == 0 {
      return;
    }
    s.w := s.w[table + 4 * TabIndex(va) := entry];
    SlotSet(v, s.w, s.free, dir, other, DirIndex(va), TabIndex(va), entry);
    UsedPageWritten(v, s.w, s.counts, s.freePageList, s.free, s.pages, table);
    if NoTableTwice(v, dir) {
      TablesKept(v, s.w, dir);
    }
    PageOnly(v, s.w, dir, va, entry);
  }

  lemma EntriesSame(w: Mem, t: int)
    ensures SameEntries(w, w, t)
  {
    hide Entry;
  }

  lemma OwnTableWritten(v: Mem, w: Mem, t: int, i: int, j: int, e: int)
    requires 0 <= i < PTRS_PER_PAGE && 0 <= j < PTRS_PER_PAGE && Table(v, t, i) != 0 && t % PAGE_SIZE == 0 && t !in SourceTables(v, t)
    requires w == v[Table(v, t, i) + 4 * j := e]
    ensures Own(w, t) == Own(v, t) && SourceTables(w, t) == SourceTables(v, t) && OnlyEntry(v, w, t, i, j, e)
    ensures SameTables(v, w, t)
  {
    TableOwned(v, t, i);
    PagesApart(t, Table(v, t, i));
    forall k | 0 <= k < PTRS_PER_PAGE ensures Dir(w, t, k) == Dir(v, t, k) && Table(w, t, k) == Table(v, t, k) {
    }
    assert SourceTables(w, t) == SourceTables(v, t);
    forall h, k | 0 <= h < PTRS_PER_PAGE && 0 <= k < PTRS_PER_PAGE && (k != j || Table(w, t, h) != Table(w, t, i))
      ensures Entry(w, t, h, k) == Entry(v, t, h, k)
    {
      if Table(v, t, h) != 0 && Table(v, t, h) != Table(v, t, i) {
        TableOwned(v, t, h);
        PagesApart(Table(v, t, h), Table(v, t, i));
      }
    }
  }

  /** show_page(tree, page, virtual, flags): the page becomes visible, in a new table if there was none. */
  method ShowPage(s: Pager, tree: int, cr3: int, page: int, va: int, flags: int, ghost other: int)
    requires s.Valid() && 0 <= va < WORD && page % PAGE_SIZE == 0 && 0 <= flags < PAGE_SIZE && s.free != []
    requires TwoTrees(s.w, s.free, if tree == 0 then cr3 else tree, other)
    modifies s
    ensures var t := if tree == 0 then cr3 else tree;
            && s.Valid() && TwoTrees(s.w, s.free, t, other) && SameEntries(old(s.w), s.w, other)
            && OnlyEntry(old(s.w), s.w, t, DirIndex(va), TabIndex(va), page + flags)
            && OnlyPage(old(s.w), s.w, t, va, page + flags)
    ensures |s.free| >= |old(s.free)| - 1
  {
    hide OnlyPage, NoTableTwice, PagesOK, TwoTrees, SameEntries, OnlyEntry, PageWrites, TabIndex, DirIndex, IsPage, Distinct;
    ghost var v := s.w;
    IndexRange(va);
    EntriesSame(v, other);
    var i, j := DirIndex(va), TabIndex(va);
    var dir := if tree == 0 then cr3 else tree;
    var table := Page(s.w[dir + 4 * i]);
    ghost var fresh0 := table == 0;
    if table == 0 {
      table := AddTable(s, dir, i, other);
    }
    ghost var x := s.w;
    s.w := s.w[table + 4 * j := page + flags];
    SlotSet(x, s.w, s.free, dir, other, i, j, page + flags);
    UsedPageWritten(x, s.w, s.counts, s.freePageList, s.free, s.pages, table);
    EntriesTrans(v, x, s.w, other);
    if fresh0 {
      EntryAfterTable(v, x, s.w, dir, i, j, page + flags);
    }
    if NoTableTwice(v, dir) {
      TablesKept(x, s.w, dir);
    }
    PageOnly(v, s.w, dir, va, page + flags);
  }

  lemma EntryAfterTable(v: Mem, x: Mem, w: Mem, t: int, i: int, j: int, e: int)
    requires OnlyEntry(x, w, t, i, j, e) && SameEntries(v, x, t)
    ensures OnlyEntry(v, w, t, i, j, e)
  {
    hide Entry;
  }

  /** A cleared page becomes the table of directory entry i. */
  method AddTable(s: Pager, t: int, i: int, ghost other: int) returns (table: int)
    requires s.Valid() && s.free != [] && TwoTrees(s.w, s.free, t, other) && 0 <= i < PTRS_PER_PAGE && Table(s.w, t, i) == 0
    modifies s
    ensures s.Valid() && TwoTrees(s.w, s.free, t, other) && table == Table(s.w, t, i) != 0 && |s.free| == |old(s.free)| - 1
    ensures SameEntries(old(s.w), s.w, other) && SameEntries(old(s.w), s.w, t)
    ensures NoTableTwice(old(s.w), t) ==> NoTableTwice(s.w, t)
  {
    hide PagesOK, TwoTrees, SameEntries, PageWrites, Entry, Distinct, NoTableTwice;
    ghost var v, free0 := s.w, s.free;
    FreePages(v, s.counts, s.freePageList, s.free, s.pages);
    TakenIsFree(free0);
    table := s.KmallocPage();
    ghost var u := s.w;
    s.w := s.w[t + 4 * i := table + PAGE_TABLE];
    NewTableEntered(v, u, s.w, t, i, table, free0, s.free, other);
    UsedPageWritten(u, s.w, s.counts, s.freePageList, s.free, s.pages, t);
  }

  lemma TakenIsFree(free: seq<int>)
    requires free != [] && Distinct(free)
    ensures free[0] in free && free[0] !in free[1..] && forall p :: p in free[1..] ==> p in free
  {
  }

  /** A fresh, cleared table is entered into directory entry i, which had none. */
  lemma NewTableEntered(v: Mem, u: Mem, w: Mem, t: int, i: int, p: int, free0: seq<int>, free: seq<int>, other: int)
    requires 0 <= i < PTRS_PER_PAGE && Table(v, t, i) == 0 && p % PAGE_SIZE == 0 && p != 0
    requires TwoTrees(v, free0, t, other) && p in free0 && p !in free && forall q :: q in free ==> q in free0
    requires PageWrites(v, u, p) && (forall j :: 0 <= j < PTRS_PER_PAGE ==> u[p + 4 * j] == 0) && w == u[t + 4 * i := p + PAGE_TABLE]
    ensures TwoTrees(w, free, t, other) && Table(w, t, i) == p && SameEntries(v, w, other)
    ensures t !in free && t % PAGE_SIZE == 0 && PageWrites(u, w, t) && SameEntries(v, w, t)
    ensures NoTableTwice(v, t) ==> NoTableTwice(w, t)
  {
    hide NoTableTwice;
    assert t in Own(v, t);
    PagesApart(t, p);
    WithFlags(p, PAGE_TABLE);
    NewOwn(v, u, w, t, i, p);
    assert other in Own(v, other);
    hide Entry, SourceTables;
    ForeignWrite(v, u, p, other);
    ForeignWrite(u, w, t, other);
    EntriesTrans(v, u, w, other);
  }

  lemma NewOwn(v: Mem, u: Mem, w: Mem, t: int, i: int, p: int)
    requires 0 <= i < PTRS_PER_PAGE && Table(v, t, i) == 0 && p % PAGE_SIZE == 0 && t % PAGE_SIZE == 0 && p != 0 && p != t
    requires PageWrites(v, u, p) && (forall j :: 0 <= j < PTRS_PER_PAGE ==> u[p + 4 * j] == 0) && w == u[t + 4 * i := p + PAGE_TABLE]
    requires p !in SourceTables(v, t) && t !in SourceTables(v, t)
    ensures SourceTables(w, t) <= SourceTables(v, t) + {p} && Own(w, t) <= Own(v, t) + {p} && Table(w, t, i) == p
    ensures SameEntries(v, w, t)
    ensures NoTableTwice(v, t) ==> NoTableTwice(w, t)
  {
    PagesApart(t, p);
    WithFlags(p, PAGE_TABLE);
    forall k | 0 <= k < PTRS_PER_PAGE ensures Table(w, t, k) == (if k == i then p else Table(v, t, k)) && Table(v, t, k) != p {
      if Table(v, t, k) != 0 {
        TableOwned(v, t, k);
      }
    }
    forall q | q in SourceTables(w, t) ensures q == p || q in SourceTables(v, t) {
    }
    forall h, k | 0 <= h < PTRS_PER_PAGE && 0 <= k < PTRS_PER_PAGE ensures Entry(w, t, h, k) == Entry(v, t, h, k) {
      if h != i && Table(v, t, h) != 0 {
        TableOwned(v, t, h);
        PagesApart(Table(v, t, h), p);
        PagesApart(Table(v, t, h), t);
      }
    }
  }

  /** The copy and its source are two trees in use, with no page in common. */
  lemma CopySeparate(v: Mem, w: Mem, counts0: Mem, head: int, free: seq<int>, free': seq<int>, pages: int, tree: int, d: int, cow: bool)
    requires PagesOK(v, counts0, head, free, pages) && TreeOK(v, counts0, free, pages, tree) && RoomToCopy(v, counts0, free, pages, tree)
    requires TreeCopied(v, w, free, tree, d, PTRS_PER_PAGE, cow) && d == free[0]
    requires free' == free[1 + Tables(v, tree, PTRS_PER_PAGE)..]
    ensures TwoTrees(w, free', d, tree)
  {
    FreePages(v, counts0, head, free, pages);
    Room(v, counts0, free, pages, tree);
    hide PagesOK, RoomToCopy;
    var taken := 1 + Tables(v, tree, PTRS_PER_PAGE);
    forall p | p in free' ensures p in free {
    }
    forall q | q in SourceTables(w, tree) ensures q !in free && q != tree {
      var i :| 0 <= i < PTRS_PER_PAGE && Table(w, tree, i) != 0 && q == Table(w, tree, i);
      assert EntryTouched(v, w, tree, i, cow);
      assert DirOK(v, counts0, free, pages, tree, i);
    }
    forall q | q in SourceTables(w, d) ensures q in free && q != d && q !in free' {
      var i :| 0 <= i < PTRS_PER_PAGE && Table(w, d, i) != 0 && q == Table(w, d, i);
      assert EntryCopied(v, w, free, tree, d, i, cow);
      CopiedTable(v, w, free, pages, tree, d, i, cow);
      TakenTable(v, free, pages, tree, i);
    }
    FreshDiffer(free, 0, 0, pages);
    assert d in free;
    forall k | taken <= k < |free| ensures free[k] != d {
    }
  }

  lemma TakenTable(v: Mem, free: seq<int>, pages: int, tree: int, i: int)
    requires Distinct(free) && (forall p :: p in free ==> IsPage(p, pages)) && 0 <= i < PTRS_PER_PAGE
    requires 1 + Tables(v, tree, PTRS_PER_PAGE) <= |free| && NewTable(v, free, tree, i) != 0
    ensures var p := NewTable(v, free, tree, i); p in free && p != free[0] && p !in free[1 + Tables(v, tree, PTRS_PER_PAGE)..]
  {
    if Table(v, tree, i) != 0 {
      NewTableIs(v, free, pages, tree, i);
      TablesMonotone(v, tree, i + 1, PTRS_PER_PAGE);
    }
  }

  datatype TreeOp = Show(page: int, va: int, flags: int) | Set(va: int, entry: int)

  predicate Proper(op: TreeOp) {
    match op
    case Show(page, va, flags) => 0 <= va < WORD && page % PAGE_SIZE == 0 && 0 <= flags < PAGE_SIZE
    case Set(va, entry) => 0 <= va < WORD
  }

  /** Any run of show_page and set_table_entry on one tree leaves every entry of a separate tree as it was. */
  method Update(s: Pager, t: int, ops: seq<TreeOp>, ghost other: int)
    requires s.Valid() && t != 0 && (forall op :: op in ops ==> Proper(op)) && |ops| <= |s.free|
    requires TwoTrees(s.w, s.free, t, other)
    modifies s
    ensures s.Valid() && SameEntries(old(s.w), s.w, other) && TwoTrees(s.w, s.free, t, other)
  {
    hide PagesOK, TwoTrees, Entry;
    for k := 0 to |ops|
      invariant s.Valid() && |ops| - k <= |s.free| && SameEntries(old(s.w), s.w, other)
      invariant TwoTrees(s.w, s.free, t, other)
    {
      ghost var v := s.w;
      assert Proper(ops[k]);
      match ops[k] {
        case Show(page, va, flags) => ShowPage(s, t, 0, page, va, flags, other);
        case Set(va, entry) => SetTableEntry(s, t, 0, va, entry, other);
      }
      EntriesTrans(old(s.w), v, s.w, other);
    }
  }

  lemma EntriesTrans(u: Mem, v: Mem, w: Mem, t: int)
    requires SameEntries(u, v, t) && SameEntries(v, w, t)
    ensures SameEntries(u, w, t)
  {
    hide Entry;
  }

  /** The entries of t are those that the copied tree had, as they are shared. */
  ghost predicate SharedEntries(v: Mem, tree: int, w: Mem, t: int, cow: bool) {
    forall i, j :: 0 <= i < PTRS_PER_PAGE && 0 <= j < PTRS_PER_PAGE ==>
      Entry(w, t, i, j) == Shared(Entry(v, tree, i, j), cow) && (cow ==> !Writable(Entry(w, t, i, j)))
  }

  /** A tree is copied, and then any run of changes is made to the copy, or to the source: the other one
      still has the entries of the moment of copying, none of them writable if they are copied on write. */
  method CopyThenUpdate(s: Pager, tree: int, cow: bool, ops: seq<TreeOp>, onCopy: bool) returns (d: int)
    requires s.Valid() && TreeOK(s.w, s.counts, s.free, s.pages, tree) && RoomToCopy(s.w, s.counts, s.free, s.pages, tree)
    requires tree != 0 && (forall op :: op in ops ==> Proper(op)) && |ops| + 1 + Tables(s.w, tree, PTRS_PER_PAGE) <= |s.free|
    modifies s
    ensures s.Valid() && TwoTrees(s.w, s.free, d, tree)
    ensures SharedEntries(old(s.w), tree, s.w, if onCopy then tree else d, cow)
  {
    hide PagesOK, TreeOK, RoomToCopy, TreeCopied, TreeCounted, TreeConfined, TwoTrees, SharedEntries, SameEntries, Tables;
    ghost var v, counts0, head0, free0 := s.w, s.counts, s.freePageList, s.free;
    d := CopyPageTree(s, tree, cow);
    ghost var u := s.w;
    CopySeparate(v, u, counts0, head0, free0, s.free, s.pages, tree, d, cow);
    CopyShares(v, u, counts0, head0, free0, s.pages, tree, d, cow);
    if onCopy {
      Update(s, d, ops, tree);
      StillShared(v, tree, u, s.w, tree, cow);
    } else {
      Swap(u, s.free, d, tree);
      Update(s, tree, ops, d);
      Swap(s.w, s.free, tree, d);
      StillShared(v, tree, u, s.w, d, cow);
    }
  }

  lemma Swap(w: Mem, free: seq<int>, t: int, other: int)
    requires TwoTrees(w, free, t, other)
    ensures TwoTrees(w, free, other, t)
  {
    hide InUse, Own;
  }

  lemma StillShared(v: Mem, tree: int, u: Mem, w: Mem, t: int, cow: bool)
    requires SharedEntries(v, tree, u, t, cow) && SameEntries(u, w, t)
    ensures SharedEntries(v, tree, w, t, cow)
  {
    hide Entry, Shared, Writable;
    forall i, j | 0 <= i < PTRS_PER_PAGE && 0 <= j < PTRS_PER_PAGE
      ensures Entry(w, t, i, j) == Shared(Entry(v, tree, i, j), cow) && (cow ==> !Writable(Entry(w, t, i, j)))
    {
      assert Entry(w, t, i, j) == Entry(u, t, i, j);
    }
  }

  lemma CopyShares(v: Mem, w: Mem, counts: Mem, head: int, free: seq<int>, pages: int, tree: int, d: int, cow: bool)
    requires PagesOK(v, counts, head, free, pages) && TreeOK(v, counts, free, pages, tree) && RoomToCopy(v, counts, free, pages, tree)
    requires TreeCopied(v, w, free, tree, d, PTRS_PER_PAGE, cow) && d == free[0]
    ensures SharedEntries(v, tree, w, d, cow) && SharedEntries(v, tree, w, tree, cow) && d != 0
  {
    hide PagesOK, TreeOK, TreeCopied, Entry, Shared, Writable, Tables;
    FreePages(v, counts, head, free, pages);
    forall i, j | 0 <= i < PTRS_PER_PAGE && 0 <= j < PTRS_PER_PAGE
      ensures Entry(w, d, i, j) == Shared(Entry(v, tree, i, j), cow) && (cow ==> !Writable(Entry(w, d, i, j)))
      ensures Entry(w, tree, i, j) == Shared(Entry(v, tree, i, j), cow) && (cow ==> !Writable(Entry(w, tree, i, j)))
    {
      CopyResolves(v, w, counts, free, pages, tree, d, cow, i, j);
    }
    assert d in free;
  }
}
