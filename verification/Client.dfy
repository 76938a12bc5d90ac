/** The heap as its clients see it: any run of malloc, free and realloc, with the clients reading and
    writing their blocks in between, behaves like a store of separate blocks. */
module Client {
  import opened Words
  import opened Memory
  import opened BinIndex
  import opened MallocState
  import opened Layouts
  import opened HeapInv
  import opened ChunkOps
  import opened SysAlloc
  import opened Malloc
  import opened FreeChunk
  import opened Realloc
  import opened Memalign
  import opened Overrun

  /** Blocks in use are 8-aligned, lie in the segment with their head word, and do not overlap. */
  lemma BlocksApart(m: State, p: int, q: int)
    requires Inv(m) && p in m.lay.live && q in m.lay.live
    ensures p in m.lay.size && q in m.lay.size && (p + 8) % 8 == 0
    ensures m.segBase <= p && p + m.lay.size[p] + 4 <= m.segBase + m.segSize
    ensures p != q ==> p + m.lay.size[p] + 4 <= q + 4 || q + m.lay.size[q] + 4 <= p + 4
  {
    hide Heap;
    ReadyTop(m);
    LiveOf(m);
    PinIs(m, p);
    PinIs(m, q);
    TopFacts(m, {});
    if p != q {
      LiveApart(m, p, q);
    }
    InSegment(m, p);
  }

  lemma InSegment(m: State, p: int)
    requires Ready(m, {}) && p in m.lay.size
    ensures m.memBase <= p && p + m.lay.size[p] <= m.lay.top
  {
    ChunkFits(m.lay, p);
    AlignFacts(m.memBase);
    hide Heap;
  }

  // ---- the abstract store ----

  /** A block of `size` bytes, of which those in data have been written. */
  datatype Block = Block(size: int, data: map<int, int>)

  type Store = map<int, Block>

  datatype Op =
    | Malloc(bytes: int)
    | Free(mem: int)
    | Realloc(mem: int, bytes: int)
    | Align(alignment: int, bytes: int)
    | Write(mem: int, offset: int, value: int)
    | Read(mem: int, offset: int)

  /** A request that cannot make the first segment overrun: there are blocks already, or its size does
      not wrap around. */
  predicate SafeRequest(store: Store, bytes: int) {
    store != map[] || !WrapsAround(bytes)
  }

  /** The client plays by the rules: it uses blocks it has, within their bounds. */
  predicate Proper(store: Store, op: Op) {
    match op
    case Malloc(bytes) => 0 <= bytes < WORD && SafeRequest(store, bytes)
    case Free(mem) => mem in store
    case Realloc(mem, bytes) => mem in store && 0 <= bytes < WORD
    case Align(alignment, bytes) =>
      0 <= alignment <= HIGH_BIT && 0 <= bytes < WORD && SafeRequest(store, Asked(alignment, bytes))
    case Write(mem, offset, value) => mem in store && 0 <= offset < store[mem].size && 0 <= value < 256
    case Read(mem, offset) => mem in store && 0 <= offset < store[mem].size
  }

  /** A block of `size` bytes at mem is apart from those in the store other than old. */
  ghost predicate Apart(store: Store, old0: int, mem: int, size: int) {
    && mem % 8 == 0
    && forall q :: q in store && q != old0 ==> q != mem && (q + store[q].size <= mem || mem + size <= q)
  }

  /** The results an operation may have. */
  ghost predicate Allowed(store: Store, op: Op, r: int)
    requires Proper(store, op)
  {
    match op
    case Malloc(bytes) => r == 0 || (Apart(store, 0, r, bytes) && bytes < MAX_REQUEST)
    case Free(mem) => r == 0
    case Realloc(mem, bytes) =>
      (r == 0 || (Apart(store, mem, r, bytes) && bytes < MAX_REQUEST)) && (bytes <= store[mem].size ==> r == mem)
    case Align(alignment, bytes) => r == 0 || (Apart(store, 0, r, bytes) && (alignment > 8 ==> Aligned(r, Alignment(alignment))))
    case Write(mem, offset, value) => r == 0
    case Read(mem, offset) => offset in store[mem].data ==> r == store[mem].data[offset]
  }

  /** The first n bytes of data. */
  function Prefix(data: map<int, int>, n: int): map<int, int> {
    map o | o in data && o < n :: data[o]
  }

  /** The store after an operation with result r. */
  function Next(store: Store, op: Op, r: int): Store
    requires Proper(store, op)
  {
    match op
    case Malloc(bytes) => if r == 0 then store else store[r := Block(bytes, map[])]
    case Free(mem) => store - {mem}
    case Realloc(mem, bytes) => if r == 0 then store else (store - {mem})[r := Block(bytes, Prefix(store[mem].data, bytes))]
    case Align(alignment, bytes) => if r == 0 then store else store[r := Block(bytes, map[])]
    case Write(mem, offset, value) => store[mem := store[mem].(data := store[mem].data[offset := value])]
    case Read(mem, offset) => store
  }

  /** The results of a run are allowed, one after the other; what is not proper is not done. */
  ghost predicate Trace(store: Store, ops: seq<Op>, results: seq<int>)
    requires |ops| == |results|
    decreases |ops|
  {
    |ops| > 0 ==>
      if Proper(store, ops[0]) then
        Allowed(store, ops[0], results[0]) && Trace(Next(store, ops[0], results[0]), ops[1..], results[1..])
      else
        Trace(store, ops[1..], results[1..])
  }

  // ---- how the heap represents it ----

  /** The chunk at q - 8 holds the block. */
  ghost predicate BlockAt(w: Mem, l: Layout, q: int, b: Block) {
    && q - 8 in l.size && 0 <= b.size <= l.size[q - 8] - 4
    && forall o :: o in b.data ==> 0 <= o < b.size && ByteOf(w, q, o) == b.data[o]
  }

  ghost predicate Holds(w: Mem, l: Layout, store: Store) {
    && (forall q :: q in store ==> q - 8 in l.live && BlockAt(w, l, q, store[q]))
    && (forall p :: p in l.live ==> p + 8 in store)
  }

  ghost predicate Represents(m: State, store: Store)
    reads m
  {
    Inv(m) && Holds(m.w, m.lay, store)
  }

  lemma BlockKept(v: Mem, w: Mem, l: Layout, l': Layout, q: int, b: Block)
    requires BlockAt(v, l, q, b) && KeptAt(v, w, l, l', q - 8) && q % 8 == 0
    ensures BlockAt(w, l', q, b)
  {
    SameWordsSameBytes(v, w, q, l.size[q - 8] - 4);
    hide ByteOf;
  }

  lemma SafeNoOverrun(m: State, store: Store, bytes: int)
    requires Represents(m, store) && SafeRequest(store, bytes) && 0 <= bytes
    ensures !Overruns(m, RequestSize(bytes))
  {
    hide Heap, Overruns, RequestSize, BlockAt;
    if m.top == 0 {
      OverrunsExactly(m, bytes);
      NoBlocks(m.w, m.lay, store);
    } else {
      OverrunsOnlyFirst(m, RequestSize(bytes));
    }
  }

  lemma NoBlocks(w: Mem, l: Layout, store: Store)
    requires Holds(w, l, store) && l.live == {}
    ensures store == map[]
  {
    hide BlockAt;
    HoldsKeys(w, l, store);
    assert forall q :: q in store.Keys ==> q !in store;
    assert store.Keys == {};
  }

  lemma AskedPositive(alignment: int, bytes: int)
    requires 0 <= bytes < WORD
    ensures Asked(alignment, bytes) >= 0
  {
    hide Alignment;
    if bytes < MAX_REQUEST {
      RequestSizeLeast(bytes);
    }
  }

  // ---- every operation refines its abstract counterpart ----

  /** All chunks in use start at multiples of 8. */
  ghost predicate ChunksAligned(l: Layout) {
    forall p :: p in l.live ==> p % 8 == 0
  }

  lemma LiveAligned(m: State)
    requires Inv(m)
    ensures ChunksAligned(m.lay)
  {
    forall p | p in m.lay.live ensures p % 8 == 0 {
      ReadyTop(m);
      PinIs(m, p);
    }
    hide Heap;
  }

  /** Blocks whose chunks are kept stay what they are. */
  lemma Carried(v: Mem, w: Mem, l: Layout, l': Layout, store: Store, s: set<int>)
    requires Holds(v, l, store) && ChunksAligned(l) && Kept(v, w, l, l', s) && s <= l.live
    ensures forall q :: q in store && q - 8 in s ==> BlockAt(w, l', q, store[q])
  {
    forall q | q in store && q - 8 in s ensures BlockAt(w, l', q, store[q]) {
      assert KeptAt(v, w, l, l', q - 8);
      BlockKept(v, w, l, l', q, store[q]);
    }
  }

  /** A block with no bytes written yet. */
  lemma NewBlock(w: Mem, l: Layout, r: int, bytes: int, nb: int)
    requires r - 8 in l.size && l.size[r - 8] >= nb && 0 <= bytes <= nb - 4
    ensures BlockAt(w, l, r, Block(bytes, map[]))
  {
  }

  lemma ApartFrom(m: State, store: Store, old0: int, r: int, bytes: int)
    requires Inv(m) && r - 8 in m.lay.live && r - 8 in m.lay.size && 0 <= bytes <= m.lay.size[r - 8] - 4
    requires forall q :: q in store && q != old0 ==> q != r && q - 8 in m.lay.live && BlockAt(m.w, m.lay, q, store[q])
    ensures Apart(store, old0, r, bytes)
  {
    hide Inv;
    BlocksApart(m, r - 8, r - 8);
    forall q | q in store && q != old0 ensures q != r && (q + store[q].size <= r || r + bytes <= q) {
      BlocksApart(m, q - 8, r - 8);
    }
  }

  method DoMalloc(m: State, bytes: int, ghost store: Store) returns (r: int)
    requires Represents(m, store) && 0 <= bytes < WORD && SafeRequest(store, bytes)
    modifies m
    ensures Represents(m, Next(store, Op.Malloc(bytes), r)) && Allowed(store, Op.Malloc(bytes), r)
  {
    hide Inv, Kept, Confined, RequestSize, Holds, Fits, Granted, BlockAt, Overruns, Served, CanServe, Choice, VictimAfter;
    hide GrantedSize, FirstGranted;
    ghost var v, l := m.w, m.lay;
    SafeNoOverrun(m, store, bytes);
    LiveAligned(m);
    r := Dlmalloc(m, bytes);
    Carried(v, m.w, l, m.lay, store, l.live);
    HoldsKeys(v, l, store);
    if r != 0 {
      ServedFacts(l, m.lay, r - 8, RequestSize(bytes));
      Refused(m, bytes, r - 8);
      RequestSizeLeast(bytes);
      NewBlock(m.w, m.lay, r, bytes, RequestSize(bytes));
      ApartFrom(m, store, 0, r, bytes);
      HoldsMore(m.w, m.lay, l, store, r, bytes);
    } else {
      HoldsSame(m.w, m.lay, l, store);
    }
  }

  lemma HoldsKeys(w: Mem, l: Layout, store: Store)
    requires Holds(w, l, store)
    ensures forall q :: q in store ==> q - 8 in l.live
    ensures forall p :: p in l.live ==> p + 8 in store
  {
  }

  lemma HoldsSame(w: Mem, l': Layout, l: Layout, store: Store)
    requires l'.live == l.live && forall q :: q in store ==> q - 8 in l.live && BlockAt(w, l', q, store[q])
    requires forall p :: p in l.live ==> p + 8 in store
    ensures Holds(w, l', store)
  {
    hide BlockAt;
  }

  lemma HoldsMore(w: Mem, l': Layout, l: Layout, store: Store, r: int, bytes: int)
    requires l'.live == l.live + {r - 8} && r - 8 !in l.live
    requires forall q :: q in store ==> q - 8 in l.live && BlockAt(w, l', q, store[q])
    requires forall p :: p in l.live ==> p + 8 in store
    requires BlockAt(w, l', r, Block(bytes, map[]))
    ensures Holds(w, l', store[r := Block(bytes, map[])])
  {
    hide BlockAt;
  }

  /** A request that is too big is not served. */
  lemma Refused(m: State, bytes: int, p: int)
    requires Inv(m) && p in m.lay.live && p in m.lay.size && m.lay.size[p] >= RequestSize(bytes)
    ensures bytes < MAX_REQUEST
  {
    BlocksApart(m, p, p);
    ReadyTop(m);
    SizesEven(m, {});
    hide Inv, Heap;
  }

  method DoFree(m: State, mem: int, ghost store: Store) returns (r: int)
    requires Represents(m, store) && mem in store
    modifies m
    ensures Represents(m, Next(store, Op.Free(mem), r)) && Allowed(store, Op.Free(mem), r)
  {
    hide Inv, Kept, Confined, Holds, BlockAt;
    ghost var v, l := m.w, m.lay;
    LiveAligned(m);
    HoldsKeys(v, l, store);
    NonZero(m, mem);
    Dlfree(m, mem);
    Carried(v, m.w, l, m.lay, store, m.lay.live);
    HoldsLess(m.w, m.lay, l, store, mem);
    r := 0;
  }

  lemma NonZero(m: State, mem: int)
    requires Inv(m) && mem - 8 in m.lay.live
    ensures mem != 0
  {
    ReadyTop(m);
    PinIs(m, mem - 8);
    hide Inv, Heap;
  }

  lemma HoldsLess(w: Mem, l': Layout, l: Layout, store: Store, mem: int)
    requires l'.live == l.live - {mem - 8}
    requires forall q :: q in store ==> q - 8 in l.live
    requires forall q :: q in store && q - 8 in l'.live ==> BlockAt(w, l', q, store[q])
    requires forall p :: p in l.live ==> p + 8 in store
    ensures Holds(w, l', store - {mem})
  {
    hide BlockAt;
    forall q | q in store - {mem} ensures q - 8 in l'.live && BlockAt(w, l', q, (store - {mem})[q]) {
      assert q in store && q != mem;
    }
  }

  method DoRealloc(m: State, mem: int, bytes: int, ghost store: Store) returns (r: int)
    requires Represents(m, store) && mem in store && 0 <= bytes < WORD
    modifies m
    ensures Represents(m, Next(store, Op.Realloc(mem, bytes), r)) && Allowed(store, Op.Realloc(mem, bytes), r)
  {
    hide Inv, Kept, Confined, Holds, BlockAt, RequestSize, SameBytes, Resized, CanServe, Resizable;
    ghost var v, l, p := m.w, m.lay, mem - 8;
    LiveAligned(m);
    HoldsKeys(v, l, store);
    NonZero(m, mem);
    BlockHeld(v, l, store, mem);
    if bytes <= store[mem].size {
      StaysPut(m, mem, store[mem], bytes);
    }
    r := InternalRealloc(m, mem, bytes);
    if r != 0 {
      RequestSizeLeast(bytes);
      ResizedFacts(v, m.w, l, m.lay, p, r - 8, RequestSize(bytes));
      Carried(v, m.w, l, m.lay, store, l.live - {p});
      MovedBlock(v, m.w, l, m.lay, mem, r, store[mem], bytes);
      ApartFrom(m, store, mem, r, bytes);
      HoldsMoved(m.w, m.lay, l, store, mem, r, Block(bytes, Prefix(store[mem].data, bytes)));
    } else {
      Carried(v, m.w, l, m.lay, store, l.live);
      HoldsSame(m.w, m.lay, l, store);
    }
  }

  /** A block that is not to grow need not move. */
  lemma StaysPut(m: State, mem: int, b: Block, bytes: int)
    requires Inv(m) && mem - 8 in m.lay.live && BlockAt(m.w, m.lay, mem, b) && 0 <= bytes <= b.size
    ensures bytes < MAX_REQUEST && Resizable(m, mem - 8, RequestSize(bytes))
  {
    var p := mem - 8;
    BlocksApart(m, p, p);
    ReadyTop(m);
    PinIs(m, p);
    SegmentBound(m);
    RequestSizeMinimal(bytes, m.lay.size[p]);
    hide Inv, RequestSize;
  }

  lemma SegmentBound(m: State)
    requires Inv(m) && m.top != 0
    ensures 0 < m.segBase && m.segBase + m.segSize < WORD - 1
    ensures m.segSize <= KERNEL_DATA_SPACE
  {
    hide Heap;
  }

  lemma BlockHeld(w: Mem, l: Layout, store: Store, q: int)
    requires Holds(w, l, store) && q in store
    ensures BlockAt(w, l, q, store[q])
  {
    hide BlockAt;
  }

  lemma ResizedFacts(v: Mem, w: Mem, l: Layout, l': Layout, p: int, p': int, nb: int)
    requires Resized(v, w, l, l', p, p', nb)
    ensures p' in l'.size && l'.live == l.live - {p} + {p'} && nb <= l'.size[p'] && (p' == p || p' !in l.live)
    ensures Kept(v, w, l, l', l.live - {p})
  {
    hide Kept;
  }

  lemma MovedBlock(v: Mem, w: Mem, l: Layout, l': Layout, mem: int, r: int, b: Block, bytes: int)
    requires BlockAt(v, l, mem, b) && r - 8 in l'.size && 0 <= bytes <= l'.size[r - 8] - 4
    requires SameBytes(v, mem, w, r, Min(l.size[mem - 8] - 4, bytes))
    ensures BlockAt(w, l', r, Block(bytes, Prefix(b.data, bytes)))
  {
    hide ByteOf;
    var data := Prefix(b.data, bytes);
    forall o | o in data ensures 0 <= o < bytes && ByteOf(w, r, o) == data[o] {
      assert o in b.data;
      assert ByteOf(w, r, o) == ByteOf(v, mem, o);
    }
  }

  lemma HoldsMoved(w: Mem, l': Layout, l: Layout, store: Store, mem: int, r: int, b: Block)
    requires l'.live == l.live - {mem - 8} + {r - 8} && (r == mem || r - 8 !in l.live) && BlockAt(w, l', r, b)
    requires forall q :: q in store ==> q - 8 in l.live
    requires forall q :: q in store && q - 8 in l.live - {mem - 8} ==> BlockAt(w, l', q, store[q])
    requires forall p :: p in l.live ==> p + 8 in store
    ensures Holds(w, l', (store - {mem})[r := b])
  {
    hide BlockAt;
    var store' := (store - {mem})[r := b];
    forall q | q in store' ensures q - 8 in l'.live && BlockAt(w, l', q, store'[q]) {
      if q != r {
        assert q in store && q != mem;
      }
    }
  }

  method DoAlign(m: State, alignment: int, bytes: int, ghost store: Store) returns (r: int)
    requires Represents(m, store) && Proper(store, Align(alignment, bytes))
    modifies m
    ensures Represents(m, Next(store, Align(alignment, bytes), r)) && Allowed(store, Align(alignment, bytes), r)
  {
    hide Inv, Kept, Confined, RequestSize, Holds, Fits, Granted, BlockAt, Overruns, Alignment, Asked;
    ghost var v, l := m.w, m.lay;
    AskedPositive(alignment, bytes);
    SafeNoOverrun(m, store, Asked(alignment, bytes));
    LiveAligned(m);
    r := Dlmemalign(m, alignment, bytes);
    Carried(v, m.w, l, m.lay, store, l.live);
    HoldsKeys(v, l, store);
    if r != 0 {
      Refused(m, bytes, r - 8);
      RequestSizeLeast(bytes);
      NewBlock(m.w, m.lay, r, bytes, RequestSize(bytes));
      ApartFrom(m, store, 0, r, bytes);
      HoldsMore(m.w, m.lay, l, store, r, bytes);
    } else {
      HoldsSame(m.w, m.lay, l, store);
    }
  }

  method DoWrite(m: State, mem: int, offset: int, value: int, ghost store: Store) returns (r: int)
    requires Represents(m, store) && Proper(store, Write(mem, offset, value))
    modifies m
    ensures Represents(m, Next(store, Write(mem, offset, value), r)) && Allowed(store, Write(mem, offset, value), r)
  {
    hide Heap, Kept, Confined, Holds, BlockAt;
    ghost var v, l, p := m.w, m.lay, mem - 8;
    LiveAligned(m);
    HoldsKeys(v, l, store);
    BlockHeld(v, l, store, mem);
    ReadyTop(m);
    var a := mem + offset;
    m.w := m.w[a / 4 * 4 := PutByte(m.w[a / 4 * 4], a % 4, value)];
    WriteInside(v, m.w, l, mem, offset, value, store[mem]);
    ClientWrite(m.gm, v, m.w, m.smallmap, m.treemap, l, m.bins, m.dv, m.dvsize, {}, p);
    Carried(v, m.w, l, l, store, l.live - {p});
    HoldsWritten(m.w, l, store, mem, store[mem].(data := store[mem].data[offset := value]));
    r := 0;
  }

  lemma WriteInside(v: Mem, w: Mem, l: Layout, mem: int, offset: int, value: int, b: Block)
    requires BlockAt(v, l, mem, b) && mem % 8 == 0 && 0 <= offset < b.size && 0 <= value < 256
    requires var a := mem + offset; w == v[a / 4 * 4 := PutByte(v[a / 4 * 4], a % 4, value)]
    ensures WritesOnly(v, w, l, mem - 8) && BlockAt(w, l, mem, b.(data := b.data[offset := value]))
  {
    var a := mem + offset;
    WordOf(mem, offset);
    OneByte(v, w, a, value);
    hide ByteAt, PutByte;
  }

  lemma HoldsWritten(w: Mem, l: Layout, store: Store, mem: int, b: Block)
    requires BlockAt(w, l, mem, b) && mem in store && mem - 8 in l.live
    requires forall q :: q in store ==> q - 8 in l.live
    requires forall q :: q in store && q - 8 in l.live - {mem - 8} ==> BlockAt(w, l, q, store[q])
    requires forall p :: p in l.live ==> p + 8 in store
    ensures Holds(w, l, store[mem := b])
  {
    hide BlockAt;
  }

  method DoRead(m: State, mem: int, offset: int, ghost store: Store) returns (r: int)
    requires Represents(m, store) && Proper(store, Read(mem, offset))
    ensures Allowed(store, Read(mem, offset), r)
  {
    hide Inv;
    r := ByteAt(m.w, mem + offset);
    BlockHeld(m.w, m.lay, store, mem);
    if offset in store[mem].data {
      assert ByteOf(m.w, mem, offset) == store[mem].data[offset];
    }
  }

  method Step(m: State, op: Op, ghost store: Store) returns (r: int)
    requires Represents(m, store) && Proper(store, op)
    modifies m
    ensures Represents(m, Next(store, op, r)) && Allowed(store, op, r)
  {
    hide Represents, Allowed, Next;
    match op
    case Malloc(bytes) => r := DoMalloc(m, bytes, store);
    case Free(mem) => r := DoFree(m, mem, store);
    case Realloc(mem, bytes) => r := DoRealloc(m, mem, bytes, store);
    case Align(alignment, bytes) => r := DoAlign(m, alignment, bytes, store);
    case Write(mem, offset, value) => r := DoWrite(m, mem, offset, value, store);
    case Read(mem, offset) =>
      r := DoRead(m, mem, offset, store);
      ReadKeeps(store, mem, offset, r);
  }

  lemma ReadKeeps(store: Store, mem: int, offset: int, r: int)
    requires Proper(store, Read(mem, offset))
    ensures Next(store, Read(mem, offset), r) == store
  {
  }

  /** Any run from the zeroed state: the heap behaves like the store of separate blocks. */
  method Run(m: State, ops: seq<Op>, store0: Store) returns (results: seq<int>)
    requires Represents(m, store0)
    modifies m
    ensures |results| == |ops| && Trace(store0, ops, results)
    decreases |ops|
  {
    hide Represents, Allowed, Next;
    if |ops| == 0 {
      results := [];
    } else if Proper(store0, ops[0]) {
      var r := Step(m, ops[0], store0);
      var store1 := Next(store0, ops[0], r);
      var rest := Run(m, ops[1..], store1);
      results := [r] + rest;
      assert results[1..] == rest;
    } else {
      var rest := Run(m, ops[1..], store0);
      results := [0] + rest;
      assert results[1..] == rest;
    }
  }

  /** The same from the start: the kernel's static data is zero, and there are no blocks. */
  method Boot(gm: int, memBase: int, w: Mem, ops: seq<Op>) returns (results: seq<int>)
    requires Env(gm, memBase) && forall i :: 0 <= i < NTREEBINS ==> w[TreeBinAt(gm, i)] == 0
    ensures |results| == |ops| && Trace(map[], ops, results)
  {
    var m := new State(gm, memBase, w);
    assert m.bins == NoBins();
    assert Holds(m.w, m.lay, map[]);
    results := Run(m, ops, map[]);
  }
}
