/** The pointer cache over the default combined operations: which reservations are outstanding. */
module PointerCache {
  import opened Words

  // ---- a nest ----

  const VERS_NEWEST: int := 2
  const PRIO_NONE: int := 0
  const PRIO_BACKGROUND: int := 1
  const PRIO_NORMAL: int := 2

  /** The fields of struct args that matter here. */
  datatype Args = Args(logAddr: nat, logLen: nat, physAddr: nat, physLen: nat, prio: int, version: int, success: bool)

  /** What an elementary operation of the nest answers. */
  datatype Answer = Answer(success: bool, version: int, physAddr: nat, physLen: nat, logAddr: nat, logLen: nat)

  /** A reservation was made, or given back. */
  datatype Event = Got(addr: nat, len: nat) | GivenBack(addr: nat, len: nat, prio: int)

  /** How many more times (a, l) was reserved than it was given back. */
  function Net(t: seq<Event>, a: nat, l: nat): int {
    if t == [] then 0
    else Net(t[..|t| - 1], a, l) + Weight(t[|t| - 1], a, l)
  }

  function Weight(e: Event, a: nat, l: nat): int {
    if e.addr != a || e.len != l then 0 else if e.Got? then 1 else -1
  }

  lemma {:induction false} NetAppend(s: seq<Event>, t: seq<Event>, a: nat, l: nat)
    ensures Net(s + t, a, l) == Net(s, a, l) + Net(t, a, l)
  {
    if t == [] {
      assert s + t == s;
    } else {
      assert (s + t)[..|s + t| - 1] == s + t[..|t| - 1];
      NetAppend(s, t[..|t| - 1], a, l);
    }
  }

  /** The connection to a nest.  Its elementary operations report success faithfully, by setting the flag that
      the caller has cleared; a put succeeds.  The combined operations are the default ones. */
  class Nest {
    const answers: nat -> Answer
    /** How many of the answers have been given. */
    var next: nat
    ghost var trace: seq<Event>

    constructor (answers: nat -> Answer)
      ensures this.answers == answers && next == 0 && trace == []
    {
      this.answers, next, trace := answers, 0, [];
    }

    /** trans, wait and create: nothing but success or failure matters. */
    method Plain(args: Args) returns (r: Args)
      modifies this`next
      ensures next == old(next) + 1 && r == args.(success := args.success || answers(old(next)).success)
    {
      r := args.(success := args.success || answers(next).success);
      next := next + 1;
    }

    method Get(args: Args) returns (r: Args)
      modifies this`next, this`trace
      ensures next == old(next) + 1
      ensures var a := answers(old(next));
              if a.success then r == args.(success := true, version := a.version, physAddr := a.physAddr, physLen := a.physLen)
                                && trace == old(trace) + [Got(args.logAddr, args.logLen)]
              else r == args && trace == old(trace)
    {
      var a := answers(next);
      next := next + 1;
      r := args;
      if a.success {
        r := args.(success := true, version := a.version, physAddr := a.physAddr, physLen := a.physLen);
        trace := trace + [Got(args.logAddr, args.logLen)];
      }
    }

    method Put(args: Args) returns (r: Args)
      modifies this`trace
      ensures r == args.(success := true) && trace == old(trace) + [GivenBack(args.logAddr, args.logLen, args.prio)]
    {
      r := args.(success := true);
      trace := trace + [GivenBack(args.logAddr, args.logLen, args.prio)];
    }

    method Gadr(args: Args) returns (r: Args)
      modifies this`next
      ensures next == old(next) + 1
      ensures var a := answers(old(next));
              r == if a.success then args.(success := true, logAddr := a.logAddr, logLen := a.logLen) else args
    {
      var a := answers(next);
      next := next + 1;
      r := if a.success then args.(success := true, logAddr := a.logAddr, logLen := a.logLen) else args;
    }

    /** missing__transwait */
    method TransWait(args: Args) returns (r: Args)
      requires !args.success
      modifies this`next
      ensures r == args.(success := answers(old(next)).success && answers(old(next) + 1).success)
      ensures next == old(next) + if answers(old(next)).success then 2 else 1
    {
      r := Plain(args);
      if !r.success {
        return;
      }
      r := r.(success := false);
      r := Plain(r);
    }

    /** missing__gettranswait: on failure nothing stays reserved. */
    method GetTransWait(args: Args) returns (r: Args)
      requires !args.success
      modifies this`next, this`trace
      ensures r.success <==> GetSucceeds(answers, old(next))
      ensures r.logAddr == args.logAddr && r.logLen == args.logLen && next == old(next) + GetUses(answers, old(next))
      ensures r.success ==> r.physAddr == answers(old(next)).physAddr && r.physLen == answers(old(next)).physLen
      ensures trace == old(trace) + if r.success then [Got(args.logAddr, args.logLen)]
                                    else if answers(old(next)).success then
                                      [Got(args.logAddr, args.logLen), GivenBack(args.logAddr, args.logLen, PRIO_NONE)]
                                    else []
    {
      r := Get(args);
      if !r.success {
        return;
      }
      if r.version < VERS_NEWEST {
        r := r.(success := false);
        r := TransWait(r);
        if !r.success {
          r := r.(prio := PRIO_NONE);
          r := Put(r);
          r := r.(success := false);
        }
      }
    }

    /** missing__createget */
    method CreateGet(args: Args) returns (r: Args)
      requires !args.success
      modifies this`next, this`trace
      ensures r.success <==> answers(old(next)).success && answers(old(next) + 1).success
      ensures r.logAddr == args.logAddr && r.logLen == args.logLen
      ensures r.success ==> r.physAddr == answers(old(next) + 1).physAddr
      ensures next == old(next) + if answers(old(next)).success then 2 else 1
      ensures trace == old(trace) + if r.success then [Got(args.logAddr, args.logLen)] else []
    {
      r := Plain(args);
      if !r.success {
        return;
      }
      r := r.(success := false);
      r := Get(r);
    }

    /** missing__gadrcreateget */
    method GadrCreateGet(args: Args) returns (r: Args)
      requires !args.success
      modifies this`next, this`trace
      ensures r.success <==> AllocSucceeds(answers, old(next))
      ensures r.success ==> r.logAddr == answers(old(next)).logAddr && r.logLen == answers(old(next)).logLen
      ensures r.success ==> r.physAddr == answers(old(next) + 2).physAddr
      ensures next == old(next) + AllocUses(answers, old(next))
      ensures trace == old(trace) + if r.success then [Got(r.logAddr, r.logLen)] else []
    {
      r := Gadr(args);
      if !r.success {
        return;
      }
      r := r.(success := false);
      r := CreateGet(r);
    }
  }

  /** The answers from the n-th on make a gettranswait succeed. */
  predicate GetSucceeds(answers: nat -> Answer, n: nat) {
    answers(n).success && (answers(n).version >= VERS_NEWEST || (answers(n + 1).success && answers(n + 2).success))
  }

  function GetUses(answers: nat -> Answer, n: nat): nat {
    if !answers(n).success || answers(n).version >= VERS_NEWEST then 1 else if answers(n + 1).success then 3 else 2
  }

  predicate AllocSucceeds(answers: nat -> Answer, n: nat) {
    answers(n).success && answers(n + 1).success && answers(n + 2).success
  }

  function AllocUses(answers: nat -> Answer, n: nat): nat {
    if !answers(n).success then 1 else if answers(n + 1).success then 3 else 2
  }

  // ---- the cache ----

  const DIRTY: nat := 1
  const PRESENT: nat := 2

  /** struct pc_elem: the two low bits of the address are flags. */
  datatype Elem = Elem(addr: nat, len: nat, ptr: nat)

  const EMPTY: Elem := Elem(0, 0, 0)

  predicate Present(e: Elem) {
    e.addr / 2 % 2 == 1
  }

  predicate Dirty(e: Elem) {
    e.addr % 2 == 1
  }

  /** addr & ~(PC__DIRTY | PC__PRESENT) */
  function Unflagged(addr: nat): nat {
    addr / 4 * 4
  }

  /** addr | PC__PRESENT, and addr | PC__PRESENT | PC__DIRTY */
  function WithPresent(addr: nat): nat {
    if addr / 2 % 2 == 1 then addr else addr + PRESENT
  }

  function WithDirty(addr: nat): nat {
    if addr % 2 == 1 then addr else addr + DIRTY
  }

  lemma FlagFacts(addr: nat, len: nat, ptr: nat)
    ensures Present(Elem(WithPresent(addr), len, ptr)) && Unflagged(WithPresent(addr)) == Unflagged(addr)
    ensures Present(Elem(WithDirty(WithPresent(addr)), len, ptr)) && Unflagged(WithDirty(WithPresent(addr))) == Unflagged(addr)
    ensures Dirty(Elem(WithDirty(WithPresent(addr)), len, ptr))
    ensures !Present(EMPTY)
  {
    var k, b := addr / 4, addr % 4;
    FourBits(k, b);
    FourBits(k, if b / 2 == 1 then b else b + 2);
    FourBits(k, 3);
  }

  lemma FourBits(k: nat, b: nat)
    requires b < 4
    ensures (4 * k + b) / 4 * 4 == 4 * k && (4 * k + b) / 2 % 2 == b / 2 && (4 * k + b) % 2 == b % 2
  {
    DivUnique(4 * k + b, 4, k, b);
    DivUnique(4 * k + b, 2, 2 * k + b / 2, b % 2);
    DivUnique(2 * k + b / 2, 2, k, b / 2);
  }

  /** How many slots hold a reservation of (a, l). */
  function Count(s: seq<Elem>, a: nat, l: nat): nat {
    if s == [] then 0 else Count(s[..|s| - 1], a, l) + Holds(s[|s| - 1], a, l)
  }

  function Holds(e: Elem, a: nat, l: nat): nat {
    if Present(e) && Unflagged(e.addr) == a && e.len == l then 1 else 0
  }

  lemma {:induction false} CountUpdate(s: seq<Elem>, i: nat, e: Elem, a: nat, l: nat)
    requires i < |s|
    ensures Count(s[i := e], a, l) == Count(s, a, l) - Holds(s[i], a, l) + Holds(e, a, l)
  {
    hide Holds;
    var t := s[i := e];
    if i < |s| - 1 {
      assert t[..|t| - 1] == s[..|s| - 1][i := e];
      CountUpdate(s[..|s| - 1], i, e, a, l);
    } else {
      assert t[..|t| - 1] == s[..|s| - 1];
    }
  }

  lemma {:induction false} CountNone(s: seq<Elem>, a: nat, l: nat)
    requires forall e :: e in s ==> !Present(e)
    ensures Count(s, a, l) == 0
  {
    if s != [] {
      assert forall e :: e in s[..|s| - 1] ==> e in s;
      CountNone(s[..|s| - 1], a, l);
    }
  }

  /** PC__BASE_LEN(0, len, whole), on words */
  function BaseLen(len: nat, whole: nat): nat
    requires whole > 0
  {
    Wrap(Wrap(len - 1) / whole * whole + whole)
  }

  /** PC__BASE_ADDR2(addr, whole) */
  function BaseAddr(addr: nat, whole: nat): nat
    requires whole > 0
  {
    addr / whole * whole
  }

  /** b is the least multiple of `whole` that is no less than n. */
  ghost predicate LeastMultiple(b: nat, n: nat, whole: nat)
    requires whole > 0
  {
    b % whole == 0 && n <= b && forall k: nat :: k % whole == 0 && n <= k ==> b <= k
  }

  /** The length asked for is len rounded up to a multiple of `whole`, as a 32-bit word; no length is taken for 2^32. */
  lemma BaseLenLeast(len: nat, whole: nat) returns (b: nat)
    requires len < WORD && whole > 0
    ensures LeastMultiple(b, if len == 0 then WORD else len, whole) && BaseLen(len, whole) == b % WORD
  {
    hide Wrap;
    var n := if len == 0 then WORD else len;
    WrapSmall(len - 1);
    b := RoundedUp(n, whole);
    forall k: nat | k % whole == 0 && n <= k ensures b <= k {
      if k < b {
        DivMod(k, whole);
        DivUnique(b, whole, k / whole, b - k);
      }
    }
    WrapIs(b);
  }

  lemma WrapIs(b: nat)
    ensures Wrap(b) == b % WORD
  {
  }

  lemma RoundedUp(n: nat, whole: nat) returns (b: nat)
    requires n > 0 && whole > 0
    ensures b == (n - 1) / whole * whole + whole && b % whole == 0 && n <= b < n + whole
  {
    var q := (n - 1) / whole;
    b := q * whole + whole;
    DivMod(n - 1, whole);
    DivUnique(b, whole, q + 1, 0);
  }

  /** The address stored is rounded down. */
  lemma BaseAddrGreatest(addr: nat, whole: nat)
    requires whole > 0
    ensures BaseAddr(addr, whole) % whole == 0 && BaseAddr(addr, whole) <= addr < BaseAddr(addr, whole) + whole
  {
    DivMod(addr, whole);
    DivUnique(BaseAddr(addr, whole), whole, addr / whole, 0);
  }

  /** What a _PC_GET whose answers start at the n-th leaves reserved without a slot for it: nothing, unless the
      nest succeeded and yet gave less than was asked for. */
  function GetLoss(answers: nat -> Answer, n: nat, addr: nat, len: nat): seq<Event> {
    if GetSucceeds(answers, n) && answers(n).physLen < len then [Got(Unflagged(addr), len)] else []
  }

  /** The same of a _PC_ALLOC: nothing, unless the nest gave less than was asked for, or an address that is not
      a multiple of `whole` (or of 4); then the slot stands for another address than the one reserved. */
  function AllocLoss(answers: nat -> Answer, n: nat, len: nat, whole: nat): seq<Event>
    requires whole > 0
  {
    var a := answers(n);
    if !AllocSucceeds(answers, n) then []
    else if a.logLen < BaseLen(len, whole) then [Got(a.logAddr, a.logLen)]
    else if Unflagged(BaseAddr(a.logAddr, whole)) == a.logAddr then []
    else [Got(a.logAddr, a.logLen), GivenBack(Unflagged(BaseAddr(a.logAddr, whole)), a.logLen, PRIO_BACKGROUND)]
  }

  /** The slot stands for the address that was reserved exactly if that is a multiple of 4 and of `whole`. */
  lemma SlotAddress(addr: nat, whole: nat)
    requires whole > 0
    ensures Unflagged(BaseAddr(addr, whole)) == addr <==> addr % 4 == 0 && addr % whole == 0
  {
    DivMod(addr, whole);
    DivMod(BaseAddr(addr, whole), 4);
  }

  class Cache {
    const nest: Nest
    const elem: array<Elem>
    var write: bool
    /** What has been lost so far. */
    ghost var lost: seq<Event>

    constructor (nest: Nest, size: nat)
      requires nest.trace == []
      ensures this.nest == nest && fresh(elem) && elem.Length == size && Valid() && lost == []
      ensures forall i :: 0 <= i < size ==> !Present(elem[i])
    {
      this.nest, this.lost, this.write := nest, [], false;
      this.elem := new Elem[size](i => EMPTY);
      new;
      FlagFacts(0, 0, 0);
      forall a, l ensures Count(elem[..], a, l) == 0 {
        CountNone(elem[..], a, l);
      }
    }

    /** Every reservation outstanding has its slot, but for what was lost. */
    ghost predicate Valid()
      reads this, nest, elem
    {
      Matched(nest.trace, elem[..], lost)
    }

    /** _PC_PUT */
    method Put(i: nat)
      requires Valid() && i < elem.Length && Present(elem[i])
      modifies nest`trace, elem
      ensures Valid() && elem[..] == old(elem[..])[i := EMPTY]
      ensures var e := old(elem[i]);
              nest.trace == old(nest.trace) + [GivenBack(Unflagged(e.addr), e.len, if Dirty(e) then PRIO_BACKGROUND else PRIO_NONE)]
    {
      hide Matched, Explains, Present, Unflagged;
      ghost var s, t := elem[..], nest.trace;
      var e := elem[i];
      var args := Args(Unflagged(e.addr), e.len, e.ptr, 0, if Dirty(e) then PRIO_BACKGROUND else PRIO_NONE, 0, false);
      args := nest.Put(args);
      elem[i] := EMPTY;
      assert elem[..] == s[i := EMPTY];
      PutExplained(s, i, args.prio);
      Continues(t, s, lost, [GivenBack(Unflagged(e.addr), e.len, args.prio)], s[i := EMPTY], []);
    }

    /** _PC_GET */
    method Get(i: nat, addr: nat, len: nat)
      requires Valid() && i < elem.Length
      modifies nest`trace, nest`next, elem, this`lost
      ensures Valid() && nest.next == old(nest.next) + GetUses(nest.answers, old(nest.next))
      ensures lost == old(lost) + GetLoss(nest.answers, old(nest.next), addr, len)
      ensures var n := old(nest.next);
              elem[..] == old(elem[..])[i := if GetSucceeds(nest.answers, n) && nest.answers(n).physLen >= len
                                              then Elem(WithPresent(addr), len, nest.answers(n).physAddr)
                                              else if Present(old(elem[i])) then EMPTY else old(elem[i])]
    {
      hide Matched, Explains, Present, Unflagged, WithPresent, GetSucceeds;
      FlagFacts(addr, len, 0);
      if Present(elem[i]) {
        Put(i);
      }
      ghost var s, t, n := elem[..], nest.trace, nest.next;
      var args := Args(Unflagged(addr), len, 0, 0, PRIO_NORMAL, 0, false);
      args := nest.GetTransWait(args);
      if !args.success || args.physLen < len {
        ghost var loss := GetLoss(nest.answers, n, addr, len);
        FailExplained(s, Unflagged(addr), len);
        Continues(t, s, lost, nest.trace[|t|..], s, loss);
        assert nest.trace == t + nest.trace[|t|..];
        lost := lost + loss;
        return;
      }
      var e := Elem(WithPresent(addr), len, args.physAddr);
      FlagFacts(addr, len, args.physAddr);
      elem[i] := e;
      assert elem[..] == s[i := e];
      GetExplained(s, i, e, Unflagged(addr), []);
      Continues(t, s, lost, [Got(Unflagged(addr), len)], s[i := e], []);
    }

    /** _PC_ALL_PUT */
    method AllPut(max: nat)
      requires Valid() && max <= elem.Length
      modifies nest`trace, elem
      ensures Valid()
      ensures forall i :: 0 <= i < elem.Length ==> elem[i] == if i < max && Present(old(elem[i])) then EMPTY else old(elem[i])
    {
      hide Matched, Present;
      for i := 0 to max
        invariant Valid()
        invariant forall k :: 0 <= k < elem.Length ==> elem[k] == if k < i && Present(old(elem[k])) then EMPTY else old(elem[k])
      {
        if Present(elem[i]) {
          ghost var s := elem[..];
          Put(i);
          assert forall k :: 0 <= k < elem.Length ==> elem[k] == elem[..][k];
        }
      }
    }

    /** _PC_ALLOC; -1 stands for a null pointer */
    method Alloc(len: nat, align: nat, whole: nat, max: nat) returns (index: int)
      requires Valid() && align > 0 && whole > 0 && 0 < max <= elem.Length
      modifies nest`trace, nest`next, elem, this`lost, this`write
      ensures Valid() && nest.next == old(nest.next) + AllocUses(nest.answers, old(nest.next))
      ensures lost == old(lost) + AllocLoss(nest.answers, old(nest.next), len, whole)
      ensures var n := old(nest.next);
              if AllocSucceeds(nest.answers, n) && nest.answers(n).logLen >= BaseLen(len, whole) then
                var a := nest.answers(n);
                && index == a.logAddr / align % max && write
                && elem[..] == old(elem[..])[index := Elem(WithDirty(WithPresent(BaseAddr(a.logAddr, whole))), a.logLen, nest.answers(n + 2).physAddr)]
              else
                index == -1 && elem[..] == old(elem[..]) && write == old(write)
    {
      hide Matched, Explains, Present, Unflagged, WithPresent, WithDirty, BaseAddr, BaseLen, AllocSucceeds;
      ghost var n, s0, t0 := nest.next, elem[..], nest.trace;
      var baseLen := BaseLen(len, whole);
      var args := Args(0, baseLen, 0, 0, PRIO_NONE, 0, false);
      args := nest.GadrCreateGet(args);
      if !args.success || args.logLen < baseLen {
        ghost var loss := AllocLoss(nest.answers, n, len, whole);
        FailExplained(s0, args.logAddr, args.logLen);
        Continues(t0, s0, lost, loss, s0, loss);
        assert nest.trace == t0 + loss;
        lost := lost + loss;
        return -1;
      }
      index := args.logAddr / align % max;
      ghost var lost0, got := lost, Got(args.logAddr, args.logLen);
      FailExplained(s0, args.logAddr, args.logLen);
      Continues(t0, s0, lost0, [got], s0, [got]);
      lost := lost0 + [got];
      if Present(elem[index]) {
        Put(index);
      }
      ghost var s := elem[..];
      FlagFacts(BaseAddr(args.logAddr, whole), args.logLen, args.physAddr);
      var e := Elem(WithDirty(WithPresent(BaseAddr(args.logAddr, whole))), args.logLen, args.physAddr);
      elem[index] := e;
      write := true;
      assert elem[..] == s[index := e] == s0[index := e];
      ghost var loss := AllocLoss(nest.answers, n, len, whole);
      GetExplained(s, index, e, args.logAddr, loss);
      Settles(nest.trace, s, lost0, got, s[index := e], loss);
      lost := lost0 + loss;
    }
  }

  ghost predicate Matched(t: seq<Event>, s: seq<Elem>, lost: seq<Event>) {
    forall a, l :: Net(t, a, l) == Count(s, a, l) + Net(lost, a, l)
  }

  /** The operations `done` account for the change from s to s', up to `loss`. */
  ghost predicate Explains(s: seq<Elem>, done: seq<Event>, s': seq<Elem>, loss: seq<Event>) {
    forall a, l :: Net(done, a, l) == Count(s', a, l) - Count(s, a, l) + Net(loss, a, l)
  }

  lemma Continues(t: seq<Event>, s: seq<Elem>, lost: seq<Event>, done: seq<Event>, s': seq<Elem>, loss: seq<Event>)
    requires Matched(t, s, lost) && Explains(s, done, s', loss)
    ensures Matched(t + done, s', lost + loss) && lost + [] == lost
  {
    hide Net, Count;
    forall a, l ensures Net(t + done, a, l) == Count(s', a, l) + Net(lost + loss, a, l) {
      NetAppend(t, done, a, l);
      NetAppend(lost, loss, a, l);
      assert Net(done, a, l) == Count(s', a, l) - Count(s, a, l) + Net(loss, a, l);
    }
  }

  /** A reservation that was taken for lost gets its slot after all. */
  lemma Settles(t: seq<Event>, s: seq<Elem>, lost: seq<Event>, got: Event, s': seq<Elem>, loss: seq<Event>)
    requires Matched(t, s, lost + [got]) && Explains(s, [got], s', loss)
    ensures Matched(t, s', lost + loss)
  {
    hide Net, Count;
    forall a, l ensures Net(t, a, l) == Count(s', a, l) + Net(lost + loss, a, l) {
      NetAppend(lost, [got], a, l);
      NetAppend(lost, loss, a, l);
      assert Net([got], a, l) == Count(s', a, l) - Count(s, a, l) + Net(loss, a, l);
    }
  }

  lemma NetShort(a: nat, l: nat)
    ensures Net([], a, l) == 0
    ensures forall e :: Net([e], a, l) == Weight(e, a, l)
    ensures forall e, f :: Net([e, f], a, l) == Weight(e, a, l) + Weight(f, a, l)
  {
    forall e ensures Net([e], a, l) == Weight(e, a, l) {
      assert [e][..0] == [];
    }
    forall e, f ensures Net([e, f], a, l) == Weight(e, a, l) + Weight(f, a, l) {
      assert [e, f][..1] == [e];
    }
  }

  lemma PutExplained(s: seq<Elem>, i: nat, prio: int)
    requires i < |s| && Present(s[i])
    ensures Explains(s, [GivenBack(Unflagged(s[i].addr), s[i].len, prio)], s[i := EMPTY], [])
  {
    hide Net, Count, Unflagged;
    FlagFacts(0, 0, 0);
    forall a, l ensures Net([GivenBack(Unflagged(s[i].addr), s[i].len, prio)], a, l) == Count(s[i := EMPTY], a, l) - Count(s, a, l) + Net([], a, l) {
      NetShort(a, l);
      CountUpdate(s, i, EMPTY, a, l);
    }
  }

  /** A slot is filled for (Unflagged(e.addr), e.len) while (addr, e.len) is reserved. */
  lemma GetExplained(s: seq<Elem>, i: nat, e: Elem, addr: nat, loss: seq<Event>)
    requires i < |s| && !Present(s[i]) && Present(e)
    requires loss == if Unflagged(e.addr) == addr then [] else [Got(addr, e.len), GivenBack(Unflagged(e.addr), e.len, PRIO_BACKGROUND)]
    ensures Explains(s, [Got(addr, e.len)], s[i := e], loss)
  {
    hide Net, Count, Unflagged;
    forall a, l ensures Net([Got(addr, e.len)], a, l) == Count(s[i := e], a, l) - Count(s, a, l) + Net(loss, a, l) {
      NetShort(a, l);
      CountUpdate(s, i, e, a, l);
    }
  }

  /** Nothing happened, or a reservation was undone, or it was lost. */
  lemma FailExplained(s: seq<Elem>, addr: nat, len: nat)
    ensures Explains(s, [], s, []) && Explains(s, [Got(addr, len)], s, [Got(addr, len)])
    ensures Explains(s, [Got(addr, len), GivenBack(addr, len, PRIO_NONE)], s, [])
  {
    hide Net, Count;
    forall a, l
      ensures Net([], a, l) == 0 && Net([Got(addr, len), GivenBack(addr, len, PRIO_NONE)], a, l) == 0
    {
      NetShort(a, l);
    }
  }

  // ---- any run ----

  datatype Op =
    | Get(slot: nat, addr: nat, len: nat)
    | Alloc(len: nat, align: nat, whole: nat, max: nat)
    | AllPut(max: nat)

  predicate Proper(op: Op, size: nat) {
    match op
    case Get(slot, addr, len) => slot < size
    case Alloc(len, align, whole, max) => align > 0 && whole > 0 && 0 < max <= size
    case AllPut(max) => max <= size
  }

  /** The answers an operation uses up, and what it loses. */
  function Uses(answers: nat -> Answer, n: nat, op: Op): nat {
    match op
    case Get(slot, addr, len) => GetUses(answers, n)
    case Alloc(len, align, whole, max) => AllocUses(answers, n)
    case AllPut(max) => 0
  }

  function Loss(answers: nat -> Answer, n: nat, op: Op, size: nat): seq<Event>
    requires Proper(op, size)
  {
    match op
    case Get(slot, addr, len) => GetLoss(answers, n, addr, len)
    case Alloc(len, align, whole, max) => AllocLoss(answers, n, len, whole)
    case AllPut(max) => []
  }

  function Losses(answers: nat -> Answer, n: nat, ops: seq<Op>, size: nat): seq<Event>
    requires forall op :: op in ops ==> Proper(op, size)
    decreases |ops|
  {
    if ops == [] then [] else Loss(answers, n, ops[0], size) + Losses(answers, n + Uses(answers, n, ops[0]), ops[1..], size)
  }

  method Step(c: Cache, op: Op)
    requires c.Valid() && Proper(op, c.elem.Length)
    modifies c, c.nest, c.elem
    ensures c.Valid() && c.nest.next == old(c.nest.next) + Uses(c.nest.answers, old(c.nest.next), op)
    ensures c.lost == old(c.lost) + Loss(c.nest.answers, old(c.nest.next), op, c.elem.Length)
  {
    match op
    case Get(slot, addr, len) => c.Get(slot, addr, len);
    case Alloc(len, align, whole, max) => var index := c.Alloc(len, align, whole, max);
    case AllPut(max) => c.AllPut(max);
  }

  /** Whatever the nest answers: after any run, and then _PC_ALL_PUT of the whole cache, what is still reserved is
      exactly what was lost, which is nothing if every success of the nest was a full one at an aligned address. */
  method Run(c: Cache, ops: seq<Op>)
    requires c.Valid() && c.lost == [] && forall op :: op in ops ==> Proper(op, c.elem.Length)
    modifies c, c.nest, c.elem
    ensures c.lost == Losses(c.nest.answers, old(c.nest.next), ops, c.elem.Length)
    ensures forall a, l :: Net(c.nest.trace, a, l) == Net(c.lost, a, l)
    ensures c.lost == [] ==> forall a, l :: Net(c.nest.trace, a, l) == 0
    ensures forall i :: 0 <= i < c.elem.Length ==> !Present(c.elem[i])
  {
    hide Net, Count, Uses, Loss, Present;
    ghost var n0, size := c.nest.next, c.elem.Length;
    for k := 0 to |ops|
      invariant c.Valid()
      invariant c.lost + Losses(c.nest.answers, c.nest.next, ops[k..], size) == Losses(c.nest.answers, n0, ops, size)
    {
      assert ops[k..][0] == ops[k] && ops[k..][1..] == ops[k + 1..];
      Step(c, ops[k]);
    }
    assert c.lost == Losses(c.nest.answers, n0, ops, size);
    c.AllPut(c.elem.Length);
    FlagFacts(0, 0, 0);
    forall a, l ensures Net(c.nest.trace, a, l) == Net(c.lost, a, l) {
      CountNone(c.elem[..], a, l);
    }
    forall a, l ensures Net([], a, l) == 0 {
      NetShort(a, l);
    }
  }
}
