/** convert_brick and brick_to_string: strategy text to linked records in a buffer, and back. */
module StrategyRecords {
  import opened Words
  import opened Strtoll
  import opened StrategyText
  import opened StrategyRoundTrip

  // ---- the buffer ----

  /** What stands at an address: a string with its NUL, or a record.  A next pointer of 0 ends a list. */
  datatype Rec =
    | Text(chars: string)
    | AttrRec(next: nat, name: nat, value: nat)
    | TargetRec(next: nat, addr: nat, name: nat)
    | ConnRec(next: nat, flags: bv16, name: nat, attr: nat, target: nat)
    | BrickRec(flags: bv16, name: nat, attr: nat, conn: nat)

  type Recs = map<nat, Rec>

  const ATTR_SIZE: nat := 12
  const TARGET_SIZE: nat := 16
  const CONN_SIZE: nat := 20
  const BRICK_SIZE: nat := 16

  predicate Linked(r: Rec) {
    r.AttrRec? || r.TargetRec? || r.ConnRec?
  }

  /** The record with its next pointer cleared. */
  function Ended(r: Rec): (r': Rec)
    requires Linked(r)
    ensures Linked(r')
  {
    match r
    case AttrRec(next, name, value) => AttrRec(0, name, value)
    case TargetRec(next, addr, name) => TargetRec(0, addr, name)
    case ConnRec(next, flags, name, attr, target) => ConnRec(0, flags, name, attr, target)
  }

  predicate TextAt(h: Recs, p: nat, s: string, c: nat) {
    p < c && p in h && h[p] == Text(s)
  }

  /** The record at p stands for the part; it and all that belongs to it lie below c. */
  ghost predicate At(h: Recs, p: nat, part: Part, c: nat)
    decreases part, 0
  {
    && 0 < p < c && p in h
    && match part
       case Attr(name, value) => h[p].AttrRec? && TextAt(h, h[p].name, name, c) && TextAt(h, h[p].value, value, c)
       case Target(addr, name) => h[p].TargetRec? && h[p].addr == addr && TextAt(h, h[p].name, name, c)
       case Conn(flags, name, attrs, targets) =>
         && h[p].ConnRec? && h[p].flags == flags && TextAt(h, h[p].name, name, c)
         && List(h, h[p].attr, attrs, c) && List(h, h[p].target, targets, c)
  }

  /** The list that starts at p. */
  ghost predicate List(h: Recs, p: nat, parts: seq<Part>, c: nat)
    decreases parts, 1
  {
    if parts == [] then p == 0
    else At(h, p, parts[0], c) && List(h, h[p].next, parts[1..], c)
  }

  /** A list under construction: the last next pointer is `end`; the records stand in order. */
  ghost predicate Chain(h: Recs, p: nat, parts: seq<Part>, end: nat, c: nat)
    decreases parts
  {
    if parts == [] then p == end
    else At(h, p, parts[0], c) && p < h[p].next && Chain(h, h[p].next, parts[1..], end, c)
  }

  ghost predicate BrickAt(h: Recs, p: nat, b: Brick, c: nat) {
    && 0 < p < c && p in h && h[p].BrickRec? && h[p].flags == b.flags && TextAt(h, h[p].name, b.name, c)
    && List(h, h[p].attr, b.attrs, c) && List(h, h[p].conn, b.conns, c)
  }

  /** Nothing below c has changed. */
  ghost predicate Agree(h: Recs, h': Recs, c: nat) {
    forall a: nat :: a < c ==> (a in h <==> a in h') && (a in h ==> h'[a] == h[a])
  }

  lemma Written(h: Recs, bin: nat, r: Rec)
    ensures Agree(h, h[bin := r], bin)
  {
  }

  lemma AgreeTrans(h: Recs, h1: Recs, h2: Recs, c: nat, c1: nat)
    requires Agree(h, h1, c) && Agree(h1, h2, c1) && c <= c1
    ensures Agree(h, h2, c)
  {
  }

  lemma {:induction false} AtKept(h: Recs, h': Recs, p: nat, part: Part, c: nat, c': nat)
    requires At(h, p, part, c) && Agree(h, h', c) && c <= c'
    ensures At(h', p, part, c')
    decreases part, 0
  {
    if part.Conn? {
      ListKept(h, h', h[p].attr, part.attrs, c, c');
      ListKept(h, h', h[p].target, part.targets, c, c');
    }
  }

  lemma {:induction false} ListKept(h: Recs, h': Recs, p: nat, parts: seq<Part>, c: nat, c': nat)
    requires List(h, p, parts, c) && Agree(h, h', c) && c <= c'
    ensures List(h', p, parts, c')
    decreases parts, 1
  {
    if parts != [] {
      AtKept(h, h', p, parts[0], c, c');
      ListKept(h, h', h[p].next, parts[1..], c, c');
    }
  }

  lemma {:induction false} ChainKept(h: Recs, h': Recs, p: nat, parts: seq<Part>, end: nat, c: nat, c': nat)
    requires Chain(h, p, parts, end, c) && Agree(h, h', c) && c <= c'
    ensures Chain(h', p, parts, end, c')
    decreases parts
  {
    if parts != [] {
      AtKept(h, h', p, parts[0], c, c');
      ChainKept(h, h', h[p].next, parts[1..], end, c, c');
    }
  }

  lemma {:induction false} ChainAppend(h: Recs, p: nat, parts: seq<Part>, e: nat, x: Part, c: nat)
    requires Chain(h, p, parts, e, c) && At(h, e, x, c) && e < h[e].next
    ensures Chain(h, p, parts + [x], h[e].next, c)
    decreases parts
  {
    if parts != [] {
      ChainAppend(h, h[p].next, parts[1..], e, x, c);
      assert (parts + [x])[1..] == parts[1..] + [x];
    }
  }

  /** A record that is no part of what stands at p: a brick's, or a connector's where there are none. */
  predicate Outside(h: Recs, e: nat, parts: seq<Part>) {
    e in h && (h[e].BrickRec? || (h[e].ConnRec? && forall i :: 0 <= i < |parts| ==> !parts[i].Conn?))
  }

  lemma {:induction false} AtOther(h: Recs, h': Recs, e: nat, r: Rec, p: nat, part: Part, c: nat)
    requires At(h, p, part, c) && e in h && (h[e].BrickRec? || (h[e].ConnRec? && !part.Conn?)) && h' == h[e := r]
    ensures At(h', p, part, c)
    decreases part, 0
  {
    if part.Conn? {
      ListOther(h, h', e, r, h[p].attr, part.attrs, c);
      ListOther(h, h', e, r, h[p].target, part.targets, c);
    }
  }

  lemma {:induction false} ListOther(h: Recs, h': Recs, e: nat, r: Rec, p: nat, parts: seq<Part>, c: nat)
    requires List(h, p, parts, c) && Outside(h, e, parts) && h' == h[e := r]
    ensures List(h', p, parts, c)
    decreases parts, 1
  {
    if parts != [] {
      AtOther(h, h', e, r, p, parts[0], c);
      ListOther(h, h', e, r, h[p].next, parts[1..], c);
    }
  }

  /** A record's next pointer is no part of what it stands for, except that lists inside a connector must not
      run through it. */
  lemma AtEnded(h: Recs, h': Recs, e: nat, p: nat, part: Part, c: nat)
    requires e in h && Linked(h[e]) && h' == h[e := Ended(h[e])] && At(h, p, part, c)
    requires part.Conn? ==> h[e].ConnRec? && ConnShape(part)
    ensures At(h', p, part, c)
  {
    if part.Conn? {
      ListOther(h, h', e, Ended(h[e]), h[p].attr, part.attrs, c);
      ListOther(h, h', e, Ended(h[e]), h[p].target, part.targets, c);
    }
  }

  /** Clearing the last next pointer makes the chain a list. */
  lemma {:induction false} ChainEnded(h: Recs, h': Recs, p: nat, parts: seq<Part>, e: nat, x: Part, c: nat)
    requires Chain(h, p, parts, e, c) && At(h, e, x, c) && h' == h[e := Ended(h[e])]
    requires forall i :: 0 <= i < |parts| ==> (parts[i].Conn? ==> h[e].ConnRec? && ConnShape(parts[i]))
    requires x.Conn? ==> ConnShape(x)
    ensures List(h', p, parts + [x], c) && p <= e
    decreases parts
  {
    if parts == [] {
      AtEnded(h, h', e, e, x, c);
      assert ([] + [x])[1..] == [];
    } else {
      AtEnded(h, h', e, p, parts[0], c);
      ChainEnded(h, h', h[p].next, parts[1..], e, x, c);
      assert (parts + [x])[1..] == parts[1..] + [x];
    }
  }

  /** The list from `first` to `last`, whose next pointer is the end of what has been used of the buffer. */
  ghost predicate Growing(h: Recs, first: nat, parts: seq<Part>, last: nat, end: nat) {
    && |parts| > 0 && Chain(h, first, parts[..|parts| - 1], last, end) && At(h, last, parts[|parts| - 1], end)
    && first <= last < end && last in h && Linked(h[last]) && h[last].next == end
  }

  /** A record just written, with all that belongs to it, from p to end. */
  ghost predicate NewAt(h: Recs, p: nat, x: Part, end: nat) {
    At(h, p, x, end) && p in h && Linked(h[p]) && h[p].next == end > p
  }

  lemma StartsGrowing(h: Recs, p: nat, x: Part, end: nat)
    requires NewAt(h, p, x, end)
    ensures Growing(h, p, [x], p, end) && p < end
  {
  }

  /** One more record at the end. */
  lemma ChainGrows(h: Recs, h': Recs, first: nat, parts: seq<Part>, last: nat, end: nat, x: Part, end': nat)
    requires Growing(h, first, parts, last, end) && Agree(h, h', end) && NewAt(h', end, x, end')
    ensures Growing(h', first, parts + [x], end, end') && end < end'
  {
    var init, y := parts[..|parts| - 1], parts[|parts| - 1];
    ChainKept(h, h', first, init, last, end, end');
    AtKept(h, h', last, y, end, end');
    ChainAppend(h', first, init, last, y, end');
    assert init + [y] == parts && (parts + [x])[..|parts|] == parts;
  }

  lemma AgreeSelf(h: Recs, c: nat)
    ensures Agree(h, h, c)
  {
  }

  lemma StillGrowing(h: Recs, h': Recs, first: nat, parts: seq<Part>, last: nat, end: nat)
    requires Growing(h, first, parts, last, end) && Agree(h, h', end)
    ensures Growing(h', first, parts, last, end) && last in h' && Linked(h'[last])
  {
    ChainKept(h, h', first, parts[..|parts| - 1], last, end, end);
    AtKept(h, h', last, parts[|parts| - 1], end, end);
  }

  /** Clearing the last next pointer ends the list. */
  lemma Finished(h: Recs, first: nat, parts: seq<Part>, last: nat, end: nat)
    requires Growing(h, first, parts, last, end) && last in h && Linked(h[last])
    requires (forall i :: 0 <= i < |parts| ==> !parts[i].Conn?) || (h[last].ConnRec? && AreConns(parts))
    ensures List(h[last := Ended(h[last])], first, parts, end) && Agree(h, h[last := Ended(h[last])], first)
  {
    var init, x := parts[..|parts| - 1], parts[|parts| - 1];
    assert init + [x] == parts;
    assert forall i :: 0 <= i < |init| ==> init[i] == parts[i];
    ChainEnded(h, h[last := Ended(h[last])], first, init, last, x, end);
  }

  // ---- the cursor in the text ----

  lemma Cursor(text: string, p: nat)
    requires p <= |text|
    ensures Head(text[p..]) == CharAt(text, p) && (p < |text| ==> text[p..][1..] == text[p + 1..])
  {
  }

  /** skip_whitespace */
  method SkipWhitespace(text: string, pos: nat) returns (p: nat)
    requires pos <= |text|
    ensures p <= |text| && text[p..] == SkipSpace(text[pos..])
  {
    p := pos;
    Cursor(text, p);
    while IsSpace(CharAt(text, p))
      invariant p <= |text| && SkipSpace(text[p..]) == SkipSpace(text[pos..]) && Head(text[p..]) == CharAt(text, p)
      decreases |text| - p
    {
      Cursor(text, p);
      p := p + 1;
      Cursor(text, p);
    }
  }

  /** skip_end_of_line */
  method SkipEndOfLine(text: string, pos: nat) returns (ok: bool, p: nat)
    requires pos <= |text|
    ensures p <= |text| && ok == EndOfLine(text[pos..]).Some? && (ok ==> text[p..] == EndOfLine(text[pos..]).value)
  {
    p := pos;
    Cursor(text, p);
    while IsBlank(CharAt(text, p))
      invariant p <= |text| && SkipBlanks(text[p..]) == SkipBlanks(text[pos..]) && Head(text[p..]) == CharAt(text, p)
      decreases |text| - p
    {
      Cursor(text, p);
      p := p + 1;
      Cursor(text, p);
    }
    ok := CharAt(text, p) == '\n';
  }

  /** skip_rest_of_line */
  method SkipRestOfLine(text: string, pos: nat) returns (p: nat)
    requires pos <= |text|
    ensures p <= |text| && text[p..] == SkipLine(text[pos..])
  {
    p := pos;
    Cursor(text, p);
    while CharAt(text, p) != '\0' && CharAt(text, p) != '\n'
      invariant p <= |text| && SkipLine(text[p..]) == SkipLine(text[pos..]) && Head(text[p..]) == CharAt(text, p)
      decreases |text| - p
    {
      Cursor(text, p);
      p := p + 1;
      Cursor(text, p);
    }
    Cursor(text, p);
    if CharAt(text, p) != '\0' {
      p := p + 1;
    }
  }

  /** skip_word with a word to match */
  method SkipGivenWord(text: string, pos: nat, w: string) returns (ok: bool, p: nat)
    requires pos <= |text|
    ensures p <= |text| && ok == SkipWord(text[pos..], w).Some? && (ok ==> text[p..] == SkipWord(text[pos..], w).value)
  {
    p := pos;
    var i := 0;
    Cursor(text, p);
    assert w[0..] == w;
    while IsId(CharAt(text, p)) && i < |w| && CharAt(text, p) == w[i]
      invariant p <= |text| && i <= |w| && SkipWord(text[p..], w[i..]) == SkipWord(text[pos..], w)
      invariant Head(text[p..]) == CharAt(text, p)
      decreases |text| - p
    {
      Cursor(text, p);
      assert w[i..][1..] == w[i + 1..];
      p, i := p + 1, i + 1;
      Cursor(text, p);
    }
    ok := !(IsId(CharAt(text, p)) || i < |w|);
  }

  /** skip_str */
  method SkipPattern(text: string, pos: nat, pattern: string) returns (ok: bool, p: nat)
    requires pos <= |text|
    ensures p <= |text| && ok == SkipStr(text[pos..], pattern).Some? && (ok ==> text[p..] == SkipStr(text[pos..], pattern).value)
  {
    hide SkipSpace;
    p := pos;
    var i := 0;
    assert pattern[0..] == pattern;
    while i < |pattern|
      invariant p <= |text| && i <= |pattern| && SkipStr(text[p..], pattern[i..]) == SkipStr(text[pos..], pattern)
    {
      Cursor(text, p);
      assert pattern[i..][1..] == pattern[i + 1..];
      if pattern[i] == ' ' {
        p := SkipWhitespace(text, p);
      } else if p < |text| && pattern[i] == text[p] {
        p := p + 1;
      } else {
        return false, pos;
      }
      i := i + 1;
    }
    ok := true;
  }

  /** convert_op */
  method ConvertOp(text: string, pos: nat) returns (ok: bool, p: nat, action: int)
    requires pos <= |text|
    ensures p <= |text| && ok == ParseOp(text[pos..]).Parsed? && (ok ==> ParseOp(text[pos..]) == Parsed(action, text[p..]))
  {
    Cursor(text, pos);
    action := ActionOf(CharAt(text, pos));
    if action < 0 {
      return false, pos, action;
    }
    p := pos + 1;
    Cursor(text, p);
    if CharAt(text, p) == '=' {
      p := p + 1;
    } else if action != STRAT_READ {
      return false, pos, action;
    }
    ok := true;
  }

  /** skip_word with any word */
  method SkipAnyWord(text: string, pos: nat) returns (ok: bool, p: nat)
    requires pos <= |text|
    ensures p <= |text| && ok == ParseWord(text[pos..]).Parsed? && (ok ==> text[p..] == ParseWord(text[pos..]).rest)
  {
    p := pos;
    Cursor(text, p);
    if !IsId(CharAt(text, p)) {
      return false, pos;
    }
    while IsId(CharAt(text, p))
      invariant pos <= p <= |text| && |Word(text[pos..])| == p - pos + |Word(text[p..])| && Head(text[p..]) == CharAt(text, p)
      decreases |text| - p
    {
      Cursor(text, p);
      p := p + 1;
      Cursor(text, p);
    }
    ok := true;
  }

  /** skip_word(keyword) and skip_rest_of_line, for a parameter that is ignored */
  method SkipParameter(text: string, pos: nat, keyword: string) returns (p: nat)
    requires pos <= |text|
    ensures p <= |text| && text[p..] == SkipParam(text[pos..], keyword)
  {
    hide SkipWord, SkipLine;
    var ok, q := SkipGivenWord(text, pos, keyword);
    p := pos;
    if ok {
      p := SkipRestOfLine(text, q);
    }
  }

  /** The beginning of convert_conn. */
  method ConvertKind(text: string, pos: nat) returns (ok: bool, p: nat, flags: bv16)
    requires pos <= |text|
    ensures p <= |text| && ok == ParseKind(text[pos..]).Parsed? && (ok ==> ParseKind(text[pos..]) == Parsed(flags, text[p..]))
  {
    hide SkipWord;
    flags, p := CONN_ACTIVE, pos;
    Cursor(text, p);
    if CharAt(text, p) == '(' {
      flags := flags & !CONN_ACTIVE;
      p := p + 1;
    }
    KindBits(flags);
    var inactive := flags & CONN_ACTIVE == 0;
    var q;
    ok, q := SkipGivenWord(text, p, "output");
    if ok {
      flags := flags | CONN_TYPE;
    } else {
      ok, q := SkipGivenWord(text, p, "input");
      if !ok {
        return false, pos, flags;
      }
    }
    p := q;
    if inactive {
      Cursor(text, p);
      if CharAt(text, p) != ')' {
        return false, pos, flags;
      }
      p := p + 1;
    }
    ok := true;
  }

  /** The beginning of convert_brick. */
  method ConvertBrickKind(text: string, pos: nat) returns (ok: bool, p: nat, flags: bv16)
    requires pos <= |text|
    ensures p <= |text| && ok == ParseBrickKind(text[pos..]).Parsed? && (ok ==> ParseBrickKind(text[pos..]) == Parsed(flags, text[p..]))
  {
    hide SkipWord;
    flags, p := BRICK_ACTIVE, pos;
    Cursor(text, p);
    if CharAt(text, p) == '(' {
      flags := flags & !BRICK_ACTIVE;
      p := p + 1;
    }
    BrickBits();
    var inactive := flags & BRICK_ACTIVE == 0;
    ok, p := SkipGivenWord(text, p, "brick");
    if !ok {
      return false, pos, flags;
    }
    if inactive {
      Cursor(text, p);
      if CharAt(text, p) != ')' {
        return false, pos, flags;
      }
      p := p + 1;
    }
  }

  lemma BrickBits()
    ensures BRICK_ACTIVE & !BRICK_ACTIVE == 0 && BRICK_ACTIVE & BRICK_ACTIVE != 0
  {
  }

  lemma KindBits(flags: bv16)
    ensures CONN_ACTIVE & !CONN_ACTIVE == 0 && CONN_ACTIVE & CONN_ACTIVE != 0
    ensures KindFlags(true, true) == CONN_ACTIVE | CONN_TYPE && KindFlags(false, true) == CONN_ACTIVE
    ensures KindFlags(true, false) == 0 | CONN_TYPE && KindFlags(false, false) == 0
  {
  }

  // ---- conversion ----

  class Binary {
    var recs: Recs

    /** convert_word; the buffer is used from bin on */
    method ConvertWord(text: string, pos: nat, bin: nat) returns (ok: bool, p: nat, bin': nat)
      requires pos <= |text|
      modifies this
      ensures p <= |text| && Agree(old(recs), recs, bin) && ok == ParseWord(text[pos..]).Parsed?
      ensures ok ==> bin < bin' && text[p..] == ParseWord(text[pos..]).rest && TextAt(recs, bin, ParseWord(text[pos..]).value, bin')
    {
      Cursor(text, pos);
      p, bin' := pos, bin;
      if !IsId(CharAt(text, p)) {
        return false, pos, bin;
      }
      var w := "";
      while IsId(CharAt(text, p))
        invariant pos <= p <= |text| && Word(text[pos..]) == w + Word(text[p..]) && |w| == p - pos
        invariant Head(text[p..]) == CharAt(text, p) && recs == old(recs)
        decreases |text| - p
      {
        Cursor(text, p);
        w := w + [text[p]];
        p := p + 1;
        Cursor(text, p);
      }
      Written(recs, bin, Text(w));
      recs := recs[bin := Text(w)];
      bin' := bin + |w| + 1;
      ok := true;
    }

    /** convert_string */
    method ConvertString(text: string, pos: nat, bin: nat) returns (p: nat, bin': nat)
      requires pos <= |text|
      modifies this
      ensures p <= |text| && Agree(old(recs), recs, bin) && bin < bin'
      ensures text[p..] == ParseString(text[pos..]).rest && TextAt(recs, bin, ParseString(text[pos..]).value, bin')
    {
      Cursor(text, pos);
      p := pos;
      var g := "";
      while IsGraphic(CharAt(text, p))
        invariant pos <= p <= |text| && Graphics(text[pos..]) == g + Graphics(text[p..]) && |g| == p - pos
        invariant Head(text[p..]) == CharAt(text, p) && recs == old(recs)
        decreases |text| - p
      {
        Cursor(text, p);
        g := g + [text[p]];
        p := p + 1;
        Cursor(text, p);
      }
      Written(recs, bin, Text(g));
      recs := recs[bin := Text(g)];
      bin' := bin + |g| + 1;
    }

    /** convert_composed_identifier: every part overwrites the one before */
    method ConvertComposed(text: string, pos: nat, bin: nat) returns (ok: bool, p: nat, bin': nat)
      requires pos <= |text|
      modifies this
      ensures p <= |text| && Agree(old(recs), recs, bin) && ok == ParseComposed(text[pos..]).Parsed?
      ensures ok ==> bin < bin' && text[p..] == ParseComposed(text[pos..]).rest && TextAt(recs, bin, ParseComposed(text[pos..]).value, bin')
    {
      hide ParseWord;
      ghost var w := ParseWord(text[pos..]);
      ok, p, bin' := ConvertWord(text, pos, bin);
      if !ok {
        return;
      }
      Cursor(text, p);
      while CharAt(text, p) == '.'
        invariant p <= |text| && Agree(old(recs), recs, bin) && bin < bin' && w.Parsed? && TextAt(recs, bin, w.value, bin')
        invariant ParseComposed(text[pos..]) == if Head(text[p..]) == '.' then ParseComposed(text[p..][1..]) else Parsed(w.value, text[p..])
        invariant Head(text[p..]) == CharAt(text, p)
        decreases |text| - p
      {
        Cursor(text, p);
        p := p + 1;
        w := ParseWord(text[p..]);
        ok, p, bin' := ConvertWord(text, p, bin);
        if !ok {
          return;
        }
        Cursor(text, p);
      }
    }

    /** convert_logaddr */
    method ConvertAddr(text: string, pos: nat) returns (ok: bool, p: nat, addr: nat)
      requires pos <= |text|
      ensures p <= |text| && ok == ParseAddr(text[pos..]).Parsed? && (ok ==> ParseAddr(text[pos..]) == Parsed(addr, text[p..]))
    {
      hide HexDigit, Wrap64;
      addr, p := 0, pos;
      Cursor(text, pos);
      Cursor(text, if pos < |text| then pos + 1 else pos);
      if CharAt(text, p) == '0' && (CharAt(text, p + 1) == 'x' || CharAt(text, p + 1) == 'X') {
        p := p + 2;
      }
      assert text[p..] == SkipHexPrefix(text[pos..]);
      Cursor(text, p);
      if HexDigit(CharAt(text, p)) < 0 {
        return false, pos, addr;
      }
      ghost var start := p;
      while HexDigit(CharAt(text, p)) >= 0
        invariant p <= |text| && ParseHex(text[p..], addr) == ParseHex(text[start..], 0) && Head(text[p..]) == CharAt(text, p)
        decreases |text| - p
      {
        Cursor(text, p);
        if addr >= TWO63 {
          return false, pos, addr;
        }
        NulNoDigit();
        addr := Wrap64(16 * addr + HexDigit(CharAt(text, p)));
        p := p + 1;
        Cursor(text, p);
      }
      ok := true;
    }

    /** convert_attr */
    method ConvertAttr(text: string, pos: nat, bin: nat) returns (ok: bool, p: nat, bin': nat)
      requires pos <= |text| && 0 < bin
      modifies this
      ensures p <= |text| && Agree(old(recs), recs, bin) && ok == ParseAttr(text[pos..]).Parsed?
      ensures ok ==> text[p..] == ParseAttr(text[pos..]).rest && NewAt(recs, bin, ParseAttr(text[pos..]).value, bin')
    {
      hide SkipSpace, SkipWord, ParseComposed, ParseOp, ParseString, EndOfLine;
      bin' := bin;
      p := SkipWhitespace(text, pos);
      ok, p := SkipGivenWord(text, p, "attr");
      if !ok {
        return false, pos, bin;
      }
      p := SkipWhitespace(text, p);
      var name := bin + ATTR_SIZE;
      ok, p, bin' := ConvertComposed(text, p, name);
      if !ok {
        return false, pos, bin;
      }
      var action;
      ok, p, action := ConvertOp(text, p);
      if !ok {
        return false, pos, bin;
      }
      var value := bin';
      p, bin' := ConvertString(text, p, value);
      ok, p := SkipEndOfLine(text, p);
      if !ok {
        return false, pos, bin;
      }
      recs := recs[bin := AttrRec(bin', name, value)];
    }

    /** The attribute lines: convert_attr as often as it succeeds, and the list is ended. */
    method ConvertAttrs(text: string, pos: nat, bin: nat) returns (head: nat, p: nat, bin': nat)
      requires pos <= |text| && 0 < bin
      modifies this
      ensures p <= |text| && Agree(old(recs), recs, bin) && bin <= bin'
      ensures text[p..] == ParseAttrs(text[pos..]).rest && List(recs, head, ParseAttrs(text[pos..]).value, bin')
    {
      hide ParseAttr, At, Chain, ParseAttrs, NewAt, Growing, Agree, Linked;
      ghost var h0 := recs;
      var ok;
      AttrsStep([], text[pos..]);
      ok, p, bin' := ConvertAttr(text, pos, bin);
      if !ok {
        return 0, pos, bin;
      }
      head := bin;
      var attr := bin;
      ghost var done := [ParseAttr(text[pos..]).value];
      StartsGrowing(recs, bin, done[0], bin');
      var q: nat, bin2: nat;
      ghost var h := recs;
      ok, q, bin2 := ConvertAttr(text, p, bin');
      while ok
        invariant p <= |text| && bin < bin' && Agree(h0, h, bin) && Agree(h, recs, bin')
        invariant Growing(h, bin, done, attr, bin') && AreAttrs(done)
        invariant ParseAttrs(text[pos..]) == Parsed(done + ParseAttrs(text[p..]).value, ParseAttrs(text[p..]).rest)
        invariant q <= |text| && ok == ParseAttr(text[p..]).Parsed?
        invariant ok ==> text[q..] == ParseAttr(text[p..]).rest && NewAt(recs, bin', ParseAttr(text[p..]).value, bin2)
        decreases |text| - p, if ok then 1 else 0
      {
        AttrsStep(done, text[p..]);
        ChainGrows(h, recs, bin, done, attr, bin', ParseAttr(text[p..]).value, bin2);
        AgreeTrans(h0, h, recs, bin, bin');
        done := done + [ParseAttr(text[p..]).value];
        attr, p, bin' := bin', q, bin2;
        h := recs;
        ok, q, bin2 := ConvertAttr(text, p, bin');
      }
      AttrsStep(done, text[p..]);
      StillGrowing(h, recs, bin, done, attr, bin');
      Finished(recs, bin, done, attr, bin');
      AgreeTrans(h0, h, recs, bin, bin');
      AgreeTrans(h0, recs, recs[attr := Ended(recs[attr])], bin, bin);
      recs := recs[attr := Ended(recs[attr])];
    }

    /** convert_conn_target */
    method ConvertTarget(text: string, pos: nat, bin: nat) returns (ok: bool, p: nat, bin': nat)
      requires pos <= |text| && 0 < bin
      modifies this
      ensures p <= |text| && Agree(old(recs), recs, bin) && ok == ParseTarget(text[pos..]).Parsed?
      ensures ok ==> text[p..] == ParseTarget(text[pos..]).rest && NewAt(recs, bin, ParseTarget(text[pos..]).value, bin')
      ensures !ok ==> p == pos && bin' == bin
    {
      hide ParseAddr, ParseWord;
      bin' := bin;
      var addr;
      ok, p, addr := ConvertAddr(text, pos);
      if !ok {
        return false, pos, bin;
      }
      Cursor(text, p);
      if CharAt(text, p) != ':' {
        return false, pos, bin;
      }
      p := p + 1;
      var name := bin + TARGET_SIZE;
      ok, p, bin' := ConvertWord(text, p, name);
      if !ok {
        return false, pos, bin;
      }
      recs := recs[bin := TargetRec(bin', addr, name)];
    }

    /** The targets of a connector, as convert_conn reads them. */
    method ConvertTargets(text: string, pos: nat, bin: nat, output: bool) returns (ok: bool, head: nat, p: nat, bin': nat)
      requires pos <= |text| && 0 < bin
      modifies this
      ensures p <= |text| && Agree(old(recs), recs, bin) && bin <= bin' && ok == ParseTargets(text[pos..], output).Parsed?
      ensures ok ==> text[p..] == ParseTargets(text[pos..], output).rest && List(recs, head, ParseTargets(text[pos..], output).value, bin')
    {
      hide ParseTarget, At, Chain, ParseMore, ParseTargets, NewAt, Growing, Agree, Linked;
      ghost var h0 := recs;
      TargetsAre(text[pos..], output);
      ok, p, bin' := ConvertTarget(text, pos, bin);
      if !ok {
        return true, 0, pos, bin;
      }
      head := bin;
      var target := bin;
      ghost var done := [ParseTarget(text[pos..]).value];
      StartsGrowing(recs, bin, done[0], bin');
      ghost var all := ParseMore(text[p..], output);
      Cursor(text, p);
      while CharAt(text, p) == ','
        invariant p <= |text| && bin < bin' && Agree(h0, recs, bin) && Growing(recs, bin, done, target, bin') && AreTargets(done)
        invariant done != [] && done[0] == ParseTarget(text[pos..]).value
        invariant var more := ParseMore(text[p..], output);
                  all.Parsed? == more.Parsed? && (all.Parsed? ==> all.rest == more.rest && [done[0]] + all.value == done + more.value)
        invariant Head(text[p..]) == CharAt(text, p)
        decreases |text| - p
      {
        MoreStep(done, text[p..], output);
        if !output {
          return false, head, pos, bin;
        }
        Cursor(text, p);
        ghost var h, t := recs, text[p + 1..];
        var newTarget := bin';
        var bin2;
        ok, p, bin2 := ConvertTarget(text, p + 1, newTarget);
        AgreeTrans(h0, h, recs, bin, bin');
        if !ok {
          return false, head, pos, bin;
        }
        ChainGrows(h, recs, bin, done, target, bin', ParseTarget(t).value, bin2);
        done := done + [ParseTarget(t).value];
        target, bin' := newTarget, bin2;
        Cursor(text, p);
      }
      MoreStep(done, text[p..], output);
      AgreeSelf(recs, bin');
      StillGrowing(recs, recs, bin, done, target, bin');
      Finished(recs, bin, done, target, bin');
      AgreeTrans(h0, recs, recs[target := Ended(recs[target])], bin, bin);
      recs := recs[target := Ended(recs[target])];
    }

    /** convert_conn */
    method ConvertConn(text: string, pos: nat, bin: nat) returns (ok: bool, p: nat, bin': nat)
      requires pos <= |text| && 0 < bin
      modifies this
      ensures p <= |text| && Agree(old(recs), recs, bin) && ok == ParseConn(text[pos..]).Parsed?
      ensures ok ==> text[p..] == ParseConn(text[pos..]).rest && NewAt(recs, bin, ParseConn(text[pos..]).value, bin')
    {
      hide SkipSpace, ParseKind, ParseConnFrom, Agree, NewAt;
      p := SkipWhitespace(text, pos);
      var flags;
      ok, p, flags := ConvertKind(text, p);
      AgreeSelf(recs, bin);
      if !ok {
        return false, pos, bin;
      }
      ok, p, bin' := ConvertConnFrom(text, p, bin, flags);
    }

    /** convert_conn behind "input" or "output" */
    method ConvertConnFrom(text: string, pos: nat, bin: nat, flags0: bv16) returns (ok: bool, p: nat, bin': nat)
      requires pos <= |text| && 0 < bin
      modifies this
      ensures p <= |text| && Agree(old(recs), recs, bin) && ok == ParseConnFrom(flags0, text[pos..]).Parsed?
      ensures ok ==> text[p..] == ParseConnFrom(flags0, text[pos..]).rest && NewAt(recs, bin, ParseConnFrom(flags0, text[pos..]).value, bin')
    {
      hide SkipSpace, SkipStr, ParseOp, ParseComposed, SkipParam, ParseAttrs, ParseConnect, IsOutput, Agree, List, NewAt, TextAt, WithAction, WithTargetAction;
      ghost var h0 := recs;
      AgreeSelf(h0, bin);
      bin' := bin;
      p := SkipWhitespace(text, pos);
      var action;
      ok, p, action := ConvertOp(text, p);
      if !ok {
        return false, pos, bin;
      }
      var flags := WithAction(flags0, action);
      ActionIsNot(flags0, action);
      ghost var t2 := text[p..];
      var name := bin + CONN_SIZE;
      Written(h0, bin, ConnRec(0, flags, name, 0, 0));
      recs := recs[bin := ConnRec(0, flags, name, 0, 0)];
      ghost var h1 := recs;
      ok, p, bin' := ConvertComposed(text, p, name);
      ghost var h2, bin1 := recs, bin';
      AgreeTrans(h0, h1, h2, bin, name);
      if !ok {
        return false, pos, bin;
      }
      var found, q := SkipPattern(text, p, " { ");
      if found {
        p := q;
      }
      p := SkipParameter(text, p, "c_param");
      ghost var t := text[p..];
      var attr, target;
      attr, p, bin' := ConvertAttrs(text, p, bin');
      ghost var h3, bin2 := recs, bin';
      AgreeTrans(h0, h2, h3, bin, bin1);
      p := SkipWhitespace(text, p);
      ghost var u := text[p..];
      ok, action, target, p, bin' := ConvertConnect(text, p, bin', IsOutput(flags));
      AgreeTrans(h0, h3, recs, bin, bin2);
      if !ok {
        return false, pos, bin;
      }
      flags := WithTargetAction(flags, action);
      ok, p := SkipPattern(text, p, " } ");
      if !ok {
        return false, pos, bin;
      }
      ConnDone(h1, h2, h3, recs, bin, ParseComposed(t2).value, name, attr, ParseAttrs(t).value, target,
               ParseConnect(u, IsOutput(flags0)).value.targets, flags, bin1, bin2, bin');
      Written(recs, bin, ConnRec(bin', flags, name, attr, target));
      AgreeTrans(h0, recs, recs[bin := ConnRec(bin', flags, name, attr, target)], bin, bin);
      recs := recs[bin := ConnRec(bin', flags, name, attr, target)];
    }

    /** The connect line of a connector. */
    method ConvertConnect(text: string, pos: nat, bin: nat, output: bool) returns (ok: bool, action: int, target: nat, p: nat, bin': nat)
      requires pos <= |text| && 0 < bin
      modifies this
      ensures p <= |text| && Agree(old(recs), recs, bin) && bin <= bin' && ok == ParseConnect(text[pos..], output).Parsed?
      ensures ok ==> text[p..] == ParseConnect(text[pos..], output).rest && action == ParseConnect(text[pos..], output).value.action
                     && List(recs, target, ParseConnect(text[pos..], output).value.targets, bin')
    {
      hide SkipSpace, SkipWord, ParseWord, ParseOp, ParseTargets, Agree;
      AgreeSelf(recs, bin);
      action, target, p, bin' := 0, 0, pos, bin;
      var found, q := SkipGivenWord(text, pos, "connect");
      ok := true;
      if found {
        q := SkipWhitespace(text, q);
        ok, q := SkipAnyWord(text, q);
        if !ok {
          return;
        }
        ok, q, action := ConvertOp(text, q);
        if !ok {
          return;
        }
        q := SkipWhitespace(text, q);
        ok, target, p, bin' := ConvertTargets(text, q, bin, output);
      }
    }

    /** The connectors: convert_conn as often as it succeeds, and the list is ended. */
    method ConvertConns(text: string, pos: nat, bin: nat) returns (head: nat, p: nat, bin': nat)
      requires pos <= |text| && 0 < bin
      modifies this
      ensures p <= |text| && Agree(old(recs), recs, bin) && bin <= bin'
      ensures text[p..] == ParseConns(text[pos..]).rest && List(recs, head, ParseConns(text[pos..]).value, bin')
    {
      hide ParseConn, At, Chain, ParseConns, NewAt, Growing, Agree, Linked, ConnShape;
      ghost var h0 := recs;
      var ok;
      ConnsStep([], text[pos..]);
      ok, p, bin' := ConvertConn(text, pos, bin);
      if !ok {
        return 0, pos, bin;
      }
      head := bin;
      var conn := bin;
      ghost var done := [ParseConn(text[pos..]).value];
      StartsGrowing(recs, bin, done[0], bin');
      var q: nat, bin2: nat;
      ghost var h := recs;
      ok, q, bin2 := ConvertConn(text, p, bin');
      while ok
        invariant p <= |text| && bin < bin' && Agree(h0, h, bin) && Agree(h, recs, bin')
        invariant Growing(h, bin, done, conn, bin') && AreConns(done)
        invariant ParseConns(text[pos..]) == Parsed(done + ParseConns(text[p..]).value, ParseConns(text[p..]).rest)
        invariant q <= |text| && ok == ParseConn(text[p..]).Parsed?
        invariant ok ==> text[q..] == ParseConn(text[p..]).rest && NewAt(recs, bin', ParseConn(text[p..]).value, bin2)
        decreases |text| - p, if ok then 1 else 0
      {
        ConnsStep(done, text[p..]);
        ChainGrows(h, recs, bin, done, conn, bin', ParseConn(text[p..]).value, bin2);
        AgreeTrans(h0, h, recs, bin, bin');
        done := done + [ParseConn(text[p..]).value];
        conn, p, bin' := bin', q, bin2;
        h := recs;
        ok, q, bin2 := ConvertConn(text, p, bin');
      }
      ConnsStep(done, text[p..]);
      StillGrowing(h, recs, bin, done, conn, bin');
      LastConn(recs, bin, done, conn, bin');
      Finished(recs, bin, done, conn, bin');
      AgreeTrans(h0, h, recs, bin, bin');
      AgreeTrans(h0, recs, recs[conn := Ended(recs[conn])], bin, bin);
      recs := recs[conn := Ended(recs[conn])];
    }

    /** convert_brick */
    method ConvertBrick(text: string, pos: nat, bin: nat) returns (ok: bool, p: nat, bin': nat)
      requires pos <= |text| && 0 < bin
      modifies this
      ensures p <= |text| && Agree(old(recs), recs, bin) && ok == ParseBrick(text[pos..]).Parsed?
      ensures ok ==> text[p..] == ParseBrick(text[pos..]).rest && BrickAt(recs, bin, ParseBrick(text[pos..]).value, bin')
    {
      hide SkipSpace, SkipStr, ParseBrickKind, ParseOp, ParseWord, SkipParam, ParseAttrs, ParseConns, Agree, List, BrickAt, TextAt, WithAction;
      ghost var h0 := recs;
      AgreeSelf(h0, bin);
      p := SkipWhitespace(text, pos);
      var flags;
      ok, p, flags := ConvertBrickKind(text, p);
      if !ok {
        return false, pos, bin;
      }
      p := SkipWhitespace(text, p);
      var action;
      ok, p, action := ConvertOp(text, p);
      if !ok {
        return false, pos, bin;
      }
      flags := WithAction(flags, action);
      ghost var t2 := text[p..];
      var name := bin + BRICK_SIZE;
      Written(h0, bin, BrickRec(flags, name, 0, 0));
      recs := recs[bin := BrickRec(flags, name, 0, 0)];
      ghost var h1 := recs;
      ok, p, bin' := ConvertWord(text, p, name);
      ghost var h2, bin1 := recs, bin';
      AgreeTrans(h0, h1, h2, bin, name);
      if !ok {
        return false, pos, bin;
      }
      ok, p := SkipPattern(text, p, " { ");
      if !ok {
        return false, pos, bin;
      }
      p := SkipParameter(text, p, "b_param");
      ghost var t := text[p..];
      var attr, conn;
      attr, p, bin' := ConvertAttrs(text, p, bin');
      ghost var h3, bin2, u := recs, bin', text[p..];
      AgreeTrans(h0, h2, h3, bin, bin1);
      conn, p, bin' := ConvertConns(text, p, bin');
      AgreeTrans(h0, h3, recs, bin, bin2);
      ok, p := SkipPattern(text, p, " } ");
      if !ok {
        return false, pos, bin;
      }
      BrickDone(h1, h2, h3, recs, bin, ParseWord(t2).value, name, attr, ParseAttrs(t).value, conn, ParseConns(u).value,
                flags, bin1, bin2, bin');
      Written(recs, bin, BrickRec(flags, name, attr, conn));
      AgreeTrans(h0, recs, recs[bin := BrickRec(flags, name, attr, conn)], bin, bin);
      recs := recs[bin := BrickRec(flags, name, attr, conn)];
    }

    // ---- printing ----

    /** brick_to_string */
    method BrickToString(p: nat, upper: bool, ghost b: Brick, ghost c: nat) returns (out: string)
      requires BrickAt(recs, p, b, c) && BrickShape(b)
      ensures out == ShowBrick(b, upper)
    {
      hide List, ShowBrickAttrs, ShowConns;
      var name := recs[recs[p].name].chars;
      var attrs := BrickAttrsToString(recs[p].attr, name, b.attrs, c);
      var conns := ConnsToString(recs[p].conn, name, upper, b.conns, c);
      out := "brick==" + name + " {\n" + attrs + conns + "}\n";
    }

    method BrickAttrsToString(first: nat, brick: string, ghost attrs: seq<Part>, ghost c: nat) returns (out: string)
      requires List(recs, first, attrs, c) && AreAttrs(attrs)
      ensures out == ShowBrickAttrs(brick, attrs)
    {
      hide At;
      out := "";
      var attr := first;
      ghost var rest := attrs;
      while attr != 0
        invariant List(recs, attr, rest, c) && AreAttrs(rest) && out + ShowBrickAttrs(brick, rest) == ShowBrickAttrs(brick, attrs)
        decreases |rest|
      {
        AttrFields(recs, attr, rest, c);
        out := out + ("attr " + brick + "." + recs[recs[attr].name].chars + "=" + recs[recs[attr].value].chars + " {\n");
        attr := recs[attr].next;
        rest := rest[1..];
      }
      ListEnd(recs, rest, c);
    }

    method ConnsToString(first: nat, brick: string, upper: bool, ghost cs: seq<Part>, ghost c: nat) returns (out: string)
      requires List(recs, first, cs, c) && AreConns(cs)
      ensures out == ShowConns(brick, cs, upper)
    {
      hide At, ShowConn, ConnShape;
      out := "";
      var conn := first;
      ghost var rest := cs;
      while conn != 0
        invariant List(recs, conn, rest, c) && AreConns(rest) && out + ShowConns(brick, rest, upper) == ShowConns(brick, cs, upper)
        decreases |rest|
      {
        ConnFields(recs, conn, rest, c);
        var text := ConnToString(conn, brick, upper, rest[0], c);
        out := out + text;
        conn := recs[conn].next;
        rest := rest[1..];
      }
      ListEnd(recs, rest, c);
    }

    /** The part of brick_to_string for one connector. */
    method ConnToString(conn: nat, brick: string, upper: bool, ghost x: Part, ghost c: nat) returns (out: string)
      requires At(recs, conn, x, c) && ConnShape(x)
      ensures out == ShowConn(brick, x, upper)
    {
      hide List, ShowConnAttrs, ShowConnect, ShowKind;
      var name := recs[recs[conn].name].chars;
      var kind := KindToString(recs[conn].flags);
      var attrs := ConnAttrsToString(recs[conn].attr, brick, name, x.attrs, c);
      var connect := "";
      if recs[conn].target != 0 {
        connect := TargetsToString(recs[conn].target, name, upper, x.targets, c);
      } else {
        ListEnd(recs, x.targets, c);
      }
      ConnectIs(x, upper);
      out := kind + "==" + name + " {\n" + attrs + connect + "  }\n";
    }

    method ConnAttrsToString(first: nat, brick: string, conn: string, ghost attrs: seq<Part>, ghost c: nat) returns (out: string)
      requires List(recs, first, attrs, c) && AreAttrs(attrs)
      ensures out == ShowConnAttrs(brick, conn, attrs)
    {
      hide At;
      out := "";
      var attr := first;
      ghost var rest := attrs;
      while attr != 0
        invariant List(recs, attr, rest, c) && AreAttrs(rest) && out + ShowConnAttrs(brick, conn, rest) == ShowConnAttrs(brick, conn, attrs)
        decreases |rest|
      {
        AttrFields(recs, attr, rest, c);
        out := out + ("    attr " + brick + "." + conn + "." + recs[recs[attr].name].chars + "=" + recs[recs[attr].value].chars + "\n");
        attr := recs[attr].next;
        rest := rest[1..];
      }
      ListEnd(recs, rest, c);
    }

    /** The connect line. */
    method TargetsToString(first: nat, conn: string, upper: bool, ghost xs: seq<Part>, ghost c: nat) returns (out: string)
      requires first != 0 && List(recs, first, xs, c) && AreTargets(xs)
      ensures xs != []
      ensures out == "    connect " + conn + "==" + ShowTarget(xs[0], upper) + ShowMore(xs[1..], upper) + "\n"
    {
      hide At, ShowAddr;
      var target := first;
      TargetFields(recs, target, xs, c);
      out := "    connect " + conn + "==" + (ShowAddr(recs[target].addr, upper) + ":" + recs[recs[target].name].chars);
      ghost var front, rest := out, xs[1..];
      target := recs[target].next;
      while target != 0
        invariant List(recs, target, rest, c) && AreTargets(rest) && out + ShowMore(rest, upper) == front + ShowMore(xs[1..], upper)
        decreases |rest|
      {
        TargetFields(recs, target, rest, c);
        out := out + ("," + (ShowAddr(recs[target].addr, upper) + ":" + recs[recs[target].name].chars));
        target := recs[target].next;
        rest := rest[1..];
      }
      ListEnd(recs, rest, c);
      out := out + "\n";
    }

    /** A brick is printed, and the text converted into the rest of the buffer.  The new records stand for what is
        read back; the old ones are as they were. */
    method PrintAndConvert(p: nat, bin: nat, upper: bool, ghost b: Brick) returns (ok: bool, bin': nat)
      requires BrickAt(recs, p, b, bin) && BrickOK(b)
      modifies this
      ensures BrickAt(recs, p, b, bin) && (ok <==> b.attrs == [] && AllConnectable(b.conns))
      ensures ok ==> BrickAt(recs, bin, ReadBrick(b), bin')
    {
      hide ParseBrick, ShowBrick, AllConnectable, ReadBrick, List;
      ghost var h := recs;
      var text := BrickToString(p, upper, b, bin);
      RoundTrip(b, upper);
      assert text[0..] == text;
      var end;
      ok, end, bin' := ConvertBrick(text, 0, bin);
      ListKept(h, recs, h[p].attr, b.attrs, bin, bin);
      ListKept(h, recs, h[p].conn, b.conns, bin, bin);
    }
  }

  method KindToString(flags: bv16) returns (out: string)
    ensures out == ShowKind(flags)
  {
    var kind := if flags & CONN_TYPE == 0 then "input" else "output";
    out := if flags & CONN_ACTIVE != 0 then "  " + kind else "  (" + kind + ")";
  }

  lemma ConnectIs(x: Part, upper: bool)
    requires ConnShape(x)
    ensures x.targets == [] ==> ShowConnect(x, upper) == ""
    ensures x.targets != [] ==>
              ShowConnect(x, upper) == "    connect " + x.name + "==" + ShowTarget(x.targets[0], upper) + ShowMore(x.targets[1..], upper) + "\n"
  {
  }

  lemma AttrFields(h: Recs, p: nat, parts: seq<Part>, c: nat)
    requires p != 0 && List(h, p, parts, c) && AreAttrs(parts)
    ensures parts != [] && p in h && h[p].AttrRec? && h[p].name in h && h[h[p].name] == Text(parts[0].name)
    ensures h[p].value in h && h[h[p].value] == Text(parts[0].value) && List(h, h[p].next, parts[1..], c)
  {
    assert parts != [] ==> parts[0].Attr?;
  }

  lemma TargetFields(h: Recs, p: nat, parts: seq<Part>, c: nat)
    requires p != 0 && List(h, p, parts, c) && AreTargets(parts)
    ensures parts != [] && p in h && h[p].TargetRec? && h[p].addr == parts[0].addr
    ensures h[p].name in h && h[h[p].name] == Text(parts[0].name) && List(h, h[p].next, parts[1..], c)
  {
    assert parts != [] ==> parts[0].Target?;
  }

  lemma ConnFields(h: Recs, p: nat, parts: seq<Part>, c: nat)
    requires p != 0 && List(h, p, parts, c) && AreConns(parts)
    ensures parts != [] && p in h && h[p].ConnRec? && At(h, p, parts[0], c) && ConnShape(parts[0]) && List(h, h[p].next, parts[1..], c)
  {
    assert parts != [] ==> ConnShape(parts[0]);
  }

  lemma ListEnd(h: Recs, parts: seq<Part>, c: nat)
    requires List(h, 0, parts, c)
    ensures parts == []
  {
  }

  lemma LastConn(h: Recs, first: nat, parts: seq<Part>, last: nat, end: nat)
    requires Growing(h, first, parts, last, end) && AreConns(parts)
    ensures last in h && h[last].ConnRec?
  {
    assert ConnShape(parts[|parts| - 1]);
  }

  lemma BrickDone(h1: Recs, h2: Recs, h3: Recs, h4: Recs, bin: nat, w: string, name: nat, attr: nat, attrs: seq<Part>,
                  conn: nat, conns: seq<Part>, flags: bv16, c1: nat, c2: nat, c3: nat)
    requires 0 < bin < name < c1 <= c2 <= c3 && bin in h1 && h1[bin].BrickRec?
    requires Agree(h1, h2, name) && Agree(h2, h3, c1) && Agree(h3, h4, c2)
    requires TextAt(h2, name, w, c1) && List(h3, attr, attrs, c2) && List(h4, conn, conns, c3)
    ensures BrickAt(h4[bin := BrickRec(flags, name, attr, conn)], bin, Brick(flags, w, attrs, conns), c3)
  {
    hide List;
    var r := BrickRec(flags, name, attr, conn);
    ListKept(h3, h4, attr, attrs, c2, c3);
    assert bin in h4 && h4[bin].BrickRec?;
    assert TextAt(h4, name, w, c3);
    ListOther(h4, h4[bin := r], bin, r, attr, attrs, c3);
    ListOther(h4, h4[bin := r], bin, r, conn, conns, c3);
  }

  /** The action of a connector does not change what it is. */
  lemma ActionIsNot(flags: bv16, a: int)
    ensures IsOutput(WithAction(flags, a)) == IsOutput(flags)
  {
    if 0 <= a < 8 {
      SmallAction(a);
    }
    OtherBits(flags, ActionBits(a));
  }

  lemma SmallAction(a: int)
    requires 0 <= a < 8
    ensures (a as bv16) < 8
  {
  }

  lemma OtherBits(flags: bv16, a: bv16)
    requires a < 8
    ensures (flags | a) & CONN_TYPE == flags & CONN_TYPE
  {
  }

  /** The parts that were written one behind the other make up the connector. */
  lemma ConnDone(h1: Recs, h2: Recs, h3: Recs, h4: Recs, bin: nat, w: string, name: nat, attr: nat, attrs: seq<Part>,
                 target: nat, targets: seq<Part>, flags: bv16, c1: nat, c2: nat, c3: nat)
    requires 0 < bin < name < c1 <= c2 <= c3 && bin in h1 && h1[bin].ConnRec? && AreAttrs(attrs) && AreTargets(targets)
    requires Agree(h1, h2, name) && Agree(h2, h3, c1) && Agree(h3, h4, c2)
    requires TextAt(h2, name, w, c1) && List(h3, attr, attrs, c2) && List(h4, target, targets, c3)
    ensures NewAt(h4[bin := ConnRec(c3, flags, name, attr, target)], bin, Conn(flags, w, attrs, targets), c3)
  {
    hide List;
    var r := ConnRec(c3, flags, name, attr, target);
    ListKept(h3, h4, attr, attrs, c2, c3);
    assert bin in h4 && h4[bin].ConnRec?;
    assert TextAt(h4, name, w, c3);
    ListOther(h4, h4[bin := r], bin, r, attr, attrs, c3);
    ListOther(h4, h4[bin := r], bin, r, target, targets, c3);
  }

  lemma AttrsStep(done: seq<Part>, t: string)
    ensures var a := ParseAttr(t);
            if a.Parsed? then done + ParseAttrs(t).value == done + [a.value] + ParseAttrs(a.rest).value && ParseAttrs(t).rest == ParseAttrs(a.rest).rest
            else done + ParseAttrs(t).value == done && ParseAttrs(t) == Parsed([], t)
    ensures done == [] ==> done + ParseAttrs(t).value == ParseAttrs(t).value && (ParseAttr(t).Parsed? ==> done + [ParseAttr(t).value] == [ParseAttr(t).value])
  {
    hide ParseAttr;
    if ParseAttr(t).Parsed? {
      Parts(done, ParseAttr(t).value, ParseAttrs(ParseAttr(t).rest).value);
    }
  }

  lemma Parts(done: seq<Part>, x: Part, more: seq<Part>)
    ensures done + ([x] + more) == done + [x] + more
  {
  }

  lemma MoreStep(done: seq<Part>, t: string, output: bool)
    requires t != "" || Head(t) != ','
    ensures var p := ParseMore(t, output);
            if Head(t) != ',' then p == Parsed([], t) && done + p.value == done
            else if !output || ParseTarget(t[1..]).Failed? then p == Failed
            else var x := ParseTarget(t[1..]);
                 var q := ParseMore(x.rest, output);
                 p.Parsed? == q.Parsed? && (p.Parsed? ==> done + p.value == done + [x.value] + q.value && p.rest == q.rest)
  {
    hide ParseTarget;
  }

  lemma ConnsStep(done: seq<Part>, t: string)
    ensures var c := ParseConn(t);
            if c.Parsed? then done + ParseConns(t).value == done + [c.value] + ParseConns(c.rest).value && ParseConns(t).rest == ParseConns(c.rest).rest
            else done + ParseConns(t).value == done && ParseConns(t) == Parsed([], t)
    ensures done == [] ==> done + ParseConns(t).value == ParseConns(t).value && (ParseConn(t).Parsed? ==> done + [ParseConn(t).value] == [ParseConn(t).value])
  {
    hide ParseConn;
    if ParseConn(t).Parsed? {
      Parts(done, ParseConn(t).value, ParseConns(ParseConn(t).rest).value);
    }
  }

  lemma TargetsAre(t: string, output: bool)
    ensures var x, p := ParseTarget(t), ParseTargets(t, output);
            if x.Failed? then p == Parsed([], t)
            else var q := ParseMore(x.rest, output);
                 p.Parsed? == q.Parsed? && (p.Parsed? ==> p.value == [x.value] + q.value && p.rest == q.rest)
  {
    hide ParseTarget, ParseMore;
  }

  lemma NulNoDigit()
    ensures HexDigit('\0') < 0
  {
  }
}
