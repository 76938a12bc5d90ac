/** What the parser makes of the text that the printer writes for a brick. */
module StrategyRoundTrip {
  import opened Words
  import opened StrategyText

  // ---- the bricks that are printed ----

  predicate AllId(w: string) {
    forall c :: c in w ==> IsId(c)
  }

  predicate Ident(w: string) {
    w != "" && AllId(w)
  }

  /** What convert_string can have read. */
  predicate ValueOK(v: string) {
    forall c :: c in v ==> IsGraphic(c)
  }

  predicate AttrOK(a: Part) {
    a.Attr? && Ident(a.name) && ValueOK(a.value)
  }

  predicate TargetOK(x: Part) {
    x.Target? && Ident(x.name) && x.addr < TWO64
  }

  predicate AttrsOK(attrs: seq<Part>) {
    forall i :: 0 <= i < |attrs| ==> AttrOK(attrs[i])
  }

  predicate TargetsOK(xs: seq<Part>) {
    forall i :: 0 <= i < |xs| ==> TargetOK(xs[i])
  }

  predicate ConnsOK(cs: seq<Part>) {
    forall i :: 0 <= i < |cs| ==> ConnOK(cs[i])
  }

  predicate ConnOK(c: Part) {
    c.Conn? && Ident(c.name) && AttrsOK(c.attrs) && TargetsOK(c.targets)
  }

  predicate BrickOK(b: Brick) {
    Ident(b.name) && AttrsOK(b.attrs) && ConnsOK(b.conns)
  }

  // ---- what is read back ----

  function ReadValue(v: string): string {
    if v != "" && v[0] == '=' then v[1..] else v
  }

  function ReadAttrs(attrs: seq<Part>): (r: seq<Part>)
    requires AttrsOK(attrs)
    ensures |r| == |attrs|
  {
    if attrs == [] then []
    else
      assert AttrOK(attrs[0]);
      [Attr(attrs[0].name, ReadValue(attrs[0].value))] + ReadAttrs(attrs[1..])
  }

  /** Type and active bit; the actions are not printed. */
  function ReadFlags(flags: bv16): bv16 {
    flags & (CONN_TYPE | CONN_ACTIVE)
  }

  function ReadConn(c: Part): Part
    requires ConnOK(c)
  {
    Conn(ReadFlags(c.flags), c.name, ReadAttrs(c.attrs), c.targets)
  }

  function ReadConns(cs: seq<Part>): (r: seq<Part>)
    requires ConnsOK(cs)
    ensures |r| == |cs|
  {
    if cs == [] then [] else [ReadConn(cs[0])] + ReadConns(cs[1..])
  }

  /** Only an output may have more than one target. */
  predicate Connectable(c: Part)
    requires c.Conn?
  {
    IsOutput(c.flags) || |c.targets| <= 1
  }

  // ---- scanning ----

  /** The classes of characters, by their ASCII codes: letters, digits and the underscore; space, tab and newline; and what
      an attribute's value may consist of. */
  lemma CharacterClasses(c: char)
    ensures var n := c as int;
            && (IsId(c) <==> 48 <= n <= 57 || 65 <= n <= 90 || n == 95 || 97 <= n <= 122)
            && (IsBlank(c) <==> n == 9 || n == 32) && (IsSpace(c) <==> n == 9 || n == 10 || n == 32)
            && (IsGraphic(c) <==> 33 <= n <= 127)
  {
  }

  lemma {:induction false} SpaceTwice(t: string)
    ensures SkipSpace(SkipSpace(t)) == SkipSpace(t) && !IsSpace(Head(SkipSpace(t)))
  {
    if IsSpace(Head(t)) {
      SpaceTwice(t[1..]);
    }
  }

  lemma OneSpace(c: char, t: string)
    requires IsSpace(c)
    ensures SkipSpace([c] + t) == SkipSpace(t)
  {
    assert ([c] + t)[1..] == t;
  }

  lemma NoSpace(t: string)
    requires !IsSpace(Head(t))
    ensures SkipSpace(t) == t
  {
  }

  lemma {:induction false} WordFront(w: string, r: string)
    requires AllId(w) && !IsId(Head(r))
    ensures Word(w + r) == w && (w + r)[|w|..] == r
    ensures Ident(w) ==> ParseWord(w + r) == Parsed(w, r)
  {
    if w != "" {
      assert w[0] in w;
      assert (w + r)[1..] == w[1..] + r;
      WordFront(w[1..], r);
    } else {
      assert w + r == r;
    }
  }

  lemma {:induction false} SkipWordFront(w: string, r: string)
    requires AllId(w) && !IsId(Head(r))
    ensures SkipWord(w + r, w) == Some(r)
  {
    if w != "" {
      assert w[0] in w;
      assert (w + r)[1..] == w[1..] + r;
      SkipWordFront(w[1..], r);
    } else {
      assert w + r == r;
    }
  }

  lemma SkipWordMiss(t: string, w: string)
    requires w != "" && Head(t) != w[0]
    ensures SkipWord(t, w) == None
  {
  }

  lemma ComposedDot(w: string, t: string)
    requires Ident(w)
    ensures ParseComposed(w + ("." + t)) == ParseComposed(t)
  {
    WordFront(w, "." + t);
    assert ("." + t)[1..] == t;
  }

  lemma ComposedLast(w: string, r: string)
    requires Ident(w) && !IsId(Head(r)) && Head(r) != '.'
    ensures ParseComposed(w + r) == Parsed(w, r)
  {
    WordFront(w, r);
  }

  lemma {:induction false} GraphicsFront(v: string, r: string)
    requires ValueOK(v) && !IsGraphic(Head(r))
    ensures Graphics(v + r) == v && (v + r)[|v|..] == r && ParseString(v + r) == Parsed(v, r)
  {
    if v != "" {
      assert v[0] in v;
      assert (v + r)[1..] == v[1..] + r;
      GraphicsFront(v[1..], r);
    } else {
      assert v + r == r;
    }
  }

  // ---- operators ----

  /** What is to be done with a brick, a connector or a connection. */
  type Action = a: int | 0 <= a < 6

  const STRAT_CREATE: Action := 1
  const STRAT_DESTROY: Action := 2
  const STRAT_INIT: Action := 3
  const STRAT_SHUTDOWN: Action := 4
  const STRAT_REINIT: Action := 5

  /** The operators of a strategy text: = and == read, := creates, /= destroys, += initialises, -= shuts down, and ^=
      initialises again.  Only the first does without its second character. */
  lemma OperatorRead(r: string)
    ensures ParseOp("==" + r) == Parsed(STRAT_READ, r) && ParseOp("=") == Parsed(STRAT_READ, "")
    ensures r != "" && r[0] != '=' ==> ParseOp("=" + r) == Parsed(STRAT_READ, r)
    ensures ParseOp(":=" + r) == Parsed(STRAT_CREATE, r) && ParseOp("/=" + r) == Parsed(STRAT_DESTROY, r)
    ensures ParseOp("+=" + r) == Parsed(STRAT_INIT, r) && ParseOp("-=" + r) == Parsed(STRAT_SHUTDOWN, r)
    ensures ParseOp("^=" + r) == Parsed(STRAT_REINIT, r)
  {
    TwoCharacters('=', '=', r);
    TwoCharacters(':', '=', r);
    TwoCharacters('/', '=', r);
    TwoCharacters('+', '=', r);
    TwoCharacters('-', '=', r);
    TwoCharacters('^', '=', r);
    assert ("=" + r)[1..] == r;
  }

  lemma TwoCharacters(c: char, d: char, r: string)
    ensures ([c, d] + r)[0] == c && ([c, d] + r)[1..] == [d] + r && ([c, d] + r)[2..] == r && Head([d] + r) == d
  {
  }

  /** Nothing else is an operator. */
  lemma NoOperator(t: string)
    ensures ParseOp(t) == Failed <==>
            t == "" || t[0] !in "=:/+-^" || (t[0] != '=' && (|t| == 1 || t[1] != '='))
  {
    if |t| > 1 {
      assert t[1..][0] == t[1];
    }
  }

  /** The operator that stands for an action. */
  function OpText(a: Action): string {
    if a == STRAT_READ then "==" else if a == STRAT_CREATE then ":=" else if a == STRAT_DESTROY then "/="
    else if a == STRAT_INIT then "+=" else if a == STRAT_SHUTDOWN then "-=" else "^="
  }

  lemma ReadOp(a: Action, r: string)
    ensures ParseOp(OpText(a) + r) == Parsed(a, r)
  {
    hide ParseOp;
    OperatorRead(r);
  }

  lemma OpHead(a: Action, r: string)
    ensures var c := Head(OpText(a) + r); !IsId(c) && !IsSpace(c) && c != '.' && c != ')'
  {
  }

  /** The actions that a text names for a connector, and for what it is connected to. */
  datatype Ops = Ops(action: Action, target: Action)

  /** The printer names none. */
  const NONE: Ops := Ops(0, 0)

  /** The flags that are read: type and active bit, with the actions put in. */
  function FlagsWith(flags: bv16, connected: bool, o: Ops): bv16 {
    WithTargetAction(WithAction(ReadFlags(flags), o.action), if connected then o.target else 0)
  }

  function TakeConn(c: Part, o: Ops): Part
    requires ConnOK(c)
  {
    Conn(FlagsWith(c.flags, c.targets != [], o), c.name, ReadAttrs(c.attrs), c.targets)
  }

  /** What the macros of binstrat.h make of the flags of a connector.  The action of the connection shares its lowest bit
      with the active bit: it is changed if the connector is active and the action even, and then a connector that is
      not active, with an odd one, counts as active. */
  lemma FlagsTell(flags: bv16, connected: bool, o: Ops)
    ensures var f, target := FlagsWith(flags, connected, o), if connected then o.target else 0;
            && (f & 7) as int == o.action && (IsOutput(f) <==> IsOutput(flags))
            && (IsActive(f) <==> IsActive(flags) || target % 2 == 1)
            && ((f >> 4) & 7) as int == (if IsActive(flags) && target % 2 == 0 then target + 1 else target)
            && f & 0xFF80 == 0
  {
    var a, t := ActionBits(o.action), ActionBits(if connected then o.target else 0);
    ActionBitsAre(o.action);
    ActionBitsAre(if connected then o.target else 0);
    hide ActionBits;
    FlagBits(flags, a, t);
  }

  lemma ActionBitsAre(a: Action)
    ensures var b := ActionBits(a); b as int == a && b < 8 && (b & 1 == 1 <==> a % 2 == 1) && (b | 1) as int == (if a % 2 == 0 then a + 1 else a)
  {
  }

  lemma FlagBits(flags: bv16, a: bv16, t: bv16)
    requires a < 8 && t < 8
    ensures var f := ReadFlags(flags) | a | (t << 4);
            && f & 7 == a && (IsOutput(f) <==> IsOutput(flags)) && (IsActive(f) <==> IsActive(flags) || t & 1 == 1)
            && (f >> 4) & 7 == (if IsActive(flags) then t | 1 else t) && f & 0xFF80 == 0
  {
    hide ReadFlags, IsOutput, IsActive;
    ActionPart(flags, a, t);
    KindPart(flags, a, t);
    TargetPart(flags, a, t);
  }

  lemma ActionPart(flags: bv16, a: bv16, t: bv16)
    requires a < 8 && t < 8
    ensures var f := ReadFlags(flags) | a | (t << 4); f & 7 == a && f & 0xFF80 == 0
  {
  }

  lemma KindPart(flags: bv16, a: bv16, t: bv16)
    requires a < 8 && t < 8
    ensures var f := ReadFlags(flags) | a | (t << 4);
            (IsOutput(f) <==> IsOutput(flags)) && (IsActive(f) <==> IsActive(flags) || t & 1 == 1)
  {
  }

  lemma TargetPart(flags: bv16, a: bv16, t: bv16)
    requires a < 8 && t < 8
    ensures var f := ReadFlags(flags) | a | (t << 4); (f >> 4) & 7 == if IsActive(flags) then t | 1 else t
  {
  }

  /** So both are read back as they were written exactly if the connector is active and the action odd, or neither. */
  lemma FlagsFaithful(flags: bv16, connected: bool, o: Ops)
    ensures var f, target := FlagsWith(flags, connected, o), if connected then o.target else 0;
            (IsActive(f) == IsActive(flags) && ((f >> 4) & 7) as int == target) <==> (IsActive(flags) <==> target % 2 == 1)
  {
    FlagsTell(flags, connected, o);
    hide FlagsWith, IsActive;
  }

  /** The flags of a brick, read: its action and the active bit. */
  function BrickFlagsWith(flags: bv16, action: Action): bv16 {
    WithAction(flags & BRICK_ACTIVE, action)
  }

  lemma BrickFlagsTell(flags: bv16, action: Action)
    ensures var f := BrickFlagsWith(flags, action);
            && (f & 7) as int == action && (f & BRICK_ACTIVE != 0 <==> flags & BRICK_ACTIVE != 0) && f & 0xFFF0 == 0
  {
    var a := ActionBits(action);
    ActionBitsAre(action);
    hide ActionBits;
    BrickBits(flags, a);
  }

  lemma BrickBits(flags: bv16, a: bv16)
    requires a < 8
    ensures var f := (flags & BRICK_ACTIVE) | a;
            f & 7 == a && (f & BRICK_ACTIVE != 0 <==> flags & BRICK_ACTIVE != 0) && f & 0xFFF0 == 0
  {
  }

  // ---- attributes ----

  /** A line "attr <path><name>=<value>" up to what follows the value. */
  lemma AttrFront(t: string, path: string, name: string, v: string, r: string)
    requires SkipSpace(t) == "attr" + (" " + (path + (name + ("=" + v + r))))
    requires ParseComposed(path + (name + ("=" + v + r))) == ParseComposed(name + ("=" + v + r)) 
    requires |path| > 0 && IsId(path[0]) && Ident(name) && ValueOK(v) && !IsGraphic(Head(r))
    ensures ParseAttr(t) == match EndOfLine(r) case None => Failed case Some(t4) => Parsed(Attr(name, ReadValue(v)), t4)
  {
    hide SkipSpace, SkipWord, ParseComposed, ParseOp, ParseString, EndOfLine, ReadValue, IsGraphic;
    var u := path + (name + ("=" + v + r));
    SkipWordFront("attr", " " + u);
    assert Head(u) == path[0];
    OneSpace(' ', u);
    NoSpace(u);
    ComposedLast(name, "=" + v + r);
    ValueFront(v, r);
  }

  lemma ValueFront(v: string, r: string)
    requires ValueOK(v) && !IsGraphic(Head(r))
    ensures var p := ParseOp("=" + v + r); p.Parsed? && ParseString(p.rest) == Parsed(ReadValue(v), r)
  {
    var t := "=" + v + r;
    assert t[1..] == v + r;
    if v != "" && v[0] == '=' {
      assert t[2..] == v[1..] + r;
      assert forall c :: c in v[1..] ==> c in v;
      GraphicsFront(v[1..], r);
    } else {
      assert Head(v + r) != '=' || v == "";
      GraphicsFront(v, r);
    }
  }

  function AttrLine(brick: string, conn: string, a: Part): string
    requires a.Attr?
  {
    "    attr " + brick + "." + conn + "." + a.name + "=" + a.value + "\n"
  }

  lemma ConnAttrRead(t: string, brick: string, conn: string, a: Part, r: string)
    requires Ident(brick) && Ident(conn) && AttrOK(a) && SkipSpace(t) == SkipSpace(AttrLine(brick, conn, a) + r)
    ensures ParseAttr(t) == Parsed(Attr(a.name, ReadValue(a.value)), "\n" + r)
  {
    var path, line := brick + "." + conn + ".", a.name + ("=" + a.value + ("\n" + r));
    assert brick[0] in brick;
    PathSkipped(brick, conn, line);
    LineStart(brick, conn, a, r, path + line);
    AttrFront(t, path, a.name, a.value, "\n" + r);
  }

  lemma LineStart(brick: string, conn: string, a: Part, r: string, u: string)
    requires a.Attr? && u == brick + "." + conn + "." + (a.name + ("=" + a.value + ("\n" + r)))
    ensures SkipSpace(AttrLine(brick, conn, a) + r) == "attr" + (" " + u)
  {
    var t := "attr" + (" " + u);
    assert AttrLine(brick, conn, a) + r == [' '] + ([' '] + ([' '] + ([' '] + t)));
    FourSpaces(t);
    NoSpace(t);
  }

  lemma PathSkipped(brick: string, conn: string, line: string)
    requires Ident(brick) && Ident(conn)
    ensures ParseComposed(brick + "." + conn + "." + line) == ParseComposed(line)
  {
    ComposedDot(brick, conn + ("." + line));
    ComposedDot(conn, line);
    FiveParts(brick, ".", conn, ".", line);
  }

  lemma FiveParts(a: string, b: string, c: string, d: string, e: string)
    ensures a + b + c + d + e == a + (b + (c + (d + e)))
  {
  }

  lemma {:induction false} AttrsRead(t: string, brick: string, conn: string, attrs: seq<Part>, r: string)
    requires Ident(brick) && Ident(conn) && AttrsOK(attrs)
    requires ParseAttr(r) == Failed && SkipSpace(t) == SkipSpace(ShowConnAttrs(brick, conn, attrs) + r)
    ensures ParseAttrs(t).value == ReadAttrs(attrs) && SkipSpace(ParseAttrs(t).rest) == SkipSpace(r)
    decreases attrs
  {
    hide ParseAttr, ReadValue, SkipSpace, AttrLine;
    if attrs == [] {
      assert ShowConnAttrs(brick, conn, attrs) + r == r;
      SameAttr(t, r);
    } else {
      var a, more := attrs[0], ShowConnAttrs(brick, conn, attrs[1..]) + r;
      assert AttrOK(a);
      FirstLine(brick, conn, attrs, r);
      ConnAttrRead(t, brick, conn, a, more);
      OneSpace('\n', more);
      AttrsRead(['\n'] + more, brick, conn, attrs[1..], r);
    }
  }

  lemma FirstLine(brick: string, conn: string, attrs: seq<Part>, r: string)
    requires attrs != [] && AreAttrs(attrs)
    ensures ShowConnAttrs(brick, conn, attrs) + r == AttrLine(brick, conn, attrs[0]) + (ShowConnAttrs(brick, conn, attrs[1..]) + r)
  {
  }

  lemma SameAttr(t: string, u: string)
    requires SkipSpace(t) == SkipSpace(u)
    ensures ParseAttr(t) == ParseAttr(u)
  {
  }

  // ---- addresses and targets ----

  lemma DigitRead(d: int, upper: bool)
    requires 0 <= d < 16
    ensures HexDigit(HexChar(d, upper)) == d && HexChar(d, upper) != 'x' && HexChar(d, upper) != 'X'
  {
  }

  lemma {:induction false} HexFront(a: nat, r: string, upper: bool)
    requires a < TWO64
    ensures ParseHex(ShowAddr(a, upper) + r, 0) == ParseHex(r, a)
    decreases a
  {
    hide HexChar, HexDigit, ParseHex;
    var c := HexChar(a % 16, upper);
    HexStep(a / 16, a % 16, r, upper);
    if a >= 16 {
      HexFront(a / 16, [c] + r, upper);
      assert ShowAddr(a, upper) + r == ShowAddr(a / 16, upper) + ([c] + r);
    }
  }

  lemma HexStep(addr: nat, d: nat, r: string, upper: bool)
    requires d < 16 && 16 * addr + d < TWO64
    ensures ParseHex([HexChar(d, upper)] + r, addr) == ParseHex(r, 16 * addr + d)
  {
    hide HexChar, HexDigit, Wrap64;
    DigitRead(d, upper);
    NoWrap(16 * addr + d);
    assert ([HexChar(d, upper)] + r)[1..] == r;
  }

  lemma NoWrap(x: nat)
    requires x < TWO64
    ensures Wrap64(x) == x
  {
  }

  lemma {:induction false} HexOnly(a: nat, upper: bool, i: nat)
    requires i < |ShowAddr(a, upper)|
    ensures HexDigit(ShowAddr(a, upper)[i]) >= 0 && ShowAddr(a, upper)[i] != 'x' && ShowAddr(a, upper)[i] != 'X'
    decreases a
  {
    hide HexChar, HexDigit;
    DigitRead(a % 16, upper);
    if a >= 16 && i < |ShowAddr(a / 16, upper)| {
      HexOnly(a / 16, upper, i);
    }
  }

  lemma AddrRead(a: nat, r: string, upper: bool)
    requires a < TWO64 && HexDigit(Head(r)) < 0 && Head(r) != 'x' && Head(r) != 'X'
    ensures ParseAddr(ShowAddr(a, upper) + r) == Parsed(a, r)
  {
    hide HexDigit, ShowAddr, ParseHex;
    var s := ShowAddr(a, upper);
    HexFront(a, r, upper);
    HexOnly(a, upper, 0);
    if |s| > 1 {
      HexOnly(a, upper, 1);
    }
    assert SkipHexPrefix(s + r) == s + r;
    HexEnd(r, a);
  }

  lemma HexEnd(r: string, a: nat)
    requires HexDigit(Head(r)) < 0
    ensures ParseHex(r, a) == Parsed(a, r)
  {
  }

  lemma TargetRead(x: Part, r: string, upper: bool)
    requires TargetOK(x) && !IsId(Head(r))
    ensures ParseTarget(ShowTarget(x, upper) + r) == Parsed(x, r)
  {
    hide ParseAddr, ShowAddr, ParseWord;
    var t := ":" + (x.name + r);
    assert ShowTarget(x, upper) + r == ShowAddr(x.addr, upper) + t;
    AddrRead(x.addr, t, upper);
    assert t[1..] == x.name + r;
    WordFront(x.name, r);
  }

  lemma {:induction false} MoreRead(xs: seq<Part>, r: string, output: bool, upper: bool)
    requires TargetsOK(xs) && !IsId(Head(r)) && Head(r) != ','
    ensures ParseMore(ShowMore(xs, upper) + r, output)
         == if xs == [] then Parsed([], r) else if output then Parsed(xs, r) else Failed
    decreases xs
  {
    hide ParseTarget, ShowTarget;
    if xs == [] {
      assert ShowMore(xs, upper) + r == r;
    } else {
      var more := ShowMore(xs[1..], upper) + r;
      var t := ShowTarget(xs[0], upper) + more;
      MoreHead(xs[1..], r, upper);
      assert TargetOK(xs[0]);
      assert ShowMore(xs, upper) + r == "," + t && ("," + t)[1..] == t;
      TargetRead(xs[0], more, upper);
      MoreRead(xs[1..], r, output, upper);
      assert xs == [xs[0]] + xs[1..];
    }
  }

  lemma MoreHead(xs: seq<Part>, r: string, upper: bool)
    requires AreTargets(xs) && !IsId(Head(r))
    ensures !IsId(Head(ShowMore(xs, upper) + r))
  {
  }

  lemma TargetsRead(xs: seq<Part>, r: string, output: bool, upper: bool)
    requires xs != [] && TargetsOK(xs) && !IsId(Head(r)) && Head(r) != ','
    ensures ParseTargets(ShowTarget(xs[0], upper) + (ShowMore(xs[1..], upper) + r), output)
         == if |xs| == 1 || output then Parsed(xs, r) else Failed
  {
    hide ParseTarget, ParseMore, ShowTarget, ShowMore;
    var more := ShowMore(xs[1..], upper) + r;
    assert TargetOK(xs[0]);
    MoreHead(xs[1..], r, upper);
    TargetRead(xs[0], more, upper);
    MoreRead(xs[1..], r, output, upper);
    assert xs == [xs[0]] + xs[1..];
  }

  // ---- connectors ----

  /** The connect line, with an operator. */
  function WriteConnect(c: Part, o: Ops, upper: bool): string
    requires ConnShape(c)
  {
    if c.targets == [] then "" else ConnectText(c, o, upper) + "\n"
  }

  /** A connector as the printer writes it, but with operators. */
  function WriteConn(brick: string, c: Part, o: Ops, upper: bool): string
    requires ConnShape(c)
  {
    ShowKind(c.flags) + OpText(o.action) + c.name + " {\n" + ShowConnAttrs(brick, c.name, c.attrs) + WriteConnect(c, o, upper) + "  }\n"
  }

  lemma PrintedConn(brick: string, c: Part, upper: bool)
    requires ConnShape(c)
    ensures WriteConn(brick, c, NONE, upper) == ShowConn(brick, c, upper)
  {
    hide ShowMore, ShowTarget, ShowConnAttrs, ShowKind;
    assert WriteConnect(c, NONE, upper) == ShowConnect(c, upper);
  }

  /** What follows the attributes of a connector. */
  function AfterAttrs(c: Part, o: Ops, upper: bool, more: string): string
    requires ConnShape(c)
  {
    WriteConnect(c, o, upper) + ("  }\n" + more)
  }

  lemma CloseRead(more: string)
    ensures SkipSpace("  }\n" + more) == "}\n" + more
    ensures SkipStr("}\n" + more, " } ") == Some(SkipSpace(more)) && SkipStr("\n  }\n" + more, " } ") == Some(SkipSpace(more))
  {
    var close := "}" + ("\n" + more);
    assert "}\n" + more == close && close[1..] == ['\n'] + more;
    assert "  }\n" + more == [' '] + ([' '] + close);
    assert "\n  }\n" + more == ['\n'] + ([' '] + ([' '] + close));
    OneSpace(' ', close);
    OneSpace(' ', [' '] + close);
    OneSpace('\n', [' '] + ([' '] + close));
    OneSpace('\n', more);
    NoSpace(close);
    CloseStr(close, "\n" + more);
    CloseStr("\n  }\n" + more, "\n" + more);
  }

  lemma CloseStr(t: string, r: string)
    requires SkipSpace(t) == "}" + r
    ensures SkipStr(t, " } ") == Some(SkipSpace(r))
  {
    hide SkipSpace;
    assert ("}" + r)[1..] == r;
    assert " } "[1..] == "} " && "} "[1..] == " " && " "[1..] == "";
    assert SkipStr(SkipSpace(r), "") == Some(SkipSpace(r));
    assert SkipStr(r, " ") == SkipStr(SkipSpace(r), "");
    assert SkipStr("}" + r, "} ") == SkipStr(r, " ");
  }

  lemma ConnectRead(c: Part, o: Ops, upper: bool, more: string, output: bool)
    requires ConnOK(c)
    ensures var p := ParseConnect(SkipSpace(AfterAttrs(c, o, upper, more)), output);
            if output || |c.targets| <= 1 then
              p.Parsed? && p.value == Connect(if c.targets == [] then 0 else o.target, c.targets) && SkipStr(p.rest, " } ") == Some(SkipSpace(more))
            else p == Failed
  {
    hide SkipSpace, SkipStr, SkipWord, ParseConnect, ConnectText, IsId;
    CloseRead(more);
    if c.targets == [] {
      assert AfterAttrs(c, o, upper, more) == "  }\n" + more;
      NoConnect("}\n" + more);
    } else {
      ConnectLine(c, o, upper, "\n  }\n" + more, output);
      AfterIs(c, o, upper, more);
    }
  }

  lemma AfterIs(c: Part, o: Ops, upper: bool, more: string)
    requires ConnShape(c) && c.targets != []
    ensures AfterAttrs(c, o, upper, more) == ConnectText(c, o, upper) + ("\n  }\n" + more)
  {
  }

  lemma NoConnect(t: string)
    requires Head(t) == '}'
    ensures ParseConnect(t, true) == Parsed(Connect(0, []), t) && ParseConnect(t, false) == Parsed(Connect(0, []), t)
  {
    SkipWordMiss(t, "connect");
  }

  function ConnectText(c: Part, o: Ops, upper: bool): string
    requires ConnShape(c) && c.targets != []
  {
    "    connect " + c.name + OpText(o.target) + ShowTarget(c.targets[0], upper) + ShowMore(c.targets[1..], upper)
  }

  lemma ConnectLine(c: Part, o: Ops, upper: bool, r: string, output: bool)
    requires ConnOK(c) && c.targets != [] && Head(r) == '\n'
    ensures ParseConnect(SkipSpace(ConnectText(c, o, upper) + r), output)
         == if |c.targets| == 1 || output then Parsed(Connect(o.target, c.targets), r) else Failed
  {
    hide ParseTargets, ParseWord, ParseOp, SkipWord, ShowTarget, ShowMore;
    var xs := c.targets;
    var t3 := ShowTarget(xs[0], upper) + (ShowMore(xs[1..], upper) + r);
    var t1 := c.name + (OpText(o.target) + t3);
    ConnectStart(c, o, upper, r, t3);
    SkipWordFront("connect", " " + t1);
    assert c.name[0] in c.name && Head(t1) == c.name[0];
    OneSpace(' ', t1);
    NoSpace(t1);
    OpHead(o.target, t3);
    WordFront(c.name, OpText(o.target) + t3);
    ReadOp(o.target, t3);
    TargetHead(xs[0], ShowMore(xs[1..], upper) + r, upper);
    NoSpace(t3);
    TargetsRead(xs, r, output, upper);
  }

  lemma TargetHead(x: Part, r: string, upper: bool)
    requires x.Target?
    ensures !IsSpace(Head(ShowTarget(x, upper) + r))
  {
    HexOnly(x.addr, upper, 0);
    assert Head(ShowTarget(x, upper) + r) == ShowAddr(x.addr, upper)[0];
  }

  lemma ConnectStart(c: Part, o: Ops, upper: bool, r: string, t3: string)
    requires ConnShape(c) && c.targets != [] && t3 == ShowTarget(c.targets[0], upper) + (ShowMore(c.targets[1..], upper) + r)
    ensures SkipSpace(ConnectText(c, o, upper) + r) == "connect" + (" " + (c.name + (OpText(o.target) + t3)))
  {
    hide ShowTarget, ShowMore, OpText;
    var t := "connect" + (" " + (c.name + (OpText(o.target) + t3)));
    FivePieces(c.name, OpText(o.target), ShowTarget(c.targets[0], upper), ShowMore(c.targets[1..], upper), r);
    assert ConnectText(c, o, upper) + r == [' '] + ([' '] + ([' '] + ([' '] + t)));
    FourSpaces(t);
    NoSpace(t);
  }

  lemma FivePieces(a: string, b: string, c: string, d: string, e: string)
    ensures "    connect " + a + b + c + d + e == [' '] + ([' '] + ([' '] + ([' '] + ("connect" + (" " + (a + (b + (c + (d + e)))))))))
  {
    var f := c + (d + e);
    assert "    connect " + a + b + c + d + e == "    connect " + (a + (b + f));
    assert "    connect " == [' '] + ([' '] + ([' '] + ([' '] + ("connect" + " "))));
  }

  lemma FourSpaces(t: string)
    ensures SkipSpace([' '] + ([' '] + ([' '] + ([' '] + t)))) == SkipSpace(t)
  {
    OneSpace(' ', [' '] + ([' '] + ([' '] + t)));
    OneSpace(' ', [' '] + ([' '] + t));
    OneSpace(' ', [' '] + t);
    OneSpace(' ', t);
  }

  /** "output" or "input", in parentheses or not */
  function KindText(flags: bv16): string {
    var kind := if IsOutput(flags) then "output" else "input";
    if IsActive(flags) then kind else "(" + kind + ")"
  }

  lemma KindRead(flags: bv16, r: string)
    requires !IsId(Head(r))
    ensures ParseKind(KindText(flags) + r) == Parsed(ReadFlags(flags), r)
  {
    FlagsRead(flags);
    hide ReadFlags, IsOutput, IsActive, ParseKind, KindFlags;
    var kind := if IsOutput(flags) then "output" else "input";
    if IsActive(flags) {
      ActiveKind(kind, r);
    } else {
      assert KindText(flags) + r == "(" + (kind + (")" + r));
      InactiveKind(kind, r);
    }
  }

  lemma ActiveKind(kind: string, r: string)
    requires (kind == "output" || kind == "input") && !IsId(Head(r))
    ensures ParseKind(kind + r) == Parsed(KindFlags(kind == "output", true), r)
  {
    hide SkipWord, KindFlags;
    KindWord(kind, r);
    assert Head(kind + r) == kind[0];
  }

  lemma InactiveKind(kind: string, r: string)
    requires kind == "output" || kind == "input"
    ensures ParseKind("(" + (kind + (")" + r))) == Parsed(KindFlags(kind == "output", false), r)
  {
    hide SkipWord, KindFlags;
    KindWord(kind, ")" + r);
    assert ("(" + (kind + (")" + r)))[1..] == kind + (")" + r) && (")" + r)[1..] == r;
  }

  lemma KindWord(kind: string, r: string)
    requires (kind == "output" || kind == "input") && !IsId(Head(r))
    ensures SkipWord(kind + r, kind) == Some(r) && (kind == "input" ==> SkipWord(kind + r, "output") == None)
  {
    SkipWordFront(kind, r);
    if kind == "input" {
      SkipWordMiss(kind + r, "output");
    }
  }

  lemma FlagsRead(flags: bv16)
    ensures ReadFlags(flags) == KindFlags(IsOutput(flags), IsActive(flags))
    ensures IsOutput(ReadFlags(flags)) == IsOutput(flags)
    ensures WithTargetAction(WithAction(ReadFlags(flags), 0), 0) == ReadFlags(flags)
  {
  }

  /** After the attributes comes "connect" or the closing brace. */
  lemma AfterStart(c: Part, o: Ops, upper: bool, more: string)
    requires ConnOK(c)
    ensures var t := SkipSpace(AfterAttrs(c, o, upper, more)); (exists u :: t == "connect" + (" " + u)) || Head(t) == '}'
    ensures ParseAttr(AfterAttrs(c, o, upper, more)) == Failed
  {
    hide SkipSpace, ParseAttr, SkipStr, AfterAttrs;
    CloseRead(more);
    if c.targets == [] {
      AfterNone(c, o, upper, more);
    } else {
      var u := AfterSome(c, o, upper, more);
      assert Head("connect" + (" " + u)) == 'c';
    }
    NoAttr(AfterAttrs(c, o, upper, more));
  }

  lemma AfterNone(c: Part, o: Ops, upper: bool, more: string)
    requires ConnShape(c) && c.targets == []
    ensures AfterAttrs(c, o, upper, more) == "  }\n" + more
  {
  }

  lemma AfterSome(c: Part, o: Ops, upper: bool, more: string) returns (u: string)
    requires ConnShape(c) && c.targets != []
    ensures SkipSpace(AfterAttrs(c, o, upper, more)) == "connect" + (" " + u)
  {
    hide SkipSpace, ConnectText, AfterAttrs;
    var r := "\n  }\n" + more;
    var t3 := ShowTarget(c.targets[0], upper) + (ShowMore(c.targets[1..], upper) + r);
    AfterIs(c, o, upper, more);
    ConnectStart(c, o, upper, r, t3);
    u := c.name + (OpText(o.target) + t3);
  }

  lemma NoAttr(t: string)
    requires Head(SkipSpace(t)) != 'a'
    ensures ParseAttr(t) == Failed
  {
    SkipWordMiss(SkipSpace(t), "attr");
  }

  /** The text of a connector from behind its name on. */
  function Body(brick: string, c: Part, o: Ops, upper: bool, more: string): string
    requires ConnShape(c)
  {
    ShowConnAttrs(brick, c.name, c.attrs) + AfterAttrs(c, o, upper, more)
  }

  lemma BodyStart(brick: string, c: Part, o: Ops, upper: bool, more: string)
    requires Ident(brick) && ConnOK(c)
    ensures SkipParam(SkipSpace(Body(brick, c, o, upper, more)), "c_param") == SkipSpace(Body(brick, c, o, upper, more))
  {
    hide SkipSpace, AttrLine, ShowConnAttrs, AfterAttrs;
    var t := SkipSpace(Body(brick, c, o, upper, more));
    AfterStart(c, o, upper, more);
    if c.attrs != [] {
      var a := c.attrs[0];
      var rest := ShowConnAttrs(brick, c.name, c.attrs[1..]) + AfterAttrs(c, o, upper, more);
      FirstLine(brick, c.name, c.attrs, AfterAttrs(c, o, upper, more));
      LineStart(brick, c.name, a, rest, brick + "." + c.name + "." + (a.name + ("=" + a.value + ("\n" + rest))));
      assert Head(t) == 'a';
    } else {
      NoAttrs(brick, c.name, AfterAttrs(c, o, upper, more));
      if Head(t) != '}' {
        var u :| t == "connect" + (" " + u);
        NotParam(u);
      }
    }
  }

  lemma NoAttrs(brick: string, conn: string, r: string)
    ensures ShowConnAttrs(brick, conn, []) + r == r
  {
  }

  lemma NotParam(u: string)
    ensures SkipWord("connect" + (" " + u), "c_param") == None
  {
    var t := "connect" + (" " + u);
    assert t[1..][0] == 'o' && "c_param"[1..][0] == '_';
  }

  lemma BraceRead(body: string)
    ensures SkipStr(" {\n" + body, " { ") == Some(SkipSpace(body))
  {
    var t := "{" + ("\n" + body);
    assert " {\n" + body == [' '] + t && t[1..] == ['\n'] + body;
    OneSpace(' ', t);
    NoSpace(t);
    OneSpace('\n', body);
    hide SkipSpace;
    assert " { "[1..] == "{ " && "{ "[1..] == " " && " "[1..] == "";
    assert SkipStr(SkipSpace("\n" + body), "") == Some(SkipSpace("\n" + body));
    assert SkipStr("\n" + body, " ") == SkipStr(SkipSpace("\n" + body), "");
    assert SkipStr(t, "{ ") == SkipStr("\n" + body, " ");
  }

  lemma ConnRead(t: string, brick: string, c: Part, o: Ops, more: string, upper: bool)
    requires Ident(brick) && ConnOK(c) && SkipSpace(t) == SkipSpace(WriteConn(brick, c, o, upper) + more)
    ensures ParseConn(t) == if Connectable(c) then Parsed(TakeConn(c, o), SkipSpace(more)) else Failed
  {
    hide SkipSpace, ParseKind, ParseConnFrom, Body, KindText, ReadFlags, ReadConn, Connectable;
    var r := OpText(o.action) + (c.name + (" {\n" + Body(brick, c, o, upper, more)));
    ConnStart(brick, c, o, upper, more, r);
    KindRead(c.flags, r);
    NoSpace(r);
    ConnFrom(brick, c, o, more, upper, r);
  }

  lemma ConnFrom(brick: string, c: Part, o: Ops, more: string, upper: bool, t1: string)
    requires Ident(brick) && ConnOK(c) && t1 == OpText(o.action) + (c.name + (" {\n" + Body(brick, c, o, upper, more))) && SkipSpace(t1) == t1
    ensures ParseConnFrom(ReadFlags(c.flags), t1) == if Connectable(c) then Parsed(TakeConn(c, o), SkipSpace(more)) else Failed
  {
    hide SkipSpace, SkipStr, ParseOp, ParseComposed, ParseAttrs, ParseConnect, SkipParam, Body,
      ReadFlags, IsOutput, ReadAttrs, ShowConnAttrs, WithAction, WithTargetAction;
    var body := Body(brick, c, o, upper, more);
    var t2 := c.name + (" {\n" + body);
    ReadOp(o.action, t2);
    ComposedLast(c.name, " {\n" + body);
    BraceRead(body);
    BodyStart(brick, c, o, upper, more);
    SpaceTwice(body);
    AfterStart(c, o, upper, more);
    BodyIs(brick, c, o, upper, more);
    AttrsRead(SkipSpace(body), brick, c.name, c.attrs, AfterAttrs(c, o, upper, more));
    FlagsRead(c.flags);
    ConnectRead(c, o, upper, more, IsOutput(ReadFlags(c.flags)));
  }

  lemma BodyIs(brick: string, c: Part, o: Ops, upper: bool, more: string)
    requires ConnShape(c)
    ensures Body(brick, c, o, upper, more) == ShowConnAttrs(brick, c.name, c.attrs) + AfterAttrs(c, o, upper, more)
  {
  }

  lemma ConnStart(brick: string, c: Part, o: Ops, upper: bool, more: string, r: string)
    requires ConnOK(c) && r == OpText(o.action) + (c.name + (" {\n" + Body(brick, c, o, upper, more)))
    ensures SkipSpace(WriteConn(brick, c, o, upper) + more) == KindText(c.flags) + r && !IsId(Head(r)) && !IsSpace(Head(r))
  {
    hide ShowConnAttrs, WriteConnect, OpText, KindText, ShowKind;
    var u := KindText(c.flags) + r;
    KindIs(c.flags, r);
    OpHead(o.action, c.name + (" {\n" + Body(brick, c, o, upper, more)));
    EightParts(ShowKind(c.flags), OpText(o.action), c.name, " {\n", ShowConnAttrs(brick, c.name, c.attrs), WriteConnect(c, o, upper), "  }\n", more);
    OneSpace(' ', [' '] + u);
    OneSpace(' ', u);
    NoSpace(u);
  }

  lemma KindIs(flags: bv16, r: string)
    ensures ShowKind(flags) + r == [' '] + ([' '] + (KindText(flags) + r)) && !IsSpace(Head(KindText(flags) + r))
  {
    hide IsOutput, IsActive;
  }

  lemma EightParts(a: string, b: string, c: string, d: string, e: string, f: string, g: string, h: string)
    ensures a + b + c + d + e + f + g + h == a + (b + (c + (d + (e + (f + (g + h))))))
  {
  }

  // ---- bricks ----

  predicate AllConnectable(cs: seq<Part>)
    requires ConnsOK(cs)
  {
    forall i :: 0 <= i < |cs| ==> Connectable(cs[i])
  }

  function WriteConns(brick: string, cs: seq<Part>, ops: seq<Ops>, upper: bool): string
    requires AreConns(cs) && |ops| == |cs|
  {
    if cs == [] then "" else WriteConn(brick, cs[0], ops[0], upper) + WriteConns(brick, cs[1..], ops[1..], upper)
  }

  function TakeConns(cs: seq<Part>, ops: seq<Ops>): (r: seq<Part>)
    requires ConnsOK(cs) && |ops| == |cs|
    ensures |r| == |cs|
  {
    if cs == [] then [] else [TakeConn(cs[0], ops[0])] + TakeConns(cs[1..], ops[1..])
  }

  lemma {:induction false} ConnsRead(t: string, brick: string, cs: seq<Part>, ops: seq<Ops>, r: string, upper: bool)
    requires Ident(brick) && ConnsOK(cs) && |ops| == |cs| && ParseConn(r) == Failed
    requires SkipSpace(t) == SkipSpace(WriteConns(brick, cs, ops, upper) + r)
    ensures var p := ParseConns(t);
            if AllConnectable(cs) then p.value == TakeConns(cs, ops) && SkipSpace(p.rest) == SkipSpace(r)
            else Head(SkipSpace(p.rest)) != '}'
    decreases cs
  {
    hide SkipSpace, ParseConn, WriteConn, TakeConn, Connectable;
    if cs == [] {
      assert WriteConns(brick, cs, ops, upper) + r == r;
      SameConn(t, r);
    } else {
      var c, o, more := cs[0], ops[0], WriteConns(brick, cs[1..], ops[1..], upper) + r;
      assert ConnOK(c);
      assert WriteConns(brick, cs, ops, upper) + r == WriteConn(brick, c, o, upper) + more;
      ConnRead(t, brick, c, o, more, upper);
      if Connectable(c) {
        SpaceTwice(more);
        ConnsRead(SkipSpace(more), brick, cs[1..], ops[1..], r, upper);
        assert AllConnectable(cs) <==> AllConnectable(cs[1..]) by { FirstConnectable(cs); }
      } else {
        ConnHead(brick, c, o, upper, more);
      }
    }
  }

  lemma FirstConnectable(cs: seq<Part>)
    requires cs != [] && ConnsOK(cs) && Connectable(cs[0])
    ensures AllConnectable(cs) <==> AllConnectable(cs[1..])
  {
    hide Connectable;
    assert forall i :: 0 < i < |cs| ==> cs[i] == cs[1..][i - 1];
  }

  lemma SameConn(t: string, u: string)
    requires SkipSpace(t) == SkipSpace(u)
    ensures ParseConn(t) == ParseConn(u)
  {
    hide SkipSpace, ParseKind, ParseConnFrom;
  }

  lemma ConnHead(brick: string, c: Part, o: Ops, upper: bool, more: string)
    requires ConnOK(c)
    ensures Head(SkipSpace(WriteConn(brick, c, o, upper) + more)) != '}'
  {
    hide SkipSpace, WriteConn, Body, OpText;
    ConnStart(brick, c, o, upper, more, OpText(o.action) + (c.name + (" {\n" + Body(brick, c, o, upper, more))));
  }

  // ---- a brick written with its operators ----

  function BrickKindText(flags: bv16): string {
    if flags & BRICK_ACTIVE != 0 then "brick" else "(brick)"
  }

  lemma BrickKindRead(flags: bv16, r: string)
    requires !IsId(Head(r))
    ensures ParseBrickKind(BrickKindText(flags) + r) == Parsed(flags & BRICK_ACTIVE, r)
  {
    ActiveBit(flags);
    hide SkipWord;
    if flags & BRICK_ACTIVE != 0 {
      SkipWordFront("brick", r);
      assert Head("brick" + r) == 'b';
    } else {
      SkipWordFront("brick", ")" + r);
      assert BrickKindText(flags) + r == "(" + ("brick" + (")" + r));
      assert ("(" + ("brick" + (")" + r)))[1..] == "brick" + (")" + r) && (")" + r)[1..] == r;
    }
  }

  lemma ActiveBit(flags: bv16)
    ensures flags & BRICK_ACTIVE == if flags & BRICK_ACTIVE != 0 then BRICK_ACTIVE else 0
  {
  }

  /** The attributes of a brick, a line each. */
  function WriteBrickAttrs(brick: string, attrs: seq<Part>): string
    requires AreAttrs(attrs)
  {
    if attrs == [] then ""
    else "attr " + brick + "." + attrs[0].name + "=" + attrs[0].value + "\n" + WriteBrickAttrs(brick, attrs[1..])
  }

  /** What follows the opening brace. */
  function Within(b: Brick, ops: seq<Ops>, upper: bool): string
    requires BrickShape(b) && |ops| == |b.conns|
  {
    WriteBrickAttrs(b.name, b.attrs) + (WriteConns(b.name, b.conns, ops, upper) + "}\n")
  }

  /** A brick as strategy text, with an operator for itself, and for each connector and its connections. */
  function WriteBrick(b: Brick, action: Action, ops: seq<Ops>, upper: bool): string
    requires BrickShape(b) && |ops| == |b.conns|
  {
    BrickKindText(b.flags) + OpText(action) + b.name + " {\n" + WriteBrickAttrs(b.name, b.attrs)
    + WriteConns(b.name, b.conns, ops, upper) + "}\n"
  }

  /** What is read of it: everything, with the actions in the flags, but for the "=" that a value may begin with. */
  function TakeBrick(b: Brick, action: Action, ops: seq<Ops>): Brick
    requires BrickOK(b) && |ops| == |b.conns|
  {
    Brick(BrickFlagsWith(b.flags, action), b.name, ReadAttrs(b.attrs), TakeConns(b.conns, ops))
  }

  /** Any brick, active or not, with any actions, is read back from its text, unless an input has more than one target. */
  lemma WrittenRead(b: Brick, action: Action, ops: seq<Ops>, upper: bool)
    requires BrickOK(b) && |ops| == |b.conns|
    ensures ParseBrick(WriteBrick(b, action, ops, upper))
         == if AllConnectable(b.conns) then Parsed(TakeBrick(b, action, ops), "") else Failed
  {
    hide SkipSpace, SkipStr, ParseOp, ParseWord, ParseAttrs, ParseConns, SkipParam, Within, WriteConns, TakeConns, AllConnectable, SkipWord,
      WithAction, OpText, BrickKindText, ParseBrickKind, ReadAttrs;
    var inside := Within(b, ops, upper);
    var t2 := b.name + (" {\n" + inside);
    WrittenStart(b, action, ops, upper, t2);
    OpHead(action, t2);
    BrickKindRead(b.flags, OpText(action) + t2);
    NoSpace(OpText(action) + t2);
    ReadOp(action, t2);
    WordFront(b.name, " {\n" + inside);
    BraceRead(inside);
    WithinRead(b, ops, upper);
  }

  lemma WrittenStart(b: Brick, action: Action, ops: seq<Ops>, upper: bool, t2: string)
    requires BrickOK(b) && |ops| == |b.conns| && t2 == b.name + (" {\n" + Within(b, ops, upper))
    ensures SkipSpace(WriteBrick(b, action, ops, upper)) == BrickKindText(b.flags) + (OpText(action) + t2)
  {
    hide WriteBrickAttrs, WriteConns, OpText;
    var kind := BrickKindText(b.flags);
    SevenParts(kind, OpText(action), b.name, " {\n", WriteBrickAttrs(b.name, b.attrs), WriteConns(b.name, b.conns, ops, upper), "}\n");
    NoSpace(kind + (OpText(action) + t2));
  }

  lemma SevenParts(a: string, b: string, c: string, d: string, e: string, f: string, g: string)
    ensures a + b + c + d + e + f + g == a + (b + (c + (d + (e + (f + g)))))
  {
  }

  lemma WithinRead(b: Brick, ops: seq<Ops>, upper: bool)
    requires BrickOK(b) && |ops| == |b.conns|
    ensures var t := SkipSpace(Within(b, ops, upper));
            && SkipParam(t, "b_param") == t
            && var attrs := ParseAttrs(t);
               && attrs.value == ReadAttrs(b.attrs)
               && var p := ParseConns(attrs.rest);
                  if AllConnectable(b.conns) then p.value == TakeConns(b.conns, ops) && SkipStr(p.rest, " } ") == Some("")
                  else SkipStr(p.rest, " } ") == None
  {
    hide SkipSpace, ParseConn, ParseAttr, ParseAttrs, TakeConns, ParseConns, AllConnectable, SkipStr, SkipWord, SkipParam, ReadAttrs,
      WriteConns, WriteBrickAttrs;
    var t, r := SkipSpace(Within(b, ops, upper)), WriteConns(b.name, b.conns, ops, upper) + "}\n";
    SpaceTwice(Within(b, ops, upper));
    ConnsHead(b, ops, upper);
    WithinHead(b, ops, upper);
    NotParameter(t);
    NoAttr(r);
    BrickAttrsRead(t, b.name, b.attrs, r);
    Ending();
    ConnsRead(ParseAttrs(t).rest, b.name, b.conns, ops, "}\n", upper);
    var p := ParseConns(ParseAttrs(t).rest);
    if AllConnectable(b.conns) {
      CloseStr(p.rest, "\n");
    } else {
      NotClosed(p.rest);
    }
  }

  lemma NotParameter(t: string)
    requires Head(t) != 'b'
    ensures SkipParam(t, "b_param") == t
  {
    SkipWordMiss(t, "b_param");
  }

  lemma ConnsHead(b: Brick, ops: seq<Ops>, upper: bool)
    requires BrickOK(b) && |ops| == |b.conns|
    ensures var c := Head(SkipSpace(WriteConns(b.name, b.conns, ops, upper) + "}\n")); c != 'a' && c != 'b'
  {
    hide SkipSpace, WriteConn, Body, KindText, OpText;
    if b.conns == [] {
      assert WriteConns(b.name, b.conns, ops, upper) + "}\n" == "}\n";
      NoSpace("}\n");
    } else {
      var c, o, more := b.conns[0], ops[0], WriteConns(b.name, b.conns[1..], ops[1..], upper) + "}\n";
      assert WriteConns(b.name, b.conns, ops, upper) + "}\n" == WriteConn(b.name, c, o, upper) + more;
      var r := OpText(o.action) + (c.name + (" {\n" + Body(b.name, c, o, upper, more)));
      ConnStart(b.name, c, o, upper, more, r);
      KindHead(c.flags, r);
    }
  }

  lemma WithinHead(b: Brick, ops: seq<Ops>, upper: bool)
    requires BrickOK(b) && |ops| == |b.conns|
    requires Head(SkipSpace(WriteConns(b.name, b.conns, ops, upper) + "}\n")) != 'b'
    ensures Head(SkipSpace(Within(b, ops, upper))) != 'b'
  {
    hide SkipSpace, WriteConns;
    var r := WriteConns(b.name, b.conns, ops, upper) + "}\n";
    if b.attrs == [] {
      assert Within(b, ops, upper) == r;
    } else {
      FirstAttrLine(b.name, b.attrs, r);
      NoSpace(Within(b, ops, upper));
    }
  }

  lemma FirstAttrLine(brick: string, attrs: seq<Part>, r: string)
    requires attrs != [] && AreAttrs(attrs)
    ensures WriteBrickAttrs(brick, attrs) + r
         == "attr" + (" " + ((brick + ".") + (attrs[0].name + ("=" + attrs[0].value + ("\n" + (WriteBrickAttrs(brick, attrs[1..]) + r))))))
  {
    EightParts("attr ", brick, ".", attrs[0].name, "=", attrs[0].value, "\n", WriteBrickAttrs(brick, attrs[1..]) + r);
    AttrPieces(brick, attrs[0].name, attrs[0].value, "\n" + (WriteBrickAttrs(brick, attrs[1..]) + r));
  }

  lemma AttrPieces(brick: string, name: string, v: string, r: string)
    ensures "attr " + (brick + ("." + (name + ("=" + (v + r))))) == "attr" + (" " + ((brick + ".") + (name + ("=" + v + r))))
  {
    assert "attr " + (brick + ("." + (name + ("=" + (v + r))))) == "attr" + (" " + ((brick + ".") + (name + ("=" + (v + r)))));
    assert "=" + (v + r) == "=" + v + r;
  }

  lemma {:induction false} BrickAttrsRead(t: string, brick: string, attrs: seq<Part>, r: string)
    requires Ident(brick) && AttrsOK(attrs) && ParseAttr(r) == Failed && SkipSpace(t) == SkipSpace(WriteBrickAttrs(brick, attrs) + r)
    ensures ParseAttrs(t).value == ReadAttrs(attrs) && SkipSpace(ParseAttrs(t).rest) == SkipSpace(r)
    decreases attrs
  {
    hide ParseAttr, ReadValue, SkipSpace, WriteBrickAttrs;
    if attrs == [] {
      NoBrickAttrs(brick, r);
      SameAttr(t, r);
    } else {
      var a, more := attrs[0], WriteBrickAttrs(brick, attrs[1..]) + r;
      assert AttrOK(a);
      FirstAttrLine(brick, attrs, r);
      BrickAttrRead(t, brick, a, more);
      OneSpace('\n', more);
      BrickAttrsRead(['\n'] + more, brick, attrs[1..], r);
    }
  }

  lemma NoBrickAttrs(brick: string, r: string)
    ensures WriteBrickAttrs(brick, []) + r == r
  {
  }

  lemma BrickAttrRead(t: string, brick: string, a: Part, r: string)
    requires Ident(brick) && AttrOK(a)
    requires SkipSpace(t) == SkipSpace("attr" + (" " + ((brick + ".") + (a.name + ("=" + a.value + ("\n" + r))))))
    ensures ParseAttr(t) == Parsed(Attr(a.name, ReadValue(a.value)), "\n" + r)
  {
    hide ParseComposed, ReadValue;
    var line := a.name + ("=" + a.value + ("\n" + r));
    NoSpace("attr" + (" " + ((brick + ".") + line)));
    assert brick[0] in brick && (brick + ".")[0] == brick[0];
    ComposedDot(brick, line);
    assert brick + ("." + line) == (brick + ".") + line;
    AttrFront(t, brick + ".", a.name, a.value, "\n" + r);
  }

  // ---- parameter lines ----

  /** The rest of a line. */
  predicate OneLine(p: string) {
    forall c :: c in p ==> c != '\n' && c != '\0'
  }

  lemma {:induction false} LineSkipped(p: string, r: string)
    requires OneLine(p)
    ensures SkipLine(p + ("\n" + r)) == r
  {
    if p == "" {
      assert p + ("\n" + r) == "\n" + r && ("\n" + r)[1..] == r;
    } else {
      assert p[0] in p && (p + ("\n" + r))[1..] == p[1..] + ("\n" + r);
      assert forall c :: c in p[1..] ==> c in p;
      LineSkipped(p[1..], r);
    }
  }

  /** A line that begins with the keyword is passed over. */
  lemma ParamRead(keyword: string, p: string, r: string)
    requires Ident(keyword) && OneLine(p)
    ensures var t := keyword + (" " + (p + ("\n" + r))); SkipSpace(t) == t && SkipParam(t, keyword) == r
  {
    var line := p + ("\n" + r);
    SkipWordFront(keyword, " " + line);
    assert keyword[0] in keyword && (keyword + (" " + line))[0] == keyword[0];
    NoSpace(keyword + (" " + line));
    assert (" " + line)[1..] == line;
    LineSkipped(p, r);
  }

  /** Texts that differ in leading white space only are read in the same way. */
  lemma SameParts(t: string, u: string)
    requires SkipSpace(t) == SkipSpace(u)
    ensures ParseAttrs(t).value == ParseAttrs(u).value && SkipSpace(ParseAttrs(t).rest) == SkipSpace(ParseAttrs(u).rest)
    ensures ParseConns(t).value == ParseConns(u).value && SkipSpace(ParseConns(t).rest) == SkipSpace(ParseConns(u).rest)
    ensures SkipStr(t, " } ") == SkipStr(u, " } ")
  {
    hide ParseAttr, ParseConn, SkipSpace;
    SameAttr(t, u);
    SameConn(t, u);
    assert " } "[0] == ' ' && SkipStr(t, " } ") == SkipStr(SkipSpace(t), " } "[1..]);
    assert SkipStr(u, " } ") == SkipStr(SkipSpace(u), " } "[1..]);
  }

  /** A c_param line at the front of a connector changes nothing. */
  lemma ConnParam(flags: bv16, action: Action, name: string, p: string, body: string)
    requires Ident(name) && OneLine(p) && SkipParam(SkipSpace(body), "c_param") == SkipSpace(body)
    ensures ParseConnFrom(flags, OpText(action) + (name + (" {\n" + ("c_param" + (" " + (p + ("\n" + body)))))))
         == ParseConnFrom(flags, OpText(action) + (name + (" {\n" + body)))
  {
    hide SkipSpace, SkipStr, ParseOp, ParseComposed, ParseAttrs, ParseConns, ParseConnect, SkipParam, OpText, WithAction, WithTargetAction, IsOutput;
    var body' := "c_param" + (" " + (p + ("\n" + body)));
    ConnFrontRead(action, name, body);
    ConnFrontRead(action, name, body');
    ParamRead("c_param", p, body);
    SpaceTwice(body);
    SameParts(body, SkipSpace(body));
  }

  lemma ConnFrontRead(action: Action, name: string, body: string)
    requires Ident(name)
    ensures var t2 := name + (" {\n" + body);
            && SkipSpace(OpText(action) + t2) == OpText(action) + t2 && ParseOp(OpText(action) + t2) == Parsed(action, t2)
            && ParseComposed(t2) == Parsed(name, " {\n" + body) && ParseWord(t2) == Parsed(name, " {\n" + body)
            && SkipStr(" {\n" + body, " { ") == Some(SkipSpace(body))
  {
    hide SkipSpace, SkipStr, ParseOp, ParseComposed, OpText;
    var t2 := name + (" {\n" + body);
    OpHead(action, t2);
    NoSpace(OpText(action) + t2);
    ReadOp(action, t2);
    ComposedLast(name, " {\n" + body);
    WordFront(name, " {\n" + body);
    BraceRead(body);
  }

  /** And a b_param line at the front of a brick. */
  lemma BrickParam(flags: bv16, action: Action, name: string, p: string, inside: string)
    requires Ident(name) && OneLine(p) && SkipParam(SkipSpace(inside), "b_param") == SkipSpace(inside)
    ensures ParseBrick(BrickKindText(flags) + (OpText(action) + (name + (" {\n" + ("b_param" + (" " + (p + ("\n" + inside))))))))
         == ParseBrick(BrickKindText(flags) + (OpText(action) + (name + (" {\n" + inside))))
  {
    hide SkipSpace, SkipStr, ParseOp, ParseWord, ParseAttrs, ParseConns, SkipParam, OpText, WithAction, ParseBrickKind, BrickKindText;
    var inside' := "b_param" + (" " + (p + ("\n" + inside)));
    BrickFrontRead(flags, action, name, inside);
    BrickFrontRead(flags, action, name, inside');
    ConnFrontRead(action, name, inside);
    ConnFrontRead(action, name, inside');
    ParamRead("b_param", p, inside);
    SpaceTwice(inside);
    SameParts(inside, SkipSpace(inside));
    SameParts(ParseAttrs(inside).rest, ParseAttrs(SkipSpace(inside)).rest);
    SameParts(ParseConns(ParseAttrs(inside).rest).rest, ParseConns(ParseAttrs(SkipSpace(inside)).rest).rest);
  }

  lemma BrickFrontRead(flags: bv16, action: Action, name: string, inside: string)
    requires Ident(name)
    ensures var t := OpText(action) + (name + (" {\n" + inside));
            ParseBrickKind(SkipSpace(BrickKindText(flags) + t)) == Parsed(flags & BRICK_ACTIVE, t)
  {
    hide SkipSpace, ParseBrickKind, OpText;
    var t := OpText(action) + (name + (" {\n" + inside));
    OpHead(action, name + (" {\n" + inside));
    BrickKindRead(flags, t);
    NoSpace(BrickKindText(flags) + t);
  }

  // ---- a brick as it is printed ----

  function ReadBrick(b: Brick): Brick
    requires BrickOK(b)
  {
    Brick(BRICK_ACTIVE, b.name, [], ReadConns(b.conns))
  }

  /** What follows the opening brace. */
  function Inside(b: Brick, upper: bool): string
    requires BrickShape(b)
  {
    ShowBrickAttrs(b.name, b.attrs) + (ShowConns(b.name, b.conns, upper) + "}\n")
  }

  function Nones(n: nat): (ops: seq<Ops>)
    ensures |ops| == n
  {
    if n == 0 then [] else [NONE] + Nones(n - 1)
  }

  /** The printer writes bricks without attributes as active ones with no actions. */
  lemma PrintedBrick(b: Brick, upper: bool)
    requires BrickOK(b) && b.attrs == []
    ensures var b', ops := b.(flags := BRICK_ACTIVE), Nones(|b.conns|);
            ShowBrick(b, upper) == WriteBrick(b', STRAT_READ, ops, upper) && TakeBrick(b', STRAT_READ, ops) == ReadBrick(b)
  {
    hide ShowConns, WriteConns, ReadConns, TakeConns;
    PrintedConns(b.name, b.conns, upper);
    BrickFlags();
    assert "brick" + "==" == "brick==";
  }

  lemma {:induction false} PrintedConns(brick: string, cs: seq<Part>, upper: bool)
    requires ConnsOK(cs)
    ensures WriteConns(brick, cs, Nones(|cs|), upper) == ShowConns(brick, cs, upper) && TakeConns(cs, Nones(|cs|)) == ReadConns(cs)
  {
    hide WriteConn, ShowConn, TakeConn, ReadConn;
    if cs != [] {
      PrintedConns(brick, cs[1..], upper);
      assert Nones(|cs|)[1..] == Nones(|cs| - 1);
      PrintedConn(brick, cs[0], upper);
      PrintedFlags(cs[0]);
    }
  }

  lemma PrintedFlags(c: Part)
    requires ConnOK(c)
    ensures TakeConn(c, NONE) == ReadConn(c)
  {
    FlagsRead(c.flags);
    hide ReadFlags, WithAction, WithTargetAction;
  }

  /** A brick without attributes, whose inputs have no more than one target each, is read back but for its flags,
      the actions of its connectors, and the "=" that an attribute value may begin with.  Any other brick is refused. */
  lemma RoundTrip(b: Brick, upper: bool)
    requires BrickOK(b)
    ensures ParseBrick(ShowBrick(b, upper))
         == if b.attrs == [] && AllConnectable(b.conns) then Parsed(ReadBrick(b), "") else Failed
  {
    if b.attrs == [] {
      hide ParseBrick, ShowBrick, WriteBrick, TakeBrick, ReadBrick, AllConnectable;
      PrintedBrick(b, upper);
      WrittenRead(b.(flags := BRICK_ACTIVE), STRAT_READ, Nones(|b.conns|), upper);
    } else {
      AttrsRefused(b, upper);
    }
  }

  lemma AttrsRefused(b: Brick, upper: bool)
    requires BrickOK(b) && b.attrs != []
    ensures ParseBrick(ShowBrick(b, upper)) == Failed
  {
    hide SkipSpace, SkipStr, ParseOp, ParseWord, ParseAttrs, ParseConns, SkipParam, Inside, ShowConns, SkipWord, WithAction;
    var inside := Inside(b, upper);
    var t2 := b.name + (" {\n" + inside);
    BrickStart(b, upper, t2);
    OperatorRead(t2);
    WordFront(b.name, " {\n" + inside);
    BraceRead(inside);
    InsideAttrs(b, upper);
  }

  lemma BrickFlags()
    ensures BrickFlagsWith(BRICK_ACTIVE, STRAT_READ) == BRICK_ACTIVE
  {
  }

  lemma BrickStart(b: Brick, upper: bool, t2: string)
    requires BrickOK(b) && t2 == b.name + (" {\n" + Inside(b, upper))
    ensures ParseBrickKind(SkipSpace(ShowBrick(b, upper))) == Parsed(BRICK_ACTIVE, "==" + t2) && SkipSpace("==" + t2) == "==" + t2
  {
    hide ShowBrickAttrs, ShowConns;
    var t := "brick" + ("==" + t2);
    assert ShowBrick(b, upper) == t by {
      SixParts("brick==", b.name, " {\n", ShowBrickAttrs(b.name, b.attrs), ShowConns(b.name, b.conns, upper), "}\n");
      assert t == "brick==" + t2;
    }
    NoSpace(t);
    NoSpace("==" + t2);
    SkipWordFront("brick", "==" + t2);
  }

  lemma SixParts(a: string, b: string, c: string, d: string, e: string, f: string)
    ensures a + b + c + d + e + f == a + (b + (c + (d + (e + f))))
  {
  }

  lemma NotClosed(t: string)
    requires Head(SkipSpace(t)) != '}'
    ensures SkipStr(t, " } ") == None
  {
    assert " } "[1..] == "} ";
    assert SkipStr(SkipSpace(t), "} ") == None;
  }

  lemma KindHead(flags: bv16, r: string)
    ensures var c := Head(KindText(flags) + r); c == 'o' || c == 'i' || c == '('
  {
    hide IsOutput, IsActive;
  }

  lemma Ending()
    ensures SkipSpace("}\n") == "}" + "\n" && SkipSpace("\n") == "" && ParseConn("}\n") == Failed
  {
    assert "\n"[1..] == "";
    NoSpace("}\n");
    SkipWordMiss("}\n", "output");
    SkipWordMiss("}\n", "input");
  }

  /** The line of an attribute ends in a brace, so it is not one, and nothing else fits either. */
  lemma InsideAttrs(b: Brick, upper: bool)
    requires BrickOK(b) && b.attrs != []
    ensures var t := SkipSpace(Inside(b, upper));
            && SkipParam(t, "b_param") == t && ParseAttrs(t) == Parsed([], t) && ParseConns(t) == Parsed([], t)
            && SkipStr(t, " } ") == None
  {
    hide SkipSpace, ParseAttr, ParseConn, SkipStr, ParseAttrs, ParseConns, Inside, SkipParam, ShowBrickAttrs, ShowConns;
    var a, t := b.attrs[0], Inside(b, upper);
    var r := " {\n" + (ShowBrickAttrs(b.name, b.attrs[1..]) + (ShowConns(b.name, b.conns, upper) + "}\n"));
    BrickAttrStart(b, upper, a.name + ("=" + a.value + r), r);
    assert AttrOK(a);
    AttrRefused(t, b.name, a.name, a.value, r);
    NotClosed(t);
    NotConn(t);
    Neither(t);
  }

  lemma AttrRefused(t: string, brick: string, name: string, v: string, r: string)
    requires Ident(brick) && Ident(name) && ValueOK(v) && |r| >= 2 && r[0] == ' ' && r[1] == '{'
    requires t == "attr" + (" " + ((brick + ".") + (name + ("=" + v + r))))
    ensures ParseAttr(t) == Failed && Head(t) == 'a' && SkipSpace(t) == t
  {
    hide ParseAttr, SkipSpace, ParseComposed, EndOfLine;
    var line := name + ("=" + v + r);
    assert brick[0] in brick && (brick + ".")[0] == brick[0];
    ComposedDot(brick, line);
    assert brick + ("." + line) == (brick + ".") + line;
    NoSpace(t);
    AttrFront(t, brick + ".", name, v, r);
    BraceNoEnd(r);
  }

  lemma Neither(t: string)
    requires ParseAttr(t) == Failed && ParseConn(t) == Failed && Head(t) != 'b'
    ensures ParseAttrs(t) == Parsed([], t) && ParseConns(t) == Parsed([], t) && SkipParam(t, "b_param") == t
  {
    hide ParseAttr, ParseConn;
    SkipWordMiss(t, "b_param");
  }

  lemma NotConn(t: string)
    requires Head(t) == 'a' && SkipSpace(t) == t
    ensures ParseConn(t) == Failed
  {
    SkipWordMiss(t, "output");
    SkipWordMiss(t, "input");
  }

  lemma BraceNoEnd(r: string)
    requires |r| >= 2 && r[0] == ' ' && r[1] == '{'
    ensures EndOfLine(r) == None
  {
    assert r[1..][0] == '{';
    assert SkipBlanks(r[1..]) == r[1..];
  }

  lemma BrickAttrStart(b: Brick, upper: bool, line: string, r: string)
    requires BrickOK(b) && b.attrs != []
    requires r == " {\n" + (ShowBrickAttrs(b.name, b.attrs[1..]) + (ShowConns(b.name, b.conns, upper) + "}\n"))
    requires line == b.attrs[0].name + ("=" + b.attrs[0].value + r)
    ensures Inside(b, upper) == "attr" + (" " + ((b.name + ".") + line))
  {
    var a, more, rest := b.attrs[0], ShowBrickAttrs(b.name, b.attrs[1..]), ShowConns(b.name, b.conns, upper) + "}\n";
    FirstBrickLine(b.name, b.attrs, rest);
    BrickLine(b.name, a.name, a.value, more + rest);
  }

  lemma FirstBrickLine(brick: string, attrs: seq<Part>, rest: string)
    requires attrs != [] && AreAttrs(attrs)
    ensures ShowBrickAttrs(brick, attrs) + rest
         == "attr " + brick + "." + attrs[0].name + "=" + attrs[0].value + " {\n" + (ShowBrickAttrs(brick, attrs[1..]) + rest)
  {
  }

  lemma BrickLine(brick: string, name: string, v: string, more: string)
    ensures "attr " + brick + "." + name + "=" + v + " {\n" + more
         == "attr" + (" " + ((brick + ".") + (name + ("=" + v + (" {\n" + more)))))
  {
    EightParts("attr ", brick, ".", name, "=", v, " {\n", more);
    assert "attr " + (brick + ("." + (name + ("=" + (v + (" {\n" + more)))))) == "attr" + (" " + ((brick + ".") + (name + ("=" + v + (" {\n" + more)))));
  }

  // ---- exactly when the same brick comes back ----

  predicate SameAttrs(attrs: seq<Part>)
    requires AreAttrs(attrs)
  {
    forall i :: 0 <= i < |attrs| ==> attrs[i].value == "" || attrs[i].value[0] != '='
  }

  predicate SameConns(cs: seq<Part>)
    requires AreConns(cs)
  {
    forall i :: 0 <= i < |cs| ==> ReadFlags(cs[i].flags) == cs[i].flags && SameAttrs(cs[i].attrs)
  }

  lemma {:induction false} AttrsSame(attrs: seq<Part>)
    requires AttrsOK(attrs)
    ensures ReadAttrs(attrs) == attrs <==> SameAttrs(attrs)
  {
    if attrs != [] {
      AttrsSame(attrs[1..]);
      assert attrs == [attrs[0]] + attrs[1..];
      assert forall i :: 0 < i < |attrs| ==> attrs[i] == attrs[1..][i - 1];
      assert SameAttrs(attrs) <==> SameAttrs([attrs[0]]) && SameAttrs(attrs[1..]);
    }
  }

  lemma {:induction false} ConnsSame(cs: seq<Part>)
    requires ConnsOK(cs)
    ensures ReadConns(cs) == cs <==> SameConns(cs)
  {
    hide ReadFlags, ReadAttrs, SameAttrs;
    if cs != [] {
      ConnsSame(cs[1..]);
      AttrsSame(cs[0].attrs);
      assert cs == [cs[0]] + cs[1..];
      assert forall i :: 0 < i < |cs| ==> cs[i] == cs[1..][i - 1];
      assert SameConns(cs) <==> SameConns([cs[0]]) && SameConns(cs[1..]);
    }
  }

  /** Printing and parsing gives the same brick back if and only if it is active, has no attributes of its own and no
      action, its inputs have at most one target, its connectors have no actions, and no value begins with "=". */
  lemma SameBrick(b: Brick, upper: bool)
    requires BrickOK(b)
    ensures ParseBrick(ShowBrick(b, upper)) == Parsed(b, "") <==>
            b.flags == BRICK_ACTIVE && b.attrs == [] && AllConnectable(b.conns) && SameConns(b.conns)
  {
    hide ParseBrick, ShowBrick, ReadConns, SameConns, AllConnectable;
    RoundTrip(b, upper);
    ConnsSame(b.conns);
  }
}
