/** Bricks as strategy text: what the printer writes and what the parser makes of a text. */
module StrategyText {
  import opened Words
  import Strtoll

  datatype Option<T> = None | Some(value: T)

  /** The parts of a brick.  The flags of a connector hold its action in bits 0-2, its type in bit 3, whether it
      is active in bit 4, and from bit 4 on the action of its connections. */
  datatype Part =
    | Attr(name: string, value: string)
    | Target(addr: nat, name: string)
    | Conn(flags: bv16, name: string, attrs: seq<Part>, targets: seq<Part>)

  datatype Brick = Brick(flags: bv16, name: string, attrs: seq<Part>, conns: seq<Part>)

  const BRICK_ACTIVE: bv16 := 0x08
  const CONN_TYPE: bv16 := 0x08
  const CONN_ACTIVE: bv16 := 0x10

  predicate IsOutput(flags: bv16) {
    flags & CONN_TYPE != 0
  }

  predicate IsActive(flags: bv16) {
    flags & CONN_ACTIVE != 0
  }

  // ---- characters ----

  predicate IsId(c: char) {
    'a' <= c <= 'z' || 'A' <= c <= 'Z' || '0' <= c <= '9' || c == '_'
  }

  predicate IsBlank(c: char) {
    c == ' ' || c == '\t'
  }

  predicate IsSpace(c: char) {
    IsBlank(c) || c == '\n'
  }

  /** c > ' ', for a char that is signed */
  predicate IsGraphic(c: char) {
    ' ' < c && c as int < 128
  }

  /** The character at the cursor, NUL at the end. */
  function Head(t: string): char {
    if t == "" then '\0' else t[0]
  }

  // ---- scanning: t is the text from the cursor on ----

  function SkipSpace(t: string): (r: string)
    ensures |r| <= |t|
  {
    if IsSpace(Head(t)) then SkipSpace(t[1..]) else t
  }

  function SkipBlanks(t: string): (r: string)
    ensures |r| <= |t|
  {
    if IsBlank(Head(t)) then SkipBlanks(t[1..]) else t
  }

  /** skip_rest_of_line */
  function SkipLine(t: string): (r: string)
    ensures |r| <= |t|
  {
    if Head(t) == '\0' then t else if Head(t) == '\n' then t[1..] else SkipLine(t[1..])
  }

  /** skip_end_of_line: nothing but blanks up to the newline, which is not skipped */
  function EndOfLine(t: string): (r: Option<string>)
    ensures r.Some? ==> |r.value| <= |t|
  {
    if Head(SkipBlanks(t)) == '\n' then Some(SkipBlanks(t)) else None
  }

  /** The identifier characters at the front. */
  function Word(t: string): (w: string)
    ensures |w| <= |t|
  {
    if IsId(Head(t)) then [t[0]] + Word(t[1..]) else ""
  }

  /** skip_word with a word to match */
  function SkipWord(t: string, w: string): (r: Option<string>)
    ensures r.Some? ==> |r.value| == |t| - |w|
  {
    if IsId(Head(t)) && w != "" && Head(t) == w[0] then SkipWord(t[1..], w[1..])
    else if IsId(Head(t)) || w != "" then None
    else Some(t)
  }

  /** skip_str: a space in the pattern stands for any white space */
  function SkipStr(t: string, pattern: string): (r: Option<string>)
    ensures r.Some? ==> |r.value| <= |t|
    decreases |pattern|
  {
    if pattern == "" then Some(t)
    else if pattern[0] == ' ' then SkipStr(SkipSpace(t), pattern[1..])
    else if Head(t) == pattern[0] && t != "" then SkipStr(t[1..], pattern[1..])
    else None
  }

  /** The characters of a value at the front. */
  function Graphics(t: string): (g: string)
    ensures |g| <= |t|
  {
    if IsGraphic(Head(t)) then [t[0]] + Graphics(t[1..]) else ""
  }

  // ---- parsing: the value and the rest of the text ----

  datatype Parsed<T> = Failed | Parsed(value: T, rest: string)

  /** convert_word */
  function ParseWord(t: string): (p: Parsed<string>)
    ensures p.Parsed? ==> |p.rest| < |t|
  {
    if IsId(Head(t)) then Parsed(Word(t), t[|Word(t)|..]) else Failed
  }

  /** convert_string */
  function ParseString(t: string): (p: Parsed<string>)
    ensures p.Parsed? && |p.rest| <= |t|
  {
    Parsed(Graphics(t), t[|Graphics(t)|..])
  }

  /** convert_composed_identifier: the part behind the last dot */
  function ParseComposed(t: string): (p: Parsed<string>)
    ensures p.Parsed? ==> |p.rest| < |t|
    decreases |t|
  {
    match ParseWord(t)
    case Failed => Failed
    case Parsed(w, rest) => if Head(rest) == '.' then ParseComposed(rest[1..]) else Parsed(w, rest)
  }

  /** What is subtracted from the character: 0 where there is no operator. */
  function ActionOf(c: char): int {
    if c == '=' then 0 else if c == ':' then 1 else if c == '/' then 2
    else if c == '+' then 3 else if c == '-' then 4 else if c == '^' then 5 else -1
  }

  const STRAT_READ: int := 0

  /** convert_op */
  function ParseOp(t: string): (p: Parsed<int>)
    ensures p.Parsed? ==> |p.rest| < |t|
  {
    var a := ActionOf(Head(t));
    if a < 0 then Failed
    else if Head(t[1..]) == '=' then Parsed(a, t[2..])
    else if a != STRAT_READ then Failed
    else Parsed(a, t[1..])
  }

  function HexDigit(c: char): (d: int)
    ensures -1 <= d < 16
  {
    Strtoll.DigitOf(c, 16)
  }

  /** What an addr_t holds after x is stored in it. */
  function Wrap64(x: nat): nat {
    x % TWO64
  }

  /** The digits of convert_logaddr, after those that have given `addr`. */
  function ParseHex(t: string, addr: nat): (p: Parsed<nat>)
    ensures p.Parsed? ==> |p.rest| <= |t|
  {
    if HexDigit(Head(t)) < 0 then Parsed(addr, t)
    else if addr >= TWO63 then Failed
    else ParseHex(t[1..], Wrap64(16 * addr + HexDigit(Head(t))))
  }

  function SkipHexPrefix(t: string): (r: string)
    ensures |r| <= |t|
  {
    if Head(t) == '0' && (Head(t[1..]) == 'x' || Head(t[1..]) == 'X') && |t| >= 2 then t[2..] else t
  }

  /** convert_logaddr */
  function ParseAddr(t: string): (p: Parsed<nat>)
    ensures p.Parsed? ==> |p.rest| < |t|
  {
    var u := SkipHexPrefix(t);
    if HexDigit(Head(u)) < 0 then Failed else ParseHex(u, 0)
  }

  /** convert_attr */
  function ParseAttr(t: string): (p: Parsed<Part>)
    ensures p.Parsed? ==> |p.rest| < |t| && p.value.Attr?
  {
    match SkipWord(SkipSpace(t), "attr")
    case None => Failed
    case Some(t1) =>
      match ParseComposed(SkipSpace(t1))
      case Failed => Failed
      case Parsed(name, t2) =>
        match ParseOp(t2)
        case Failed => Failed
        case Parsed(action, t3) =>
          var value := ParseString(t3);
          match EndOfLine(value.rest)
          case None => Failed
          case Some(t4) => Parsed(Attr(name, value.value), t4)
  }

  lemma Prepend(x: Part, more: seq<Part>)
    ensures x.Attr? && AreAttrs(more) ==> AreAttrs([x] + more)
    ensures x.Target? && AreTargets(more) ==> AreTargets([x] + more)
    ensures ConnShape(x) && AreConns(more) ==> AreConns([x] + more)
  {
    hide ConnShape;
  }

  /** The attribute lines, as many as there are. */
  function ParseAttrs(t: string): (p: Parsed<seq<Part>>)
    ensures p.Parsed? && |p.rest| <= |t| && AreAttrs(p.value)
    decreases |t|
  {
    match ParseAttr(t)
    case Failed => Parsed([], t)
    case Parsed(a, rest) =>
      var more := ParseAttrs(rest);
      Prepend(a, more.value);
      Parsed([a] + more.value, more.rest)
  }

  /** convert_conn_target */
  function ParseTarget(t: string): (p: Parsed<Part>)
    ensures p.Parsed? ==> |p.rest| < |t| && p.value.Target?
  {
    match ParseAddr(t)
    case Failed => Failed
    case Parsed(addr, t1) =>
      if Head(t1) != ':' then Failed
      else
        match ParseWord(t1[1..])
        case Failed => Failed
        case Parsed(name, t2) => Parsed(Target(addr, name), t2)
  }

  /** The targets behind the first; only an output may have any. */
  function ParseMore(t: string, output: bool): (p: Parsed<seq<Part>>)
    ensures p.Parsed? ==> |p.rest| <= |t| && AreTargets(p.value)
    decreases |t|
  {
    if Head(t) != ',' then Parsed([], t)
    else if !output then Failed
    else
      match ParseTarget(t[1..])
      case Failed => Failed
      case Parsed(x, rest) =>
        match ParseMore(rest, output)
        case Failed => Failed
        case Parsed(more, rest') =>
          Prepend(x, more);
          Parsed([x] + more, rest')
  }

  function ParseTargets(t: string, output: bool): (p: Parsed<seq<Part>>)
    ensures p.Parsed? ==> |p.rest| <= |t| && AreTargets(p.value)
  {
    match ParseTarget(t)
    case Failed => Parsed([], t)
    case Parsed(x, rest) =>
      match ParseMore(rest, output)
      case Failed => Failed
      case Parsed(more, rest') => Parsed([x] + more, rest')
  }

  datatype Connect = Connect(action: int, targets: seq<Part>)

  /** The connect line, if there is one. */
  function ParseConnect(t: string, output: bool): (p: Parsed<Connect>)
    ensures p.Parsed? ==> |p.rest| <= |t| && AreTargets(p.value.targets)
  {
    match SkipWord(t, "connect")
    case None => Parsed(Connect(0, []), t)
    case Some(t1) =>
      match ParseWord(SkipSpace(t1))
      case Failed => Failed
      case Parsed(name, t2) =>
        match ParseOp(t2)
        case Failed => Failed
        case Parsed(action, t3) =>
          match ParseTargets(SkipSpace(t3), output)
          case Failed => Failed
          case Parsed(targets, t4) => Parsed(Connect(action, targets), t4)
  }

  function ActionBits(a: int): bv16 {
    if 0 <= a < 8 then a as bv16 else 0
  }

  /** flags |= action, and flags |= action << 4 */
  function WithAction(flags: bv16, a: int): bv16 {
    flags | ActionBits(a)
  }

  function WithTargetAction(flags: bv16, a: int): bv16 {
    flags | (ActionBits(a) << 4)
  }

  function KindFlags(output: bool, active: bool): bv16 {
    (if active then CONN_ACTIVE else 0) | (if output then CONN_TYPE else 0)
  }

  /** "output" or "input", in parentheses if it is not active: the flags for it. */
  function ParseKind(t: string): (p: Parsed<bv16>)
    ensures p.Parsed? ==> |p.rest| < |t|
  {
    var inactive := Head(t) == '(';
    var t1 := if inactive then t[1..] else t;
    var out := SkipWord(t1, "output");
    var either := if out.Some? then out else SkipWord(t1, "input");
    if either.None? then Failed
    else
      var t2 := either.value;
      var flags := KindFlags(out.Some?, !inactive);
      if !inactive then Parsed(flags, t2) else if Head(t2) == ')' then Parsed(flags, t2[1..]) else Failed
  }

  function SkipParam(t: string, keyword: string): (r: string)
    ensures |r| <= |t|
  {
    match SkipWord(t, keyword)
    case None => t
    case Some(t1) => SkipLine(t1)
  }

  /** convert_conn */
  function ParseConn(t: string): (p: Parsed<Part>)
    ensures p.Parsed? ==> |p.rest| < |t| && ConnShape(p.value)
  {
    match ParseKind(SkipSpace(t))
    case Failed => Failed
    case Parsed(flags, t1) => ParseConnFrom(flags, t1)
  }

  /** convert_conn behind "input" or "output" */
  function ParseConnFrom(flags: bv16, t1: string): (p: Parsed<Part>)
    ensures p.Parsed? ==> |p.rest| < |t1| && ConnShape(p.value)
  {
    match ParseOp(SkipSpace(t1))
    case Failed => Failed
    case Parsed(action, t2) =>
      match ParseComposed(t2)
      case Failed => Failed
      case Parsed(name, t3) =>
        var brace := SkipStr(t3, " { ");
        var attrs := ParseAttrs(SkipParam(if brace.Some? then brace.value else t3, "c_param"));
        match ParseConnect(SkipSpace(attrs.rest), IsOutput(flags))
        case Failed => Failed
        case Parsed(c, t4) =>
          match SkipStr(t4, " } ")
          case None => Failed
          case Some(t5) =>
            Parsed(Conn(WithTargetAction(WithAction(flags, action), c.action), name, attrs.value, c.targets), t5)
  }

  function ParseConns(t: string): (p: Parsed<seq<Part>>)
    ensures p.Parsed? && |p.rest| <= |t| && AreConns(p.value)
    decreases |t|
  {
    match ParseConn(t)
    case Failed => Parsed([], t)
    case Parsed(c, rest) =>
      var more := ParseConns(rest);
      Prepend(c, more.value);
      Parsed([c] + more.value, more.rest)
  }

  /** "brick", in parentheses if it is not active */
  function ParseBrickKind(t: string): (p: Parsed<bv16>)
    ensures p.Parsed? ==> |p.rest| < |t|
  {
    var inactive := Head(t) == '(';
    match SkipWord(if inactive then t[1..] else t, "brick")
    case None => Failed
    case Some(t1) =>
      if !inactive then Parsed(BRICK_ACTIVE, t1) else if Head(t1) == ')' then Parsed(0, t1[1..]) else Failed
  }

  /** convert_brick */
  function ParseBrick(t: string): Parsed<Brick> {
    match ParseBrickKind(SkipSpace(t))
    case Failed => Failed
    case Parsed(flags, t1) =>
      match ParseOp(SkipSpace(t1))
      case Failed => Failed
      case Parsed(action, t2) =>
        match ParseWord(t2)
        case Failed => Failed
        case Parsed(name, t3) =>
          match SkipStr(t3, " { ")
          case None => Failed
          case Some(t4) =>
            var attrs := ParseAttrs(SkipParam(t4, "b_param"));
            var conns := ParseConns(attrs.rest);
            match SkipStr(conns.rest, " } ")
            case None => Failed
            case Some(t5) => Parsed(Brick(WithAction(flags, action), name, attrs.value, conns.value), t5)
  }

  // ---- printing ----

  predicate AreAttrs(attrs: seq<Part>) {
    forall i :: 0 <= i < |attrs| ==> attrs[i].Attr?
  }

  predicate AreTargets(xs: seq<Part>) {
    forall i :: 0 <= i < |xs| ==> xs[i].Target?
  }

  function HexChar(d: int, upper: bool): char
    requires 0 <= d < 16
  {
    if upper then "0123456789ABCDEF"[d] else "0123456789abcdef"[d]
  }

  /** An address as %llX writes it; not every library uses capital letters for that. */
  function ShowAddr(addr: nat, upper: bool): (s: string)
    ensures s != ""
  {
    if addr < 16 then [HexChar(addr, upper)] else ShowAddr(addr / 16, upper) + [HexChar(addr % 16, upper)]
  }

  function ShowTarget(x: Part, upper: bool): string
    requires x.Target?
  {
    ShowAddr(x.addr, upper) + ":" + x.name
  }

  function ShowMore(xs: seq<Part>, upper: bool): string
    requires AreTargets(xs)
  {
    if xs == [] then "" else "," + ShowTarget(xs[0], upper) + ShowMore(xs[1..], upper)
  }

  function ShowConnect(c: Part, upper: bool): string
    requires c.Conn? && AreTargets(c.targets)
  {
    if c.targets == [] then ""
    else "    connect " + c.name + "==" + ShowTarget(c.targets[0], upper) + ShowMore(c.targets[1..], upper) + "\n"
  }

  function ShowConnAttrs(brick: string, conn: string, attrs: seq<Part>): string
    requires AreAttrs(attrs)
  {
    if attrs == [] then ""
    else "    attr " + brick + "." + conn + "." + attrs[0].name + "=" + attrs[0].value + "\n" + ShowConnAttrs(brick, conn, attrs[1..])
  }

  function ShowKind(flags: bv16): string {
    var kind := if IsOutput(flags) then "output" else "input";
    if IsActive(flags) then "  " + kind else "  (" + kind + ")"
  }

  predicate AreConns(cs: seq<Part>) {
    forall i :: 0 <= i < |cs| ==> ConnShape(cs[i])
  }

  predicate ConnShape(c: Part) {
    c.Conn? && AreAttrs(c.attrs) && AreTargets(c.targets)
  }

  function ShowConn(brick: string, c: Part, upper: bool): string
    requires ConnShape(c)
  {
    ShowKind(c.flags) + "==" + c.name + " {\n" + ShowConnAttrs(brick, c.name, c.attrs) + ShowConnect(c, upper) + "  }\n"
  }

  function ShowConns(brick: string, cs: seq<Part>, upper: bool): string
    requires AreConns(cs)
  {
    if cs == [] then "" else ShowConn(brick, cs[0], upper) + ShowConns(brick, cs[1..], upper)
  }

  function ShowBrickAttrs(brick: string, attrs: seq<Part>): string
    requires AreAttrs(attrs)
  {
    if attrs == [] then ""
    else "attr " + brick + "." + attrs[0].name + "=" + attrs[0].value + " {\n" + ShowBrickAttrs(brick, attrs[1..])
  }

  predicate BrickShape(b: Brick) {
    AreAttrs(b.attrs) && AreConns(b.conns)
  }

  /** brick_to_string */
  function ShowBrick(b: Brick, upper: bool): string
    requires BrickShape(b)
  {
    "brick==" + b.name + " {\n" + ShowBrickAttrs(b.name, b.attrs) + ShowConns(b.name, b.conns, upper) + "}\n"
  }
}
