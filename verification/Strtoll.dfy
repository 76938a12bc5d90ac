/** strtoll: what it reads from a text, with the 64-bit accumulator that wraps around. */
module Strtoll {
  import opened Words

  /** Texts end in a NUL, which is not part of the string. */
  function CharAt(s: string, i: int): char {
    if 0 <= i < |s| then s[i] else '\0'
  }

  predicate Space(c: char) {
    c == ' ' || 9 <= c as int <= 13
  }

  /** The digit c stands for, or -1. */
  function DigitOf(c: char, base: int): (d: int)
    ensures d == -1 || 0 <= d < base
  {
    if '0' <= c <= '9' && c as int - '0' as int < base then c as int - '0' as int
    else if 'a' <= c <= 'z' && c as int - 'a' as int + 10 < base then c as int - 'a' as int + 10
    else if 'A' <= c <= 'Z' && c as int - 'A' as int + 10 < base then c as int - 'A' as int + 10
    else -1
  }

  /** A character stands for d exactly if it is the ASCII digit or letter for it, small or capital, and d is below the base. */
  lemma DigitMeans(c: char, base: int, d: int)
    requires 0 <= d < 36 && base <= 36
    ensures DigitOf(c, base) == d <==>
            d < base && if d < 10 then c as int == 48 + d else c as int == 97 + (d - 10) || c as int == 65 + (d - 10)
  {
  }

  /** What a long long holds after x is stored in it. */
  function Signed64(x: int): (y: int)
    ensures -TWO63 <= y < TWO63
    ensures -TWO63 <= x < TWO63 ==> y == x
  {
    AsSigned(x, TWO63)
  }

  lemma SignedStep(v: int, base: int, d: int)
    ensures Signed64(Append(Signed64(v), base, d)) == Signed64(Append(v, base, d))
    ensures Signed64(-Signed64(v)) == Signed64(-v)
  {
    hide AsSigned;
    var k := AsSignedIs(v, TWO63);
    AsSignedShift(v * base + d, k * base, TWO63);
    assert (v + k * TWO64) * base + d == v * base + d + k * base * TWO64;
    AsSignedShift(-v, -k, TWO63);
  }

  // ---- what a text means ----

  function SpaceEnd(s: string, i: nat): (e: nat)
    requires i <= |s|
    ensures i <= e <= |s|
    decreases |s| - i
  {
    if i < |s| && Space(s[i]) then SpaceEnd(s, i + 1) else i
  }

  function DigitsEnd(s: string, i: nat, base: int): (e: nat)
    requires i <= |s|
    ensures i <= e <= |s|
    decreases |s| - i
  {
    if i < |s| && DigitOf(s[i], base) != -1 then DigitsEnd(s, i + 1, base) else i
  }

  /** The number written in the digits s. */
  function Number(s: string, base: int): int {
    if s == "" then 0 else Append(Number(s[..|s| - 1], base), base, DigitOf(s[|s| - 1], base))
  }

  function NumberIn(s: string, i: nat, j: nat, base: int): int
    requires i <= j <= |s|
  {
    Number(s[i..j], base)
  }

  function Append(n: int, base: int, d: int): int {
    n * base + d
  }

  /** Where the digits start, after blanks, a minus sign and a hexadecimal prefix.  (A plus sign is not skipped.) */
  function HexPrefix(s: string, i: int, base: int): bool {
    (base == 16 || base == 0) && CharAt(s, i) == '0' && (CharAt(s, i + 1) == 'x' || CharAt(s, i + 1) == 'X')
  }

  function UsedBase(s: string, i: int, base: int): int {
    if HexPrefix(s, i, base) then 16 else if base == 0 then (if CharAt(s, i) == '0' then 8 else 10) else base
  }

  function DigitsStart(s: string, i: nat, base: int): nat {
    if HexPrefix(s, i, base) then i + 2 else i
  }

  function AfterSign(s: string, i: nat): nat {
    if CharAt(s, i) == '-' then i + 1 else i
  }

  datatype Reading = Reading(value: int, end: nat)

  function Parse(s: string, base: int): Reading {
    var i := SpaceEnd(s, 0);
    var j := AfterSign(s, i);
    var b, start := UsedBase(s, j, base), DigitsStart(s, j, base);
    var e := DigitsEnd(s, start, b);
    var n := NumberIn(s, start, e, b);
    Reading(Signed64(if CharAt(s, i) == '-' then -n else n), e)
  }

  /** strtoll(p, &end, base) */
  method Strtoll(s: string, base0: int) returns (v: int, end: nat)
    ensures Reading(v, end) == Parse(s, base0)
  {
    hide SpaceEnd, DigitsEnd, NumberIn, DigitOf, Space, Signed64, Append;
    var base, p, isNeg := base0, 0, false;
    v := 0;
    while Space(CharAt(s, p))
      invariant p <= |s| && SpaceEnd(s, p) == SpaceEnd(s, 0)
      decreases |s| - p
    {
      SpaceStep(s, p);
      p := p + 1;
    }
    SpaceStep(s, p);
    if CharAt(s, p) == '-' {
      isNeg := true;
      p := p + 1;
    } else if CharAt(s, p) == '+' {
      isNeg := false;
    }
    if (base == 16 || base == 0) && CharAt(s, p) == '0' && (CharAt(s, p + 1) == 'x' || CharAt(s, p + 1) == 'X') {
      p := p + 2;
      base := 16;
    }
    if base == 0 {
      base := if CharAt(s, p) == '0' then 8 else 10;
    }
    ghost var start, n := p, 0;
    assert start == DigitsStart(s, AfterSign(s, SpaceEnd(s, 0)), base0) && base == UsedBase(s, AfterSign(s, SpaceEnd(s, 0)), base0);
    hide HexPrefix, UsedBase, DigitsStart, AfterSign;
    OneDigit(s, start, p, base);
    while true
      invariant start <= p <= |s| && DigitsEnd(s, p, base) == DigitsEnd(s, start, base)
      invariant n == NumberIn(s, start, p, base) && v == Signed64(n)
      decreases |s| - p
    {
      var d := DigitOf(CharAt(s, p), base);
      OneDigit(s, start, p, base);
      if d == -1 {
        break;
      }
      SignedStep(n, base, d);
      n := Append(n, base, d);
      v := Signed64(Append(v, base, d));
      p := p + 1;
    }
    SignedStep(n, 0, 0);
    if isNeg {
      v := Signed64(-v);
    }
    end := p;
  }

  lemma SpaceStep(s: string, p: nat)
    requires p <= |s|
    ensures if Space(CharAt(s, p)) then p < |s| && SpaceEnd(s, p + 1) == SpaceEnd(s, p) else SpaceEnd(s, p) == p
  {
  }

  lemma OneDigit(s: string, start: nat, p: nat, base: int)
    requires start <= p <= |s|
    ensures NumberIn(s, start, start, base) == 0
    ensures if DigitOf(CharAt(s, p), base) == -1 then DigitsEnd(s, p, base) == p
            else
              && p < |s| && DigitsEnd(s, p + 1, base) == DigitsEnd(s, p, base)
              && NumberIn(s, start, p + 1, base) == Append(NumberIn(s, start, p, base), base, DigitOf(CharAt(s, p), base))
  {
    if p < |s| {
      assert s[start..p + 1][..|s[start..p + 1]| - 1] == s[start..p];
    }
  }

  // ---- numbers ----

  predicate AllDigits(s: string, base: int) {
    forall c :: c in s ==> DigitOf(c, base) != -1
  }

  lemma {:induction false} NumberAppend(s: string, t: string, base: int)
    ensures Number(s + t, base) == Number(s, base) * Power(base, |t|) + Number(t, base)
  {
    if t == "" {
      assert s + t == s;
    } else {
      var t', d := t[..|t| - 1], DigitOf(t[|t| - 1], base);
      assert (s + t)[..|s + t| - 1] == s + t';
      NumberAppend(s, t', base);
      Shift(Number(s, base), Power(base, |t'|), Number(t', base), base, d);
    }
  }

  lemma Shift(a: int, p: int, b: int, base: int, d: int)
    ensures (a * p + b) * base + d == a * (p * base) + (b * base + d)
  {
  }

  function Power(base: int, n: nat): int {
    if n == 0 then 1 else Power(base, n - 1) * base
  }

  // ---- texts made of blanks, a sign, a prefix and digits ----

  lemma {:induction false} SpaceEndIs(s: string, i: nat, e: nat)
    requires i <= e <= |s| && !Space(CharAt(s, e)) && forall j :: i <= j < e ==> Space(s[j])
    ensures SpaceEnd(s, i) == e
    decreases e - i
  {
    if i < e {
      SpaceEndIs(s, i + 1, e);
    }
  }

  lemma {:induction false} DigitsEndIs(s: string, i: nat, e: nat, base: int)
    requires i <= e <= |s| && DigitOf(CharAt(s, e), base) == -1 && forall j :: i <= j < e ==> DigitOf(s[j], base) != -1
    ensures DigitsEnd(s, i, base) == e
    decreases e - i
  {
    if i < e {
      DigitsEndIs(s, i + 1, e, base);
    }
  }

  predicate AllAre(s: string, c: char) {
    forall d :: d in s ==> d == c
  }

  lemma AllJoin(s: string, t: string, c: char)
    requires AllAre(s, c) && AllAre(t, c)
    ensures AllAre(s + t, c)
  {
  }

  /** What may follow a number so that it is not read as part of it. */
  predicate Ends(prefix: string, t: string, base: int) {
    t == "" || (DigitOf(t[0], base) == -1 && (prefix != "" || (t[0] != 'x' && t[0] != 'X')))
  }

  /** A number as printf writes it: a base prefix may stand before the digits of base 16. */
  predicate Numeral(prefix: string, digits: string, base: int) {
    2 <= base <= 16 && digits != "" && AllDigits(digits, base) && (prefix == "" || (prefix == "0x" && base == 16))
  }

  lemma ParseWritten(blanks: string, minus: bool, prefix: string, digits: string, tail: string, base: int)
    requires AllAre(blanks, ' ') && Numeral(prefix, digits, base) && Ends(prefix, tail, base)
    ensures var n, text := Number(digits, base), blanks + (if minus then "-" else "") + prefix + digits;
            Parse(text + tail, base) == Reading(Signed64(if minus then -n else n), |text|)
  {
    hide DigitsEnd, SpaceEnd, Number, AllDigits, Signed64;
    var sign := if minus then "-" else "";
    var text := blanks + sign + prefix + digits;
    var s := text + tail;
    var i, j := |blanks|, |blanks + sign|;
    var start, e := |blanks + sign + prefix|, |text|;
    WrittenStart(blanks, sign, prefix, digits, tail, base);
    SpaceEndIs(s, 0, i);
    DigitsAt(blanks + sign + prefix, digits, tail, base);
    DigitsEndIs(s, start, e, base);
    assert s[start..e] == digits;
  }

  /** How a number is written in C: what begins with 0x is hexadecimal, what begins with 0 octal, all else decimal. */
  predicate Literal(prefix: string, digits: string, base: int) {
    Numeral(prefix, digits, base) && (prefix == "0x" || base == (if digits[0] == '0' then 8 else 10))
  }

  /** With base 0 such a number is read in its own base. */
  lemma ParseLiteral(blanks: string, minus: bool, prefix: string, digits: string, tail: string, base: int)
    requires AllAre(blanks, ' ') && Literal(prefix, digits, base) && Ends(prefix, tail, base)
    ensures var n, text := Number(digits, base), blanks + (if minus then "-" else "") + prefix + digits;
            Parse(text + tail, 0) == Reading(Signed64(if minus then -n else n), |text|)
  {
    var sign := if minus then "-" else "";
    var s, i, j := blanks + sign + prefix + digits + tail, |blanks|, |blanks + sign|;
    ParseWritten(blanks, minus, prefix, digits, tail, base);
    WrittenStart(blanks, sign, prefix, digits, tail, base);
    LiteralStart(blanks + sign, prefix, digits, tail, base);
    SpaceEndIs(s, 0, i);
    hide DigitsEnd, SpaceEnd, Number, AllDigits, Signed64, HexPrefix, UsedBase, DigitsStart, AfterSign, Space;
  }

  lemma LiteralStart(front: string, prefix: string, digits: string, tail: string, base: int)
    requires Literal(prefix, digits, base) && Ends(prefix, tail, base)
    ensures var s, j := front + prefix + digits + tail, |front|;
            UsedBase(s, j, 0) == base && DigitsStart(s, j, 0) == j + |prefix|
  {
    var s, j := front + prefix + digits + tail, |front|;
    if prefix == "0x" {
      assert s[j] == '0' && s[j + 1] == 'x';
    } else {
      assert s[j] == digits[0];
      if |digits| > 1 {
        assert s[j + 1] == digits[1] && digits[1] in digits;
      } else if tail != "" {
        assert s[j + 1] == tail[0];
      }
    }
  }

  lemma DigitsAt(front: string, digits: string, tail: string, base: int)
    requires AllDigits(digits, base) && (tail == "" || DigitOf(tail[0], base) == -1)
    ensures var s := front + digits + tail;
            && DigitOf(CharAt(s, |front| + |digits|), base) == -1
            && forall j :: |front| <= j < |front| + |digits| ==> DigitOf(s[j], base) != -1
  {
    hide DigitOf;
    NoDigit(base);
    var s := front + digits + tail;
    forall j | |front| <= j < |front| + |digits| ensures DigitOf(s[j], base) != -1 {
      assert s[j] == digits[j - |front|];
    }
  }

  lemma NoDigit(base: int)
    ensures DigitOf('\0', base) == -1
  {
  }

  /** How the text begins. */
  lemma WrittenStart(blanks: string, sign: string, prefix: string, digits: string, tail: string, base: int)
    requires AllAre(blanks, ' ') && Numeral(prefix, digits, base) && Ends(prefix, tail, base) && (sign == "" || sign == "-")
    ensures var s, i, j := blanks + sign + prefix + digits + tail, |blanks|, |blanks + sign|;
            && !Space(CharAt(s, i)) && (forall k :: 0 <= k < i ==> Space(s[k]))
            && (CharAt(s, i) == '-' <==> sign == "-") && AfterSign(s, i) == j
            && UsedBase(s, j, base) == base && DigitsStart(s, j, base) == j + |prefix|
  {
    var s, i, j := blanks + sign + prefix + digits + tail, |blanks|, |blanks + sign|;
    assert digits[0] in digits && digits[|digits| - 1] in digits;
    if sign == "" {
      assert CharAt(s, i) == (prefix + digits)[0];
    } else {
      assert CharAt(s, i) == '-';
    }
    forall k | 0 <= k < i ensures Space(s[k]) {
      assert s[k] == blanks[k] && blanks[k] in blanks;
    }
    if prefix == "0x" {
      assert s[j] == '0' && s[j + 1] == 'x';
    } else {
      assert s[j] == digits[0];
      if |digits| > 1 {
        assert s[j + 1] == digits[1] && digits[1] in digits;
      } else if tail != "" {
        assert s[j + 1] == tail[0];
      }
    }
  }

  /** Before a plus sign nothing is read. */
  lemma ParsePlus(blanks: string, rest: string, base: int)
    requires AllAre(blanks, ' ') && 2 <= base <= 16
    ensures Parse(blanks + "+" + rest, base) == Reading(0, |blanks|)
  {
    var s, i := blanks + "+" + rest, |blanks|;
    assert s[i] == '+';
    forall k | 0 <= k < i ensures Space(s[k]) {
      assert s[k] == blanks[k] && blanks[k] in blanks;
    }
    SpaceEndIs(s, 0, i);
    assert s[i..i] == "";
  }
}
