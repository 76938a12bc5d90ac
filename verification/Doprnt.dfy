/** _doprnt: one conversion of an integer, from its directive to the characters put out. */
module Doprnt {
  import opened Words
  import opened Strtoll

  /** The flags of a directive; plus is the character for non-negative numbers, if any. */
  datatype Flags = Flags(left: bool, zero: bool, alt: bool, plus: string)

  function DigitChar(d: int): char
    requires 0 <= d < 16
  {
    "0123456789abcdef"[d]
  }

  /** u in the given base. */
  function Digits(u: nat, base: int): (s: string)
    requires 2 <= base <= 16
    ensures |s| > 0
  {
    if u < base then [DigitChar(u)] else Digits(u / base, base) + [LastDigit(u, base)]
  }

  /** digits[u % base] */
  function LastDigit(u: nat, base: int): char
    requires 2 <= base <= 16
  {
    DigitChar(u % base)
  }

  function Pad(c: char, n: int): (s: string)
    ensures |s| == Max(n, 0)
  {
    if n <= 0 then "" else Pad(c, n - 1) + [c]
  }

  function Max(a: int, b: int): int {
    if a < b then b else a
  }

  function Prefix(u: nat, base: int, alt: bool): string {
    if u == 0 || !alt then "" else if base == 8 then "0" else if base == 16 then "0x" else ""
  }

  /** What is left of the width for padding. */
  function Room(u: nat, base: int, sign: string, f: Flags, width: int, prec: int): int
    requires 2 <= base <= 16
  {
    width - |sign| - |Prefix(u, base, f.alt)| - Max(|Digits(u, base)|, prec)
  }

  /** A number as it is put out: blanks, sign, prefix, zeros, digits, blanks. */
  function Printed(u: nat, base: int, sign: string, f: Flags, width: int, prec: int): string
    requires 2 <= base <= 16
  {
    Laid(sign, Prefix(u, base, f.alt), Digits(u, base), prec - |Digits(u, base)|, Room(u, base, sign, f, width, prec), f)
  }

  function Laid(sign: string, prefix: string, digits: string, zeros: int, room: int, f: Flags): string {
    (if f.zero || f.left then "" else Pad(' ', room)) + sign + prefix + Pad('0', zeros)
    + (if f.zero then Pad('0', room) else "") + digits + (if f.left && !f.zero then Pad(' ', room) else "")
  }

  // ---- print_num ----

  /** while (--n >= 0) putc(c) */
  method Fill(out: string, c: char, n: int) returns (r: string, rest: int)
    ensures r == out + Pad(c, n) && rest < 0 && (n <= 0 ==> rest == n - 1)
  {
    r, rest := out, n - 1;
    ghost var put := 0;
    while rest >= 0
      invariant rest == n - 1 - put && 0 <= put && (put == 0 || put <= n) && r == out + Pad(c, put)
      decreases rest
    {
      r := r + [c];
      rest := rest - 1;
      put := put + 1;
    }
  }

  /** The do-while loop: the digits of u0, built backwards up to the end of buf. */
  method PutDigits(buf: array<char>, u0: nat, base: int) returns (p: int)
    requires 2 <= base <= 16 && u0 < TWO64 && buf.Length == 64
    modifies buf
    ensures -1 <= p < 63 && buf[p + 1..] == Digits(u0, base)
  {
    hide Pow2, LastDigit, Digits;
    p := 63;
    var u := u0;
    Pow64();
    var first := true;
    while first || u != 0
      invariant -1 <= p <= 63 && 0 <= u < Pow2(p + 1) && (first <==> p == 63) && (first ==> u == u0)
      invariant !first ==> Digits(u0, base) == (if u == 0 then "" else Digits(u, base)) + buf[p + 1..]
      decreases p
    {
      var q := DivideBy(u, base, p);
      OneMoreDigit(u, base);
      ghost var done := buf[p + 1..];
      buf[p] := LastDigit(u, base);
      assert buf[p..] == [LastDigit(u, base)] + done;
      p := p - 1;
      u := q;
      first := false;
    }
  }

  lemma Pow64()
    ensures Pow2(64) == TWO64
  {
    assert Pow2(4) == 16;
    Pow2Add(4, 4);
    Pow2Add(8, 8);
    Pow2Add(16, 16);
    Pow2Add(32, 32);
  }

  /** u /= base */
  method DivideBy(u: nat, base: int, ghost p: int) returns (q: nat)
    requires 2 <= base && -1 <= p && u < Pow2(p + 1) && (u == 0 ==> p >= 0)
    ensures q == u / base && p >= 0 && q < Pow2(p)
  {
    q := u / base;
    RoomLeft(u, q, p, base);
  }

  lemma RoomLeft(u: nat, q: nat, p: int, base: int)
    requires 2 <= base && -1 <= p && u < Pow2(p + 1) && (u == 0 ==> p >= 0) && q == u / base
    ensures p >= 0 && q < Pow2(p)
  {
    DivMod(u, base);
    assert Pow2(0) == 1;
    if q >= Pow2(p) {
      ScaleUp(q, Pow2(p), base);
    }
  }

  lemma ScaleUp(q: int, r: int, base: int)
    requires base >= 2 && q >= r >= 0
    ensures q * base >= 2 * r
  {
  }

  lemma OneMoreDigit(u: nat, base: int)
    requires 2 <= base <= 16
    ensures Digits(u, base) == (if u / base == 0 then "" else Digits(u / base, base)) + [LastDigit(u, base)]
  {
    DivMod(u, base);
    if u < base {
      DivUnique(u, base, 0, u);
    }
  }

  /** print_num: the digits are built backwards in a buffer of 64 characters. */
  method PrintNum(u: nat, base: int, sign: string, f: Flags, width: int, prec0: int) returns (out: string)
    requires 2 <= base <= 16 && u < TWO64 && |sign| <= 1
    ensures out == Printed(u, base, sign, f, width, prec0)
  {
    hide Digits, DigitChar, Pad, Room, Prefix, Laid;
    PrefixIs(u, base, f.alt);
    var prefix := "";
    if u != 0 && f.alt {
      if base == 8 {
        prefix := "0";
      } else if base == 16 {
        prefix := "0x";
      }
    }
    var buf := new char[64];
    var p := PutDigits(buf, u, base);
    assert |Digits(u, base)| == 63 - p;
    var length, prec := width - (63 - p), prec0 - (63 - p);
    if sign != "" {
      length := length - 1;
    }
    length := length - |prefix|;
    if prec > 0 {
      length := length - prec;
    }
    RoomIs(u, base, sign, f, width, prec0, length);
    out := PutOut(sign, prefix, buf, p, prec, length, f);
  }

  /** The part of print_num that puts characters out. */
  method PutOut(sign: string, prefix: string, buf: array<char>, p: int, prec: int, length0: int, f: Flags) returns (out: string)
    requires -1 <= p < buf.Length
    ensures out == Laid(sign, prefix, buf[p + 1..], prec, length0, f)
  {
    hide Pad;
    var length := length0;
    out := "";
    if !f.zero && !f.left {
      out, length := Fill(out, ' ', length);
    }
    out := out + sign + prefix;
    var none;
    out, none := Fill(out, '0', prec);
    ghost var front := (if f.zero || f.left then "" else Pad(' ', length0)) + sign + prefix + Pad('0', prec);
    assert out == front;
    if f.zero {
      out, length := Fill(out, '0', length);
    }
    ghost var front' := front + if f.zero then Pad('0', length0) else "";
    assert out == front';
    out := PutBuffer(out, buf, p + 1);
    ghost var tail := if f.left && !f.zero then Pad(' ', length0) else "";
    if f.left {
      PadNone(' ', length);
      out, length := Fill(out, ' ', length);
    }
    assert out == front' + buf[p + 1..] + tail;
  }

  /** while (++p != &buf[MAXBUF]) putc(*p) */
  method PutBuffer(before: string, buf: array<char>, start: nat) returns (out: string)
    requires start <= buf.Length
    ensures out == before + buf[start..]
  {
    var p := start;
    out := before;
    while p != buf.Length
      invariant start <= p <= buf.Length && out == before + buf[start..p]
    {
      out := out + [buf[p]];
      p := p + 1;
    }
  }

  lemma PadNone(c: char, n: int)
    ensures n <= 0 ==> Pad(c, n) == ""
  {
  }

  lemma PrefixIs(u: nat, base: int, alt: bool)
    ensures Prefix(u, base, alt) == if u != 0 && alt then (if base == 8 then "0" else if base == 16 then "0x" else "") else ""
  {
  }

  lemma RoomIs(u: nat, base: int, sign: string, f: Flags, width: int, prec: int, length: int)
    requires 2 <= base <= 16 && |sign| <= 1
    requires var n := |Digits(u, base)|;
             length == width - n - (if sign != "" then 1 else 0) - |Prefix(u, base, f.alt)| - (if prec - n > 0 then prec - n else 0)
    ensures length == Room(u, base, sign, f, width, prec)
  {
  }

  // ---- how long it is, and what strtoll reads ----

  /** Exactly the width asked for, or what the number itself needs if that is more. */
  lemma PrintedLength(u: nat, base: int, sign: string, f: Flags, width: int, prec: int)
    requires 2 <= base <= 16
    ensures |Printed(u, base, sign, f, width, prec)|
         == Max(width, |sign| + |Prefix(u, base, f.alt)| + Max(prec, |Digits(u, base)|))
  {
  }

  lemma {:induction false} PadAll(c: char, n: int)
    ensures AllAre(Pad(c, n), c)
  {
    if n > 0 {
      PadAll(c, n - 1);
    }
  }

  // ---- where everything stands ----

  /** A numeral: the sign and the prefix, zeros up to the precision, and the digits. */
  ghost predicate Numeral(s: string, front: string, digits: string, prec: int) {
    && |s| == |front| + Max(prec, |digits|) && s[..|front|] == front && s[|s| - |digits|..] == digits
    && AllAre(s[|front|..|s| - |digits|], '0')
  }

  /** The numeral c in a field: at the right behind blanks, at the left before blanks, or with zeros behind the front. */
  ghost predicate InField(out: string, c: string, front: nat, f: Flags, width: int)
    requires front <= |c|
  {
    var gap := Max(width - |c|, 0);
    && |out| == |c| + gap
    && if f.zero then out[..front] == c[..front] && AllAre(out[front..front + gap], '0') && out[front + gap..] == c[front..]
       else if f.left then out[..|c|] == c && AllAre(out[|c|..], ' ')
       else AllAre(out[..gap], ' ') && out[gap..] == c
  }

  /** What print_num puts out, character by character: a numeral, and that numeral in its field. */
  lemma PrintedPlaces(u: nat, base: int, sign: string, f: Flags, width: int, prec: int)
    requires 2 <= base <= 16
    ensures var c, prefix := Printed(u, base, sign, f, 0, prec), Prefix(u, base, f.alt);
            && Numeral(c, sign + prefix, Digits(u, base), prec)
            && |sign + prefix| <= |c| && InField(Printed(u, base, sign, f, width, prec), c, |sign + prefix|, f, width)
  {
    hide Digits, Prefix, AllAre;
    var front, digits := sign + Prefix(u, base, f.alt), Digits(u, base);
    var z, fill, blanks := prec - |digits|, Room(u, base, sign, f, width, prec), Room(u, base, sign, f, 0, prec);
    PadAll('0', z);
    PadAll('0', fill);
    PadAll(' ', fill);
    var c := front + Pad('0', z) + digits;
    assert Printed(u, base, sign, f, 0, prec) == c;
    NumeralParts(front, Pad('0', z), digits, prec);
    assert fill == width - |c|;
    var pad := Pad(if f.zero then '0' else ' ', fill);
    Regrouped(if f.zero || f.left then "" else pad, sign, Prefix(u, base, f.alt), Pad('0', z), if f.zero then pad else "", digits,
              if f.left && !f.zero then pad else "");
    FieldParts(front, Pad('0', z), digits, pad, f, width);
  }

  lemma Regrouped(lead: string, sign: string, prefix: string, z: string, fill: string, digits: string, tail: string)
    ensures lead + sign + prefix + z + fill + digits + tail == lead + (sign + prefix) + z + fill + digits + tail
  {
    assert lead + sign + prefix == lead + (sign + prefix);
  }

  lemma NumeralParts(front: string, z: string, digits: string, prec: int)
    requires AllAre(z, '0') && |z| == Max(prec - |digits|, 0)
    ensures Numeral(front + z + digits, front, digits, prec)
  {
    var s := front + z + digits;
    assert s[..|front|] == front && s[|front|..|s| - |digits|] == z && s[|s| - |digits|..] == digits;
  }

  lemma FieldParts(front: string, z: string, digits: string, pad: string, f: Flags, width: int)
    requires AllAre(z, '0') && AllAre(pad, if f.zero then '0' else ' ') && |pad| == Max(width - |front + z + digits|, 0)
    ensures InField((if f.zero || f.left then "" else pad) + front + z + (if f.zero then pad else "") + digits
                    + (if f.left && !f.zero then pad else ""), front + z + digits, |front|, f, width)
  {
    if f.zero {
      ZeroField(front, z, digits, pad, f, width);
    } else if f.left {
      LeftField(front, z, digits, pad, f, width);
    } else {
      RightField(front, z, digits, pad, f, width);
    }
  }

  lemma ZeroField(front: string, z: string, digits: string, pad: string, f: Flags, width: int)
    requires f.zero && AllAre(z, '0') && AllAre(pad, '0') && |pad| == Max(width - |front + z + digits|, 0)
    ensures InField("" + front + z + pad + digits + "", front + z + digits, |front|, f, width)
  {
    hide AllAre, InField;
    ZerosSwap(z, pad);
    PadFirst(front, z, pad, digits);
    assert front + z + digits == front + (z + digits);
    ZerosBehind(front, pad, z + digits, f, width);
  }

  lemma PadFirst(front: string, z: string, pad: string, digits: string)
    requires z + pad == pad + z
    ensures "" + front + z + pad + digits + "" == front + (pad + (z + digits))
  {
    assert "" + front + z + pad + digits + "" == front + ((z + pad) + digits);
  }

  lemma ZerosBehind(front: string, pad: string, rest: string, f: Flags, width: int)
    requires f.zero && AllAre(pad, '0') && |pad| == Max(width - |front + rest|, 0)
    ensures InField(front + (pad + rest), front + rest, |front|, f, width)
  {
    hide AllAre;
    Middle(front, pad, rest);
    assert (front + rest)[..|front|] == front && (front + rest)[|front|..] == rest;
  }

  lemma Middle(front: string, pad: string, rest: string)
    ensures var out := front + (pad + rest);
            out[..|front|] == front && out[|front|..|front| + |pad|] == pad && out[|front| + |pad|..] == rest
  {
  }

  lemma LeftField(front: string, z: string, digits: string, pad: string, f: Flags, width: int)
    requires !f.zero && f.left && AllAre(pad, ' ') && |pad| == Max(width - |front + z + digits|, 0)
    ensures InField("" + front + z + "" + digits + pad, front + z + digits, |front|, f, width)
  {
    hide AllAre;
    assert "" + front + z + "" + digits + pad == (front + z + digits) + pad;
  }

  lemma RightField(front: string, z: string, digits: string, pad: string, f: Flags, width: int)
    requires !f.zero && !f.left && AllAre(pad, ' ') && |pad| == Max(width - |front + z + digits|, 0)
    ensures InField(pad + front + z + "" + digits + "", front + z + digits, |front|, f, width)
  {
    hide AllAre;
    assert pad + front + z + "" + digits + "" == pad + (front + z + digits);
  }

  lemma ZerosSwap(s: string, t: string)
    requires AllAre(s, '0') && AllAre(t, '0')
    ensures s + t == t + s
  {
    forall i | 0 <= i < |s + t| ensures (s + t)[i] == '0' && (t + s)[i] == '0' {
      assert (s + t)[i] in s || (s + t)[i] in t;
      assert (t + s)[i] in s || (t + s)[i] in t;
    }
  }

  predicate LowerDigit(c: char) {
    '0' <= c <= '9' || 'a' <= c <= 'f'
  }

  /** Digits are lower-case, and the first is no zero unless it is the only one.  (With DigitsRead that makes them unique.) */
  lemma {:induction false} DigitsCanonical(u: nat, base: int)
    requires 2 <= base <= 16
    ensures (forall c :: c in Digits(u, base) ==> LowerDigit(c)) && (Digits(u, base)[0] == '0' <==> u == 0)
    ensures u == 0 ==> Digits(u, base) == "0"
    decreases u
  {
    hide DigitChar;
    if u < base {
      DigitLower(u);
    } else {
      DivMod(u, base);
      DigitLower(u % base);
      if u / base == 0 {
        DivUnique(u, base, 0, u);
      }
      Smaller(u, base);
      DigitsCanonical(u / base, base);
    }
  }

  lemma DigitLower(d: int)
    requires 0 <= d < 16
    ensures LowerDigit(DigitChar(d)) && (DigitChar(d) == '0' <==> d == 0)
  {
  }

  /** The prefix: 0 before octal digits and 0x before hexadecimal ones, with the # flag, and not before a zero. */
  lemma PrefixMeans(u: nat, base: int, alt: bool)
    ensures Prefix(u, base, alt) == "0" <==> alt && u != 0 && base == 8
    ensures Prefix(u, base, alt) == "0x" <==> alt && u != 0 && base == 16
    ensures Prefix(u, base, alt) == "" <==> !(alt && u != 0 && (base == 8 || base == 16))
  {
  }

  lemma CharRead(d: int, base: int)
    requires 0 <= d < base <= 16
    ensures DigitOf(DigitChar(d), base) == d
  {
  }

  /** The digits stand for the number. */
  lemma {:induction false} DigitsRead(u: nat, base: int)
    requires 2 <= base <= 16
    ensures AllDigits(Digits(u, base), base) && Number(Digits(u, base), base) == u
    decreases u
  {
    hide LastDigit, DigitChar, DigitOf, Append;
    OneMoreDigit(u, base);
    LastRead(u, base);
    var s, t, d := Digits(u, base), if u / base == 0 then "" else Digits(u / base, base), LastDigit(u, base);
    assert s[..|s| - 1] == t;
    if u / base != 0 {
      Smaller(u, base);
      DigitsRead(u / base, base);
    }
    assert Number("", base) == 0;
    assert s == t + [d];
  }

  lemma LastRead(u: nat, base: int)
    requires 2 <= base <= 16
    ensures DigitOf(LastDigit(u, base), base) != -1 && Append(u / base, base, DigitOf(LastDigit(u, base), base)) == u
  {
    hide DigitChar, DigitOf;
    DivMod(u, base);
    CharRead(u % base, base);
  }

  lemma Smaller(u: nat, base: int)
    requires base >= 2 && u / base != 0
    ensures 0 < u / base < u
  {
    DivMod(u, base);
    ScaleUp(u / base, u / base, base);
  }

  lemma {:induction false} ZerosRead(z: string, base: int)
    requires AllAre(z, '0')
    requires base >= 2
    ensures Number(z, base) == 0 && AllDigits(z, base)
  {
    if z != "" {
      assert z[|z| - 1] in z;
      assert forall i :: 0 <= i < |z| ==> z[i] in z;
      assert AllAre(z[..|z| - 1], '0');
      ZerosRead(z[..|z| - 1], base);
      forall c | c in z ensures DigitOf(c, base) != -1 {
        assert c == '0';
      }
    }
  }

  lemma LeadingZeros(z: string, s: string, base: int)
    requires AllAre(z, '0')
    requires base >= 2 && AllDigits(s, base)
    ensures Number(z + s, base) == Number(s, base) && AllDigits(z + s, base)
  {
    ZerosRead(z, base);
    NumberAppend(z, s, base);
  }

  predicate SignText(sign: string) {
    sign == "" || sign == "-" || sign == "+" || sign == " "
  }

  function WithSign(sign: string, u: int): int {
    if sign == "-" then -u else u
  }

  /** What strtoll makes of a printed number: the number itself, except behind a plus sign, where it stops. */
  lemma ReadBack(u: nat, base: int, sign: string, f: Flags, width: int, prec: int)
    requires 2 <= base <= 16 && SignText(sign)
    ensures Parse(Printed(u, base, sign, f, width, prec), base).value
         == if sign == "+" then 0 else Signed64(WithSign(sign, u))
  {
    var digits, room := Digits(u, base), Room(u, base, sign, f, width, prec);
    LaidRead(u, sign, Prefix(u, base, f.alt), digits, prec - |digits|, room, f, base);
  }

  lemma LaidRead(u: nat, sign: string, prefix: string, digits: string, zeros: int, room: int, f: Flags, base: int)
    requires 2 <= base <= 16 && SignText(sign) && digits == Digits(u, base)
    requires prefix == "" || prefix == "0" || (prefix == "0x" && base == 16)
    ensures Parse(Laid(sign, prefix, digits, zeros, room, f), base).value
         == if sign == "+" then 0 else Signed64(WithSign(sign, u))
  {
    hide Digits, Pad, Parse, Number, AllDigits, DigitOf, Signed64, WithSign, AllAre;
    PadAll(' ', room);
    PadAll('0', room);
    PadAll('0', zeros);
    AllEmpty();
    DigitsRead(u, base);
    var lead, fill := if f.zero || f.left then "" else Pad(' ', room), if f.zero then Pad('0', room) else "";
    var tail := if f.left && !f.zero then Pad(' ', room) else "";
    AllJoin(Pad('0', zeros), fill, '0');
    TailEnds(tail, base);
    PiecesRead(lead, sign, prefix, Pad('0', zeros), fill, u, digits, tail, base);
  }

  lemma PiecesRead(lead: string, sign: string, prefix: string, z: string, fill: string, u: nat, digits: string, tail: string, base: int)
    requires 2 <= base <= 16 && SignText(sign) && digits != "" && AllDigits(digits, base) && Number(digits, base) == u
    requires prefix == "" || prefix == "0" || (prefix == "0x" && base == 16)
    requires AllAre(lead, ' ') && Ends("", tail, base) && AllAre(z + fill, '0')
    ensures Parse(lead + sign + prefix + z + fill + digits + tail, base).value
         == if sign == "+" then 0 else Signed64(WithSign(sign, u))
  {
    hide Parse, Number, AllDigits, Signed64, WithSign, AllAre, Ends;
    assert lead + sign + prefix + z + fill + digits + tail == lead + sign + prefix + (z + fill) + digits + tail;
    if sign == "+" {
      assert lead + sign + prefix + z + fill + digits + tail == lead + "+" + (prefix + z + fill + digits + tail);
      ParsePlus(lead, prefix + z + fill + digits + tail, base);
    } else {
      NumeralRead(lead, sign, prefix, z + fill, u, digits, tail, base);
    }
  }

  lemma AllEmpty()
    ensures AllAre("", ' ') && AllAre("", '0')
  {
  }

  lemma NumeralRead(lead: string, sign: string, prefix: string, z: string, u: nat, digits: string, tail: string, base: int)
    requires 2 <= base <= 16 && SignText(sign) && sign != "+" && digits != "" && AllDigits(digits, base) && Number(digits, base) == u
    requires prefix == "" || prefix == "0" || (prefix == "0x" && base == 16)
    requires AllAre(lead, ' ') && Ends("", tail, base)
    requires AllAre(z, '0')
    ensures Parse(lead + sign + prefix + z + digits + tail, base).value == Signed64(WithSign(sign, u))
  {
    hide Parse, Number, AllDigits, DigitOf, Signed64;
    var blanks, minus := lead + (if sign == " " then " " else ""), sign == "-";
    var zero, pre := if prefix == "0" then "0" else "", if prefix == "0x" then "0x" else "";
    var body := zero + z + digits;
    AllJoin(zero, z, '0');
    AllJoin(lead, if sign == " " then " " else "", ' ');
    hide AllAre;
    LeadingZeros(zero + z, digits, base);
    assert lead + sign + prefix + z + digits + tail == blanks + (if minus then "-" else "") + pre + body + tail;
    ParseWritten(blanks, minus, pre, body, tail, base);
  }

  lemma TailEnds(tail: string, base: int)
    requires AllAre(tail, ' ')
    ensures Ends("", tail, base)
  {
    if tail != "" {
      assert tail[0] in tail;
    }
  }

  // ---- signed numbers ----

  function SignFor(n: int, plus: string): string {
    if n >= 0 then plus else "-"
  }

  function Magnitude(n: int): nat {
    if n >= 0 then n else -n
  }

  /** print_signed */
  method PrintSigned(n: int, base: int, f: Flags, width: int, prec: int) returns (out: string)
    requires 2 <= base <= 16 && -TWO63 <= n < TWO63 && |f.plus| <= 1
    ensures out == Printed(Magnitude(n), base, SignFor(n, f.plus), f, width, prec)
  {
    var u, sign;
    if n >= 0 {
      u, sign := n, f.plus;
    } else {
      u, sign := -n, "-";
    }
    out := PrintNum(u, base, sign, f, width, prec);
  }

  /** strtoll undoes printing for every number, base, width, precision and set of flags, but one:
      it does not skip the plus sign that the + flag asks for, and reads 0. */
  lemma RoundTrip(n: int, base: int, f: Flags, width: int, prec: int)
    requires 2 <= base <= 16 && -TWO63 <= n < TWO63 && (f.plus == "" || f.plus == "+" || f.plus == " ")
    ensures Parse(Printed(Magnitude(n), base, SignFor(n, f.plus), f, width, prec), base).value == n
            <==> !(f.plus == "+" && n > 0)
  {
    hide Printed, Parse, Signed64;
    ReadBack(Magnitude(n), base, SignFor(n, f.plus), f, width, prec);
  }

  // ---- one directive of a format ----

  /** What a directive says: the flags, width, precision and size that were read, the conversion character, where
      the format goes on behind it, and how many arguments were used up for width and precision. */
  datatype Directive = Directive(flags: Flags, width: int, prec: int, longlong: bool, conversion: char, next: nat, used: nat)

  predicate FlagChar(c: char) {
    c == '#' || c == '-' || c == '+' || c == ' '
  }

  function FlagsEnd(fmt: string, i: nat): (e: nat)
    requires i <= |fmt|
    ensures i <= e <= |fmt|
    decreases |fmt| - i
  {
    if i < |fmt| && FlagChar(fmt[i]) then FlagsEnd(fmt, i + 1) else i
  }

  /** What the flag characters mean, in whatever order they stand, and however often. */
  function FlagsOf(s: string, zero: bool): Flags {
    Flags('-' in s, zero, '#' in s, if '+' in s then "+" else if ' ' in s then " " else "")
  }

  /** A number in a directive, or the star that takes one from the arguments. */
  datatype Field = Field(value: int, next: nat, used: nat)

  function ReadField(fmt: string, i: nat, args: nat -> int, used: nat, none: int): Field
    requires i <= |fmt|
  {
    var e := DigitsEnd(fmt, i, 10);
    if e > i then Field(NumberIn(fmt, i, e, 10), e, used)
    else if CharAt(fmt, i) == '*' then Field(args(used), i + 1, used + 1)
    else Field(none, i, used)
  }

  function FlagsNext(fmt: string, i: nat): nat
    requires i <= |fmt|
  {
    var e := FlagsEnd(fmt, i);
    if CharAt(fmt, e) == '0' then e + 1 else e
  }

  function SizeNext(fmt: string, i: nat): nat {
    if CharAt(fmt, i) != 'l' then i else if CharAt(fmt, i + 1) == 'l' then i + 2 else i + 1
  }

  /** How a directive is read, behind its percent sign.  The arguments are those of va_arg(args, int). */
  function ReadDirective(fmt: string, i: nat, args: nat -> int): Directive
    requires i <= |fmt|
  {
    var e := FlagsEnd(fmt, i);
    var f := FlagsOf(fmt[i..e], CharAt(fmt, e) == '0');
    var width := ReadField(fmt, FlagsNext(fmt, i), args, 0, 0);
    var prec := if CharAt(fmt, width.next) == '.' then ReadField(fmt, width.next + 1, args, width.used, -1)
                else Field(-1, width.next, width.used);
    var l := SizeNext(fmt, prec.next);
    Directive(if width.value < 0 then f.(left := !f.left) else f, Magnitude(width.value), prec.value, l == prec.next + 2,
              CharAt(fmt, l), l, prec.used)
  }

  /** The first part of a directive: flags, the zero flag, and the width. */
  method ReadFlags(fmt: string, i0: nat) returns (f: Flags, i: nat)
    requires i0 <= |fmt|
    ensures var e := FlagsEnd(fmt, i0);
            && f == FlagsOf(fmt[i0..e], CharAt(fmt, e) == '0')
            && i == FlagsNext(fmt, i0) <= |fmt|
  {
    var alt, left, plus := false, false, "";
    i := i0;
    while FlagChar(CharAt(fmt, i))
      invariant i0 <= i <= |fmt| && FlagsEnd(fmt, i) == FlagsEnd(fmt, i0)
      invariant Flags(left, false, alt, plus) == FlagsOf(fmt[i0..i], false)
      decreases |fmt| - i
    {
      assert fmt[i0..i + 1] == fmt[i0..i] + [fmt[i]];
      if CharAt(fmt, i) == '#' {
        alt := true;
      } else if CharAt(fmt, i) == '-' {
        left := true;
      } else if CharAt(fmt, i) == '+' {
        plus := "+";
      } else if plus == "" {
        plus := " ";
      }
      i := i + 1;
    }
    f := Flags(left, false, alt, plus);
    if CharAt(fmt, i) == '0' {
      f := f.(zero := true);
      i := i + 1;
    }
  }

  /** A run of decimal digits: while (isdigit(*fmt)) */
  method ReadDecimal(fmt: string, i0: nat) returns (n: int, i: nat)
    requires i0 <= |fmt|
    ensures i0 <= i == DigitsEnd(fmt, i0, 10) && n == NumberIn(fmt, i0, i, 10)
  {
    hide DigitOf, NumberIn, DigitsEnd;
    n, i := 0, i0;
    OneDigit(fmt, i0, i, 10);
    while DigitOf(CharAt(fmt, i), 10) != -1
      invariant i0 <= i <= |fmt| && DigitsEnd(fmt, i, 10) == DigitsEnd(fmt, i0, 10) && n == NumberIn(fmt, i0, i, 10)
      decreases |fmt| - i
    {
      OneDigit(fmt, i0, i, 10);
      n := 10 * n + DigitOf(CharAt(fmt, i), 10);
      i := i + 1;
    }
    OneDigit(fmt, i0, i, 10);
  }

  /** Digits or a star; `none` is the value if there are neither. */
  method ParseField(fmt: string, i: nat, args: nat -> int, used0: nat, none: int) returns (n: int, next: nat, used: nat)
    requires i <= |fmt|
    ensures Field(n, next, used) == ReadField(fmt, i, args, used0, none) && next <= |fmt|
  {
    hide DigitOf, NumberIn, DigitsEnd;
    used := used0;
    DigitHere(fmt, i);
    if DigitOf(CharAt(fmt, i), 10) != -1 {
      n, next := ReadDecimal(fmt, i);
    } else if CharAt(fmt, i) == '*' {
      n, next, used := args(used), i + 1, used + 1;
    } else {
      n, next := none, i;
    }
  }

  lemma DigitHere(fmt: string, i: nat)
    requires i <= |fmt|
    ensures DigitsEnd(fmt, i, 10) > i <==> DigitOf(CharAt(fmt, i), 10) != -1
  {
  }

  /** Everything up to the conversion character. */
  method ParseDirective(fmt: string, i0: nat, args: nat -> int) returns (d: Directive)
    requires i0 <= |fmt|
    ensures d == ReadDirective(fmt, i0, args)
  {
    hide FlagsEnd, FlagsOf, FlagsNext, ReadField;
    var f, i := ReadFlags(fmt, i0);
    var length, used;
    length, i, used := ParseField(fmt, i, args, 0, 0);
    if length < 0 {
      f := f.(left := !f.left);
      length := -length;
    }
    var prec := -1;
    if CharAt(fmt, i) == '.' {
      prec, i, used := ParseField(fmt, i + 1, args, used, -1);
    }
    var longlong := false;
    if CharAt(fmt, i) == 'l' {
      i := i + 1;
      if CharAt(fmt, i) == 'l' {
        longlong := true;
        i := i + 1;
      }
    }
    d := Directive(f, length, prec, longlong, CharAt(fmt, i), i, used);
  }

  // ---- a directive as it is documented ----

  /** The text of a directive: flags, zero flag, width if it is not 0, precision if there is one, ll, conversion. */
  function DirectiveText(f: Flags, width: nat, prec: int, longlong: bool, conversion: char): string {
    FlagsText(f) + ((if f.zero then "0" else "") + (WidthText(width) + (PrecText(prec) + ((if longlong then "ll" else "") + [conversion]))))
  }

  function FlagsText(f: Flags): string {
    (if f.left then "-" else "") + f.plus + (if f.alt then "#" else "")
  }

  function WidthText(width: nat): string {
    if width == 0 then "" else Digits(width, 10)
  }

  function PrecText(prec: int): string {
    if prec < 0 then "" else "." + Digits(prec, 10)
  }

  /** A character that cannot belong to what stands before the conversion. */
  predicate Conversive(c: char) {
    !FlagChar(c) && DigitOf(c, 10) == -1 && c != '*' && c != '.' && c != 'l'
  }

  /** Every directive is read for what it says. */
  lemma DirectiveRead(f: Flags, width: nat, prec: int, longlong: bool, conversion: char, tail: string, args: nat -> int)
    requires (f.plus == "" || f.plus == "+" || f.plus == " ") && -1 <= prec && Conversive(conversion)
    ensures var text := DirectiveText(f, width, prec, longlong, conversion);
            ReadDirective(text + tail, 0, args) == Directive(f, width, prec, longlong, conversion, |text| - 1, 0)
  {
    hide FlagsEnd, FlagsOf, ReadField, Digits, DigitOf, FlagChar, FlagsText, WidthText, PrecText, SizeNext, FlagsNext, ReadDirective, CharAt;
    var fs, z, w, p, l := FlagsText(f), if f.zero then "0" else "", WidthText(width), PrecText(prec), if longlong then "ll" else "";
    var r4 := l + ([conversion] + tail);
    var r3 := p + r4;
    var s := DirectiveText(f, width, prec, longlong, conversion) + tail;
    TextPieces(fs, z, w, p, l, [conversion], tail);
    AfterPrec(longlong, conversion, tail);
    AfterWidth(prec, r4);
    FlagsRead(f, z, w + r3, width, r3);
    WidthRead(fs + z, width, r3, args);
    PrecRead(fs + z + w, prec, r4, args);
    SizeRead(fs + z + w + p, longlong, conversion, tail);
    PartsRead(s, args, f, width, prec, longlong, conversion, |fs|, |fs + z|, |fs + z + w|, |fs + z + w + p|, |fs + z + w + p| + |l|);
  }

  lemma PartsRead(s: string, args: nat -> int, f: Flags, width: nat, prec: int, longlong: bool, conversion: char,
                  e: nat, n1: nat, n2: nat, n3: nat, n4: nat)
    requires FlagsEnd(s, 0) == e && FlagsOf(s[0..e], CharAt(s, e) == '0') == f && FlagsNext(s, 0) == n1 <= |s|
    requires ReadField(s, n1, args, 0, 0) == Field(width, n2, 0) && -1 <= prec && (CharAt(s, n2) == '.' <==> prec >= 0)
    requires if prec >= 0 then n2 + 1 <= |s| && ReadField(s, n2 + 1, args, 0, -1) == Field(prec, n3, 0) else n3 == n2
    requires SizeNext(s, n3) == n4 && (longlong <==> n4 == n3 + 2) && CharAt(s, n4) == conversion
    ensures ReadDirective(s, 0, args) == Directive(f, width, prec, longlong, conversion, n4, 0)
  {
    hide FlagsEnd, FlagsOf, ReadField, SizeNext, FlagsNext;
  }

  lemma TextPieces(f: string, z: string, w: string, p: string, l: string, c: string, t: string)
    ensures f + (z + (w + (p + (l + c)))) + t == f + (z + (w + (p + (l + (c + t)))))
    ensures f + (z + (w + (p + (l + (c + t))))) == (f + z) + (w + (p + (l + (c + t))))
    ensures (f + z) + (w + (p + (l + (c + t)))) == (f + z + w) + (p + (l + (c + t)))
    ensures (f + z + w) + (p + (l + (c + t))) == (f + z + w + p) + (l + (c + t))
    ensures |f + (z + (w + (p + (l + c))))| == |f + z + w + p| + |l| + |c|
  {
    var r3 := p + (l + (c + t));
    Again(f, z, w + r3);
    Again(f + z, w, r3);
    Again(f + z + w, p, l + (c + t));
    var q := l + c;
    assert f + (z + (w + (p + q))) + t == f + (z + (w + (p + (q + t))));
  }

  lemma Again(a: string, b: string, c: string)
    ensures a + (b + c) == (a + b) + c
  {
  }

  lemma AfterPrec(longlong: bool, conversion: char, tail: string)
    requires Conversive(conversion)
    ensures var c := CharAt((if longlong then "ll" else "") + ([conversion] + tail), 0);
            !FlagChar(c) && DigitOf(c, 10) == -1 && c != '*' && c != '.'
  {
  }

  lemma AfterWidth(prec: int, r4: string)
    requires var c := CharAt(r4, 0); !FlagChar(c) && DigitOf(c, 10) == -1 && c != '*' && c != '.'
    ensures var c := CharAt(PrecText(prec) + r4, 0); !FlagChar(c) && DigitOf(c, 10) == -1 && c != '*' && (c == '.' <==> prec >= 0)
  {
    if prec < 0 {
      assert PrecText(prec) + r4 == r4;
    }
  }

  lemma {:induction false} FlagsEndIs(s: string, i: nat, e: nat)
    requires i <= e <= |s| && !FlagChar(CharAt(s, e)) && forall j :: i <= j < e ==> FlagChar(s[j])
    ensures FlagsEnd(s, i) == e
    decreases e - i
  {
    if i < e {
      FlagsEndIs(s, i + 1, e);
    }
  }

  lemma FlagsRead(f: Flags, z: string, r2: string, width: nat, r3: string)
    requires (f.plus == "" || f.plus == "+" || f.plus == " ") && z == (if f.zero then "0" else "") && r2 == WidthText(width) + r3
    requires !FlagChar(CharAt(r3, 0)) && DigitOf(CharAt(r3, 0), 10) == -1
    ensures var s := FlagsText(f) + (z + r2); var e := FlagsEnd(s, 0);
            && e == |FlagsText(f)| <= |s| && FlagsOf(s[0..e], CharAt(s, e) == '0') == f && FlagsNext(s, 0) == |FlagsText(f) + z|
  {
    var fs := FlagsText(f);
    var s := fs + (z + r2);
    WidthStart(width, r3);
    assert CharAt(s, |fs|) == CharAt(z + r2, 0) && CharAt(z + r2, 0) == if f.zero then '0' else CharAt(r2, 0) by {
      if !f.zero {
        assert z + r2 == r2;
      }
    }
    FlagCharacters(f);
    forall j | 0 <= j < |fs| ensures FlagChar(s[j]) {
      assert s[j] == fs[j] && fs[j] in fs;
    }
    FlagsEndIs(s, 0, |fs|);
    assert s[0..|fs|] == fs;
  }

  lemma FlagCharacters(f: Flags)
    requires f.plus == "" || f.plus == "+" || f.plus == " "
    ensures (forall c :: c in FlagsText(f) ==> FlagChar(c)) && FlagsOf(FlagsText(f), f.zero) == f
  {
  }

  lemma WidthStart(width: nat, r3: string)
    requires !FlagChar(CharAt(r3, 0)) && DigitOf(CharAt(r3, 0), 10) == -1
    ensures var c := CharAt(WidthText(width) + r3, 0); !FlagChar(c) && c != '0'
  {
    if width == 0 {
      assert WidthText(width) + r3 == r3;
    } else {
      DigitsCanonical(width, 10);
      assert Digits(width, 10)[0] in Digits(width, 10);
      assert CharAt(WidthText(width) + r3, 0) == Digits(width, 10)[0];
    }
  }

  lemma FieldRead(front: string, n: nat, rest: string, args: nat -> int, used: nat, none: int)
    requires DigitOf(CharAt(rest, 0), 10) == -1
    ensures ReadField(front + (Digits(n, 10) + rest), |front|, args, used, none) == Field(n, |front| + |Digits(n, 10)|, used)
  {
    hide Digits, DigitsEnd, DigitOf, Number, AllDigits;
    var d := Digits(n, 10);
    var s, i, e := front + (d + rest), |front|, |front| + |d|;
    DigitsRead(n, 10);
    AllAreDigits(d);
    assert CharAt(s, e) == CharAt(rest, 0);
    forall j | i <= j < e ensures DigitOf(s[j], 10) != -1 {
      assert s[j] == d[j - i];
    }
    DigitsEndIs(s, i, e, 10);
    assert s[i..e] == d;
  }

  lemma AllAreDigits(d: string)
    requires AllDigits(d, 10)
    ensures forall j :: 0 <= j < |d| ==> DigitOf(d[j], 10) != -1
  {
    hide DigitOf;
    forall j | 0 <= j < |d| ensures DigitOf(d[j], 10) != -1 {
      assert d[j] in d;
    }
  }

  lemma FieldNone(front: string, rest: string, args: nat -> int, used: nat, none: int)
    requires DigitOf(CharAt(rest, 0), 10) == -1 && CharAt(rest, 0) != '*'
    ensures ReadField(front + rest, |front|, args, used, none) == Field(none, |front|, used)
  {
    hide DigitOf;
    assert CharAt(front + rest, |front|) == CharAt(rest, 0);
    DigitHere(front + rest, |front|);
  }

  lemma WidthRead(front: string, width: nat, rest: string, args: nat -> int)
    requires DigitOf(CharAt(rest, 0), 10) == -1 && CharAt(rest, 0) != '*'
    ensures ReadField(front + (WidthText(width) + rest), |front|, args, 0, 0) == Field(width, |front + WidthText(width)|, 0)
  {
    hide ReadField, DigitOf, Digits;
    if width == 0 {
      assert WidthText(width) + rest == rest;
      FieldNone(front, rest, args, 0, 0);
    } else {
      FieldRead(front, width, rest, args, 0, 0);
    }
  }

  lemma PrecRead(front: string, prec: int, rest: string, args: nat -> int)
    requires -1 <= prec && DigitOf(CharAt(rest, 0), 10) == -1 && CharAt(rest, 0) != '*' && CharAt(rest, 0) != '.'
    ensures var s, i := front + (PrecText(prec) + rest), |front|;
            && (CharAt(s, i) == '.' <==> prec >= 0)
            && (prec >= 0 ==> i + 1 <= |s| && ReadField(s, i + 1, args, 0, -1) == Field(prec, |front + PrecText(prec)|, 0))
            && (prec < 0 ==> |front + PrecText(prec)| == i)
  {
    hide ReadField, DigitOf, Digits;
    if prec < 0 {
      assert PrecText(prec) + rest == rest;
      assert CharAt(front + rest, |front|) == CharAt(rest, 0);
    } else {
      FieldRead(front + ".", prec, rest, args, 0, -1);
      assert front + (PrecText(prec) + rest) == (front + ".") + (Digits(prec, 10) + rest);
    }
  }

  lemma SizeRead(front: string, longlong: bool, conversion: char, tail: string)
    requires conversion != 'l'
    ensures var l := if longlong then "ll" else ""; var s := front + (l + ([conversion] + tail));
            SizeNext(s, |front|) == |front| + |l| && CharAt(s, |front| + |l|) == conversion
  {
    var l := if longlong then "ll" else "";
    var s := front + (l + ([conversion] + tail));
    assert s[|front| + |l|] == conversion;
    if longlong {
      assert s[|front|] == 'l' && s[|front| + 1] == 'l';
    }
  }

  /** What a conversion character asks for; conversions of other things than integers are not part of this model. */
  datatype Conversion = SignedNumber(base: int) | UnsignedNumber(base: int) | Other

  function ConversionOf(c: char, radix: int): Conversion {
    if c == 'd' || c == 'i' || c == 'D' then SignedNumber(10)
    else if c == 'z' || c == 'Z' then SignedNumber(16)
    else if c == 'r' || c == 'R' then SignedNumber(radix)
    else if c == 'o' || c == 'O' then UnsignedNumber(8)
    else if c == 'u' || c == 'U' then UnsignedNumber(10)
    else if c == 'p' || c == 'x' || c == 'X' then UnsignedNumber(16)
    else if c == 'n' || c == 'N' then UnsignedNumber(radix)
    else Other
  }

  /** The bases: d, i, D, u and U are decimal, o and O octal, p, x, X, z and Z hexadecimal, r, R, n and N in the radix. */
  lemma ConversionBases(c: char, radix: int)
    ensures ConversionOf(c, radix).Other? <==> c !in "diDuUoOpxXzZrRnN"
    ensures c in "diDuU" ==> ConversionOf(c, radix) == (if c in "diD" then SignedNumber(10) else UnsignedNumber(10))
    ensures c in "oO" ==> ConversionOf(c, radix) == UnsignedNumber(8)
    ensures c in "pxXzZ" ==> ConversionOf(c, radix) == (if c in "zZ" then SignedNumber(16) else UnsignedNumber(16))
    ensures c in "rRnN" ==> ConversionOf(c, radix) == (if c in "rR" then SignedNumber(radix) else UnsignedNumber(radix))
  {
  }

  /** va_arg(args, long) and va_arg(args, long long), and their unsigned forms */
  function SignedArg(arg: int, longlong: bool): int {
    if longlong then Signed64(arg) else AsSigned(arg, 0x8000_0000)
  }

  function UnsignedArg(arg: int, longlong: bool): (u: nat)
    ensures u < TWO64
  {
    if longlong then arg % TWO64 else Wrap(arg)
  }

  /** What is put out for a directive and its argument. */
  function Output(d: Directive, arg: int, radix: int): string
    requires 2 <= radix <= 16
  {
    match ConversionOf(d.conversion, radix)
    case SignedNumber(base) =>
      var n := SignedArg(arg, d.longlong);
      Printed(Magnitude(n), base, SignFor(n, d.flags.plus), d.flags, d.width, d.prec)
    case UnsignedNumber(base) =>
      var u := UnsignedArg(arg, d.longlong);
      if d.conversion == 'p' then "0x" + Printed(u, base, "", d.flags.(zero := true), 8, d.prec)
      else Printed(u, base, "", d.flags, d.width, d.prec)
    case Other => ""
  }

  /** One directive, from behind its percent sign: the characters put out, where the format goes on, and the number of
      arguments used up. */
  method PrintDirective(fmt: string, i: nat, args: nat -> int, radix: int) returns (out: string, next: nat, used: nat)
    requires i <= |fmt| && 2 <= radix <= 16
    ensures var d := ReadDirective(fmt, i, args);
            ConversionOf(d.conversion, radix).Other? || (out == Output(d, args(d.used), radix) && next == d.next + 1 && used == d.used + 1)
  {
    hide ReadDirective, Printed, SignedArg, UnsignedArg;
    var d := ParseDirective(fmt, i, args);
    PlusText(fmt, i, args);
    ArgRange(args(d.used), d.longlong);
    out := "";
    match ConversionOf(d.conversion, radix) {
      case SignedNumber(base) =>
        out := PrintSigned(SignedArg(args(d.used), d.longlong), base, d.flags, d.width, d.prec);
      case UnsignedNumber(base) =>
        var f, width := d.flags, d.width;
        if d.conversion == 'p' {
          f, width := f.(zero := true), 8;
          out := "0x";
        }
        var digits := PrintNum(UnsignedArg(args(d.used), d.longlong), base, "", f, width, d.prec);
        out := out + digits;
      case Other =>
    }
    next, used := d.next + 1, d.used + 1;
  }

  lemma ArgRange(arg: int, longlong: bool)
    ensures -TWO63 <= SignedArg(arg, longlong) < TWO63
  {
  }

  lemma PlusText(fmt: string, i: nat, args: nat -> int)
    requires i <= |fmt|
    ensures var f := ReadDirective(fmt, i, args).flags; f.plus == "" || f.plus == "+" || f.plus == " "
  {
  }

  /** A star with a negative number turns the minus flag around, so with both the number stands at the right. */
  lemma StarTurns(fmt: string, i: nat, args: nat -> int)
    requires i <= |fmt| && CharAt(fmt, FlagsNext(fmt, i)) == '*'
    ensures var d := ReadDirective(fmt, i, args);
            d.flags.left <==> (('-' in fmt[i..FlagsEnd(fmt, i)]) != (args(0) < 0))
  {
    hide FlagsEnd;
  }

  /** strtoll reads back what a directive for a signed integer has put out, except behind a plus sign. */
  lemma SignedReadBack(d: Directive, arg: int, radix: int)
    requires 2 <= radix <= 16 && ConversionOf(d.conversion, radix).SignedNumber?
    requires d.flags.plus == "" || d.flags.plus == "+" || d.flags.plus == " "
    ensures Parse(Output(d, arg, radix), ConversionOf(d.conversion, radix).base).value == SignedArg(arg, d.longlong)
            <==> !(d.flags.plus == "+" && SignedArg(arg, d.longlong) > 0)
  {
    hide Parse, Printed;
    ArgRange(arg, d.longlong);
    RoundTrip(SignedArg(arg, d.longlong), ConversionOf(d.conversion, radix).base, d.flags, d.width, d.prec);
  }

  /** And for an unsigned one, modulo 2^64; for a pointer, except where the # flag puts out the prefix once more. */
  lemma UnsignedReadBack(d: Directive, arg: int, radix: int)
    requires 2 <= radix <= 16 && ConversionOf(d.conversion, radix).UnsignedNumber?
    ensures Parse(Output(d, arg, radix), ConversionOf(d.conversion, radix).base).value == Signed64(UnsignedArg(arg, d.longlong))
            <==> !(d.conversion == 'p' && d.flags.alt && UnsignedArg(arg, d.longlong) != 0)
  {
    hide Parse, Printed, Signed64, UnsignedArg;
    var u := UnsignedArg(arg, d.longlong);
    if d.conversion == 'p' {
      PointerRead(u, d.flags.(zero := true), d.prec);
    } else {
      ReadBack(u, ConversionOf(d.conversion, radix).base, "", d.flags, d.width, d.prec);
    }
  }

  lemma PointerRead(u: nat, f: Flags, prec: int)
    requires f.zero && u < TWO64
    ensures Parse("0x" + Printed(u, 16, "", f, 8, prec), 16).value == Signed64(u) <==> !(f.alt && u != 0)
  {
    hide Digits, Pad, Parse, Number, AllDigits, DigitOf, Signed64, Room;
    var digits, room := Digits(u, 16), Room(u, 16, "", f, 8, prec);
    var z := Pad('0', prec - |digits|) + Pad('0', room);
    DigitsRead(u, 16);
    PadAll('0', prec - |digits|);
    PadAll('0', room);
    AllJoin(Pad('0', prec - |digits|), Pad('0', room), '0');
    AllEmpty();
    if f.alt && u != 0 {
      var tail := "x" + (z + digits);
      FiveStrings("0x", "0x", Pad('0', prec - |digits|), Pad('0', room), digits);
      assert "0x" + ("0x" + (z + digits)) == "" + "" + "0x" + "0" + tail;
      ZeroRead();
      NoHexDigit();
      NotZero(u);
      ParseWritten("", false, "0x", "0", tail, 16);
    } else {
      LeadingZeros(z, digits, 16);
      FiveStrings("0x", "", Pad('0', prec - |digits|), Pad('0', room), digits);
      assert "0x" + ("" + (z + digits)) == "" + "" + "0x" + (z + digits) + "";
      ParseWritten("", false, "0x", z + digits, "", 16);
    }
  }

  /** How a printed pointer is put together. */
  lemma FiveStrings(a: string, b: string, c: string, d: string, e: string)
    ensures a + ("" + "" + b + c + d + e + "") == a + (b + ((c + d) + e))
  {
  }

  lemma ZeroRead()
    ensures AllDigits("0", 16) && Number("0", 16) == 0 && Signed64(0) == 0
  {
    hide Number, AllDigits, AsSigned;
    ZerosRead("0", 16);
  }

  lemma NoHexDigit()
    ensures DigitOf('x', 16) == -1
  {
  }

  lemma NotZero(u: nat)
    requires 0 < u < TWO64
    ensures Signed64(u) != 0
  {
    var k := AsSignedIs(u, TWO63);
  }
}
