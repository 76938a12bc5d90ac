/** convert_logaddr on addresses that are too long: which ones its test for overflow notices. */
module StrategyAddr {
  import opened Words
  import opened Strtoll
  import opened StrategyText

  predicate HexText(s: string) {
    forall i :: 0 <= i < |s| ==> HexDigit(s[i]) >= 0
  }

  /** A digit of 8 or more with 16 digits or more behind it. */
  predicate Noticed(s: string) {
    exists i :: 0 <= i < |s| - 16 && HexDigit(s[i]) >= 8
  }

  lemma Sixteens()
    ensures Power(16, 15) == 0x1000_0000_0000_0000 && Power(16, 16) == TWO64
  {
    assert Power(16, 4) == 0x1_0000;
    PowerAdd(4, 4);
    PowerAdd(8, 4);
    PowerAdd(12, 3);
    assert Power(16, 3) == 0x1000;
    assert Power(16, 16) == Power(16, 15) * 16;
  }

  lemma {:induction false} PowerAdd(j: nat, k: nat)
    ensures Power(16, j + k) == Power(16, j) * Power(16, k)
  {
    if k > 0 {
      PowerAdd(j, k - 1);
      assert Power(16, j + k) == Power(16, j + (k - 1)) * 16;
      Regroup(Power(16, j), Power(16, k - 1), 16);
    }
  }

  lemma {:induction false} NumberBelow(s: string)
    requires HexText(s)
    ensures 0 <= Number(s, 16) < Power(16, |s|)
  {
    if s != "" {
      var t := s[..|s| - 1];
      assert forall i :: 0 <= i < |t| ==> t[i] == s[i];
      NumberBelow(t);
    }
  }

  /** The top of the 64 bits that are kept is the top of the 16th digit from the right. */
  lemma TopBit(s: string)
    requires HexText(s)
    ensures Number(s, 16) % TWO64 >= TWO63 <==> |s| >= 16 && HexDigit(s[|s| - 16]) >= 8
  {
    hide HexDigit;
    Sixteens();
    NumberBelow(s);
    if |s| < 16 {
      PowerOrder(|s|, 15);
    } else {
      var front, d, rest := s[..|s| - 16], s[|s| - 16..|s| - 15], s[|s| - 15..];
      assert s == front + (d + rest);
      NumberAppend(front, d + rest, 16);
      NumberAppend(d, rest, 16);
      NumberBelow(rest);
      OneDigitNumber(s[|s| - 16]);
      assert d == [s[|s| - 16]];
      TopPart(Number(front, 16), HexDigit(s[|s| - 16]), Number(rest, 16), Number(s, 16));
    }
  }

  lemma {:induction false} PowerOrder(j: nat, k: nat)
    requires j <= k
    ensures 0 < Power(16, j) <= Power(16, k)
    decreases k
  {
    if j < k {
      PowerOrder(j, k - 1);
    } else if j > 0 {
      PowerOrder(j - 1, j - 1);
    }
  }

  lemma OneDigitNumber(c: char)
    ensures Number([c], 16) == HexDigit(c)
  {
    assert [c][..0] == "";
  }

  lemma TopPart(front: int, d: int, rest: int, n: int)
    requires 0 <= d < 16 && 0 <= rest < 0x1000_0000_0000_0000 && n == front * TWO64 + (d * 0x1000_0000_0000_0000 + rest)
    ensures n % TWO64 >= TWO63 <==> d >= 8
  {
    DivUnique(n, TWO64, front, d * 0x1000_0000_0000_0000 + rest);
  }

  lemma NextValue(n: nat, d: nat)
    ensures Wrap64(16 * (n % TWO64) + d) == (16 * n + d) % TWO64
  {
    DivMod(n, TWO64);
    var x := 16 * (n % TWO64) + d;
    DivMod(x, TWO64);
    DivUnique(16 * n + d, TWO64, 16 * (n / TWO64) + x / TWO64, x % TWO64);
  }

  lemma OneMoreDigit(s: string, c: char)
    ensures Number(s + [c], 16) == 16 * Number(s, 16) + HexDigit(c)
  {
    assert (s + [c])[..|s|] == s;
  }

  lemma {:induction false} HexFrom(done: string, rest: string, r: string)
    requires HexText(done + rest) && HexDigit(Head(r)) < 0
    requires forall i :: 0 <= i < |done| - 16 ==> HexDigit(done[i]) < 8
    requires Number(done, 16) >= 0
    ensures ParseHex(rest + r, Number(done, 16) % TWO64)
         == if Noticed(done + rest) then Failed else Parsed(Number(done + rest, 16) % TWO64, r)
    decreases |rest|
  {
    hide HexDigit, Wrap64;
    var s, a := done + rest, Number(done, 16) % TWO64;
    assert forall i :: 0 <= i < |done| ==> s[i] == done[i];
    if rest == "" {
      assert rest + r == r && s == done;
    } else {
      var c := rest[0];
      assert s[|done|] == c;
      TopBit(done);
      assert (rest + r)[1..] == rest[1..] + r;
      if a >= TWO63 {
        assert HexDigit(s[|done| - 16]) >= 8;
      } else {
        var done' := done + [c];
        assert done' + rest[1..] == s && done'[..|done'| - 1] == done;
        OneMoreDigit(done, c);
        NextValue(Number(done, 16), HexDigit(c));
        forall i | 0 <= i < |done'| - 16 ensures HexDigit(done'[i]) < 8 {
          assert done'[i] == done[i];
        }
        HexFrom(done', rest[1..], r);
      }
    }
  }

  /** convert_logaddr reads a text of hexadecimal digits as the number modulo 2^64, unless it notices an overflow. */
  lemma AddrExactly(s: string, r: string)
    requires s != "" && HexText(s) && HexDigit(Head(r)) < 0 && Head(r) != 'x' && Head(r) != 'X'
    ensures ParseAddr(s + r) == if Noticed(s) then Failed else Parsed(Number(s, 16) % TWO64, r)
  {
    hide HexDigit, ParseHex;
    NotPrefix(s);
    assert SkipHexPrefix(s + r) == s + r;
    assert "" + s == s;
    HexFrom("", s, r);
  }

  lemma NotPrefix(s: string)
    requires HexText(s)
    ensures forall i :: 0 <= i < |s| ==> s[i] != 'x' && s[i] != 'X'
  {
  }

  /** So it reads an address right if and only if that is less than 2^64. */
  lemma AddrRight(s: string, r: string)
    requires s != "" && HexText(s) && HexDigit(Head(r)) < 0 && Head(r) != 'x' && Head(r) != 'X'
    ensures ParseAddr(s + r) == Parsed(Number(s, 16), r) <==> Number(s, 16) < TWO64
  {
    hide HexDigit;
    AddrExactly(s, r);
    NumberBelow(s);
    if Noticed(s) {
      var i :| 0 <= i < |s| - 16 && HexDigit(s[i]) >= 8;
      Large(s, i);
    }
  }

  lemma Large(s: string, i: nat)
    requires HexText(s) && i < |s| - 16 && HexDigit(s[i]) >= 8
    ensures Number(s, 16) >= TWO64
  {
    hide HexDigit;
    var front, d, rest := s[..i], s[i..i + 1], s[i + 1..];
    assert s == front + (d + rest) && d == [s[i]];
    NumberAppend(front, d + rest, 16);
    NumberAppend(d, rest, 16);
    OneDigitNumber(s[i]);
    NumberBelow(front);
    NumberBelow(rest);
    Sixteens();
    PowerOrder(16, |rest|);
    PowerOrder(0, |d + rest|);
    AtLeast(HexDigit(s[i]), Power(16, |rest|), Number(front, 16), Power(16, |d + rest|));
  }

  lemma AtLeast(d: int, p: int, front: int, q: int)
    requires d >= 8 && p >= TWO64 && front >= 0 && q >= 0
    ensures d * p >= TWO64 && front * q >= 0
  {
  }

  /** Not every overflow is noticed: 2^64 is read as 0. */
  lemma NotNoticed()
    ensures ParseAddr("1" + "0000000000000000" + ":") == Parsed(0, ":")
  {
    OneAndZeros("0000000000000000", ":");
  }

  lemma OneAndZeros(z: string, r: string)
    requires |z| == 16 && (forall i :: 0 <= i < |z| ==> z[i] == '0') && r == ":"
    ensures ParseAddr("1" + z + r) == Parsed(0, r)
  {
    hide ParseAddr, Number;
    var s := "1" + z;
    Ending();
    assert s[0] == '1' && forall i :: 0 < i < |s| ==> s[i] == z[i - 1];
    AddrExactly(s, r);
    NumberAppend("1", z, 16);
    Sixteens();
    ZeroNumber(z);
    OneDigitNumber('1');
    assert "1" == ['1'];
  }

  lemma Ending()
    ensures HexDigit(Head(":")) < 0
  {
  }

  lemma {:induction false} ZeroNumber(z: string)
    requires forall i :: 0 <= i < |z| ==> z[i] == '0'
    ensures Number(z, 16) == 0
  {
    if z != "" {
      ZeroNumber(z[..|z| - 1]);
    }
  }
}
