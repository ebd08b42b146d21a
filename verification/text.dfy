/** Text rendering used by the log header, the graph legends and the hex
    dump: Python's `str.join`, `;`-terminated records, and the digits that
    `"%d"` and `"%X"` produce. */
module Text {

  /** Python's `sep.join(xs)`. */
  function Join(xs: seq<string>, sep: string): string
  {
    if |xs| == 0 then ""
    else if |xs| == 1 then xs[0]
    else xs[0] + sep + Join(xs[1..], sep)
  }

  /** Every field followed by the terminator `t`. */
  function Terminated(xs: seq<string>, t: char): string
  {
    if |xs| == 0 then "" else xs[0] + [t] + Terminated(xs[1..], t)
  }

  /** `sep.join(xs) + sep` is the terminated form whenever there is a field. */
  lemma {:induction false} JoinThenSeparator(xs: seq<string>, t: char)
    requires |xs| > 0
    ensures Join(xs, [t]) + [t] == Terminated(xs, t)
  {
    if |xs| > 1 {
      JoinThenSeparator(xs[1..], t);
      assert Join(xs, [t]) + [t] == xs[0] + [t] + (Join(xs[1..], [t]) + [t]);
    }
  }

  /** Terminated forms concatenate. */
  lemma {:induction false} TerminatedAppend(xs: seq<string>, ys: seq<string>, t: char)
    ensures Terminated(xs + ys, t) == Terminated(xs, t) + Terminated(ys, t)
  {
    if |xs| > 0 {
      TerminatedAppend(xs[1..], ys, t);
      assert (xs + ys)[1..] == xs[1..] + ys;
    } else {
      assert xs + ys == ys;
    }
  }

  /** Position of the first `t` in `s`. */
  function FirstIndex(s: string, t: char): (r: nat)
    requires t in s
    ensures r < |s| && s[r] == t && t !in s[..r]
  {
    if s[0] == t then 0
    else
      var k := FirstIndex(s[1..], t);
      assert s[..k + 1] == [s[0]] + s[1..][..k];
      k + 1
  }

  /** Splits text made of `t`-terminated fields back into its fields (an
      unterminated tail becomes a last field). */
  function SplitTerminated(s: string, t: char): seq<string>
    decreases |s|
  {
    if t !in s then (if s == "" then [] else [s])
    else
      var i := FirstIndex(s, t);
      [s[..i]] + SplitTerminated(s[i + 1..], t)
  }

  /** Splitting undoes terminating, provided no field holds the terminator. */
  lemma {:induction false} SplitTerminatedRoundTrip(xs: seq<string>, t: char)
    requires forall i :: 0 <= i < |xs| ==> t !in xs[i]
    ensures SplitTerminated(Terminated(xs, t), t) == xs
  {
    if |xs| > 0 {
      var s := Terminated(xs, t);
      var rest := Terminated(xs[1..], t);
      assert s == xs[0] + [t] + rest;
      assert s[|xs[0]|] == t;
      assert t in s;
      var i := FirstIndex(s, t);
      assert i == |xs[0]|;
      assert s[..i] == xs[0];
      assert s[i + 1..] == rest;
      SplitTerminatedRoundTrip(xs[1..], t);
    }
  }

  /** Digit character for a digit value, as `"%d"` and `"%X"` write it. */
  function DigitChar(d: nat): (c: char)
    requires d < 16
    ensures d < 10 ==> '0' <= c <= '9'
    ensures d >= 10 ==> 'A' <= c <= 'F'
  {
    if d < 10 then (48 + d) as char else (55 + d) as char
  }

  /** Value of a digit character; characters that are not digits read as 0. */
  function DigitValue(c: char): nat
  {
    if '0' <= c <= '9' then c as int - 48
    else if 'A' <= c <= 'F' then c as int - 55
    else 0
  }

  /** `c` is a digit character of `base`. */
  predicate IsDigit(c: char, base: nat)
  {
    ('0' <= c <= '9' || 'A' <= c <= 'F') && DigitValue(c) < base
  }

  /** Every character of `s` is an upper-case hexadecimal digit. */
  predicate HexDigits(s: string)
  {
    forall i :: 0 <= i < |s| ==> IsDigit(s[i], 16)
  }

  /** Dividing by a base of at least 2 makes a positive number smaller. */
  lemma DivShrinks(n: nat, base: nat)
    requires 2 <= base && 1 <= n
    ensures n / base < n
  {
    var q := n / base;
    assert (base - 2) * q >= 0;
    assert base * q <= n;
  }

  /** Digits of `n` in `base`, most significant first, without leading
      zeros (`"%d"` for base 10, `"%X"` for base 16). */
  function Digits(n: nat, base: nat): (r: string)
    requires 2 <= base <= 16
    ensures |r| >= 1
    ensures forall i :: 0 <= i < |r| ==> IsDigit(r[i], base)
    decreases n
  {
    if n < base then [DigitChar(n)]
    else DivShrinks(n, base); Digits(n / base, base) + [DigitChar(n % base)]
  }

  /** The digits of a positive number never start with '0'. */
  lemma {:induction false} DigitsNoLeadingZero(n: nat, base: nat)
    requires 2 <= base <= 16 && n > 0
    ensures Digits(n, base)[0] != '0'
    decreases n
  {
    if n >= base {
      DivShrinks(n, base);
      DigitsNoLeadingZero(n / base, base);
      assert Digits(n, base)[0] == Digits(n / base, base)[0];
    }
  }

  /** The number a string of digits denotes in `base`. */
  function ValueOf(s: string, base: nat): nat
  {
    if |s| == 0 then 0 else ValueOf(s[..|s| - 1], base) * base + DigitValue(s[|s| - 1])
  }

  /** One more digit scales the value of the leading digits by the base. */
  lemma DigitsStep(n: nat, base: nat)
    requires 2 <= base <= 16 && n >= base
    ensures ValueOf(Digits(n, base), base) == ValueOf(Digits(n / base, base), base) * base + n % base
  {
    var s := Digits(n, base);
    assert s[..|s| - 1] == Digits(n / base, base);
    assert DigitValue(DigitChar(n % base)) == n % base;
  }

  /** Reading the digits back gives the number. */
  lemma {:induction false} DigitsRoundTrip(n: nat, base: nat)
    requires 2 <= base <= 16
    ensures ValueOf(Digits(n, base), base) == n
    decreases n
  {
    if n >= base {
      DivShrinks(n, base);
      DigitsRoundTrip(n / base, base);
      RoundTripStep(n, base);
    } else {
      assert Digits(n, base)[..0] == [];
    }
  }

  /** If the leading digits read back as n / base, all digits read back as n. */
  lemma RoundTripStep(n: nat, base: nat)
    requires 2 <= base <= 16 && n >= base
    requires ValueOf(Digits(n / base, base), base) == n / base
    ensures ValueOf(Digits(n, base), base) == n
  {
    DigitsStep(n, base);
    Recombine(n, base, ValueOf(Digits(n / base, base), base), ValueOf(Digits(n, base), base));
  }

  /** Quotient and remainder put back together give the number. */
  lemma Recombine(n: nat, base: nat, v: int, x: int)
    requires 2 <= base && v == n / base && x == v * base + n % base
    ensures x == n
  {
  }

  /** A value below base^k never needs more than k digits. */
  lemma {:induction false} DigitsWidth(n: nat, base: nat, k: nat)
    requires 2 <= base <= 16 && k >= 1 && n < Power(base, k)
    ensures |Digits(n, base)| <= k
    decreases k
  {
    if n >= base {
      assert k > 1;
      DivBelow(n, base, Power(base, k - 1));
      DivShrinks(n, base);
      DigitsWidth(n / base, base, k - 1);
    }
  }

  /** A number below base * p has a quotient by base below p. */
  lemma DivBelow(n: nat, base: nat, p: nat)
    requires 2 <= base && n < base * p
    ensures n / base < p
  {
  }

  function Power(base: nat, k: nat): nat
  {
    if k == 0 then 1 else base * Power(base, k - 1)
  }

  /** Left-pads `s` with '0' up to `width` characters. */
  function ZeroPad(s: string, width: nat): (r: string)
    ensures |r| == if |s| < width then width else |s|
    ensures r[|r| - |s|..] == s
    ensures forall i :: 0 <= i < |r| - |s| ==> r[i] == '0'
  {
    if |s| < width then seq(width - |s|, _ => '0') + s else s
  }

  /** Leading zeros do not change a digit string's value. */
  lemma {:induction false} LeadingZeros(z: nat, s: string, base: nat)
    ensures ValueOf(seq(z, _ => '0') + s, base) == ValueOf(s, base)
    decreases |s|, z
  {
    var zs := seq(z, _ => '0');
    if |s| > 0 {
      var t := zs + s;
      assert t[..|t| - 1] == zs + s[..|s| - 1];
      LeadingZeros(z, s[..|s| - 1], base);
    } else if z > 0 {
      var t := zs + s;
      assert t[..|t| - 1] == seq(z - 1, _ => '0') + s;
      LeadingZeros(z - 1, s, base);
    } else {
      assert zs + s == s;
    }
  }

  /** Python's `"%d" % n` for a non-negative integer. */
  function Decimal(n: nat): (r: string)
    ensures |r| >= 1 && ValueOf(r, 10) == n
    ensures forall i :: 0 <= i < |r| ==> '0' <= r[i] <= '9'
    ensures n == 0 ==> r == "0"
    ensures n > 0 ==> r[0] != '0'
  {
    DigitsRoundTrip(n, 10);
    assert n > 0 ==> Digits(n, 10)[0] != '0' by {
      if n > 0 { DigitsNoLeadingZero(n, 10); }
    }
    Digits(n, 10)
  }

  /** Zero-padded hex digits still read as the number, and a 16-bit value
      fits in four of them. */
  lemma PaddedHex(mag: nat, width: nat)
    ensures ValueOf(ZeroPad(Digits(mag, 16), width), 16) == mag
    ensures width >= 1 && mag < Power(16, width) ==> |ZeroPad(Digits(mag, 16), width)| == width
    ensures width >= 1 && |ZeroPad(Digits(mag, 16), width)| > width ==> ZeroPad(Digits(mag, 16), width)[0] != '0'
    ensures HexDigits(ZeroPad(Digits(mag, 16), width))
  {
    var digits := Digits(mag, 16);
    var padded := ZeroPad(digits, width);
    forall i | 0 <= i < |padded|
      ensures IsDigit(padded[i], 16)
    {
      if i >= |padded| - |digits| {
        assert padded[i] == digits[i - (|padded| - |digits|)];
      }
    }
    DigitsRoundTrip(mag, 16);
    assert padded == seq(|padded| - |digits|, _ => '0') + digits;
    LeadingZeros(|padded| - |digits|, digits, 16);
    if width >= 1 && mag < Power(16, width) {
      DigitsWidth(mag, 16, width);
    }
    if width >= 1 && |padded| > width {
      assert padded == digits && |digits| > 1;
      assert mag > 0;
      DigitsNoLeadingZero(mag, 16);
    }
  }

  /** Python's `"%04X" % v`: upper-case hex, zero-padded to a width of four
      that includes the minus sign of a negative value. Digits beyond that
      width carry no leading zero. */
  function Hex04(v: int): (r: string)
    ensures v >= 0 ==> ValueOf(r, 16) == v && |r| >= 4 && HexDigits(r)
    ensures 0 <= v < 0x10000 ==> |r| == 4
    ensures v < 0 ==> |r| >= 4 && r[0] == '-' && ValueOf(r[1..], 16) == -v && HexDigits(r[1..])
    ensures -0x1000 < v < 0 ==> |r| == 4
    ensures v >= 0 && |r| > 4 ==> r[0] != '0'
    ensures v < 0 && |r| > 4 ==> r[1] != '0'
  {
    assert Power(16, 3) == 0x1000 && Power(16, 4) == 0x10000;
    var mag := if v < 0 then -v else v;
    PaddedHex(mag, if v < 0 then 3 else 4);
    var padded := ZeroPad(Digits(mag, 16), if v < 0 then 3 else 4);
    if v < 0 then
      assert ("-" + padded)[1..] == padded;
      "-" + padded
    else padded
  }

  /** `"%04X"` of -1: the sign counts towards the width of four. */
  lemma Hex04MinusOne()
    ensures Hex04(-1) == "-001"
  {
    assert Digits(1, 16) == "1";
    assert ZeroPad("1", 3) == "001";
  }

  /** `"%04X"` of 0x10000: five digits, no padding. */
  lemma Hex04Wide()
    ensures Hex04(0x10000) == "10000"
  {
    assert Digits(1, 16) == "1";
    assert Digits(0x10, 16) == "10";
    assert Digits(0x100, 16) == "100";
    assert Digits(0x1000, 16) == "1000";
    assert Digits(0x10000, 16) == "10000";
    assert ZeroPad("10000", 4) == "10000";
  }
}
