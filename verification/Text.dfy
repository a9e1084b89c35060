/** Bytes, decimal and hexadecimal text, and the byte order of strings. */
module Text {
  import opened Seqs

  /** A byte, written as the character of the same code so that text is bytes too. */
  type byte = c: char | c as int < 256 witness '\0'

  predicate IsDigit(c: char) { '0' <= c <= '9' }

  predicate AllDigits(s: string) { forall i :: 0 <= i < |s| ==> IsDigit(s[i]) }

  function Digit(d: nat): (c: byte)
    requires d < 10
    ensures IsDigit(c) && DigitValue(c) == d
  {
    (d + 48) as char
  }

  function DigitValue(c: char): (d: nat)
    requires IsDigit(c)
    ensures d < 10
  {
    c as int - 48
  }

  /** Decimal text without leading zeros, as %d prints a natural number. */
  function Decimal(n: nat): (s: seq<byte>)
    ensures |s| > 0 && AllDigits(s)
  {
    if n < 10 then [Digit(n)] else Decimal(n / 10) + [Digit(n % 10)]
  }

  function Value(s: string): nat
    requires AllDigits(s)
  {
    if s == [] then 0 else Value(s[..|s| - 1]) * 10 + DigitValue(s[|s| - 1])
  }

  lemma {:induction false} ValueOfDecimal(n: nat)
    ensures Value(Decimal(n)) == n
  {
    if n >= 10 {
      ValueOfDecimal(n / 10);
      assert Decimal(n)[..|Decimal(n)| - 1] == Decimal(n / 10);
    } else {
      assert Decimal(n)[..0] == [];
    }
  }

  /** %d of an integer. */
  function DecimalInt(i: int): (s: seq<byte>)
    ensures |s| > 0
    ensures ' ' !in s && '\0' !in s && ';' !in s && '\n' !in s && '[' !in s && ']' !in s
  {
    if i < 0 then ['-'] + Decimal(-i) else Decimal(i)
  }

  /** The integer written by DecimalInt; None for any other text. */
  function ParseDecimalInt(s: string): Option<int> {
    if s != [] && s[0] == '-' then
      if |s| > 1 && AllDigits(s[1..]) then Some(-(Value(s[1..]) as int)) else None
    else if s != [] && AllDigits(s) then Some(Value(s))
    else None
  }

  lemma ParseOfDecimalInt(i: int)
    ensures ParseDecimalInt(DecimalInt(i)) == Some(i)
  {
    if i < 0 {
      ValueOfDecimal(-i);
      assert DecimalInt(i)[1..] == Decimal(-i);
    } else {
      ValueOfDecimal(i);
      assert IsDigit(Decimal(i)[0]);
    }
  }

  /** The longest run of at most `width` digits in front. */
  function DigitRun(s: string, width: nat): (d: string)
    ensures AllDigits(d) && |d| <= width && d <= s
  {
    if width > 0 && s != [] && IsDigit(s[0]) then [s[0]] + DigitRun(s[1..], width - 1) else []
  }

  lemma {:induction false} DigitRunOf(d: string, rest: string, width: nat)
    requires AllDigits(d) && |d| <= width
    requires |d| == width || rest == [] || !IsDigit(rest[0])
    ensures DigitRun(d + rest, width) == d
  {
    if d == [] {
      assert d + rest == rest;
    } else {
      assert (d + rest)[1..] == d[1..] + rest;
      DigitRunOf(d[1..], rest, width - 1);
    }
  }

  /** No text for a number is shorter than the printed one. */
  lemma {:induction false} DecimalIsShortest(s: string)
    requires AllDigits(s) && s != []
    ensures |Decimal(Value(s))| <= |s|
  {
    var n := |s| - 1;
    assert Value(s) == Value(s[..n]) * 10 + DigitValue(s[n]);
    if n > 0 && Value(s) >= 10 { DecimalIsShortest(s[..n]); }
  }

  lemma DecimalIntIsShortest(s: string)
    requires ParseDecimalInt(s).Some?
    ensures |DecimalInt(ParseDecimalInt(s).value)| <= |s|
  {
    if s[0] == '-' { DecimalIsShortest(s[1..]); } else { DecimalIsShortest(s); }
  }

  /** %02d of a natural number. */
  function Pad2(n: nat): (s: seq<byte>)
    ensures AllDigits(s) && |s| >= 2 && (n < 100 ==> |s| == 2)
  {
    assert 10 <= n < 100 ==> |Decimal(n / 10)| == 1;
    if n < 10 then ['0'] + Decimal(n) else Decimal(n)
  }

  lemma ValueOfPad2(n: nat)
    ensures Value(Pad2(n)) == n
  {
    ValueOfDecimal(n);
    if n < 10 {
      var s := Pad2(n);
      assert s[..1] == ['0'] && s[..1][..0] == [];
      assert s[..|s| - 1] == ['0'];
    }
  }

  // ---- hexadecimal, as %x prints bytes ----

  function HexDigit(d: nat): (c: byte)
    requires d < 16
    ensures c != ' ' && c != '\0'
  {
    if d < 10 then (d + 48) as char else (d + 87) as char
  }

  function HexDigitValue(c: char): (d: Option<nat>)
    ensures d.Some? ==> d.value < 16
  {
    if '0' <= c <= '9' then Some(c as int - 48)
    else if 'a' <= c <= 'f' then Some(c as int - 87)
    else None
  }

  function Hex(bytes: seq<byte>): (s: seq<byte>)
    ensures |s| == 2 * |bytes| && ' ' !in s && '\0' !in s
  {
    if bytes == [] then []
    else [HexDigit(bytes[0] as int / 16), HexDigit(bytes[0] as int % 16)] + Hex(bytes[1..])
  }

  function ParseHex(s: string): (r: Option<seq<byte>>)
    ensures r.Some? ==> |s| == 2 * |r.value|
  {
    if s == [] then Some([])
    else if |s| == 1 then None
    else
      var hi := HexDigitValue(s[0]);
      var lo := HexDigitValue(s[1]);
      var rest := ParseHex(s[2..]);
      if hi.Some? && lo.Some? && rest.Some?
      then Some([(16 * hi.value + lo.value) as char] + rest.value)
      else None
  }

  lemma {:induction false} ParseOfHex(bytes: seq<byte>)
    ensures ParseHex(Hex(bytes)) == Some(bytes)
  {
    if bytes != [] {
      var s := Hex(bytes);
      assert s[2..] == Hex(bytes[1..]);
      ParseOfHex(bytes[1..]);
      assert [bytes[0]] + bytes[1..] == bytes;
    }
  }

  // ---- byte order ----

  /** Strictly before in byte order, the order directory listings are sorted in. */
  predicate Before(s: string, t: string) {
    t != [] && (s == [] || s[0] < t[0] || (s[0] == t[0] && Before(s[1..], t[1..])))
  }

  lemma {:induction false} BeforeTransitive(s: string, t: string, u: string)
    requires Before(s, t) && Before(t, u)
    ensures Before(s, u)
  {
    if s != [] && s[0] == t[0] == u[0] {
      BeforeTransitive(s[1..], t[1..], u[1..]);
    }
  }

  lemma {:induction false} BeforeIrreflexive(s: string)
    ensures !Before(s, s)
  {
    if s != [] { BeforeIrreflexive(s[1..]); }
  }

  lemma {:induction false} BeforeTotal(s: string, t: string)
    ensures s == t || Before(s, t) || Before(t, s)
  {
    if s != [] && t != [] && s[0] == t[0] {
      BeforeTotal(s[1..], t[1..]);
      assert s == [s[0]] + s[1..] && t == [t[0]] + t[1..];
    }
  }

  /** The order of two texts whose first parts have equal length. */
  lemma {:induction false} BeforeOfParts(a: string, b: string, s: string, t: string)
    requires |a| == |b|
    ensures Before(a + s, b + t) <==> Before(a, b) || (a == b && Before(s, t))
  {
    if a == [] {
      assert a + s == s && b + t == t;
    } else {
      BeforeOfParts(a[1..], b[1..], s, t);
      assert (a + s)[1..] == a[1..] + s && (b + t)[1..] == b[1..] + t;
      assert a == [a[0]] + a[1..] && b == [b[0]] + b[1..];
    }
  }

  /** Digit strings of equal length are in byte order exactly when their values are in order. */
  lemma {:induction false} DigitsOrder(s: string, t: string)
    requires AllDigits(s) && AllDigits(t) && |s| == |t|
    ensures Before(s, t) <==> Value(s) < Value(t)
    ensures s == t <==> Value(s) == Value(t)
  {
    if s != [] {
      var n := |s| - 1;
      DigitsOrder(s[..n], t[..n]);
      assert s == s[..n] + [s[n]] && t == t[..n] + [t[n]];
      BeforeOfParts(s[..n], t[..n], [s[n]], [t[n]]);
    }
  }
}
