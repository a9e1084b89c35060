/** The CSV text of the tag table: printed by the export, split by the import. */
module Csv {
  import opened Seqs
  import opened Text

  /** A JavaScript number as far as group ids go. */
  datatype Num = NaN | Int(v: int)

  // ---- JavaScript text ----

  predicate LineEnd(c: char) { c == '\n' || c == '\r' || c == '\U{2028}' || c == '\U{2029}' }

  predicate IsSpace(c: char) {
    || '\t' <= c <= '\r' || c == ' ' || c == '\U{00a0}' || c == '\U{1680}' || '\U{2000}' <= c <= '\U{200a}'
    || c == '\U{2028}' || c == '\U{2029}' || c == '\U{202f}' || c == '\U{205f}' || c == '\U{3000}' || c == '\U{feff}'
  }

  function TrimLeft(s: string): (t: string)
    ensures |t| <= |s|
  {
    if s != [] && IsSpace(s[0]) then TrimLeft(s[1..]) else s
  }

  function TrimRight(s: string): (t: string)
    ensures |t| <= |s|
  {
    if s != [] && IsSpace(s[|s| - 1]) then TrimRight(s[..|s| - 1]) else s
  }

  function Trim(s: string): (t: string)
    ensures |t| <= |s|
  {
    TrimRight(TrimLeft(s))
  }

  /** The white space and line terminators of ECMAScript, by their code points. */
  lemma SpacesAre(c: char)
    ensures Trim([c]) == [] <==>
      c as int in {9, 10, 11, 12, 13, 32, 0xa0, 0x1680, 0x2028, 0x2029, 0x202f, 0x205f, 0x3000, 0xfeff}
        || 0x2000 <= c as int <= 0x200a
  {
    assert TrimLeft([c]) == if IsSpace(c) then TrimLeft([c][1..]) else [c];
  }

  predicate AllSpace(s: string) { forall i :: 0 <= i < |s| ==> IsSpace(s[i]) }

  lemma {:induction false} TrimLeftCuts(s: string) returns (a: string)
    ensures s == a + TrimLeft(s) && AllSpace(a)
    ensures TrimLeft(s) != [] ==> !IsSpace(TrimLeft(s)[0])
  {
    hide IsSpace;
    if s != [] && IsSpace(s[0]) {
      var b := TrimLeftCuts(s[1..]);
      a := [s[0]] + b;
    } else {
      a := [];
    }
  }

  lemma {:induction false} TrimRightCuts(s: string) returns (b: string)
    ensures s == TrimRight(s) + b && AllSpace(b)
    ensures TrimRight(s) != [] ==> !IsSpace(TrimRight(s)[|TrimRight(s)| - 1])
  {
    hide IsSpace;
    if s != [] && IsSpace(s[|s| - 1]) {
      var c := TrimRightCuts(s[..|s| - 1]);
      b := c + [s[|s| - 1]];
    } else {
      b := [];
    }
  }

  /** Trimming takes off spaces at both ends, all of them, and nothing else. */
  lemma TrimCuts(s: string) returns (a: string, b: string)
    ensures s == a + Trim(s) + b && AllSpace(a) && AllSpace(b)
    ensures Trim(s) != [] ==> !IsSpace(Trim(s)[0]) && !IsSpace(Trim(s)[|Trim(s)| - 1])
  {
    hide IsSpace, TrimLeft, TrimRight;
    a := TrimLeftCuts(s);
    b := TrimRightCuts(TrimLeft(s));
    assert Trim(s) != [] ==> Trim(s)[0] == TrimLeft(s)[0];
  }

  /** A name without spaces at its ends is what trimming leaves of it, whatever spaces are put around it. */
  lemma TrimmedIff(s: string)
    ensures Trim(s) == s <==> s == [] || (!IsSpace(s[0]) && !IsSpace(s[|s| - 1]))
  {
    hide IsSpace;
    if Trim(s) == s { var a, b := TrimCuts(s); }
  }

  lemma {:induction false} TrimLeftOf(a: string, s: string)
    requires AllSpace(a) && (s == [] || !IsSpace(s[0]))
    ensures TrimLeft(a + s) == s
  {
    hide IsSpace;
    if a == [] {
      assert a + s == s;
    } else {
      assert (a + s)[0] == a[0] && (a + s)[1..] == a[1..] + s;
      TrimLeftOf(a[1..], s);
    }
  }

  predicate IsHexDigit(c: char) { IsDigit(c) || 'a' <= c <= 'f' || 'A' <= c <= 'F' }

  function HexValue(s: string): nat {
    if s == [] || !IsHexDigit(s[|s| - 1]) then 0
    else
      var c := s[|s| - 1];
      HexValue(s[..|s| - 1]) * 16
        + (if IsDigit(c) then c as int - 48 else if 'a' <= c then c as int - 87 else c as int - 55)
  }

  function HexRun(s: string): string {
    if s != [] && IsHexDigit(s[0]) then [s[0]] + HexRun(s[1..]) else []
  }

  /** parseInt without a radix: spaces, a sign, then hexadecimal behind 0x, else decimal digits. */
  function ParseInt(s: string): Num {
    var t := TrimLeft(s);
    var signed := t != [] && (t[0] == '-' || t[0] == '+');
    var u := if signed then t[1..] else t;
    var negative := signed && t[0] == '-';
    if |u| >= 2 && u[0] == '0' && (u[1] == 'x' || u[1] == 'X') then
      var d := HexRun(u[2..]);
      if d == [] then NaN else Int(if negative then -(HexValue(d) as int) else HexValue(d))
    else
      var d := DigitRun(u, |u|);
      if d == [] then NaN else Int(if negative then -(Value(d) as int) else Value(d))
  }

  function NumText(n: Num): (s: string)
    ensures s != [] && ';' !in s && '\n' !in s && '[' !in s && ']' !in s
  {
    if n.NaN? then "NaN" else DecimalInt(n.v)
  }

  lemma PrintableIsNoSpace(s: string)
    requires s != [] && (IsDigit(s[0]) || s[0] == '-')
    ensures TrimLeft(s) == s
  {}

  lemma ParseDigits(d: string)
    requires d != [] && AllDigits(d)
    ensures ParseInt(d) == Int(Value(d)) && ParseInt(['-'] + d) == Int(-(Value(d) as int))
  {
    hide Value, TrimLeft, DigitRun, HexRun;
    var s := ['-'] + d;
    PrintableIsNoSpace(d);
    PrintableIsNoSpace(s);
    DigitRunOf(d, [], |d|);
    assert d + [] == d && s[1..] == d;
    assert IsDigit(d[0]) && (|d| > 1 ==> IsDigit(d[1]));
  }

  /** A sign as parseInt takes it, and what it does to a magnitude. */
  predicate IsSign(sign: string) { sign == "" || sign == "-" || sign == "+" }

  function Signed(sign: string, magnitude: nat): Num { if sign == "-" then Int(-(magnitude as int)) else Int(magnitude) }

  /** Spaces, a sign, decimal digits and then anything else: the number of the digits; without digits no number. */
  lemma ParseIntDecimal(a: string, sign: string, d: string, rest: string)
    requires AllSpace(a) && IsSign(sign) && AllDigits(d) && (rest == [] || !IsDigit(rest[0]))
    requires !(d == "0" && rest != [] && (rest[0] == 'x' || rest[0] == 'X'))
    requires d == [] && sign == [] ==> rest == [] || (!IsSpace(rest[0]) && rest[0] != '-' && rest[0] != '+')
    ensures ParseInt(a + (sign + (d + rest))) == if d == [] then NaN else Signed(sign, Value(d))
  {
    hide Value, DigitRun, HexRun, TrimLeft;
    var u := d + rest;
    var t := sign + u;
    TrimLeftOf(a, t);
    if sign != [] { assert t[1..] == u; } else { assert t == u; }
    assert d != [] ==> u[0] == d[0];
    assert |d| > 1 ==> u[1] == d[1];
    DigitRunOf(d, rest, |u|);
  }

  /** Behind 0x the digits are hexadecimal. */
  lemma ParseIntHex(a: string, sign: string, x: char, h: string, rest: string)
    requires AllSpace(a) && IsSign(sign) && (x == 'x' || x == 'X')
    requires AllHex(h) && (rest == [] || !IsHexDigit(rest[0]))
    ensures ParseInt(a + (sign + (['0', x] + (h + rest)))) == if h == [] then NaN else Signed(sign, HexValue(h))
  {
    hide HexValue, DigitRun, HexRun, TrimLeft;
    var v := h + rest;
    var u := ['0', x] + v;
    var t := sign + u;
    TrimLeftOf(a, t);
    if sign != [] { assert t[1..] == u; } else { assert t == u; }
    assert u[2..] == v;
    HexRunOf(h, rest);
  }

  predicate AllHex(s: string) { forall i :: 0 <= i < |s| ==> IsHexDigit(s[i]) }

  lemma {:induction false} HexRunOf(h: string, rest: string)
    requires AllHex(h) && (rest == [] || !IsHexDigit(rest[0]))
    ensures HexRun(h + rest) == h
  {
    if h == [] {
      assert h + rest == rest;
    } else {
      assert (h + rest)[0] == h[0] && (h + rest)[1..] == h[1..] + rest;
      HexRunOf(h[1..], rest);
    }
  }

  /** Hexadecimal text of a number, in either case. */
  function HexNumber(n: nat, upper: bool): (s: string)
    ensures s != [] && AllHex(s)
  {
    var c := if n % 16 < 10 then (n % 16 + 48) as char else (n % 16 + (if upper then 55 else 87)) as char;
    if n < 16 then [c] else HexNumber(n / 16, upper) + [c]
  }

  lemma {:induction false} HexValueOf(n: nat, upper: bool)
    ensures HexValue(HexNumber(n, upper)) == n
  {
    var s := HexNumber(n, upper);
    if n >= 16 {
      HexValueOf(n / 16, upper);
      assert s[..|s| - 1] == HexNumber(n / 16, upper);
    } else {
      assert s[..0] == [];
    }
  }

  lemma ParseOfNumText(n: Num)
    ensures ParseInt(NumText(n)) == n
  {
    if n.Int? {
      hide ParseInt;
      var magnitude: nat := if n.v < 0 then -n.v else n.v;
      ParseDigits(Decimal(magnitude));
      ValueOfDecimal(magnitude);
    } else {
      assert DigitRun("NaN", 3) == [];
    }
  }

  // ---- the bracket replacement ----

  /**
   * replace(/(^\[)|(\]$)/gm, ''): an opening bracket goes at the start of a line, a closing one at
   * its end. `prevEnd` and `nextEnd` say whether a line ends in front of the text and behind it.
   */
  function Strip(prevEnd: bool, s: string, nextEnd: bool): (r: string)
    ensures |r| <= |s|
    decreases |s|
  {
    if s == [] then []
    else
      var goes := (s[0] == '[' && prevEnd) || (s[0] == ']' && (if |s| == 1 then nextEnd else LineEnd(s[1])));
      (if goes then [] else [s[0]]) + Strip(LineEnd(s[0]), s[1..], nextEnd)
  }

  /** Brackets go at line feeds, carriage returns, U+2028 and U+2029, and at no other character between them. */
  lemma StripAtLineEnds(c: char)
    requires c != '[' && c != ']'
    ensures Strip(false, [']', c, '['], false) == if c as int in {10, 13, 0x2028, 0x2029} then [c] else [']', c, '[']
  {
    assert [']', c, '['][1..] == [c, '['] && [c, '['][1..] == ['['] && ['['][1..] == [];
    assert Strip(LineEnd(c), ['['], false) == (if LineEnd(c) then [] else ['[']) + Strip(false, [], false);
  }

  /** What is left of a first character, by what comes behind it. */
  function Head(prevEnd: bool, x: char, endBehind: bool): string {
    if (x == '[' && prevEnd) || (x == ']' && endBehind) then [] else [x]
  }

  lemma StripHead(prevEnd: bool, x: char, rest: string, nextEnd: bool)
    ensures Strip(prevEnd, [x] + rest, nextEnd)
      == Head(prevEnd, x, if rest == [] then nextEnd else LineEnd(rest[0])) + Strip(LineEnd(x), rest, nextEnd)
  {
    hide LineEnd;
    assert ([x] + rest)[1..] == rest;
  }

  /** A character that is no bracket stays and separates the text around it. */
  lemma {:induction false} StripAround(prevEnd: bool, a: string, c: char, b: string, nextEnd: bool)
    requires c != '[' && c != ']'
    ensures Strip(prevEnd, a + [c] + b, nextEnd)
      == Strip(prevEnd, a, LineEnd(c)) + [c] + Strip(LineEnd(c), b, nextEnd)
    decreases |a|
  {
    hide LineEnd, Strip, Head;
    if a == [] {
      assert a + [c] + b == [c] + b;
      StripHead(prevEnd, c, b, nextEnd);
      HeadStays(prevEnd, c, if b == [] then nextEnd else LineEnd(b[0]));
      StripEmpty(prevEnd, LineEnd(c));
    } else {
      var t := a[1..];
      assert a + [c] + b == [a[0]] + (t + [c] + b) && a == [a[0]] + t;
      StripHead(prevEnd, a[0], t + [c] + b, nextEnd);
      StripHead(prevEnd, a[0], t, LineEnd(c));
      StripAround(LineEnd(a[0]), t, c, b, nextEnd);
      var h := Head(prevEnd, a[0], if t == [] then LineEnd(c) else LineEnd(t[0]));
      var x, y := Strip(LineEnd(a[0]), t, LineEnd(c)), Strip(LineEnd(c), b, nextEnd);
      assert (t + [c] + b)[0] == if t == [] then c else t[0];
      assert h + (x + [c] + y) == (h + x) + [c] + y;
    }
  }

  lemma HeadStays(prevEnd: bool, c: char, endBehind: bool)
    requires c != '[' && c != ']'
    ensures Head(prevEnd, c, endBehind) == [c]
  {}

  lemma StripEmpty(prevEnd: bool, nextEnd: bool)
    ensures Strip(prevEnd, [], nextEnd) == []
  {}

  lemma {:induction false} StripNothing(prevEnd: bool, s: string, nextEnd: bool)
    requires '[' !in s && ']' !in s
    ensures Strip(prevEnd, s, nextEnd) == s
    decreases |s|
  {
    if s != [] { StripNothing(LineEnd(s[0]), s[1..], nextEnd); }
  }

  lemma {:induction false} StripKeepsAbsence(prevEnd: bool, s: string, nextEnd: bool, c: char)
    requires c !in s
    ensures c !in Strip(prevEnd, s, nextEnd)
    decreases |s|
  {
    if s != [] { StripKeepsAbsence(LineEnd(s[0]), s[1..], nextEnd, c); }
  }

  /** A bracket that the replacement takes out of a name followed by more text. */
  predicate MarginBracket(s: string, prevEnd: bool, i: nat)
    requires i < |s|
  {
    || (s[i] == '[' && (if i == 0 then prevEnd else LineEnd(s[i - 1])))
    || (s[i] == ']' && i + 1 < |s| && LineEnd(s[i + 1]))
  }

  lemma MarginShift(s: string, prevEnd: bool, i: nat)
    requires i + 1 < |s|
    ensures MarginBracket(s[1..], LineEnd(s[0]), i) == MarginBracket(s, prevEnd, i + 1)
  {}

  predicate NoMargins(s: string, prevEnd: bool) { forall i :: 0 <= i < |s| ==> !MarginBracket(s, prevEnd, i) }

  lemma NoMarginsStep(s: string, prevEnd: bool)
    requires s != []
    ensures NoMargins(s, prevEnd) <==> !MarginBracket(s, prevEnd, 0) && NoMargins(s[1..], LineEnd(s[0]))
  {
    hide MarginBracket;
    forall i | 0 <= i < |s| - 1 ensures MarginBracket(s[1..], LineEnd(s[0]), i) == MarginBracket(s, prevEnd, i + 1) {
      MarginShift(s, prevEnd, i);
    }
    if NoMargins(s[1..], LineEnd(s[0])) && !MarginBracket(s, prevEnd, 0) {
      forall i | 0 <= i < |s| ensures !MarginBracket(s, prevEnd, i) {
        if i > 0 { assert !MarginBracket(s[1..], LineEnd(s[0]), i - 1); }
      }
    }
  }

  /** The replacement leaves a name in front of more text alone exactly when it has no margin bracket. */
  lemma {:induction false} StripFixesIff(prevEnd: bool, s: string)
    ensures Strip(prevEnd, s, false) == s <==> NoMargins(s, prevEnd)
    ensures |Strip(prevEnd, s, false)| == |s| ==> Strip(prevEnd, s, false) == s
    decreases |s|
  {
    hide LineEnd, NoMargins;
    if s == [] {
      assert NoMargins(s, prevEnd) by { NoMarginsNone(prevEnd); }
    } else {
      StripFixesIff(LineEnd(s[0]), s[1..]);
      NoMarginsStep(s, prevEnd);
      assert s == [s[0]] + s[1..];
    }
  }

  lemma NoMarginsNone(prevEnd: bool)
    ensures NoMargins([], prevEnd)
  {}

  // ---- export and import ----

  /** What the export prints of a tag. */
  datatype Tag = Tag(name: string, groupid: Num)

  function Row(t: Tag): string { t.name + [';'] + NumText(t.groupid) + [';'] }

  /** Lines joined by '\n'. */
  function Lines(first: string, tags: seq<Tag>): string
    decreases |tags|
  {
    if tags == [] then first else first + ['\n'] + Lines(Row(tags[0]), tags[1..])
  }

  /** exportCSV, without the media type in front and the URI encoding. */
  function Exported(tags: seq<Tag>): string {
    Strip(true, Lines("name;groupid;", tags), true)
  }

  /** The text of one tag, character for character. */
  lemma ExportWritten()
    ensures Exported([Tag("a", Int(1))]) == "name;groupid;\na;1;"
  {
    hide Lines, Strip;
    LinesWritten();
    StripNothing(true, "name;groupid;\na;1;", true);
  }

  lemma LinesWritten()
    ensures Lines("name;groupid;", [Tag("a", Int(1))]) == "name;groupid;\na;1;"
  {
    hide Row;
    var t := Tag("a", Int(1));
    RowWritten();
    assert Lines(Row(t), [t][1..]) == "a;1;";
    assert Lines("name;groupid;", [t]) == "name;groupid;" + ['\n'] + Lines(Row(t), [t][1..]);
  }

  lemma RowWritten()
    ensures Row(Tag("a", Int(1))) == "a;1;"
  {
    assert DecimalInt(1) == Decimal(1) == "1";
  }

  /** csvJSON: the fields of every line but the first. */
  function Records(csv: string): seq<seq<string>> {
    var lines := Split(csv, '\n');
    Map((line: string) => Split(line, ';'), lines[1..])
  }

  /** csvJSON itself: every line but the header is split and pushed onto the result. */
  method CsvJson(csv: string) returns (result: seq<seq<string>>)
    ensures result == Records(csv)
    ensures forall i :: 0 <= i < |result| ==> |result[i]| > 0
  {
    var lines := Split(csv, '\n');
    result := [];
    var index := 1;
    while index < |lines|
      invariant 1 <= index <= |lines| && |result| == index - 1
      invariant forall i :: 0 <= i < |result| ==> result[i] == Split(lines[i + 1], ';')
    {
      result := result + [Split(lines[index], ';')];
      index := index + 1;
    }
  }

  /** What the import takes from a record. */
  function TagOf(record: seq<string>): Tag
    requires |record| > 0
  {
    Tag(Trim(record[0]), if |record| > 1 then ParseInt(record[1]) else NaN)
  }

  /** A line: its first field trimmed is the name, and its second read as a number the group id, if it has one. */
  lemma LineRead(name: string, more: string)
    requires ';' !in name
    ensures TagOf(Split(name, ';')) == Tag(Trim(name), NaN)
    ensures ';' !in more ==> TagOf(Split(name + [';'] + more, ';')) == Tag(Trim(name), ParseInt(more))
    ensures forall rest :: ';' !in more ==>
      TagOf(Split(name + [';'] + (more + [';'] + rest), ';')) == Tag(Trim(name), ParseInt(more))
  {
    hide Trim, ParseInt, Split;
    SplitLast<char>(name, ';');
    if ';' !in more {
      SplitField<char>(name, ';', more);
      SplitLast<char>(more, ';');
      forall rest
        ensures TagOf(Split(name + [';'] + (more + [';'] + rest), ';')) == Tag(Trim(name), ParseInt(more))
      {
        SplitField<char>(name, ';', more + [';'] + rest);
        SplitField<char>(more, ';', rest);
      }
    }
  }

  function Imported(csv: string): (tags: seq<Tag>)
    ensures |tags| == |Records(csv)|
  {
    seq(|Records(csv)|, i requires 0 <= i < |Records(csv)| => TagOf(Records(csv)[i]))
  }

  lemma ImportedOf(csv: string, lines: seq<string>)
    requires Split(csv, '\n')[1..] == lines
    ensures |Imported(csv)| == |lines| && forall i :: 0 <= i < |lines| ==> Imported(csv)[i] == TagOf(Split(lines[i], ';'))
  {
    hide TagOf, Split;
  }

  /** The lines behind the header are read one by one. */
  lemma LinesRead(header: string, line: string, rest: string)
    requires '\n' !in header && '\n' !in line
    ensures Imported(header) == []
    ensures Imported(header + ['\n'] + line) == [TagOf(Split(line, ';'))]
    ensures Imported(header + ['\n'] + (line + ['\n'] + rest))
      == [TagOf(Split(line, ';'))] + Imported(header + ['\n'] + rest)
  {
    hide TagOf, Split, Imported, Records;
    SplitLast<char>(header, '\n');
    ImportedOf(header, []);
    SplitField<char>(header, '\n', line);
    SplitLast<char>(line, '\n');
    ImportedOf(header + ['\n'] + line, [line]);
    SplitField<char>(header, '\n', line + ['\n'] + rest);
    SplitField<char>(line, '\n', rest);
    SplitField<char>(header, '\n', rest);
    var more := Split(rest, '\n');
    ImportedOf(header + ['\n'] + rest, more);
    ImportedOf(header + ['\n'] + (line + ['\n'] + rest), [line] + more);
  }

  /** A name the text carries unchanged. */
  predicate Clean(name: string) {
    ';' !in name && '\n' !in name && Trim(name) == name && NoMargins(name, true)
  }

  /** The import's view of an exported row. */
  function RowBack(t: Tag): Tag { TagOf(Split(Strip(true, Row(t), true), ';')) }

  lemma StripRow(prevEnd: bool, name: string, rest: string)
    requires '[' !in rest && ']' !in rest
    ensures Strip(prevEnd, name + [';'] + rest, true) == Strip(prevEnd, name, false) + [';'] + rest
  {
    StripAround(prevEnd, name, ';', rest, true);
    StripNothing(false, rest, true);
  }

  /** A row comes back as it was exactly when its name is clean, given that it is one line. */
  lemma RowBackIff(t: Tag)
    requires '\n' !in t.name
    ensures RowBack(t) == t <==> Clean(t.name)
  {
    hide Trim, ParseInt, NumText, Strip;
    var number := NumText(t.groupid);
    var rest := number + [';'];
    assert Row(t) == t.name + [';'] + rest;
    StripRow(true, t.name, rest);
    var field := Strip(true, t.name, false);
    StripFixesIff(true, t.name);
    if ';' in t.name {
      FirstField(t.name, rest);
    } else {
      StripKeepsAbsence(true, t.name, false, ';');
      SplitField(field, ';', rest);
      SplitField(number, ';', "");
      SplitLast<char>([], ';');
      assert rest == number + [';'] + "";
      ParseOfNumText(t.groupid);
      assert RowBack(t) == Tag(Trim(field), t.groupid);
    }
  }

  /** A separator inside a name cuts the first field short. */
  lemma FirstField(name: string, rest: string)
    requires ';' in name && '[' !in rest && ']' !in rest
    ensures |Split(Strip(true, name + [';'] + rest, true), ';')[0]| < |name|
  {
    var a, b := Cut(name);
    var tail := b + [';'] + rest;
    assert name + [';'] + rest == a + [';'] + tail;
    StripAround(true, a, ';', tail, true);
    StripKeepsAbsence(true, a, false, ';');
    SplitField(Strip(true, a, false), ';', Strip(false, tail, true));
  }

  lemma {:induction false} Cut(s: string) returns (a: string, b: string)
    requires ';' in s
    ensures s == a + [';'] + b && ';' !in a
  {
    if s[0] == ';' {
      a, b := [], s[1..];
    } else {
      a, b := Cut(s[1..]);
      a := [s[0]] + a;
    }
  }

  // ---- counting lines ----

  function Count(s: string, c: char): nat {
    if s == [] then 0 else (if s[0] == c then 1 else 0) + Count(s[1..], c)
  }

  lemma {:induction false} CountAppend(a: string, b: string, c: char)
    ensures Count(a + b, c) == Count(a, c) + Count(b, c)
  {
    if a == [] {
      assert a + b == b;
    } else {
      assert (a + b)[1..] == a[1..] + b;
      CountAppend(a[1..], b, c);
    }
  }

  lemma {:induction false} CountSome(s: string, c: char)
    ensures Count(s, c) > 0 <==> c in s
  {
    if s != [] { CountSome(s[1..], c); }
  }

  lemma {:induction false} SplitCount(s: string, c: char)
    ensures |Split(s, c)| == Count(s, c) + 1
    decreases |s|
  {
    if s != [] { SplitCount(s[1..], c); }
  }

  lemma {:induction false} StripCount(prevEnd: bool, s: string, nextEnd: bool)
    ensures Count(Strip(prevEnd, s, nextEnd), '\n') == Count(s, '\n')
    decreases |s|
  {
    if s != [] {
      var rest := Strip(LineEnd(s[0]), s[1..], nextEnd);
      StripCount(LineEnd(s[0]), s[1..], nextEnd);
      CountAppend([s[0]], rest, '\n');
      assert Count([s[0]], '\n') == (if s[0] == '\n' then 1 else 0) + Count([s[0]][1..], '\n');
      assert [] + rest == rest;
    }
  }

  lemma {:induction false} LinesCount(first: string, tags: seq<Tag>)
    ensures Count(Lines(first, tags), '\n') >= Count(first, '\n') + |tags|
    ensures Count(Lines(first, tags), '\n') == Count(first, '\n') + |tags|
      <==> forall i :: 0 <= i < |tags| ==> '\n' !in tags[i].name
    decreases |tags|
  {
    if tags != [] {
      hide Row;
      LinesCount(Row(tags[0]), tags[1..]);
      CountAppend(first + ['\n'], Lines(Row(tags[0]), tags[1..]), '\n');
      CountAppend(first, ['\n'], '\n');
      assert Count(['\n'], '\n') == 1 + Count(['\n'][1..], '\n');
      RowCount(tags[0]);
    }
  }

  lemma RowCount(t: Tag)
    ensures Count(Row(t), '\n') > 0 <==> '\n' in t.name
  {
    CountSome(Row(t), '\n');
  }

  // ---- the round trip ----

  lemma NewlineEndsLine()
    ensures LineEnd('\n')
  {}

  /** One-line rows come apart again, each with its own replacements. */
  lemma {:induction false} LinesApart(first: string, tags: seq<Tag>)
    requires '\n' !in first && forall i :: 0 <= i < |tags| ==> '\n' !in tags[i].name
    ensures var lines := Split(Strip(true, Lines(first, tags), true), '\n');
      && |lines| == |tags| + 1 && lines[0] == Strip(true, first, true)
      && forall i :: 0 <= i < |tags| ==> lines[i + 1] == Strip(true, Row(tags[i]), true)
    decreases |tags|
  {
    hide Row, Strip, LineEnd, Count, Split;
    assert LineEnd('\n') by { NewlineEndsLine(); }
    StripKeepsAbsence(true, first, true, '\n');
    if tags == [] {
      SplitLast(Strip(true, first, true), '\n');
    } else {
      RowCount(tags[0]);
      CountSome(Row(tags[0]), '\n');
      LinesApart(Row(tags[0]), tags[1..]);
      var tail := Lines(Row(tags[0]), tags[1..]);
      StripAround(true, first, '\n', tail, true);
      SplitField(Strip(true, first, true), '\n', Strip(true, tail, true));
    }
  }

  predicate OneLineNames(tags: seq<Tag>) { forall i :: 0 <= i < |tags| ==> '\n' !in tags[i].name }

  /** The import finds as many records as there are rows exactly when no name has a line break. */
  lemma RecordCount(tags: seq<Tag>)
    ensures |Imported(Exported(tags))| == |tags| <==> OneLineNames(tags)
  {
    hide Lines, Strip, Row, Count;
    var text := Lines("name;groupid;", tags);
    SplitCount(Exported(tags), '\n');
    StripCount(true, text, true);
    LinesCount("name;groupid;", tags);
    HeaderIsOneLine();
  }

  lemma RecordsBack(tags: seq<Tag>)
    requires OneLineNames(tags)
    ensures |Imported(Exported(tags))| == |tags|
    ensures forall i :: 0 <= i < |tags| ==> Imported(Exported(tags))[i] == RowBack(tags[i])
  {
    hide Lines, Strip, Row, TagOf;
    RecordCount(tags);
    HeaderIsOneLine();
    LinesApart("name;groupid;", tags);
    var lines := Split(Exported(tags), '\n');
    forall i | 0 <= i < |tags| ensures Imported(Exported(tags))[i] == RowBack(tags[i]) {
      assert lines[1..][i] == lines[i + 1];
    }
  }

  /** The import of an export gives back every name and group id exactly when every name is clean. */
  lemma CsvRoundTripIff(tags: seq<Tag>)
    ensures Imported(Exported(tags)) == tags <==> forall i :: 0 <= i < |tags| ==> Clean(tags[i].name)
  {
    hide Imported, Exported, Clean, RowBack;
    RecordCount(tags);
    forall i | 0 <= i < |tags| && '\n' in tags[i].name ensures !Clean(tags[i].name) { NotClean(tags[i].name); }
    if OneLineNames(tags) {
      RecordsBack(tags);
      forall i | 0 <= i < |tags| ensures RowBack(tags[i]) == tags[i] <==> Clean(tags[i].name) {
        RowBackIff(tags[i]);
      }
      if exists i :: 0 <= i < |tags| && !Clean(tags[i].name) {
        var i :| 0 <= i < |tags| && !Clean(tags[i].name);
        assert Imported(Exported(tags))[i] != tags[i];
      }
    }
  }

  lemma HeaderIsOneLine()
    ensures Count("name;groupid;", '\n') == 0 && '\n' !in "name;groupid;"
  {
    CountSome("name;groupid;", '\n');
  }

  lemma NotClean(name: string)
    requires '\n' in name
    ensures !Clean(name)
  {}
}
