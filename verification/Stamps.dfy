/** UTC minutes, the names the cache prints for them, and the parser that reads the names back. */
module Stamps {
  import opened Seqs
  import opened Text
  import opened Listing

  /** A UTC time truncated to the minute. */
  datatype Stamp = Stamp(year: nat, month: nat, day: nat, hour: nat, minute: nat) {
    predicate Valid() {
      1 <= month <= 12 && 1 <= day <= DaysIn(year, month) && hour < 24 && minute < 60
    }

    /** Minutes since the start of year zero. */
    function Time(): int { Date(year, month, day, hour, minute) }
  }

  predicate Leap(y: int) { y % 4 == 0 && (y % 100 != 0 || y % 400 == 0) }

  function DaysIn(y: int, month: nat): nat
    requires 1 <= month <= 12
  {
    if month == 2 then (if Leap(y) then 29 else 28)
    else if month == 4 || month == 6 || month == 9 || month == 11 then 30
    else 31
  }

  function YearLength(y: int): nat { if Leap(y) then 366 else 365 }

  /** Days of the years from zero to y. */
  function DaysUpTo(y: nat): nat {
    if y == 0 then 0 else DaysUpTo(y - 1) + YearLength(y - 1)
  }

  /** Days of the n years in front of year zero. */
  function DaysBack(n: nat): nat {
    if n == 0 then 0
    else DaysBack(n - 1) + YearLength(-(n as int))
  }

  /** Days from the start of year zero to the start of year y. */
  function YearStart(y: int): int {
    if y >= 0 then DaysUpTo(y) else -(DaysBack(-y) as int)
  }

  /** Days of the year in front of a month, counted from 1. */
  function MonthStart(y: int, month: nat): nat
    requires 1 <= month <= 12
  {
    [0, 31, 59, 90, 120, 151, 181, 212, 243, 273, 304, 334][month - 1] + (if month > 2 && Leap(y) then 1 else 0)
  }

  /** time.Date in UTC, in minutes: months outside 1..12 move the year, everything else just adds up. */
  function Date(year: int, month: int, day: int, hour: int, minute: int): int {
    var y, m := year + (month - 1) / 12, (month - 1) % 12 + 1;
    (YearStart(y) + MonthStart(y, m) + day - 1) * 1440 + hour * 60 + minute
  }

  // ---- calendar order ----

  predicate FieldsBefore(s: Stamp, t: Stamp) {
    s.year < t.year || (s.year == t.year && (s.month < t.month || (s.month == t.month && (s.day < t.day ||
      (s.day == t.day && (s.hour < t.hour || (s.hour == t.hour && s.minute < t.minute)))))))
  }

  function YearDay(s: Stamp): int
    requires s.Valid()
  {
    MonthStart(s.year, s.month) + s.day - 1
  }

  lemma {:induction false} YearsAscend(y: int, z: int)
    requires y < z
    ensures YearStart(y) + YearLength(y) <= YearStart(z)
    decreases z - y
  {
    if y + 1 < z { YearsAscend(y + 1, z); }
  }

  lemma MonthsAscend(y: int, m: nat, n: nat)
    requires 1 <= m < n <= 12
    ensures MonthStart(y, m) + DaysIn(y, m) <= MonthStart(y, n)
  {}

  lemma YearDayBounds(s: Stamp)
    requires s.Valid()
    ensures 0 <= YearDay(s) < YearLength(s.year)
  {}

  /** Earlier fields, earlier time. */
  lemma FieldsBeforeTime(s: Stamp, t: Stamp)
    requires s.Valid() && t.Valid() && FieldsBefore(s, t)
    ensures s.Time() < t.Time()
  {
    hide YearStart, YearLength, MonthStart, DaysIn;
    YearDayBounds(s);
    YearDayBounds(t);
    if s.year < t.year {
      YearsAscend(s.year, t.year);
    } else if s.month < t.month {
      MonthsAscend(s.year, s.month, t.month);
    }
  }

  lemma TimeOrder(s: Stamp, t: Stamp)
    requires s.Valid() && t.Valid()
    ensures s.Time() < t.Time() <==> FieldsBefore(s, t)
    ensures s.Time() == t.Time() <==> s == t
  {
    hide Date, Stamp.Valid;
    if FieldsBefore(s, t) { FieldsBeforeTime(s, t); }
    if FieldsBefore(t, s) { FieldsBeforeTime(t, s); }
    assert FieldsBefore(s, t) || FieldsBefore(t, s) || s == t;
  }

  /** The minute after. */
  function Next(s: Stamp): Stamp
    requires s.Valid()
  {
    if s.minute < 59 then s.(minute := s.minute + 1)
    else if s.hour < 23 then s.(minute := 0, hour := s.hour + 1)
    else if s.day < DaysIn(s.year, s.month) then s.(minute := 0, hour := 0, day := s.day + 1)
    else if s.month < 12 then Stamp(s.year, s.month + 1, 1, 0, 0)
    else Stamp(s.year + 1, 1, 1, 0, 0)
  }

  lemma MonthLength(y: int, m: nat)
    requires 1 <= m < 12
    ensures MonthStart(y, m + 1) == MonthStart(y, m) + DaysIn(y, m)
  {}

  /** Time counts minutes: it goes up by one from each valid minute to the next. */
  lemma NextMinute(s: Stamp)
    requires s.Valid()
    ensures Next(s).Valid() && Next(s).Time() == s.Time() + 1
  {
    hide YearStart, MonthStart, Leap;
    if s.month < 12 { MonthLength(s.year, s.month); } else { YearEnd(s.year); }
  }

  lemma YearEnd(y: int)
    ensures MonthStart(y + 1, 1) == 0
    ensures YearStart(y + 1) == YearStart(y) + MonthStart(y, 12) + 31
  {}

  lemma MinuteOfDays(days: int, hour: nat, minute: nat)
    ensures (days * 1440 + hour * 60 + minute) % 5 == minute % 5
  {
    assert days * 1440 + hour * 60 + minute == 5 * (days * 288 + hour * 12) + minute;
  }

  /** The minute within a five-minute window is the same for the field and for the time. */
  lemma MinuteOfTime(s: Stamp)
    ensures s.Time() % 5 == s.minute % 5
  {
    hide YearStart, MonthStart;
    var y, m := s.year + (s.month - 1) / 12, (s.month - 1) % 12 + 1;
    var days := YearStart(y) + MonthStart(y, m) + s.day - 1;
    MinuteOfDays(days, s.hour, s.minute);
  }

  /** Any integers make a date: months carry into years, and days, hours and minutes just add up. */
  lemma DateCarries(year: int, month: int, day: int, hour: int, minute: int)
    ensures Date(year, month + 12, day, hour, minute) == Date(year + 1, month, day, hour, minute)
    ensures Date(year, month, day + 1, hour, minute) == Date(year, month, day, hour, minute) + 1440
    ensures Date(year, month, day, hour + 1, minute) == Date(year, month, day, hour, minute) + 60
    ensures Date(year, month, day, hour, minute + 1) == Date(year, month, day, hour, minute) + 1
  {
    hide YearStart, MonthStart;
    assert (month + 11) / 12 == (month - 1) / 12 + 1 && (month + 11) % 12 == (month - 1) % 12;
  }

  // ---- names ----

  function NameOf(s: Stamp): Name {
    "dd_" + Decimal(s.year) + "_" + Pad2(s.month) + "_" + Pad2(s.day)
      + "-" + Pad2(s.hour) + "_" + Pad2(s.minute) + ".json.gz"
  }

  /** The path below the cache directory. */
  function PathOf(s: Stamp): Path {
    [Decimal(s.year), Pad2(s.month), Pad2(s.day), NameOf(s)]
  }

  // ---- the scanner ----

  const ANY_WIDTH := 0x4000_0000  // fmt's width for a verb without one

  function SkipSpaces(s: string): string {
    if s != [] && (s[0] == ' ' || s[0] == '\t') then SkipSpaces(s[1..]) else s
  }

  /** %d of the scanner: spaces, an optional sign that counts for the width, digits. */
  function ScanNumber(s: string, width: nat): Option<(int, string)>
    requires width > 0
  {
    var t := SkipSpaces(s);
    var signed := t != [] && (t[0] == '-' || t[0] == '+');
    var u := if signed then t[1..] else t;
    var d := DigitRun(u, if signed then width - 1 else width);
    if d == [] then None
    else
      var v: int := Value(d);
      Some((if signed && t[0] == '-' then -v else v, u[|d|..]))
  }

  /** Literal text of the format, then a number. */
  function ScanField(s: string, literal: string, width: nat): Option<(int, string)>
    requires width > 0
  {
    if literal <= s then ScanNumber(s[|literal|..], width) else None
  }

  /** getTimeFromFilename: fields behind the first mismatch stay zero, and no error is reported. */
  function TimeFromName(name: string): int {
    var f1 := ScanField(name, "dd_", ANY_WIDTH);
    if f1.None? then Date(0, 0, 0, 0, 0)
    else
      var f2 := ScanField(f1.value.1, "_", 2);
      if f2.None? then Date(f1.value.0, 0, 0, 0, 0)
      else
        var f3 := ScanField(f2.value.1, "_", 2);
        if f3.None? then Date(f1.value.0, f2.value.0, 0, 0, 0)
        else
          var f4 := ScanField(f3.value.1, "-", 2);
          if f4.None? then Date(f1.value.0, f2.value.0, f3.value.0, 0, 0)
          else
            var f5 := ScanField(f4.value.1, "_", 2);
            Date(f1.value.0, f2.value.0, f3.value.0, f4.value.0, if f5.None? then 0 else f5.value.0)
  }

  lemma ScanFieldOf(literal: string, d: string, rest: string, width: nat)
    requires d != [] && AllDigits(d) && |d| <= width
    requires |d| == width || rest == [] || !IsDigit(rest[0])
    ensures ScanField(literal + (d + rest), literal, width) == Some((Value(d), rest))
  {
    hide ScanNumber, Value;
    ScanNumberOf(d, rest, width);
    assert (literal + (d + rest))[|literal|..] == d + rest;
  }

  lemma ScanNumberOf(d: string, rest: string, width: nat)
    requires d != [] && AllDigits(d) && |d| <= width
    requires |d| == width || rest == [] || !IsDigit(rest[0])
    ensures ScanNumber(d + rest, width) == Some((Value(d), rest))
  {
    hide DigitRun, Value;
    var s := d + rest;
    DigitRunOf(d, rest, width);
    assert s[0] == d[0] && IsDigit(d[0]);
    assert SkipSpaces(s) == s;
    assert s[|d|..] == rest;
  }

  /** Printing and parsing a name gives back the time, to the minute. */
  lemma NameRoundTrip(s: Stamp)
    requires s.Valid() && |Decimal(s.year)| <= ANY_WIDTH
    ensures TimeFromName(NameOf(s)) == s.Time()
  {
    hide ScanField, Value, Decimal, Pad2, Date;
    var r5 := ".json.gz";
    var r4 := "_" + (Pad2(s.minute) + r5);
    var r3 := "-" + (Pad2(s.hour) + r4);
    var r2 := "_" + (Pad2(s.day) + r3);
    var r1 := "_" + (Pad2(s.month) + r2);
    assert NameOf(s) == "dd_" + (Decimal(s.year) + r1);
    ScanFieldOf("dd_", Decimal(s.year), r1, ANY_WIDTH);
    ScanFieldOf("_", Pad2(s.month), r2, 2);
    ScanFieldOf("_", Pad2(s.day), r3, 2);
    ScanFieldOf("-", Pad2(s.hour), r4, 2);
    ScanFieldOf("_", Pad2(s.minute), r5, 2);
    ValueOfDecimal(s.year);
    ValueOfPad2(s.month);
    ValueOfPad2(s.day);
    ValueOfPad2(s.hour);
    ValueOfPad2(s.minute);
  }

  /** What is read of a name that breaks off: the fields in front stay, the others are zero; without the prefix all are. */
  lemma NameCutShort(s: Stamp, name: string)
    requires s.Valid() && |Decimal(s.year)| <= ANY_WIDTH
    ensures !("dd_" <= name) ==> TimeFromName(name) == Date(0, 0, 0, 0, 0)
    ensures TimeFromName("dd_" + (Decimal(s.year) + "")) == Date(s.year, 0, 0, 0, 0)
    ensures TimeFromName("dd_" + (Decimal(s.year) + ("_" + (Pad2(s.month) + "")))) == Date(s.year, s.month, 0, 0, 0)
    ensures TimeFromName("dd_" + (Decimal(s.year) + ("_" + (Pad2(s.month) + ("_" + (Pad2(s.day) + ""))))))
      == Date(s.year, s.month, s.day, 0, 0)
    ensures TimeFromName("dd_" + (Decimal(s.year) + ("_" + (Pad2(s.month) + ("_" + (Pad2(s.day)
        + ("-" + (Pad2(s.hour) + ""))))))))
      == Date(s.year, s.month, s.day, s.hour, 0)
  {
    hide ScanNumber, Value, Decimal, Pad2, Date;
    ValueOfDecimal(s.year);
    ValueOfPad2(s.month);
    ValueOfPad2(s.day);
    ValueOfPad2(s.hour);
    CutAtHour(s, "");
    CutAtDay(s, "");
    CutAtDay(s, "-" + (Pad2(s.hour) + ""));
    CutAtMonth(s, "");
    CutAtMonth(s, "_" + (Pad2(s.day) + ""));
    CutAtMonth(s, "_" + (Pad2(s.day) + ("-" + (Pad2(s.hour) + ""))));
    CutAtYear(s, "");
    CutAtYear(s, "_" + (Pad2(s.month) + ""));
    CutAtYear(s, "_" + (Pad2(s.month) + ("_" + (Pad2(s.day) + ""))));
    CutAtYear(s, "_" + (Pad2(s.month) + ("_" + (Pad2(s.day) + ("-" + (Pad2(s.hour) + ""))))));
  }

  lemma CutAtYear(s: Stamp, rest: string)
    requires |Decimal(s.year)| <= ANY_WIDTH && (rest == [] || !IsDigit(rest[0]))
    ensures ScanField("dd_" + (Decimal(s.year) + rest), "dd_", ANY_WIDTH) == Some((s.year, rest))
  {
    hide ScanField, Value, Decimal;
    ScanFieldOf("dd_", Decimal(s.year), rest, ANY_WIDTH);
    ValueOfDecimal(s.year);
  }

  lemma CutAtMonth(s: Stamp, rest: string)
    requires s.Valid()
    ensures ScanField("_" + (Pad2(s.month) + rest), "_", 2) == Some((s.month, rest))
  {
    hide ScanField, Value, Pad2;
    ScanFieldOf("_", Pad2(s.month), rest, 2);
    ValueOfPad2(s.month);
  }

  lemma CutAtDay(s: Stamp, rest: string)
    requires s.Valid()
    ensures ScanField("_" + (Pad2(s.day) + rest), "_", 2) == Some((s.day, rest))
  {
    hide ScanField, Value, Pad2;
    ScanFieldOf("_", Pad2(s.day), rest, 2);
    ValueOfPad2(s.day);
  }

  lemma CutAtHour(s: Stamp, rest: string)
    requires s.Valid()
    ensures ScanField("-" + (Pad2(s.hour) + rest), "-", 2) == Some((s.hour, rest))
  {
    hide ScanField, Value, Pad2;
    ScanFieldOf("-", Pad2(s.hour), rest, 2);
    ValueOfPad2(s.hour);
  }

  /** The path of one minute, character for character. */
  lemma PathWritten()
    ensures PathOf(Stamp(2021, 3, 9, 14, 5)) == ["2021", "03", "09", "dd_2021_03_09-14_05.json.gz"]
  {
    hide Decimal, Pad2;
    YearWritten();
    PadsWritten();
    var s := Stamp(2021, 3, 9, 14, 5);
    assert Decimal(s.year) == "2021" && Pad2(s.month) == "03" && Pad2(s.day) == "09";
    assert Pad2(s.hour) == "14" && Pad2(s.minute) == "05";
    var name := "dd_" + "2021" + "_" + "03" + "_" + "09" + "-" + "14" + "_" + "05" + ".json.gz";
    assert NameOf(s) == name == "dd_2021_03_09-14_05.json.gz";
  }

  lemma PadsWritten()
    ensures Pad2(3) == "03" && Pad2(9) == "09" && Pad2(5) == "05" && Pad2(14) == "14"
  {
    assert Decimal(14) == Decimal(1) + "4" == "14";
  }

  lemma YearWritten()
    ensures Decimal(2021) == "2021"
  {
    assert Decimal(20) == Decimal(2) + "0" == "20";
    assert Decimal(202) == Decimal(20) + "2" == "202";
  }

  /** Digits in front of an underscore are told apart from what follows. */
  lemma DigitsInFront(d: string, e: string, u: string, v: string)
    requires AllDigits(d) && AllDigits(e) && d + ("_" + u) == e + ("_" + v)
    ensures d == e && u == v
  {
    var s := d + ("_" + u);
    assert s[|d|] == '_' && s[|e|] == '_';
    assert forall i :: 0 <= i < |d| ==> s[i] == d[i];
    assert forall i :: 0 <= i < |e| ==> s[i] == e[i];
    assert |d| == |e|;
    assert d == s[..|d|] == e && u == s[|d| + 1..] == v;
  }

  /** The name behind its year. */
  function NameTail(s: Stamp): string {
    Pad2(s.month) + "_" + Pad2(s.day) + "-" + Pad2(s.hour) + "_" + Pad2(s.minute) + ".json.gz"
  }

  lemma TailsDistinct(s: Stamp, t: Stamp)
    requires s.Valid() && t.Valid() && NameTail(s) == NameTail(t)
    ensures s.month == t.month && s.day == t.day && s.hour == t.hour && s.minute == t.minute
  {
    hide Pad2;
    var a, b := NameTail(s), NameTail(t);
    assert Pad2(s.month) == a[..2] && Pad2(t.month) == b[..2];
    assert Pad2(s.day) == a[3..5] && Pad2(t.day) == b[3..5];
    assert Pad2(s.hour) == a[6..8] && Pad2(t.hour) == b[6..8];
    assert Pad2(s.minute) == a[9..11] && Pad2(t.minute) == b[9..11];
    Pad2Order(s.month, t.month);
    Pad2Order(s.day, t.day);
    Pad2Order(s.hour, t.hour);
    Pad2Order(s.minute, t.minute);
  }

  /** Distinct minutes have distinct names, whatever the year. */
  lemma NamesDistinct(s: Stamp, t: Stamp)
    requires s.Valid() && t.Valid()
    ensures NameOf(s) == NameOf(t) <==> s == t
  {
    hide Decimal, Pad2, NameTail, Stamp.Valid;
    if NameOf(s) == NameOf(t) {
      NameParts(s);
      NameParts(t);
      DigitsInFront(Decimal(s.year), Decimal(t.year), NameTail(s), NameTail(t));
      ValueOfDecimal(s.year);
      ValueOfDecimal(t.year);
      TailsDistinct(s, t);
    }
  }

  lemma NameParts(s: Stamp)
    ensures NameOf(s)[3..] == Decimal(s.year) + ("_" + NameTail(s))
  {
    hide Decimal, Pad2;
    assert NameOf(s) == "dd_" + (Decimal(s.year) + ("_" + NameTail(s)));
  }

  lemma PathsDistinct(s: Stamp, t: Stamp)
    requires s.Valid() && t.Valid()
    ensures PathOf(s) == PathOf(t) <==> s == t
  {
    hide NameOf, Decimal, Pad2, Stamp.Valid;
    NamesDistinct(s, t);
    assert PathOf(s)[3] == NameOf(s) && PathOf(t)[3] == NameOf(t);
  }

  // ---- walk order ----

  predicate FourDigitYear(s: Stamp) { 1000 <= s.year <= 9999 }

  lemma FourDigits(y: nat)
    requires 1000 <= y <= 9999
    ensures |Decimal(y)| == 4
  {
    assert |Decimal(y / 1000)| == 1;
    assert y / 10 / 10 == y / 100 && y / 100 / 10 == y / 1000;
    assert |Decimal(y / 100)| == 2;
    assert |Decimal(y / 10)| == 3;
  }

  lemma Pad2Order(a: nat, b: nat)
    requires a < 100 && b < 100
    ensures Before(Pad2(a), Pad2(b)) <==> a < b
    ensures Pad2(a) == Pad2(b) <==> a == b
  {
    hide Pad2, Value, Before;
    DigitsOrder(Pad2(a), Pad2(b));
    ValueOfPad2(a);
    ValueOfPad2(b);
  }

  /** Years of equally many digits are in byte order exactly when they are in order. */
  lemma YearOrder(a: nat, b: nat)
    requires |Decimal(a)| == |Decimal(b)|
    ensures Before(Decimal(a), Decimal(b)) <==> a < b
  {
    hide Decimal, Value, Before;
    DigitsOrder(Decimal(a), Decimal(b));
    ValueOfDecimal(a);
    ValueOfDecimal(b);
  }

  predicate YearsInOrder(s: Stamp, t: Stamp) {
    s.year == t.year || (Before(Decimal(s.year), Decimal(t.year)) <==> s.year < t.year)
  }

  /** Names of one day are in byte order exactly when their hours and minutes are in order. */
  lemma NameOrder(s: Stamp, t: Stamp)
    requires s.Valid() && t.Valid() && s.year == t.year && s.month == t.month && s.day == t.day
    ensures Before(NameOf(s), NameOf(t)) <==> s.hour < t.hour || (s.hour == t.hour && s.minute < t.minute)
  {
    hide Before, Decimal, Pad2;
    var head := "dd_" + Decimal(s.year) + "_" + Pad2(s.month) + "_" + Pad2(s.day) + "-";
    var end := ".json.gz";
    assert NameOf(s) == head + (Pad2(s.hour) + ("_" + (Pad2(s.minute) + end)));
    assert NameOf(t) == head + (Pad2(t.hour) + ("_" + (Pad2(t.minute) + end)));
    BeforeOfParts(head, head, Pad2(s.hour) + ("_" + (Pad2(s.minute) + end)), Pad2(t.hour) + ("_" + (Pad2(t.minute) + end)));
    BeforeOfParts(Pad2(s.hour), Pad2(t.hour), "_" + (Pad2(s.minute) + end), "_" + (Pad2(t.minute) + end));
    BeforeOfParts("_", "_", Pad2(s.minute) + end, Pad2(t.minute) + end);
    BeforeOfParts(Pad2(s.minute), Pad2(t.minute), end, end);
    BeforeIrreflexive(head);
    BeforeIrreflexive("_");
    BeforeIrreflexive(end);
    Pad2Order(s.hour, t.hour);
    Pad2Order(s.minute, t.minute);
  }

  /**
   * For any two minutes: the walk of year, month, day and file name visits them in the order of
   * time if and only if the texts of their years are in the order of the years.
   */
  lemma WalkOrderIff(s: Stamp, t: Stamp)
    requires s.Valid() && t.Valid()
    ensures (PathBefore(PathOf(s), PathOf(t)) <==> s.Time() < t.Time()) <==> YearsInOrder(s, t)
  {
    hide Before, Decimal, Pad2, NameOf, Date, PathBefore, Stamp.Valid;
    TimeOrder(s, t);
    PathOfFour(PathOf(s), PathOf(t));
    if s.year == t.year {
      BeforeIrreflexive(Decimal(s.year));
      MonthDayOrder(s, t);
      if s.month == t.month && s.day == t.day { NameOrder(s, t); }
    } else {
      ValueOfDecimal(s.year);
      ValueOfDecimal(t.year);
    }
  }

  lemma MonthDayOrder(s: Stamp, t: Stamp)
    requires s.Valid() && t.Valid()
    ensures Before(Pad2(s.month), Pad2(t.month)) <==> s.month < t.month
    ensures Pad2(s.month) == Pad2(t.month) <==> s.month == t.month
    ensures Before(Pad2(s.day), Pad2(t.day)) <==> s.day < t.day
    ensures Pad2(s.day) == Pad2(t.day) <==> s.day == t.day
  {
    hide Before, Pad2;
    Pad2Order(s.month, t.month);
    Pad2Order(s.day, t.day);
  }

  /** Years of equally many digits keep the walk in the order of time. */
  lemma SameDigitsKeepOrder(s: Stamp, t: Stamp)
    requires s.Valid() && t.Valid() && |Decimal(s.year)| == |Decimal(t.year)|
    ensures PathBefore(PathOf(s), PathOf(t)) <==> s.Time() < t.Time()
  {
    hide Before, Decimal, PathOf, Date, PathBefore, Stamp.Valid;
    YearOrder(s.year, t.year);
    WalkOrderIff(s, t);
  }

  /** In particular with four-digit years. */
  lemma WalkOrderIsTimeOrder(s: Stamp, t: Stamp)
    requires s.Valid() && t.Valid() && FourDigitYear(s) && FourDigitYear(t)
    ensures PathBefore(PathOf(s), PathOf(t)) <==> s.Time() < t.Time()
    ensures PathOf(s) == PathOf(t) <==> s == t
  {
    hide Before, Decimal, PathOf, Date, PathBefore, Stamp.Valid;
    FourDigits(s.year);
    FourDigits(t.year);
    SameDigitsKeepOrder(s, t);
    PathsDistinct(s, t);
  }

  lemma PathOfFour(p: Path, q: Path)
    requires |p| == 4 && |q| == 4
    ensures PathBefore(p, q) <==>
      Before(p[0], q[0]) || (p[0] == q[0] && (Before(p[1], q[1]) || (p[1] == q[1] && (Before(p[2], q[2]) ||
        (p[2] == q[2] && Before(p[3], q[3]))))))
  {
    hide Before;
    assert p[3..][1..] == [] == q[3..][1..];
    assert PathBefore(p[3..], q[3..]) <==> Before(p[3], q[3]);
    assert p[2..][1..] == p[3..] && q[2..][1..] == q[3..];
    assert PathBefore(p[2..], q[2..]) <==> Before(p[2], q[2]) || (p[2] == q[2] && PathBefore(p[3..], q[3..]));
    assert p[1..][1..] == p[2..] && q[1..][1..] == q[2..];
    assert PathBefore(p[1..], q[1..]) <==> Before(p[1], q[1]) || (p[1] == q[1] && PathBefore(p[2..], q[2..]));
  }

  /** Where it fails: every file of year 10000 comes before every file of year 9999, although it is later. */
  lemma FiveDigitYearsComeFirst(s: Stamp, t: Stamp)
    requires s.Valid() && t.Valid() && s.year == 9999 && t.year == 10000
    ensures s.Time() < t.Time() && PathBefore(PathOf(t), PathOf(s))
  {
    hide Date, Stamp.Valid, NameOf, Pad2;
    TimeOrder(s, t);
    YearTexts();
  }

  lemma YearTexts()
    ensures Before(Decimal(10000), Decimal(9999))
  {
    assert Decimal(10000)[0] == '1' && Decimal(9999)[0] == '9';
  }
}
