/** Settings kept as text in the database, and the two numbers read from them. */
module Settings {
  import opened Seqs
  import opened Text
  import opened Integers

  type Store = map<string, string>

  /** A text behind its sign, if it has one. */
  function Magnitude(s: string): string { if s != [] && (s[0] == '-' || s[0] == '+') then s[1..] else s }

  /** strconv.Atoi on the 386 build with its error ignored: zero for no number, the nearest int out of range. */
  function Atoi(s: string): int {
    var d := Magnitude(s);
    if d == [] || !AllDigits(d) then 0
    else
      var v: int := Value(d);
      if s[0] == '-' then (if v > 0x8000_0000 then -0x8000_0000 else -v)
      else if v > 0x7fff_ffff then 0x7fff_ffff else v
  }

  /** A printed number is read back, cut to the range of an int. */
  lemma AtoiOfDecimal(i: int)
    ensures Atoi(DecimalInt(i)) == if i > 0x7fff_ffff then 0x7fff_ffff else if i < -0x8000_0000 then -0x8000_0000 else i
  {
    var magnitude: nat := if i < 0 then -i else i;
    ValueOfDecimal(magnitude);
    assert IsDigit(Decimal(magnitude)[0]);
    if i < 0 { assert DecimalInt(i)[1..] == Decimal(magnitude); }
  }

  /**
   * InitSetting: a missing key is stored with its default, but the value handed back is the empty
   * one of the failed lookup, because the new item is another variable of the same name.
   */
  function InitSetting(store: Store, key: string, value: string): (string, Store) {
    if key in store then (store[key], store) else ("", store[key := value])
  }

  const MODULUS_KEY := "filetransfer.modulus"

  /** The modulus a start of the file transfer works with. */
  function StartModulus(store: Store): int { Atoi(InitSetting(store, MODULUS_KEY, "20").0) }

  /** The store after that start. */
  function StartStore(store: Store): Store { InitSetting(store, MODULUS_KEY, "20").1 }

  /** The text is a number other than zero. */
  predicate NonZero(s: string) {
    Magnitude(s) != [] && AllDigits(Magnitude(s)) && Value(Magnitude(s)) != 0
  }

  /** What the sender divides by is zero exactly when no setting is stored yet, or one that is zero or no number. */
  lemma ModulusIsZeroIff(store: Store)
    ensures StartModulus(store) % TWO32 == 0 <==> !(MODULUS_KEY in store && NonZero(store[MODULUS_KEY]))
  {
    if MODULUS_KEY in store {
      AtoiIsSmall(store[MODULUS_KEY]);
    }
  }

  lemma AtoiIsSmall(s: string)
    ensures -0x8000_0000 <= Atoi(s) <= 0x7fff_ffff
    ensures Atoi(s) != 0 <==> NonZero(s)
  {}

  /** A stored number is the one a start works with, cut to an int, and the start changes no setting. */
  lemma StoredModulusIsUsed(store: Store, n: int)
    requires MODULUS_KEY in store && store[MODULUS_KEY] == DecimalInt(n)
    ensures -0x8000_0000 <= n <= 0x7fff_ffff ==> StartModulus(store) == n
    ensures StartStore(store) == store
  {
    AtoiOfDecimal(n);
  }

  /** So it is on a fresh database; from the next start on it is 20. */
  lemma FreshModulusIsZero(store: Store)
    requires MODULUS_KEY !in store
    ensures StartModulus(store) % TWO32 == 0
    ensures StartModulus(StartStore(store)) == 20
  {
    assert "20"[..1] == "2" && "2"[..0] == "";
    assert Value("2") == 2 && Value("20") == 20;
  }

  /** The days of retention: the stored setting when it can be read and is positive. */
  function Retention(previous: int, setting: Option<string>): (days: int)
    ensures previous >= 1 ==> 1 <= days
  {
    if setting.None? then previous
    else if Atoi(setting.value) < 1 then 7
    else Atoi(setting.value)
  }

  /**
   * Any stored text: a positive number, with or without a plus sign, is the retention as far as an
   * int goes; a number below one and a text that is no number stand for 7. An unreadable setting
   * leaves the days as they were.
   */
  lemma RetentionOfText(previous: int, s: string)
    ensures Retention(previous, None) == previous
    ensures var number := ParseDecimalInt(if s != [] && s[0] == '+' then s[1..] else s);
      Retention(previous, Some(s)) ==
        if number.None? || number.value < 1 then 7
        else if number.value > 0x7fff_ffff then 0x7fff_ffff else number.value
  {}

  /** A printed number of days is the retention when it is positive, as far as an int goes. */
  lemma RetentionOfDecimal(previous: int, days: int)
    ensures Retention(previous, Some(DecimalInt(days)))
      == if days < 1 then 7 else if days > 0x7fff_ffff then 0x7fff_ffff else days
  {
    AtoiOfDecimal(days);
  }
}
