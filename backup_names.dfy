/**
 * The name of the table an import backs up into: the destination table's name, the import's date
 * as yyyyMMdd, and "_back_up". The date is a parameter (the source reads the clock).
 */
module BackupNames {

  /** A calendar date as LocalDate carries it. */
  datatype Date = Date(year: int, month: int, day: int)

  /** Dates `yyyy` prints as four digits, with a real month and day. */
  predicate ValidDate(d: Date) {
    1 <= d.year <= 9999 && 1 <= d.month <= 12 && 1 <= d.day <= 31
  }

  function Pow10(width: nat): (p: nat)
    ensures p >= 1
  {
    if width == 0 then 1 else 10 * Pow10(width - 1)
  }

  predicate IsDigit(c: char) {
    '0' <= c <= '9'
  }

  /** `n` in decimal, zero-padded to exactly `width` digits. */
  function Digits(n: nat, width: nat): (s: string)
    requires n < Pow10(width)
    ensures |s| == width
    ensures forall i | 0 <= i < |s| :: IsDigit(s[i])
  {
    if width == 0 then ""
    else Digits(n / 10, width - 1) + [('0' as int + n % 10) as char]
  }

  /** The number a string of decimal digits denotes. */
  function DigitsValue(s: string): nat
    requires forall i | 0 <= i < |s| :: IsDigit(s[i])
  {
    if s == [] then 0
    else
      assert IsDigit(s[|s| - 1]);
      DigitsValue(s[..|s| - 1]) * 10 + (s[|s| - 1] as int - '0' as int)
  }

  /** Reading back the padded digits gives the number. */
  lemma {:induction false} DigitsRoundTrip(n: nat, width: nat)
    requires n < Pow10(width)
    ensures DigitsValue(Digits(n, width)) == n
  {
    if width > 0 {
      var s := Digits(n, width);
      assert s[..|s| - 1] == Digits(n / 10, width - 1);
      DigitsRoundTrip(n / 10, width - 1);
    }
  }

  /** `LocalDate.format(DateTimeFormatter.ofPattern("yyyyMMdd"))`. */
  function FormatYyyyMMdd(d: Date): (s: string)
    requires ValidDate(d)
    ensures |s| == 8
    ensures forall i | 0 <= i < 8 :: IsDigit(s[i])
  {
    Digits(d.year, 4) + Digits(d.month, 2) + Digits(d.day, 2)
  }

  /** Reads an eight-digit yyyyMMdd string back into a date. */
  function ParseYyyyMMdd(s: string): Date
    requires |s| == 8 && forall i | 0 <= i < 8 :: IsDigit(s[i])
  {
    Date(DigitsValue(s[..4]), DigitsValue(s[4..6]), DigitsValue(s[6..]))
  }

  /** The formatted date determines the date. */
  lemma FormatRoundTrip(d: Date)
    requires ValidDate(d)
    ensures ParseYyyyMMdd(FormatYyyyMMdd(d)) == d
  {
    var s := FormatYyyyMMdd(d);
    assert s[..4] == Digits(d.year, 4);
    assert s[4..6] == Digits(d.month, 2);
    assert s[6..] == Digits(d.day, 2);
    DigitsRoundTrip(d.year, 4);
    DigitsRoundTrip(d.month, 2);
    DigitsRoundTrip(d.day, 2);
  }

  /** `prefix + currentDate + "_back_up"`, the prefix being the destination table's name and "_". */
  function BackupTableName(prefix: string, d: Date): (name: string)
    requires ValidDate(d)
    ensures |name| == |prefix| + 16
    ensures name[..|prefix|] == prefix && name[|prefix| + 8..] == "_back_up"
  {
    prefix + FormatYyyyMMdd(d) + "_back_up"
  }

  /**
   * Different days give different backup tables; the same day gives the same name, so a second
   * import on one day asks for a backup table that the first one already named.
   */
  lemma BackupNameDeterminesDate(prefix: string, d1: Date, d2: Date)
    requires ValidDate(d1) && ValidDate(d2)
    ensures BackupTableName(prefix, d1) == BackupTableName(prefix, d2) <==> d1 == d2
  {
    if BackupTableName(prefix, d1) == BackupTableName(prefix, d2) {
      var n1, n2 := BackupTableName(prefix, d1), BackupTableName(prefix, d2);
      assert n1[|prefix|..|prefix| + 8] == FormatYyyyMMdd(d1);
      assert n2[|prefix|..|prefix| + 8] == FormatYyyyMMdd(d2);
      FormatRoundTrip(d1);
      FormatRoundTrip(d2);
    }
  }
}
