/**
 * The file name of the trend document (`generateFileName`): a fixed name when
 * the feed's update time is empty; `YYYYMMDD_Qiitaトレンド.txt` from a leading
 * `YYYY-MM-DD` (the full-date of section 5.6 of RFC 3339); otherwise the date
 * the JavaScript `Date` object reads in the host's local time zone.
 */
module FileName {
  import opened Wrappers

  /** The fixed part of every file name; alone, the name used when no update time is known. */
  const Label: string := "Qiitaトレンド.txt"

  /** The message of the RangeError `toISOString()` raises on an invalid date. */
  const InvalidTimeValue: string := "Invalid time value"

  /** `\d` of a JavaScript regular expression without the `u` flag: an ASCII digit. */
  predicate IsDigit(ch: char) {
    '0' <= ch <= '9'
  }

  /** The regular expression `^(\d{4})-(\d{2})-(\d{2})` matches `s`. */
  predicate HasDatePrefix(s: string) {
    && |s| >= 10
    && IsDigit(s[0]) && IsDigit(s[1]) && IsDigit(s[2]) && IsDigit(s[3])
    && s[4] == '-'
    && IsDigit(s[5]) && IsDigit(s[6])
    && s[7] == '-'
    && IsDigit(s[8]) && IsDigit(s[9])
  }

  /**
   * What the `Date` object built from the update time reports in the host's
   * local time zone: `getFullYear()`, `getMonth() + 1` and `getDate()`.
   */
  datatype LocalDate = LocalDate(year: int, month: int, day: int)

  function DigitChar(d: nat): (ch: char)
    requires d < 10
    ensures IsDigit(ch)
  {
    (('0' as int) + d) as char
  }

  function DigitValue(ch: char): (d: nat)
    requires IsDigit(ch)
    ensures d < 10
  {
    (ch as int) - ('0' as int)
  }

  predicate AllDigits(s: string) {
    forall k :: 0 <= k < |s| ==> IsDigit(s[k])
  }

  /** The number a string of decimal digits denotes. */
  function DecimalValue(s: string): (n: nat)
    requires AllDigits(s)
  {
    if s == [] then 0 else 10 * DecimalValue(s[..|s| - 1]) + DigitValue(s[|s| - 1])
  }

  /** `String(n)` for a natural number: its decimal digits, with no leading zero. */
  function NatToString(n: nat): (s: string)
    ensures 1 <= |s| && AllDigits(s)
    ensures DecimalValue(s) == n
    ensures |s| > 1 ==> s[0] != '0'
  {
    if n < 10 then [DigitChar(n)]
    else
      var s := NatToString(n / 10) + [DigitChar(n % 10)];
      assert s[..|s| - 1] == NatToString(n / 10);
      assert DigitValue(DigitChar(n % 10)) == n % 10;
      s
  }

  /** `String(i)` for an integer. */
  function IntToString(i: int): (s: string)
    ensures i >= 0 ==> 1 <= |s| && AllDigits(s) && DecimalValue(s) == i && (|s| > 1 ==> s[0] != '0')
    ensures i < 0 ==> |s| >= 2 && s[0] == '-' && AllDigits(s[1..]) && DecimalValue(s[1..]) == -i && (|s| > 2 ==> s[1] != '0')
  {
    if i < 0 then
      var s := "-" + NatToString(-i);
      assert s[1..] == NatToString(-i);
      s
    else NatToString(i)
  }

  /** `s.padStart(2, '0')`. */
  function PadStart2(s: string): (r: string)
    ensures |r| == if |s| < 2 then 2 else |s|
    ensures r[|r| - |s|..] == s
    ensures forall k :: 0 <= k < |r| - |s| ==> r[k] == '0'
  {
    if |s| == 0 then "00" else if |s| == 1 then "0" + s else s
  }

  /** `generateFileName`, given what the host's `Date` reads from the update time (None: an invalid date). */
  function GenerateFileName(feedUpdated: string, hostDate: Option<LocalDate>): (r: Result<string, string>)
  {
    if feedUpdated == "" then Success(Label)
    else if HasDatePrefix(feedUpdated) then
      Success(feedUpdated[0..4] + feedUpdated[5..7] + feedUpdated[8..10] + "_" + Label)
    else
      match hostDate
      case None => Failure(InvalidTimeValue)
      case Some(d) =>
        Success(IntToString(d.year) + PadStart2(IntToString(d.month)) + PadStart2(IntToString(d.day)) + "_" + Label)
  }

  /** A name of the form `YYYYMMDD_Qiitaトレンド.txt`. */
  predicate IsDatedName(name: string) {
    |name| == 9 + |Label| && AllDigits(name[..8]) && name[8..] == "_" + Label
  }

  /** The `YYYY-MM-DD` date a dated name stands for. */
  function DateOfName(name: string): (date: string)
    requires IsDatedName(name)
  {
    name[..4] + "-" + name[4..6] + "-" + name[6..8]
  }

  /** An empty update time gives the fixed name, whatever the host's `Date` would read. */
  lemma FileNameEmpty(hostDate: Option<LocalDate>)
    ensures GenerateFileName("", hostDate) == Success(Label)
  {
  }

  /**
   * A leading `YYYY-MM-DD` gives its eight digits, in order, then "_" and the
   * label; the name stands for exactly that date.
   */
  lemma FileNameFromDatePrefix(s: string, hostDate: Option<LocalDate>)
    requires HasDatePrefix(s)
    ensures GenerateFileName(s, hostDate).Success?
    ensures var name := GenerateFileName(s, hostDate).value;
      && name == s[0..4] + s[5..7] + s[8..10] + "_" + Label
      && IsDatedName(name)
      && DateOfName(name) == s[..10]
  {
    var name := GenerateFileName(s, hostDate).value;
    assert name[..8] == s[0..4] + s[5..7] + s[8..10];
    assert name[8..] == "_" + Label;
    assert name[..4] == s[0..4] && name[4..6] == s[5..7] && name[6..8] == s[8..10];
    assert s[..10] == s[0..4] + "-" + s[5..7] + "-" + s[8..10];
  }

  /** Every dated name is what the date it stands for gives. */
  lemma FileNameOfDateOfName(name: string, hostDate: Option<LocalDate>)
    requires IsDatedName(name)
    ensures HasDatePrefix(DateOfName(name))
    ensures GenerateFileName(DateOfName(name), hostDate) == Success(name)
  {
    var date := DateOfName(name);
    assert AllDigits(name[..8]);
    assert forall k :: 0 <= k < 8 ==> name[..8][k] == name[k];
    assert date[0..4] == name[..4] && date[5..7] == name[4..6] && date[8..10] == name[6..8];
    assert name[..4] + name[4..6] + name[6..8] == name[..8];
    assert name == name[..8] + name[8..];
    assert date[0..4] + date[5..7] + date[8..10] + "_" + Label == name[..8] + ("_" + Label);
  }

  /** On the regular-expression path only the first ten characters matter. */
  lemma FileNameFirstTen(s: string, t: string, d1: Option<LocalDate>, d2: Option<LocalDate>)
    requires HasDatePrefix(s) && |t| >= 10 && s[..10] == t[..10]
    ensures GenerateFileName(s, d1) == GenerateFileName(t, d2)
  {
    assert forall k :: 0 <= k < 10 ==> s[k] == s[..10][k] == t[..10][k] == t[k];
    assert s[0..4] == t[0..4] && s[5..7] == t[5..7] && s[8..10] == t[8..10];
  }

  /** The only failure: a non-empty update time that neither matches nor makes a valid `Date`. */
  lemma FileNameFailsIff(s: string, hostDate: Option<LocalDate>)
    ensures GenerateFileName(s, hostDate).Failure? <==> s != "" && !HasDatePrefix(s) && hostDate.None?
    ensures GenerateFileName(s, hostDate).Failure? ==> GenerateFileName(s, hostDate).error == InvalidTimeValue
  {
  }

  /** The decimal string of a number has as many digits as the number's size says. */
  lemma {:induction false} NatToStringLength(n: nat)
    ensures n < 10 ==> |NatToString(n)| == 1
    ensures 10 <= n < 100 ==> |NatToString(n)| == 2
    ensures 100 <= n < 1000 ==> |NatToString(n)| == 3
    ensures 1000 <= n < 10000 ==> |NatToString(n)| == 4
  {
    if n >= 10 {
      NatToStringLength(n / 10);
    }
  }

  /** `String(n).padStart(2, '0')` for a month or a day: two digits with its value. */
  lemma TwoDigits(n: nat)
    requires 1 <= n <= 31
    ensures |PadStart2(NatToString(n))| == 2 && AllDigits(PadStart2(NatToString(n)))
    ensures DecimalValue(PadStart2(NatToString(n))) == n
  {
    NatToStringLength(n);
    var s := NatToString(n);
    if n < 10 {
      var r := PadStart2(s);
      assert r == ['0', s[0]];
      assert r[..1] == ['0'];
      assert [s[0]] == s;
    }
  }

  /**
   * When the fallback reads a four-digit year and a valid month and day, the
   * name has the same `YYYYMMDD_Qiitaトレンド.txt` form, and its digits are that
   * year, month and day.
   */
  lemma FileNameFallback(s: string, d: LocalDate)
    requires s != "" && !HasDatePrefix(s)
    requires 1000 <= d.year <= 9999 && 1 <= d.month <= 12 && 1 <= d.day <= 31
    ensures GenerateFileName(s, Some(d)).Success?
    ensures var name := GenerateFileName(s, Some(d)).value;
      && IsDatedName(name)
      && AllDigits(name[..4]) && AllDigits(name[4..6]) && AllDigits(name[6..8])
      && DecimalValue(name[..4]) == d.year
      && DecimalValue(name[4..6]) == d.month
      && DecimalValue(name[6..8]) == d.day
  {
    assert GenerateFileName(s, Some(d)) == Success(LocalStampName(d)) by {
      assert IntToString(d.year) == NatToString(d.year);
      assert IntToString(d.month) == NatToString(d.month);
      assert IntToString(d.day) == NatToString(d.day);
    }
    LocalStampNameDigits(d);
  }

  /** The name the fallback gives for a date read with a non-negative year, month and day. */
  function LocalStampName(d: LocalDate): (name: string)
    requires d.year >= 0 && d.month >= 0 && d.day >= 0
  {
    NatToString(d.year) + PadStart2(NatToString(d.month)) + PadStart2(NatToString(d.day)) + "_" + Label
  }

  /** The digits of the fallback name are the year, the month and the day. */
  lemma LocalStampNameDigits(d: LocalDate)
    requires 1000 <= d.year <= 9999 && 1 <= d.month <= 12 && 1 <= d.day <= 31
    ensures var name := LocalStampName(d);
      && IsDatedName(name)
      && AllDigits(name[..4]) && AllDigits(name[4..6]) && AllDigits(name[6..8])
      && DecimalValue(name[..4]) == d.year
      && DecimalValue(name[4..6]) == d.month
      && DecimalValue(name[6..8]) == d.day
  {
    var y, m, dd := NatToString(d.year), PadStart2(NatToString(d.month)), PadStart2(NatToString(d.day));
    NatToStringLength(d.year);
    TwoDigits(d.month);
    TwoDigits(d.day);
    StampedName(y, m, dd);
  }

  /** Four digits, two digits and two digits, then "_" and the label, make a dated name. */
  lemma StampedName(y: string, m: string, dd: string)
    requires |y| == 4 && |m| == 2 && |dd| == 2 && AllDigits(y) && AllDigits(m) && AllDigits(dd)
    ensures var name := y + m + dd + "_" + Label;
      IsDatedName(name) && name[..4] == y && name[4..6] == m && name[6..8] == dd
  {
    var name := y + m + dd + "_" + Label;
    assert name[..8] == y + m + dd;
    assert name[8..] == "_" + Label;
    forall k | 0 <= k < 8
      ensures IsDigit(name[..8][k])
    {
      if k < 4 { assert name[..8][k] == y[k]; }
      else if k < 6 { assert name[..8][k] == m[k - 4]; }
      else { assert name[..8][k] == dd[k - 6]; }
    }
  }

  /** The update time of a morning feed names the file after its date. */
  lemma FileNameExample(hostDate: Option<LocalDate>)
    ensures GenerateFileName("2025-08-01T05:00:00+09:00", hostDate) == Success("20250801_Qiitaトレンド.txt")
  {
    var s := "2025-08-01T05:00:00+09:00";
    assert HasDatePrefix(s);
    FileNameFromDatePrefix(s, hostDate);
    assert s[0..4] == "2025" && s[5..7] == "08" && s[8..10] == "01";
    assert "2025" + "08" + "01" + "_" + Label == "20250801_Qiitaトレンド.txt";
  }
}
