/**
 * `extract_date_from_filename` of `summarize_transcripts.py`: the first
 * `YYYY-MM-DD` in a name, checked as a calendar date by `datetime.strptime` and
 * rewritten as `DD.MM.YYYY` by `strftime`.
 */
module Dates {
  import opened Wrappers
  import opened Text

  predicate IsDigit(c: char) { '0' <= c <= '9' }

  /** The ten characters from `i` match the regular expression `\d{4}-\d{2}-\d{2}`. */
  predicate ShapeAt(s: string, i: nat) {
    && i + 10 <= |s|
    && IsDigit(s[i]) && IsDigit(s[i + 1]) && IsDigit(s[i + 2]) && IsDigit(s[i + 3])
    && s[i + 4] == '-' && IsDigit(s[i + 5]) && IsDigit(s[i + 6])
    && s[i + 7] == '-' && IsDigit(s[i + 8]) && IsDigit(s[i + 9])
  }

  /** `re.search` for that pattern from position `from`: the leftmost match. */
  function FirstShape(s: string, from: nat): (r: Option<nat>)
    ensures r.Some? ==> from <= r.value && ShapeAt(s, r.value)
    ensures r.Some? ==> forall k :: from <= k < r.value ==> !ShapeAt(s, k)
    ensures r.None? ==> forall k :: from <= k ==> !ShapeAt(s, k)
    decreases |s| - from
  {
    if from + 10 > |s| then None
    else if ShapeAt(s, from) then Some(from)
    else FirstShape(s, from + 1)
  }

  datatype Date = Date(year: nat, month: nat, day: nat)

  predicate IsLeap(y: nat) {
    y % 4 == 0 && (y % 100 != 0 || y % 400 == 0)
  }

  function DaysInMonth(y: nat, m: nat): nat
    requires 1 <= m <= 12
  {
    if m == 2 then (if IsLeap(y) then 29 else 28)
    else if m == 4 || m == 6 || m == 9 || m == 11 then 30
    else 31
  }

  /** What `strptime` accepts: a year from 1 on (the least `datetime` allows), a
      month from 1 to 12 and a day that exists in that month. */
  predicate Valid(d: Date) {
    1 <= d.year && 1 <= d.month <= 12 && 1 <= d.day <= DaysInMonth(d.year, d.month)
  }

  /** The date a `YYYY-MM-DD` match denotes. */
  function ParseIso(s: string, i: nat): Date
    requires ShapeAt(s, i)
  {
    Date(DecimalValue(s[i..i + 4]), DecimalValue(s[i + 5..i + 7]), DecimalValue(s[i + 8..i + 10]))
  }

  function Pow10(w: nat): nat {
    if w == 0 then 1 else 10 * Pow10(w - 1)
  }

  /** `n` in decimal with exactly `w` digits, zero-padded (`%02d`, `%04d`). */
  function Pad(n: nat, w: nat): (r: string)
    ensures |r| == w && AllDigits(r)
  {
    if w == 0 then [] else Pad(n / 10, w - 1) + [DigitChar(n % 10)]
  }

  /** `strftime('%d.%m.%Y')`. */
  function FormatDotted(d: Date): (r: string)
    ensures |r| == 10
  {
    Pad(d.day, 2) + "." + Pad(d.month, 2) + "." + Pad(d.year, 4)
  }

  /** Reads `DD.MM.YYYY` back into a date. */
  function ParseDotted(r: string): Option<Date>
  {
    if |r| == 10 && r[2] == '.' && r[5] == '.' && AllDigits(r[..2]) && AllDigits(r[3..5]) && AllDigits(r[6..])
    then Some(Date(DecimalValue(r[6..]), DecimalValue(r[3..5]), DecimalValue(r[..2])))
    else None
  }

  /** `extract_date_from_filename`: the first `YYYY-MM-DD` match as `DD.MM.YYYY`,
      or `None` when there is no match or the first match is not a calendar date. */
  function ExtractDate(s: string): (r: Option<string>)
    ensures r.Some? ==> FirstShape(s, 0).Some?
    ensures r.Some? ==> |r.value| == 10 && r.value[2] == '.' && r.value[5] == '.' && AllDigits(r.value[6..])
  {
    match FirstShape(s, 0)
    case None => None
    case Some(i) =>
      var d := ParseIso(s, i);
      if Valid(d) then Some(FormatDotted(d)) else None
  }

  /** Zero-padding a string of digits' value to its own width gives the string back. */
  lemma {:induction false} PadOfDigits(s: string)
    requires AllDigits(s)
    ensures Pad(DecimalValue(s), |s|) == s
  {
    if s != [] {
      var init := s[..|s| - 1];
      PadOfDigits(init);
      var n := DecimalValue(s);
      assert n / 10 == DecimalValue(init) && n % 10 == DigitValue(s[|s| - 1]);
    }
  }

  /** A zero-padded number reads back as itself when it fits the width. */
  lemma {:induction false} PadRoundTrip(n: nat, w: nat)
    requires n < Pow10(w)
    ensures DecimalValue(Pad(n, w)) == n
  {
    if w > 0 {
      PadRoundTrip(n / 10, w - 1);
      var p := Pad(n, w);
      assert p[..|p| - 1] == Pad(n / 10, w - 1);
    }
  }

  /** A date is found only where the name holds four digits, a dash, two digits,
      a dash and two digits. */
  lemma ExtractDateNeedsShape(s: string)
    ensures ExtractDate(s).Some? ==> exists i :: ShapeAt(s, i)
    ensures (forall i :: !ShapeAt(s, i)) ==> ExtractDate(s).None?
  {
  }

  /** The value of two and of four digits, written out. */
  lemma DigitsValue(s: string)
    requires AllDigits(s)
    ensures |s| == 2 ==> DecimalValue(s) == DigitValue(s[0]) * 10 + DigitValue(s[1])
    ensures |s| == 4 ==> DecimalValue(s) == ((DigitValue(s[0]) * 10 + DigitValue(s[1])) * 10
                                             + DigitValue(s[2])) * 10 + DigitValue(s[3])
  {
    if |s| == 2 {
      assert s[..1][..0] == [];
      assert DecimalValue(s[..1]) == DigitValue(s[0]);
    } else if |s| == 4 {
      assert s[..3][..2][..1][..0] == [];
    }
  }

  /** Formatting the date that three digit strings denote writes those digits back. */
  lemma FormatOfDigits(dd: string, mm: string, yyyy: string)
    requires |dd| == 2 && |mm| == 2 && |yyyy| == 4
    requires AllDigits(dd) && AllDigits(mm) && AllDigits(yyyy)
    ensures FormatDotted(Date(DecimalValue(yyyy), DecimalValue(mm), DecimalValue(dd))) == dd + "." + mm + "." + yyyy
  {
    PadOfDigits(dd);
    PadOfDigits(mm);
    PadOfDigits(yyyy);
  }

  /** For a valid first match `YYYY-MM-DD` the result is `DD.MM.YYYY` made of the
      very same digits. */
  lemma ExtractDateRearranges(s: string, i: nat)
    requires FirstShape(s, 0) == Some(i) && Valid(ParseIso(s, i))
    ensures ExtractDate(s) == Some(s[i + 8..i + 10] + "." + s[i + 5..i + 7] + "." + s[i..i + 4])
  {
    var dd, mm, yyyy := s[i + 8..i + 10], s[i + 5..i + 7], s[i..i + 4];
    assert ExtractDate(s) == Some(FormatDotted(ParseIso(s, i)));
    assert AllDigits(dd) && AllDigits(mm) && AllDigits(yyyy);
    FormatOfDigits(dd, mm, yyyy);
  }

  /** `DD.MM.YYYY` made of digit strings reads back as the date they denote. */
  lemma ParseDottedParts(dd: string, mm: string, yyyy: string)
    requires |dd| == 2 && |mm| == 2 && |yyyy| == 4
    requires AllDigits(dd) && AllDigits(mm) && AllDigits(yyyy)
    ensures ParseDotted(dd + "." + mm + "." + yyyy) == Some(Date(DecimalValue(yyyy), DecimalValue(mm), DecimalValue(dd)))
  {
    var r := dd + "." + mm + "." + yyyy;
    assert |r| == 10;
    assert r[..2] == dd && r[2] == '.';
    assert r[3..5] == mm && r[5] == '.';
    assert r[6..] == yyyy;
    assert AllDigits(r[..2]) && AllDigits(r[3..5]) && AllDigits(r[6..]);
  }

  /** Reading a formatted date back gives the date, when its parts fit their widths. */
  lemma FormatParse(d: Date)
    requires d.day < 100 && d.month < 100 && d.year < 10000
    ensures ParseDotted(FormatDotted(d)) == Some(d)
  {
    assert Pow10(2) == 100 && Pow10(4) == 10000;
    PadRoundTrip(d.day, 2);
    PadRoundTrip(d.month, 2);
    PadRoundTrip(d.year, 4);
    ParseDottedParts(Pad(d.day, 2), Pad(d.month, 2), Pad(d.year, 4));
  }

  /** Re-splitting the formatted date gives back the day, month and year of the match. */
  lemma ExtractDateRoundTrip(s: string)
    requires ExtractDate(s).Some?
    ensures var i := FirstShape(s, 0).value;
            ParseDotted(ExtractDate(s).value) == Some(ParseIso(s, i)) && Valid(ParseIso(s, i))
  {
    var i := FirstShape(s, 0).value;
    var d := ParseIso(s, i);
    assert Valid(d) && ExtractDate(s) == Some(FormatDotted(d));
    ParseIsoDigits(s, i);
    FormatParse(d);
  }

  /** The value of the digit at index `k` of `s`. */
  function DigitAt(s: string, k: nat): nat
    requires k < |s| && IsDigit(s[k])
  {
    DigitValue(s[k])
  }

  /** The date a match denotes, digit by digit. */
  lemma ParseIsoDigits(s: string, i: nat)
    requires ShapeAt(s, i)
    ensures ParseIso(s, i).year == ((DigitAt(s, i) * 10 + DigitAt(s, i + 1)) * 10 + DigitAt(s, i + 2)) * 10 + DigitAt(s, i + 3)
    ensures ParseIso(s, i).month == DigitAt(s, i + 5) * 10 + DigitAt(s, i + 6)
    ensures ParseIso(s, i).day == DigitAt(s, i + 8) * 10 + DigitAt(s, i + 9)
  {
    DigitsValue(s[i..i + 4]);
    DigitsValue(s[i + 5..i + 7]);
    DigitsValue(s[i + 8..i + 10]);
  }

  /** Only the first match counts: a leading `YYYY-MM-DD` that is not a calendar
      date gives `None`, even when a valid date follows it. */
  lemma OnlyFirstMatchCounts(d: string, rest: string)
    requires |d| == 10 && ShapeAt(d, 0) && !Valid(ParseIso(d, 0))
    ensures ExtractDate(d + rest) == None
  {
    assert FirstShape(d, 0) == Some(0);
    LeadingMatchDecides(d, rest);
  }

  /** Only the first match counts: whatever follows a leading `YYYY-MM-DD`, valid
      date or not, the result is that of the leading ten characters. */
  lemma LeadingMatchDecides(d: string, rest: string)
    requires |d| == 10 && ShapeAt(d, 0)
    ensures ExtractDate(d + rest) == ExtractDate(d)
  {
    var s := d + rest;
    assert s[..10] == d;
    assert ShapeAt(s, 0);
    assert s[0..4] == d[0..4] && s[5..7] == d[5..7] && s[8..10] == d[8..10];
    assert ParseIso(s, 0) == ParseIso(d, 0);
  }

  /** Month 13 is not a date. */
  lemma MonthThirteenRejected(s: string)
    requires s == "2025-13-01"
    ensures ExtractDate(s) == None
  {
    assert ShapeAt(s, 0);
    assert FirstShape(s, 0) == Some(0);
    ParseIsoDigits(s, 0);
  }

  /** No February has a 30th or a 31st, leap year or not. */
  lemma FebruaryThirtiethRejected(s: string)
    requires ShapeAt(s, 0) && ParseIso(s, 0).month == 2 && ParseIso(s, 0).day >= 30
    ensures ExtractDate(s) == None
  {
    assert FirstShape(s, 0) == Some(0);
  }

  /** The 29th of February is not a date outside leap years: a leading match for
      29 February of a common year gives `None`. */
  lemma NonLeapDayRejected(s: string)
    requires ShapeAt(s, 0) && ParseIso(s, 0).month == 2 && ParseIso(s, 0).day == 29
    requires !IsLeap(ParseIso(s, 0).year)
    ensures ExtractDate(s) == None
  {
    assert FirstShape(s, 0) == Some(0);
  }

  /** A leading 29 February is a date exactly in leap years. */
  lemma LeapDayRule(s: string)
    requires ShapeAt(s, 0) && ParseIso(s, 0).year >= 1 && ParseIso(s, 0).month == 2 && ParseIso(s, 0).day == 29
    ensures ExtractDate(s).Some? <==> IsLeap(ParseIso(s, 0).year)
  {
    assert FirstShape(s, 0) == Some(0);
  }

  /** Year 0 is below the least year `datetime` represents: a leading match whose
      year is `0000` gives `None`, whatever its month and day. */
  lemma YearZeroRejected(s: string)
    requires ShapeAt(s, 0) && s[..4] == "0000"
    ensures ExtractDate(s) == None
  {
    assert FirstShape(s, 0) == Some(0);
    assert s[0] == '0' && s[1] == '0' && s[2] == '0' && s[3] == '0';
    ParseIsoDigits(s, 0);
  }
}
