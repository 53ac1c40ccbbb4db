// Calendar dates as Python's `datetime.strptime` reads them and as Qt's
// `QDate.toString('yyyy-MM-dd')` writes them.
//
// strptime compiles each directive to a regular expression (`%Y` is four
// digits, `%m` is `1[0-2]|0[1-9]|[1-9]`, `%d` is
// `3[01]|[12]\d|0[1-9]|[1-9]| [1-9]`, `%H` is `2[0-3]|[01]\d|\d`, `%M` is `[0-5]\d|\d`, `%S` is `6[01]|[0-5]\d|\d`,
// a blank in the format is `\s+`), requires the match to cover the whole
// string, and then rejects dates that do not exist and seconds above 59.
// Because each numeric directive is followed by a separator or by the end of
// the string, every directive accepts exactly a run of one or two digits
// whose value lies in the directive's range; the day also accepts a single
// blank followed by a digit from 1 to 9.

module Dates {
  import opened Outcomes
  import Text

  datatype Date = Date(year: int, month: int, day: int)

  datatype DateTime = DateTime(date: Date, hour: int, minute: int, second: int)

  predicate IsLeap(y: int) {
    y % 4 == 0 && (y % 100 != 0 || y % 400 == 0)
  }

  function DaysIn(y: int, m: int): int {
    if m == 2 then (if IsLeap(y) then 29 else 28)
    else if m == 4 || m == 6 || m == 9 || m == 11 then 30
    else 31
  }

  /** A date Python's `datetime` can hold (MINYEAR = 1, MAXYEAR = 9999). */
  predicate Valid(d: Date) {
    1 <= d.year <= 9999 && 1 <= d.month <= 12 && 1 <= d.day <= DaysIn(d.year, d.month)
  }

  /** QDate ordering: by year, then month, then day. */
  predicate Before(a: Date, b: Date) {
    a.year < b.year
    || (a.year == b.year && a.month < b.month)
    || (a.year == b.year && a.month == b.month && a.day < b.day)
  }

  // ------------------------------------------------------------- digits

  predicate IsDigit(c: char) {
    '0' <= c <= '9'
  }

  /** The length of the run of digits that starts at `i`. */
  function DigitRun(s: string, i: nat): (n: nat)
    requires i <= |s|
    ensures i + n <= |s|
    ensures i + n == |s| || !IsDigit(s[i + n])
    decreases |s| - i
  {
    if i < |s| && IsDigit(s[i]) then 1 + DigitRun(s, i + 1) else 0
  }

  /** The decimal value of a string of digits. */
  function Value(s: string): int {
    if |s| == 0 then 0 else Value(s[..|s| - 1]) * 10 + (s[|s| - 1] as int - '0' as int)
  }

  lemma {:induction false} DigitRunDigits(s: string, i: nat)
    requires i <= |s|
    ensures forall k | i <= k < i + DigitRun(s, i) :: IsDigit(s[k])
    decreases |s| - i
  {
    if i < |s| && IsDigit(s[i]) {
      DigitRunDigits(s, i + 1);
    }
  }

  lemma {:induction false} ValueNonNegative(s: string)
    requires forall k | 0 <= k < |s| :: IsDigit(s[k])
    ensures Value(s) >= 0
  {
    if |s| > 0 {
      ValueNonNegative(s[..|s| - 1]);
    }
  }

  /** The length of the run of white space that starts at `i`. */
  function SpaceRun(s: string, i: nat): (n: nat)
    requires i <= |s|
    ensures i + n <= |s|
    ensures forall k | i <= k < i + n :: Text.IsSpace(s[k])
    decreases |s| - i
  {
    if i < |s| && Text.IsSpace(s[i]) then 1 + SpaceRun(s, i + 1) else 0
  }

  /**
   * A one- or two-digit directive at `i` whose value lies in [lo, hi]: the
   * value and the position after it.
   */
  function Directive(s: string, i: nat, lo: int, hi: int): (r: Option<(int, nat)>)
    requires i <= |s|
    ensures r.Some? ==> lo <= r.value.0 <= hi && i < r.value.1 <= |s|
  {
    var n := DigitRun(s, i);
    if 1 <= n <= 2 && lo <= Value(s[i..i + n]) <= hi then Some((Value(s[i..i + n]), i + n))
    else None
  }

  /**
   * The `%d` directive at `i`: a blank followed by a digit from 1 to 9, or
   * one or two digits whose value lies in [1, 31].
   */
  function DayDirective(s: string, i: nat): (r: Option<(int, nat)>)
    requires i <= |s|
    ensures r.Some? ==> 1 <= r.value.0 <= 31 && i < r.value.1 <= |s|
    ensures i + 1 < |s| && s[i] == ' ' && '1' <= s[i + 1] <= '9' ==>
      r == Some((s[i + 1] as int - '0' as int, i + 2))
    ensures i < |s| && IsDigit(s[i]) ==> r == Directive(s, i, 1, 31)
  {
    if i < |s| && s[i] == ' ' then
      if i + 1 < |s| && '1' <= s[i + 1] <= '9' then Some((s[i + 1] as int - '0' as int, i + 2)) else None
    else Directive(s, i, 1, 31)
  }

  /** `%Y-%m-%d` from position 0: the date fields and the position after them. */
  function DatePart(s: string): (r: Option<(Date, nat)>)
    ensures r.Some? ==> r.value.1 <= |s|
  {
    if |s| < 5 || DigitRun(s, 0) < 4 || s[4] != '-' then None
    else
      var y := Value(s[..4]);
      match Directive(s, 5, 1, 12)
      case None => None
      case Some((m, i)) =>
        if i >= |s| || s[i] != '-' then None
        else
          match DayDirective(s, i + 1)
          case None => None
          case Some((d, j)) => Some((Date(y, m, d), j))
  }

  /** `datetime.strptime(s, '%Y-%m-%d')`, None where it raises ValueError. */
  function ParseDate(s: string): (r: Option<Date>)
    ensures r.Some? ==> Valid(r.value)
  {
    match DatePart(s)
    case None => None
    case Some((d, j)) => if j == |s| && Valid(d) then Some(d) else None
  }

  /** `datetime.strptime(s, '%Y-%m-%d %H:%M:%S')`, None where it raises ValueError. */
  function ParseDateTime(s: string): (r: Option<DateTime>)
    ensures r.Some? ==> Valid(r.value.date) && 0 <= r.value.hour <= 23
    ensures r.Some? ==> 0 <= r.value.minute <= 59 && 0 <= r.value.second <= 59
  {
    match DatePart(s)
    case None => None
    case Some((d, j)) => TimeFrom(s, d, j)
  }

  /** ` %H:%M:%S` from position `j` to the end, after the date `d`. */
  function TimeFrom(s: string, d: Date, j: nat): (r: Option<DateTime>)
    requires j <= |s|
    ensures r.Some? ==> r.value.date == d && Valid(d) && 0 <= r.value.hour <= 23
    ensures r.Some? ==> 0 <= r.value.minute <= 59 && 0 <= r.value.second <= 59
  {
    var w := SpaceRun(s, j);
    if w == 0 then None
    else
      match Directive(s, j + w, 0, 23)
      case None => None
      case Some((h, k)) =>
        if k >= |s| || s[k] != ':' then None
        else
          match Directive(s, k + 1, 0, 59)
          case None => None
          case Some((mi, l)) =>
            if l >= |s| || s[l] != ':' then None
            else
              match Directive(s, l + 1, 0, 61)
              case None => None
              case Some((sec, e)) =>
                if e == |s| && Valid(d) && sec <= 59 then Some(DateTime(d, h, mi, sec)) else None
  }

  // ------------------------------------------------------------- format

  function DigitChar(n: int): char
    requires 0 <= n <= 9
  {
    ('0' as int + n) as char
  }

  /** `n` written with exactly `width` decimal digits, zero padded. */
  function Pad(n: nat, width: nat): (r: string)
    ensures |r| == width
    ensures forall k | 0 <= k < |r| :: IsDigit(r[k])
  {
    if width == 0 then "" else Pad(n / 10, width - 1) + [DigitChar(n % 10)]
  }

  lemma {:induction false} PadValue(n: nat, width: nat)
    requires n < Power10(width)
    ensures Value(Pad(n, width)) == n
  {
    if width > 0 {
      var p := Pad(n, width);
      assert p[..|p| - 1] == Pad(n / 10, width - 1);
      PadValue(n / 10, width - 1);
    }
  }

  function Power10(k: nat): nat {
    if k == 0 then 1 else 10 * Power10(k - 1)
  }

  /** `QDate.toString('yyyy-MM-dd')`. */
  function FormatDate(d: Date): (r: string)
    requires Valid(d)
    ensures |r| == 10 && r[4] == '-' && r[7] == '-'
  {
    Pad(d.year, 4) + "-" + Pad(d.month, 2) + "-" + Pad(d.day, 2)
  }

  /** What Qt writes for a date, strptime reads back as the same date. */
  lemma FormatParse(d: Date)
    requires Valid(d)
    ensures ParseDate(FormatDate(d)) == Some(d)
  {
    var s := FormatDate(d);
    var y, m, dd := Pad(d.year, 4), Pad(d.month, 2), Pad(d.day, 2);
    assert s == y + "-" + m + "-" + dd;
    PadValue(d.year, 4);
    PadValue(d.month, 2);
    PadValue(d.day, 2);
    assert s[..4] == y;
    assert DigitRun(s, 9) == 1;
    assert DigitRun(s, 8) == 2;
    assert s[8..10] == dd;
    assert DigitRun(s, 6) == 1;
    assert DigitRun(s, 5) == 2;
    assert s[5..7] == m;
    assert DigitRun(s, 3) >= 1;
    assert DigitRun(s, 2) >= 2;
    assert DigitRun(s, 1) >= 3;
    assert DigitRun(s, 0) >= 4;
  }

  /** Python accepts a one-digit month and day: `2017-1-5` is 5 January 2017. */
  lemma ShortFieldsAccepted()
    ensures ParseDate("2017-1-5") == Some(Date(2017, 1, 5))
  {
    var s := "2017-1-5";
    assert DigitRun(s, 7) == 1;
    assert DigitRun(s, 5) == 1;
    assert DigitRun(s, 3) >= 1;
    assert DigitRun(s, 2) >= 2;
    assert DigitRun(s, 1) >= 3;
    assert DigitRun(s, 0) >= 4;
    assert s[..4] == "2017";
    ValueOf2017();
    assert s[5..6] == "1";
    assert s[7..8] == "5";
    assert Directive(s, 5, 1, 12) == Some((1, 6));
    assert DayDirective(s, 7) == Some((5, 8));
  }

  /** `%d` also reads a blank and one digit: `2017-01- 5` is 5 January 2017. */
  lemma BlankDayAccepted()
    ensures ParseDate("2017-01- 5") == Some(Date(2017, 1, 5))
  {
    var s := "2017-01- 5";
    BlankYear(s);
    BlankMonth(s);
    assert DayDirective(s, 8) == Some((5, 10));
    DatePartFromPieces(s, 2017, 1, 5, 7, 10);
    assert Valid(Date(2017, 1, 5));
  }

  lemma BlankYear(s: string)
    requires s == "2017-01- 5"
    ensures |s| >= 5 && DigitRun(s, 0) >= 4 && s[4] == '-' && Value(s[..4]) == 2017
  {
    assert s[..4] == "2017";
    DigitsRun(s, 0, 4);
    ValueOf2017();
  }

  lemma BlankMonth(s: string)
    requires s == "2017-01- 5"
    ensures Directive(s, 5, 1, 12) == Some((1, 7)) && s[7] == '-'
  {
    ValueOfPairs();
    assert s[5..7] == "01";
    PairDirective(s, 5, 1, 12);
  }

  lemma ValueOf2017()
    ensures Value("2017") == 2017
  {
    assert "2017"[..3] == "201";
    assert "201"[..2] == "20";
    assert "20"[..1] == "2";
    assert ""[..0] == "";
  }

  /** A day that does not exist is refused: there is no 29 February 2017. */
  lemma NoSuchDayRefused()
    ensures ParseDate("2017-02-29") == None
  {
    var s := "2017-02-29";
    assert DigitRun(s, 9) == 1;
    assert DigitRun(s, 8) == 2;
    assert DigitRun(s, 6) == 1;
    assert DigitRun(s, 5) == 2;
    assert s[..4] == "2017";
    ValueOf2017();
    assert s[5..7] == "02";
    assert Value("02") == 2 by {
      assert "02"[..1] == "0";
      assert "0"[..0] == "";
    }
    assert s[8..10] == "29";
    assert Value("29") == 29 by {
      assert "29"[..1] == "2";
      assert "2"[..0] == "";
    }
    assert Directive(s, 5, 1, 12) == Some((2, 7));
    assert DayDirective(s, 8) == Some((29, 10));
  }

  /** A date-time with colons in the date part does not match the format. */
  lemma ColonDateRefused()
    ensures ParseDateTime("2017:01:01 00:00:01") == None
  {
    var s := "2017:01:01 00:00:01";
    assert s[4] == ':';
    assert DatePart(s) == None;
  }

  /** Two digits followed by a non-digit (or the end) are read as one directive. */
  lemma PairDirective(s: string, i: nat, lo: int, hi: int)
    requires i + 2 <= |s| && IsDigit(s[i]) && IsDigit(s[i + 1])
    requires i + 2 == |s| || !IsDigit(s[i + 2])
    requires lo <= Value(s[i..i + 2]) <= hi
    ensures Directive(s, i, lo, hi) == Some((Value(s[i..i + 2]), i + 2))
  {
    assert DigitRun(s, i + 2) == 0;
    assert DigitRun(s, i + 1) == 1;
  }

  lemma ValueOfPairs()
    ensures Value("00") == 0 && Value("01") == 1
  {
    assert "00"[..1] == "0";
    assert "01"[..1] == "0";
    assert "0"[..0] == "";
  }

  lemma DashedDatePart(s: string)
    requires s == "2017-01-01 00:00:01"
    ensures DatePart(s) == Some((Date(2017, 1, 1), 10))
  {
    DashedYear(s);
    DashedMonth(s);
    DashedDay(s);
    DatePartFromPieces(s, 2017, 1, 1, 7, 10);
  }

  lemma DashedYear(s: string)
    requires s == "2017-01-01 00:00:01"
    ensures |s| >= 5 && DigitRun(s, 0) >= 4 && s[4] == '-' && Value(s[..4]) == 2017
  {
    assert s[..4] == "2017";
    DigitsRun(s, 0, 4);
    ValueOf2017();
  }

  /** A run of `n` digits at `i` is read as at least `n` digits. */
  lemma {:induction false} DigitsRun(s: string, i: nat, n: nat)
    requires i + n <= |s| && forall k | i <= k < i + n :: IsDigit(s[k])
    ensures DigitRun(s, i) >= n
    decreases n
  {
    if n > 0 {
      DigitsRun(s, i + 1, n - 1);
    }
  }

  lemma DashedMonth(s: string)
    requires s == "2017-01-01 00:00:01"
    ensures Directive(s, 5, 1, 12) == Some((1, 7)) && s[7] == '-'
  {
    ValueOfPairs();
    assert s[5..7] == "01";
    PairDirective(s, 5, 1, 12);
  }

  lemma DashedDay(s: string)
    requires s == "2017-01-01 00:00:01"
    ensures DayDirective(s, 8) == Some((1, 10))
  {
    ValueOfPairs();
    assert s[8..10] == "01";
    PairDirective(s, 8, 1, 31);
  }

  /** `%Y-%m-%d` read piece by piece. */
  lemma DatePartFromPieces(s: string, y: int, m: int, d: int, i: nat, j: nat)
    requires |s| >= 5 && DigitRun(s, 0) >= 4 && s[4] == '-' && Value(s[..4]) == y
    requires Directive(s, 5, 1, 12) == Some((m, i)) && i < |s| && s[i] == '-'
    requires DayDirective(s, i + 1) == Some((d, j))
    ensures DatePart(s) == Some((Date(y, m, d), j))
  {
  }

  lemma ParseDateTimeParts(s: string, d: Date, j: nat, h: int, mi: int, sec: int)
    requires DatePart(s) == Some((d, j)) && j + 9 == |s| && SpaceRun(s, j) == 1
    requires Directive(s, j + 1, 0, 23) == Some((h, j + 3)) && s[j + 3] == ':'
    requires Directive(s, j + 4, 0, 59) == Some((mi, j + 6)) && s[j + 6] == ':'
    requires Directive(s, j + 7, 0, 61) == Some((sec, j + 9))
    requires Valid(d) && sec <= 59
    ensures ParseDateTime(s) == Some(DateTime(d, h, mi, sec))
  {
    TimeFromParts(s, d, j, h, mi, sec);
  }

  lemma TimeFromParts(s: string, d: Date, j: nat, h: int, mi: int, sec: int)
    requires j + 9 == |s| && SpaceRun(s, j) == 1
    requires Directive(s, j + 1, 0, 23) == Some((h, j + 3)) && s[j + 3] == ':'
    requires Directive(s, j + 4, 0, 59) == Some((mi, j + 6)) && s[j + 6] == ':'
    requires Directive(s, j + 7, 0, 61) == Some((sec, j + 9))
    requires Valid(d) && sec <= 59
    ensures TimeFrom(s, d, j) == Some(DateTime(d, h, mi, sec))
  {
  }

  lemma DashedSpace(s: string)
    requires s == "2017-01-01 00:00:01"
    ensures SpaceRun(s, 10) == 1
  {
    assert SpaceRun(s, 11) == 0;
  }

  lemma DashedTime(s: string)
    requires s == "2017-01-01 00:00:01"
    ensures s[13] == ':' && s[16] == ':'
    ensures Directive(s, 11, 0, 23) == Some((0, 13))
    ensures Directive(s, 14, 0, 59) == Some((0, 16))
    ensures Directive(s, 17, 0, 61) == Some((1, 19))
  {
    ValueOfPairs();
    assert s[11..13] == "00" && s[14..16] == "00" && s[17..19] == "01";
    PairDirective(s, 11, 0, 23);
    PairDirective(s, 14, 0, 59);
    PairDirective(s, 17, 0, 61);
  }

  /** The same instant written with dashes in the date part is read as intended. */
  lemma DashedDateTimeAccepted()
    ensures ParseDateTime("2017-01-01 00:00:01") == Some(DateTime(Date(2017, 1, 1), 0, 0, 1))
  {
    var s := "2017-01-01 00:00:01";
    DashedDatePart(s);
    DashedSpace(s);
    DashedTime(s);
    assert Valid(Date(2017, 1, 1));
    ParseDateTimeParts(s, Date(2017, 1, 1), 10, 0, 0, 1);
  }
}
