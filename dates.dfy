/**
 * The date parsing step of the manifest loader: a record's optional `date`
 * string (`YYYY` or `MM/DD/YYYY`) becomes a JavaScript Date, seen here only
 * through its time value, counted in whole days since 1970-01-01.
 *
 * Three pieces of JavaScript semantics are written out because the parser
 * relies on them: `String.prototype.split` on one character, the conversion
 * of a string argument to a number inside `new Date(y, m, d)`, and the Date
 * constructor itself (two-digit years, month overflow, the day count).
 */
module Dates {
  import opened Wrappers

  /** A JavaScript number as the date code can produce it: an integer or NaN. */
  datatype Num = Finite(n: int) | NaN {
    /** `x - k` in JavaScript: NaN stays NaN. */
    function Minus(k: int): Num {
      match this
      case Finite(n) => Finite(n - k)
      case NaN => NaN
    }
  }

  /** A Date object: a time value in days, or an Invalid Date (time value NaN). */
  datatype JsDate = TimeValue(days: int) | InvalidDate

  /** `new Date(0)`: the epoch. */
  const Epoch: JsDate := TimeValue(0)

  // ---------------------------------------------------------------------------
  // Digits and string-to-number conversion

  predicate IsDigit(c: char) { '0' <= c <= '9' }

  predicate AllDigits(s: string) { forall i :: 0 <= i < |s| ==> IsDigit(s[i]) }

  function Pow10(k: nat): (p: nat)
    ensures p >= 1
  {
    if k == 0 then 1 else 10 * Pow10(k - 1)
  }

  /** The decimal value of a string of ASCII digits (leading zeros allowed). */
  function DigitsValue(s: string): (v: nat)
    requires AllDigits(s)
    ensures v < Pow10(|s|)
  {
    if s == [] then 0
    else 10 * DigitsValue(s[..|s| - 1]) + (s[|s| - 1] as int - '0' as int)
  }

  /**
   * ToNumber on the strings a date field can hold: the empty string is 0,
   * a string of decimal digits is its value, anything else is NaN.
   */
  function ToNumber(s: string): (r: Num)
    ensures s == [] ==> r == Finite(0)
    ensures r.Finite? <==> AllDigits(s)
    ensures r.Finite? ==> r.n >= 0
  {
    if AllDigits(s) then Finite(DigitsValue(s)) else NaN
  }

  /** The `width`-digit decimal spelling of `n`, zero-padded on the left. */
  function Digits(n: nat, width: nat): (s: string)
    ensures |s| == width && AllDigits(s)
  {
    if width == 0 then []
    else Digits(n / 10, width - 1) + [('0' as int + n % 10) as char]
  }

  lemma {:induction false} DigitsRoundTrip(n: nat, width: nat)
    requires n < Pow10(width)
    ensures DigitsValue(Digits(n, width)) == n
  {
    if width > 0 {
      var s := Digits(n, width);
      assert s[..|s| - 1] == Digits(n / 10, width - 1);
      DigitsRoundTrip(n / 10, width - 1);
    }
  }

  // ---------------------------------------------------------------------------
  // String.prototype.split on a one-character separator

  /** `s.split(sep)`: the maximal runs between separators, empty runs kept. */
  function Split(s: string, sep: char): (parts: seq<string>)
    ensures |parts| >= 1
  {
    if s == [] then [""]
    else
      var rest := Split(s[1..], sep);
      if s[0] == sep then [""] + rest
      else [[s[0]] + rest[0]] + rest[1..]
  }

  /** `parts.join(sep)`: the partner of Split. */
  function Join(parts: seq<string>, sep: char): string
    requires |parts| >= 1
  {
    if |parts| == 1 then parts[0] else parts[0] + [sep] + Join(parts[1..], sep)
  }

  function Count(s: string, c: char): nat {
    if s == [] then 0 else (if s[0] == c then 1 else 0) + Count(s[1..], c)
  }

  /** Splitting never loses text: joining the parts gives the string back. */
  lemma {:induction false} JoinSplit(s: string, sep: char)
    ensures Join(Split(s, sep), sep) == s
  {
    if s != [] {
      JoinSplit(s[1..], sep);
      var rest := Split(s[1..], sep);
      if s[0] != sep {
        if |rest| == 1 {
          assert [s[0]] + rest[0] == s;
        } else {
          assert rest == [rest[0]] + rest[1..];
          assert Join(rest, sep) == rest[0] + [sep] + Join(rest[1..], sep);
          assert [s[0]] + Join(rest, sep) == s;
        }
      }
    }
  }

  /** There is one more part than there are separators, and no part holds one. */
  lemma {:induction false} SplitShape(s: string, sep: char)
    ensures |Split(s, sep)| == Count(s, sep) + 1
    ensures forall i :: 0 <= i < |Split(s, sep)| ==> sep !in Split(s, sep)[i]
  {
    if s != [] {
      SplitShape(s[1..], sep);
    }
  }

  /** Splitting `a + sep + b` where `a` has no separator peels `a` off the front. */
  lemma {:induction false} SplitAfterPart(a: string, sep: char, b: string)
    requires sep !in a
    ensures Split(a + [sep] + b, sep) == [a] + Split(b, sep)
  {
    if a == [] {
      assert a + [sep] + b == [sep] + b;
      assert ([sep] + b)[1..] == b;
    } else {
      SplitAfterPart(a[1..], sep, b);
      assert (a + [sep] + b)[1..] == a[1..] + [sep] + b;
      assert [a[0]] + a[1..] == a;
    }
  }

  lemma {:induction false} SplitNoSeparator(a: string, sep: char)
    requires sep !in a
    ensures Split(a, sep) == [a]
  {
    if a != [] {
      SplitNoSeparator(a[1..], sep);
      assert [a[0]] + a[1..] == a;
    }
  }

  // ---------------------------------------------------------------------------
  // The Date constructor `new Date(year, monthIndex, day)` (local time, read as UTC)

  /** Years 0 to 99 passed to the Date constructor mean 1900 to 1999. */
  function MakeFullYear(y: int): (r: int)
    ensures 0 <= y <= 99 ==> r == 1900 + y
    ensures !(0 <= y <= 99) ==> r == y
  {
    if 0 <= y <= 99 then 1900 + y else y
  }

  /** Gregorian leap years: every fourth year, except centuries not divisible by 400. */
  predicate IsLeapYear(y: int) {
    y % 4 == 0 && (y % 100 != 0 || y % 400 == 0)
  }

  /**
   * Days from 1970-01-01 to the first day of month `m` (0 = January) of
   * year `y`, counted in 400-year eras of years that begin on 1 March.
   * MonthLengths gives the distance between consecutive months.
   */
  function MonthStart(y: int, m: int): (days: int)
    requires 0 <= m < 12
    ensures y == 1970 && m == 0 ==> days == 0
  {
    var y' := if m <= 1 then y - 1 else y;
    var era := y' / 400;
    var yoe := y' - era * 400;
    var mp := if m >= 2 then m - 2 else m + 10;
    var doy := (153 * mp + 2) / 5;
    var doe := yoe * 365 + yoe / 4 - yoe / 100 + doy;
    era * 146097 + doe - 719468
  }

  /** February has 29 days in a leap year and 28 otherwise. */
  lemma FebruaryLength(y: int)
    ensures MonthStart(y, 2) - MonthStart(y, 1) == (if IsLeapYear(y) then 29 else 28)
  {
    var era, yoe := y / 400, y % 400;
    assert MonthStart(y, 2) == era * 146097 + yoe * 365 + yoe / 4 - yoe / 100 - 719468;
    LeapYearInEra(y, era, yoe);
    if yoe == 0 {
      assert (y - 1) / 400 == era - 1 && (y - 1) % 400 == 399;
      assert MonthStart(y, 1) == (era - 1) * 146097 + 399 * 365 + 99 - 3 + 337 - 719468;
    } else {
      assert (y - 1) / 400 == era && (y - 1) % 400 == yoe - 1;
      assert MonthStart(y, 1) == era * 146097 + (yoe - 1) * 365 + (yoe - 1) / 4 - (yoe - 1) / 100 + 337 - 719468;
      assert yoe / 4 - (yoe - 1) / 4 == (if yoe % 4 == 0 then 1 else 0);
      assert yoe / 100 - (yoe - 1) / 100 == (if yoe % 100 == 0 then 1 else 0);
    }
  }

  /** Whether a year is a leap year depends only on its place in its 400-year era. */
  lemma LeapYearInEra(y: int, era: int, yoe: int)
    requires era == y / 400 && yoe == y % 400
    ensures IsLeapYear(y) <==> yoe % 4 == 0 && (yoe % 100 != 0 || yoe == 0)
  {
    var q4, q100 := yoe / 4, yoe / 100;
    assert y == 4 * (100 * era + q4) + yoe % 4;
    assert y == 100 * (4 * era + q100) + yoe % 100;
  }

  /**
   * Every other month `m - 1` of year `y`, which lasts from MonthStart(y, m - 1)
   * to MonthStart(y, m), has 31 days for January, March, May, July, August
   * and October, and 30 days for April, June, September and November.
   */
  lemma MonthLength(y: int, m: int)
    requires 1 <= m < 12 && m != 2
    ensures MonthStart(y, m) - MonthStart(y, m - 1) == (if m - 1 in {0, 2, 4, 6, 7, 9} then 31 else 30)
  {
    var y' := if m == 1 then y - 1 else y;
    var base := (y' / 400) * 146097 + (y' - (y' / 400) * 400) * 365 +
                (y' - (y' / 400) * 400) / 4 - (y' - (y' / 400) * 400) / 100 - 719468;
    var mp := if m == 1 then 11 else m - 2;
    assert MonthStart(y, m) == base + (153 * mp + 2) / 5;
    assert MonthStart(y, m - 1) == base + (153 * (mp - 1) + 2) / 5;
    if mp == 1 {} else if mp == 2 {} else if mp == 3 {} else if mp == 4 {} else if mp == 5 {}
    else if mp == 6 {} else if mp == 7 {} else if mp == 8 {} else if mp == 9 {} else if mp == 10 {}
  }

  /** December has 31 days: it runs to January of the next year. */
  lemma DecemberLength(y: int)
    ensures MonthStart(y + 1, 0) - MonthStart(y, 11) == 31
  {
    var base := (y / 400) * 146097 + (y - (y / 400) * 400) * 365 +
                (y - (y / 400) * 400) / 4 - (y - (y / 400) * 400) / 100 - 719468;
    assert MonthStart(y + 1, 0) == base + 306;
    assert MonthStart(y, 11) == base + 275;
  }

  /** MakeDay: months outside 0..11 carry into the year, days past the month carry on. */
  function MakeDay(year: int, month: int, date: int): int {
    MonthStart(year + month / 12, month % 12) + date - 1
  }

  /**
   * What MakeDay counts: a month in 0..11 counts from that month's first
   * day, month 12 is January of the next year and month -1 December of the
   * year before, and each further day of the month is one more day.
   */
  lemma MakeDayCarry(year: int, month: int, date: int)
    ensures 0 <= month < 12 ==> MakeDay(year, month, date) == MonthStart(year, month) + date - 1
    ensures MakeDay(year, 12, date) == MonthStart(year + 1, 0) + date - 1
    ensures MakeDay(year, -1, date) == MonthStart(year - 1, 11) + date - 1
    ensures MakeDay(year, month, date + 1) == MakeDay(year, month, date) + 1
  {
    if 0 <= month < 12 {
      assert month / 12 == 0 && month % 12 == month;
    }
    assert 12 / 12 == 1 && 12 % 12 == 0;
    assert -1 / 12 == -1 && -1 % 12 == 11;
  }

  /** `new Date(year, monthIndex, day)` with the arguments already converted. */
  function NewDate(year: Num, monthIndex: Num, day: Num): (d: JsDate)
    ensures d == InvalidDate <==> (year == NaN || monthIndex == NaN || day == NaN)
  {
    if year.NaN? || monthIndex.NaN? || day.NaN? then InvalidDate
    else TimeValue(MakeDay(MakeFullYear(year.n), monthIndex.n, day.n))
  }

  lemma EpochIsFirstOf1970()
    ensures NewDate(Finite(1970), Finite(0), Finite(1)) == Epoch
  {}

  /** The first of January strictly advances from one year to the next. */
  lemma JanuaryFirstAdvances(y: int)
    ensures MonthStart(y, 0) < MonthStart(y + 1, 0)
  {
    var a := y - 1;
    var eraA := a / 400;
    var eraB := (a + 1) / 400;
    assert eraB == eraA || eraB == eraA + 1;
    var yoeA := a - eraA * 400;
    var yoeB := a + 1 - eraB * 400;
    if eraB == eraA {
      assert yoeB == yoeA + 1;
      assert yoeB / 4 >= yoeA / 4;
      assert yoeB / 100 <= yoeA / 100 + 1;
    } else {
      assert yoeA == 399 && yoeB == 0;
    }
  }

  /** So 4-digit years order their dates: a later year gives a later Jan 1. */
  lemma {:induction false} JanuaryFirstMonotone(y1: int, y2: int)
    requires y1 < y2
    ensures MonthStart(y1, 0) < MonthStart(y2, 0)
    decreases y2 - y1
  {
    JanuaryFirstAdvances(y1);
    if y1 + 1 < y2 {
      JanuaryFirstMonotone(y1 + 1, y2);
    }
  }

  // ---------------------------------------------------------------------------
  // parseDate

  predicate IsFourDigitYear(s: string) { |s| == 4 && AllDigits(s) }

  /**
   * parseDate as written: absent or empty gives the epoch; exactly four
   * digits give January 1 of that year; three `/`-separated parts give
   * `new Date(part3, part1 - 1, part2)`; anything else gives the epoch.
   */
  function ParseDate(dateString: Option<string>): (d: JsDate)
    ensures dateString == None || dateString == Some("") ==> d == Epoch
    ensures dateString.Some? && IsFourDigitYear(dateString.value) ==> d.TimeValue?
    ensures d == InvalidDate ==> dateString.Some? && |Split(dateString.value, '/')| == 3
  {
    match dateString
    case None => Epoch
    case Some(s) =>
      if s == "" then Epoch
      else if IsFourDigitYear(s) then NewDate(ToNumber(s), Finite(0), Finite(1))
      else
        var parts := Split(s, '/');
        if |parts| == 3 then NewDate(ToNumber(parts[2]), ToNumber(parts[0]).Minus(1), ToNumber(parts[1]))
        else Epoch
  }

  /** No date, an empty one, or one that is neither a year nor three parts, gives the epoch. */
  lemma ParseDateFallback(dateString: Option<string>)
    requires dateString == None || dateString.value == "" ||
             (!IsFourDigitYear(dateString.value) && Count(dateString.value, '/') != 2)
    ensures ParseDate(dateString) == Epoch
  {
    if dateString.Some? && dateString.value != "" {
      SplitShape(dateString.value, '/');
    }
  }

  /** A four-digit year string names January 1 of that year (00..99 read as 19xx). */
  lemma ParseYear(s: string)
    requires IsFourDigitYear(s)
    ensures ParseDate(Some(s)) == TimeValue(MonthStart(MakeFullYear(DigitsValue(s)), 0))
  {}

  /** Formatting a year in 1000..9999 and parsing it back gives that year's Jan 1. */
  lemma YearRoundTrip(y: int)
    requires 1000 <= y <= 9999
    ensures ParseDate(Some(Digits(y, 4))) == TimeValue(MonthStart(y, 0))
  {
    DigitsRoundTrip(y, 4);
  }

  /** "2021" parses to a later key than "2020". */
  lemma LaterYearSortsLater()
    ensures ParseDateKey(Some("2020")) < ParseDateKey(Some("2021"))
  {
    assert "2020"[..3] == "202" && "2021"[..3] == "202" && "202"[..2] == "20" && "20"[..1] == "2";
    assert DigitsValue("2020") == 2020 && DigitsValue("2021") == 2021;
    ParseYear("2020");
    ParseYear("2021");
    JanuaryFirstAdvances(2020);
  }

  /** `MM/DD/YYYY` as a string. */
  function FormatDate(year: nat, month: nat, day: nat): string {
    Digits(month, 2) + "/" + Digits(day, 2) + "/" + Digits(year, 4)
  }

  lemma DigitsHaveNoSlash(n: nat, width: nat)
    ensures '/' !in Digits(n, width)
  {
  }

  /** Three separator-free parts joined by `/` split back into those parts. */
  lemma SplitThree(a: string, b: string, c: string)
    requires '/' !in a && '/' !in b && '/' !in c
    ensures Split(a + "/" + b + "/" + c, '/') == [a, b, c]
  {
    assert a + "/" + b + "/" + c == a + ['/'] + (b + ['/'] + c);
    SplitAfterPart(a, '/', b + ['/'] + c);
    SplitAfterPart(b, '/', c);
    SplitNoSeparator(c, '/');
  }

  /** A date string with exactly three parts goes to the Date constructor. */
  lemma ParseThreeParts(s: string, a: string, b: string, c: string)
    requires s != "" && !IsFourDigitYear(s) && Split(s, '/') == [a, b, c]
    ensures ParseDate(Some(s)) == NewDate(ToNumber(c), ToNumber(a).Minus(1), ToNumber(b))
  {
  }

  /**
   * A date written `MM/DD/YYYY` parses to that calendar day: year = third
   * part, month index = first part minus one, day = second part.
   */
  lemma CalendarRoundTrip(year: nat, month: nat, day: nat)
    requires 1000 <= year <= 9999 && 1 <= month <= 12 && 1 <= day <= 31
    ensures ParseDate(Some(FormatDate(year, month, day))) == TimeValue(MakeDay(year, month - 1, day))
  {
    ParseFormatted(year, month, day);
    assert MakeFullYear(year) == year;
  }

  /** The three parts of a formatted date reach the Date constructor as their numbers. */
  lemma ParseFormatted(year: nat, month: nat, day: nat)
    requires 1000 <= year <= 9999 && 1 <= month <= 12 && 1 <= day <= 31
    ensures ParseDate(Some(FormatDate(year, month, day))) == NewDate(Finite(year), Finite(month - 1), Finite(day))
  {
    var mm, dd, yyyy := Digits(month, 2), Digits(day, 2), Digits(year, 4);
    var s := FormatDate(year, month, day);
    DigitsHaveNoSlash(month, 2);
    DigitsHaveNoSlash(day, 2);
    DigitsHaveNoSlash(year, 4);
    SplitThree(mm, dd, yyyy);
    assert |s| == 10;
    ParseThreeParts(s, mm, dd, yyyy);
    DigitsRoundTrip(month, 2);
    DigitsRoundTrip(day, 2);
    DigitsRoundTrip(year, 4);
  }

  /** The only way to an Invalid Date: three parts, one of which is not numeric. */
  lemma ParseDateInvalid(s: string)
    ensures ParseDate(Some(s)) == InvalidDate <==>
              s != "" && !IsFourDigitYear(s) && |Split(s, '/')| == 3 &&
              exists i :: 0 <= i < 3 && !AllDigits(Split(s, '/')[i])
  {
    var parts := Split(s, '/');
    if s != "" && !IsFourDigitYear(s) && |parts| == 3 {
      if !AllDigits(parts[0]) {
        assert exists i :: 0 <= i < 3 && !AllDigits(parts[i]);
      }
    }
  }

  // ---------------------------------------------------------------------------
  // The sort key: corrected parseDate

  /** A date field the parser is meant to understand: a 4-digit year or three numeric parts. */
  predicate WellFormedDate(s: string) {
    IsFourDigitYear(s) ||
    (var parts := Split(s, '/'); |parts| == 3 && AllDigits(parts[0]) && AllDigits(parts[1]) && AllDigits(parts[2]))
  }

  /**
   * As written, a three-part date with a non-numeric part is an Invalid Date
   * (time value NaN), not the epoch the fallback branch gives everything else.
   */
  lemma NonNumericDateIsInvalid()
    ensures !WellFormedDate("ab/01/2020")
    ensures ParseDate(Some("ab/01/2020")) == InvalidDate
  {
    assert "ab/01/2020" == "ab" + "/" + "01" + "/" + "2020";
    SplitThree("ab", "01", "2020");
    assert !IsDigit("ab"[0]);
    ParseThreeParts("ab/01/2020", "ab", "01", "2020");
  }

  /**
   * The parsed date as the sort key (days since the epoch), with an Invalid
   * Date replaced by the epoch, as for every other date the parser cannot read.
   */
  function ParseDateKey(dateString: Option<string>): (key: int)
    ensures dateString == None ==> key == 0
    ensures dateString.Some? && !WellFormedDate(dateString.value) ==> key == 0
    ensures dateString.Some? && WellFormedDate(dateString.value) ==> ParseDate(dateString) == TimeValue(key)
  {
    match ParseDate(dateString)
    case TimeValue(t) => t
    case InvalidDate => 0
  }
}
