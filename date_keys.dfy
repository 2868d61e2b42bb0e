/** Date keys: the `YYYY-MM-DD` strings (RFC 3339 section 5.6 `full-date`) that every
    component stores and compares, produced by `date.toISOString().split('T')[0]` and read
    back by `new Date(key)`. */
module DateKeys {
  import opened Wrappers
  import opened JsString
  import opened Gregorian

  /** The year field of `Date.prototype.toISOString`: four digits for years 0 to 9999,
      otherwise the expanded form of a sign and six digits (section 21.4.1.32 of ECMAScript). */
  function YearText(y: int): string
  {
    if 0 <= y <= 9999 then Decimal(y, 4)
    else if y > 9999 then "+" + Decimal(y, 6)
    else "-" + Decimal(-y, 6)
  }

  /** The date part of `toISOString` for a calendar day. */
  function FormatCivil(c: Civil): string
    requires Valid(c)
  {
    YearText(c.year) + "-" + Decimal(c.month, 2) + "-" + Decimal(c.day, 2)
  }

  /** The key of day number `n`. */
  function KeyOf(n: int): string
  {
    FormatCivil(CivilOf(n))
  }

  /** Day `n` lies in years 0000 to 9999, where keys are RFC 3339 full-dates. */
  predicate FourDigitYear(n: int)
  {
    0 <= CivilOf(n).year <= 9999
  }

  /** Reads an RFC 3339 full-date; `None` for any other string and for a day that does not
      exist, as ECMAScript's date-time string format requires (section 21.4.1.32). */
  function ParseCivil(s: string): (r: Option<Civil>)
    ensures r.Some? ==> Valid(r.value) && 0 <= r.value.year <= 9999
  {
    if |s| == 10 && s[4] == '-' && s[7] == '-' &&
       AllDigits(s[..4]) && AllDigits(s[5..7]) && AllDigits(s[8..]) then
      var c := Civil(DigitsValue(s[..4], 10), DigitsValue(s[5..7], 10), DigitsValue(s[8..], 10));
      DecimalOfDigits(s[..4]);
      if Valid(c) then Some(c) else None
    else None
  }

  /** `new Date(s)` for a date key, at day granularity: the day number, or `None` for an
      Invalid Date (whose time value is NaN). */
  function ParseKey(s: string): Option<int>
  {
    match ParseCivil(s)
    case None => None
    case Some(c) => Some(DayNumber(c))
  }

  predicate IsKey(s: string) { ParseKey(s).Some? }

  /** The day each string of a list names, as `new Date(x)` for each `x`. */
  function DaysOf(s: seq<string>): (r: seq<Option<int>>)
    ensures |r| == |s|
    ensures forall i {:trigger r[i]} :: 0 <= i < |s| ==> r[i] == ParseKey(s[i])
  {
    if s == [] then [] else [ParseKey(s[0])] + DaysOf(s[1..])
  }

  /** The day a valid key names. */
  function KeyDay(s: string): int
    requires IsKey(s)
  {
    ParseKey(s).value
  }

  lemma FormatCivilParts(c: Civil)
    requires Valid(c) && 0 <= c.year <= 9999
    ensures var s := FormatCivil(c);
            |s| == 10 && s[4] == '-' && s[7] == '-' &&
            s[..4] == Decimal(c.year, 4) && s[5..7] == Decimal(c.month, 2) && s[8..] == Decimal(c.day, 2)
  {
    DecimalLength(c.year, 4);
    DecimalLength(c.month, 2);
    DecimalLength(c.day, 2);
  }

  /** Reading a formatted day gives the day back. */
  lemma ParseFormatCivil(c: Civil)
    requires Valid(c) && 0 <= c.year <= 9999
    ensures ParseCivil(FormatCivil(c)) == Some(c)
  {
    FormatCivilParts(c);
    DecimalValue(c.year, 4);
    DecimalValue(c.month, 2);
    DecimalValue(c.day, 2);
  }

  /** A string that parses is exactly the formatting of the day it denotes. */
  lemma FormatParseCivil(s: string)
    requires ParseCivil(s).Some?
    ensures FormatCivil(ParseCivil(s).value) == s
  {
    var c := ParseCivil(s).value;
    DecimalOfDigits(s[..4]);
    DecimalOfDigits(s[5..7]);
    DecimalOfDigits(s[8..]);
    FormatCivilParts(c);
    assert s == s[..4] + "-" + s[5..7] + "-" + s[8..];
  }

  /** Round trip from day numbers: the key of a day in years 0000-9999 reads back as that day. */
  lemma ParseKeyOf(n: int)
    requires FourDigitYear(n)
    ensures ParseKey(KeyOf(n)) == Some(n)
  {
    ParseFormatCivil(CivilOf(n));
    DayNumberOfCivilOf(n);
  }

  /** Round trip from strings: a string that reads as day `n` is the key of `n`. */
  lemma KeyOfParseKey(s: string)
    requires IsKey(s)
    ensures FourDigitYear(ParseKey(s).value)
    ensures KeyOf(ParseKey(s).value) == s
  {
    var c := ParseCivil(s).value;
    CivilOfDayNumber(c);
    FormatParseCivil(s);
  }

  /** Two days in years 0000-9999 have the same key only if they are the same day. */
  lemma KeyOfInjective(n1: int, n2: int)
    requires FourDigitYear(n1) && FourDigitYear(n2) && KeyOf(n1) == KeyOf(n2)
    ensures n1 == n2
  {
    ParseKeyOf(n1);
    ParseKeyOf(n2);
  }

  /** Every key has at least ten characters, and exactly ten in years 0000-9999. */
  lemma KeyOfLength(n: int)
    ensures |KeyOf(n)| >= 10
    ensures |KeyOf(n)| == 10 <==> FourDigitYear(n)
  {
    var c := CivilOf(n);
    DecimalLength(c.month, 2);
    DecimalLength(c.day, 2);
    if FourDigitYear(n) {
      DecimalLength(c.year, 4);
    } else if c.year > 9999 {
      assert |Decimal(c.year, 6)| >= 6 by { DecimalAtLeast(c.year, 6); }
    } else {
      assert |Decimal(-c.year, 6)| >= 6 by { DecimalAtLeast(-c.year, 6); }
    }
  }

  lemma {:induction false} DecimalAtLeast(n: nat, width: nat)
    ensures |Decimal(n, width)| >= width
    decreases n, width
  {
    if !(n < 10 && width <= 1) {
      DecimalAtLeast(n / 10, if width > 0 then width - 1 else 0);
    }
  }

  /** Chronological order of calendar days, year first. */
  predicate CivilBefore(c1: Civil, c2: Civil)
  {
    c1.year < c2.year || (c1.year == c2.year && c1.month < c2.month) ||
    (c1.year == c2.year && c1.month == c2.month && c1.day < c2.day)
  }

  /** Equal-width digit fields compare as their values, and are equal when their values are. */
  lemma DigitField(a: string, b: string)
    requires |a| == |b| >= 1 && AllDigits(a) && AllDigits(b)
    ensures LexLess(a, b) <==> DigitsValue(a, 10) < DigitsValue(b, 10)
    ensures a == b <==> DigitsValue(a, 10) == DigitsValue(b, 10)
  {
    LexLessDigits(a, b);
    DecimalOfDigits(a);
    DecimalOfDigits(b);
  }

  /** The string order of two full-dates is the chronological order of their days. */
  lemma LexLessFullDate(s: string, t: string)
    requires ParseCivil(s).Some? && ParseCivil(t).Some?
    ensures LexLess(s, t) <==> CivilBefore(ParseCivil(s).value, ParseCivil(t).value)
  {
    DigitField(s[..4], t[..4]);
    DigitField(s[5..7], t[5..7]);
    DigitField(s[8..], t[8..]);
    assert s == s[..4] + ([s[4]] + (s[5..7] + ([s[7]] + s[8..])));
    assert t == t[..4] + ([t[4]] + (t[5..7] + ([t[7]] + t[8..])));
    LexLessConcat(s[..4], [s[4]] + (s[5..7] + ([s[7]] + s[8..])), t[..4], [t[4]] + (t[5..7] + ([t[7]] + t[8..])));
    LexLessConcat([s[4]], s[5..7] + ([s[7]] + s[8..]), [t[4]], t[5..7] + ([t[7]] + t[8..]));
    LexLessIrreflexive([s[4]]);
    LexLessConcat(s[5..7], [s[7]] + s[8..], t[5..7], [t[7]] + t[8..]);
    LexLessConcat([s[7]], s[8..], [t[7]], t[8..]);
    LexLessIrreflexive([s[7]]);
  }

  /** What the components rely on when they sort keys as strings: for well-formed keys the
      string order is the order of the days. */
  lemma KeyOrder(s: string, t: string)
    requires IsKey(s) && IsKey(t)
    ensures LexLess(s, t) <==> ParseKey(s).value < ParseKey(t).value
  {
    LexLessFullDate(s, t);
    DayNumberOrder(ParseCivil(s).value, ParseCivil(t).value);
  }

  /** The same for keys built from day numbers. */
  lemma KeyOfOrder(n1: int, n2: int)
    requires FourDigitYear(n1) && FourDigitYear(n2)
    ensures LexLess(KeyOf(n1), KeyOf(n2)) <==> n1 < n2
  {
    ParseKeyOf(n1);
    ParseKeyOf(n2);
    KeyOrder(KeyOf(n1), KeyOf(n2));
  }

  /** The days with a four-digit year form one interval: 0000-01-01 .. 9999-12-31. */
  lemma FourDigitYearRange(n: int)
    ensures FourDigitYear(n) <==> 0 <= n < DaysBeforeYear(10000)
  {
    var c := CivilOf(n);
    DayNumberOfCivilOf(n);
    DayNumberBounds(c);
    if c.year < 0 {
      DaysBeforeYearMonotone(c.year, 0);
    } else if c.year > 10000 {
      DaysBeforeYearMonotone(10000, c.year);
    } else if c.year < 10000 {
      DaysBeforeYearMonotone(c.year, 10000);
      if c.year > 0 { DaysBeforeYearMonotone(0, c.year); }
    }
  }

  /** Every day between two days with four-digit years has a four-digit year. */
  lemma FourDigitYearBetween(lo: int, hi: int)
    requires FourDigitYear(lo) && FourDigitYear(hi)
    ensures forall n :: lo <= n <= hi ==> FourDigitYear(n)
  {
    FourDigitYearRange(lo);
    FourDigitYearRange(hi);
    forall n | lo <= n <= hi ensures FourDigitYear(n) {
      FourDigitYearRange(n);
    }
  }
}
