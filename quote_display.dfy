/** The checksum the quote card computes from a date key. */
module DateChecksum {
  import opened Wrappers
  import opened JsString

  /** The `reduce` over the parts: each part read with `parseInt` and added up; a part that
      does not read as a number (NaN) makes the whole sum NaN, here `None`. */
  function PartsSum(parts: seq<string>): (r: Option<int>)
    ensures r.Some? <==> AllNumbers(parts)
  {
    if parts == [] then Some(0)
    else
      var head := ParseInt(parts[0]);
      var rest := PartsSum(parts[1..]);
      assert forall i :: 1 <= i < |parts| ==> parts[i] == parts[1..][i - 1];
      if head.Some? && rest.Some? then Some(head.value + rest.value) else None
  }

  /** Every part reads as a number. */
  predicate AllNumbers(parts: seq<string>)
  {
    forall i :: 0 <= i < |parts| ==> ParseInt(parts[i]).Some?
  }

  /** The checksum of a date key: the sum of its dash-separated numbers, NaN when one of
      them does not read as a number; for a YYYY-MM-DD string, year + month + day. */
  function DateHash(key: string): (r: Option<int>)
    ensures r.Some? <==> AllNumbers(Split(key, '-'))
    ensures DateShape(key) ==>
              r.Some? && r.value == DigitsValue(key[..4], 10) + DigitsValue(key[5..7], 10) + DigitsValue(key[8..], 10)
  {
    var sum := PartsSum(Split(key, '-'));
    if DateShape(key) then
      ShapePartsSum(key);
      sum
    else
      sum
  }

  lemma DigitsHaveNoDash(t: string)
    requires AllDigits(t)
    ensures '-' !in t
  {
  }

  /** A date-shaped string splits at its two dashes into year, month and day. */
  lemma {:induction false} SplitDateShape(s: string)
    requires DateShape(s)
    ensures Split(s, '-') == [s[..4], s[5..7], s[8..]]
  {
    DigitsHaveNoDash(s[..4]);
    SplitAt(s, '-', 4);
    var t := s[5..];
    assert t[..2] == s[5..7];
    DigitsHaveNoDash(s[5..7]);
    SplitAt(t, '-', 2);
    var u := t[3..];
    assert u == s[8..];
    DigitsHaveNoDash(s[8..]);
    assert Split(u, '-') == [u];
  }

  /** Four digits, a dash, two digits, a dash, two digits. */
  predicate DateShape(s: string)
  {
    |s| == 10 && s[4] == '-' && s[7] == '-' &&
    AllDigits(s[..4]) && AllDigits(s[5..7]) && AllDigits(s[8..])
  }

  /** The parts of a date-shaped string add up to the sum of its three numbers. */
  lemma {:induction false} ShapePartsSum(s: string)
    requires DateShape(s)
    ensures var x, y, z := DigitsValue(s[..4], 10), DigitsValue(s[5..7], 10), DigitsValue(s[8..], 10);
            PartsSum(Split(s, '-')).Some? && PartsSum(Split(s, '-')).value == x + y + z
  {
    var x, y, z := DigitsValue(s[..4], 10), DigitsValue(s[5..7], 10), DigitsValue(s[8..], 10);
    SplitDateShape(s);
    ParseIntDecimal(s[..4]);
    ParseIntDecimal(s[5..7]);
    ParseIntDecimal(s[8..]);
    PartsSumThree(Split(s, '-'), x, y, z);
  }

  /** The sum of three parts that each read as a number. */
  lemma {:induction false} PartsSumThree(parts: seq<string>, x: int, y: int, z: int)
    requires |parts| == 3
    requires ParseInt(parts[0]) == Some(x) && ParseInt(parts[1]) == Some(y) && ParseInt(parts[2]) == Some(z)
    ensures PartsSum(parts).Some? && PartsSum(parts).value == x + y + z
  {
    var tail := parts[1..];
    var last := tail[1..];
    assert tail[0] == parts[1] && last[0] == parts[2];
    assert PartsSum(last[1..]).value == 0;
    assert PartsSum(last).value == z;
    assert PartsSum(tail).value == y + z;
  }
}

/** The quote card: a quote picked from the list by a checksum of the selected date key,
    or by the checksum plus a random offset, and the card's number. */
module QuoteDisplay {
  import opened DateChecksum
  import opened Wrappers
  import opened JsString
  import opened DateKeys
  import opened Gregorian

  datatype Quote = Quote(text: string, author: string, category: string)

  /** A full-date is date-shaped, and its checksum is year + month + day. */
  lemma {:induction false} DateHashOfKey(s: string)
    requires ParseCivil(s).Some?
    ensures DateShape(s)
    ensures var c := ParseCivil(s).value;
            DateHash(s).Some? && DateHash(s).value == c.year + c.month + c.day
  {
    var c := ParseCivil(s).value;
    assert c.year == DigitsValue(s[..4], 10) && c.month == DigitsValue(s[5..7], 10) &&
           c.day == DigitsValue(s[8..], 10);
  }

  /** `quotes[index]`: `undefined` (here `None`) outside the list. */
  function QuoteAt(quotes: seq<Quote>, index: int): (q: Option<Quote>)
    ensures q.Some? <==> 0 <= index < |quotes|
    ensures q.Some? ==> q.value in quotes
  {
    if 0 <= index < |quotes| then Some(quotes[index]) else None
  }

  /** The index the date effect picks: `dateHash % quotes.length`, which is negative when
      the sum is, and `None` (NaN) when a part is not a number. */
  function DeterministicIndex(key: string, count: nat): (r: Option<int>)
    requires count > 0
    ensures r.Some? <==> DateHash(key).Some?
    ensures r.Some? ==> -(count as int) < r.value < count
    ensures r.Some? && DateHash(key).value >= 0 ==> 0 <= r.value
    ensures r.Some? && DateHash(key).value < 0 ==> r.value <= 0
    ensures DateShape(key) ==> r.Some? && 0 <= r.value < count
  {
    match DateHash(key)
    case None => None
    case Some(h) => Some(JsRem(h, count))
  }

  /** The index `getRandomQuote` picks with random factor `r`:
      `(dateHash + r) % quotes.length`. */
  function RandomIndex(key: string, r: int, count: nat): (i: Option<int>)
    requires count > 0
    ensures i.Some? <==> DateHash(key).Some?
    ensures i.Some? ==> -(count as int) < i.value < count
    ensures i.Some? && DateHash(key).value + r >= 0 ==> 0 <= i.value
    ensures i.Some? && DateHash(key).value + r < 0 ==> i.value <= 0
    ensures DateShape(key) && r >= 0 ==> i.Some? && 0 <= i.value < count
  {
    match DateHash(key)
    case None => None
    case Some(h) => Some(JsRem(h + r, count))
  }

  /** Both indices are congruent to what they reduce, modulo the number of quotes: the
      checksum for the date effect, the checksum plus the random factor for a refresh. */
  lemma IndexCongruence(key: string, r: int, count: nat)
    requires count > 0
    ensures var i := DeterministicIndex(key, count);
            i.Some? ==> (DateHash(key).value - i.value) % count == 0
    ensures var j := RandomIndex(key, r, count);
            j.Some? ==> (DateHash(key).value + r - j.value) % count == 0
  {
    var h := DateHash(key);
    if h.Some? {
      JsRemCongruent(h.value, count);
      JsRemCongruent(h.value + r, count);
    }
  }

  /** The quote the date effect shows: the one at the deterministic index, none when the
      index is NaN or negative. */
  function DeterministicQuote(quotes: seq<Quote>, key: string): (q: Option<Quote>)
    requires |quotes| > 0
    ensures var i := DeterministicIndex(key, |quotes|);
            q.Some? <==> i.Some? && 0 <= i.value
    ensures q.Some? ==> q.value == quotes[DeterministicIndex(key, |quotes|).value]
    ensures DateHash(key).None? ==> q.None?
    ensures DateShape(key) ==> q.Some? && q.value in quotes
  {
    match DeterministicIndex(key, |quotes|)
    case None => None
    case Some(i) => QuoteAt(quotes, i)
  }

  /** The quote `getRandomQuote` returns: the one at the random index, none when the index
      is NaN or negative. */
  function RandomQuote(quotes: seq<Quote>, key: string, r: int): (q: Option<Quote>)
    requires |quotes| > 0
    ensures var i := RandomIndex(key, r, |quotes|);
            q.Some? <==> i.Some? && 0 <= i.value
    ensures q.Some? ==> q.value == quotes[RandomIndex(key, r, |quotes|).value]
    ensures DateHash(key).None? ==> q.None?
    ensures DateShape(key) && r >= 0 ==> q.Some? && q.value in quotes
  {
    match RandomIndex(key, r, |quotes|)
    case None => None
    case Some(i) => QuoteAt(quotes, i)
  }

  /** The card number `Math.abs(dateHash) % quotes.length + 1`. */
  function DisplayNumber(key: string, count: nat): (n: Option<int>)
    requires count > 0
    ensures n.Some? ==> 1 <= n.value <= count
    ensures n.Some? <==> DateHash(key).Some?
  {
    match DateHash(key)
    case None => None
    case Some(h) => Some(AbsRem(h, count) + 1)
  }

  /** For a date-shaped key (every full-date is one) both indices lie in the list, so a
      quote is always found. */
  lemma {:induction false} KeyIndices(quotes: seq<Quote>, key: string, r: int)
    requires |quotes| > 0 && DateShape(key) && r >= 0
    ensures DeterministicIndex(key, |quotes|).Some? && 0 <= DeterministicIndex(key, |quotes|).value < |quotes|
    ensures RandomIndex(key, r, |quotes|).Some? && 0 <= RandomIndex(key, r, |quotes|).value < |quotes|
    ensures DeterministicQuote(quotes, key) == Some(quotes[DeterministicIndex(key, |quotes|).value])
    ensures RandomQuote(quotes, key, r) == Some(quotes[RandomIndex(key, r, |quotes|).value])
  {
    var n := |quotes|;
    var i, j := DeterministicIndex(key, n), RandomIndex(key, r, n);
    var q, p := DeterministicQuote(quotes, key), RandomQuote(quotes, key, r);
    SameQuote(q, Some(quotes[i.value]));
    SameQuote(p, Some(quotes[j.value]));
  }

  lemma SameQuote(a: Option<Quote>, b: Option<Quote>)
    requires a.Some? && b.Some? && a.value == b.value
    ensures a == b
  {
  }

  /** For a date-shaped key the checksum is not negative, so the two remainders agree and
      the card number is the deterministic index plus one, whichever quote is shown. */
  lemma NumberIsIndexPlusOne(key: string, n: nat)
    requires n > 0 && DateShape(key)
    ensures DisplayNumber(key, n) == Some(DeterministicIndex(key, n).value + 1)
  {
    assert DateHash(key).value >= 0;
    NonNegativeHashNumber(key, n);
  }

  /** Whenever the checksum is a number that is not negative, the card number is the
      deterministic index plus one. */
  lemma NonNegativeHashNumber(key: string, n: nat)
    requires n > 0 && DateHash(key).Some? && DateHash(key).value >= 0
    ensures DisplayNumber(key, n) == Some(DeterministicIndex(key, n).value + 1)
  {
    var h := DateHash(key).value;
    var number := DisplayNumber(key, n);
    assert DeterministicIndex(key, n).value == JsRem(h, n);
    assert number.value == AbsRem(h, n) + 1;
    RemaindersAgree(h, n);
    SameNumber(number, Some(DeterministicIndex(key, n).value + 1));
  }

  /** A part that is not a number makes every index and the card number NaN, so no quote
      is shown and the number reads as NaN. */
  lemma {:induction false} NaNPart(quotes: seq<Quote>, key: string, r: int)
    requires |quotes| > 0
    requires exists i :: 0 <= i < |Split(key, '-')| && ParseInt(Split(key, '-')[i]).None?
    ensures DeterministicQuote(quotes, key).None? && RandomQuote(quotes, key, r).None?
    ensures DisplayNumber(key, |quotes|).None?
  {
  }

  lemma SameNumber(a: Option<int>, b: Option<int>)
    requires a.Some? && b.Some? && a.value == b.value
    ensures a == b
  {
  }

  /** The checksum is a plain sum, so swapping month and day (2024-06-01 and 2024-01-06)
      selects the same quote and shows the same number. */
  lemma {:induction false} SwapMonthDay(quotes: seq<Quote>, s: string, t: string)
    requires |quotes| > 0 && DateShape(s) && DateShape(t)
    requires s[..4] == t[..4] && s[5..7] == t[8..] && s[8..] == t[5..7]
    ensures DeterministicQuote(quotes, s) == DeterministicQuote(quotes, t)
    ensures DisplayNumber(s, |quotes|) == DisplayNumber(t, |quotes|)
  {
    var y, m, d := DigitsValue(s[..4], 10), DigitsValue(s[5..7], 10), DigitsValue(s[8..], 10);
    SameNumber(DateHash(s), DateHash(t));
    var n := |quotes|;
    assert DisplayNumber(s, n).value == AbsRem(DateHash(s).value, n) + 1;
    assert DisplayNumber(t, n).value == AbsRem(DateHash(t).value, n) + 1;
    SameNumber(DisplayNumber(s, n), DisplayNumber(t, n));
  }
}
