/** The few JavaScript string operations the components rely on, as ECMAScript
    defines them: `trim`, `split` on a one-character separator, `parseInt` with no
    radix, `Number.prototype.toString` for non-negative integers, the `%` operator,
    and the code-unit order that `<` and the default `Array.prototype.sort` use. */
module JsString {
  import opened Wrappers

  /** WhiteSpace and LineTerminator code points (sections 12.2 and 12.3 of ECMAScript);
      `trim` and `parseInt` remove exactly these. */
  predicate IsWhiteSpace(ch: char)
  {
    ch == '\U{9}' || ch == '\U{A}' || ch == '\U{B}' || ch == '\U{C}' || ch == '\U{D}' ||
    ch == ' ' || ch == '\U{A0}' || ch == '\U{1680}' || ('\U{2000}' <= ch <= '\U{200A}') ||
    ch == '\U{2028}' || ch == '\U{2029}' || ch == '\U{202F}' || ch == '\U{205F}' ||
    ch == '\U{3000}' || ch == '\U{FEFF}'
  }

  function TrimStart(s: string): (r: string)
    ensures |r| <= |s| && r == s[|s| - |r|..]
    ensures r == [] || !IsWhiteSpace(r[0])
    ensures forall i :: 0 <= i < |s| - |r| ==> IsWhiteSpace(s[i])
  {
    if s != [] && IsWhiteSpace(s[0]) then TrimStart(s[1..]) else s
  }

  function TrimEnd(s: string): (r: string)
    ensures |r| <= |s| && r == s[..|r|]
    ensures r == [] || !IsWhiteSpace(r[|r| - 1])
    ensures forall i :: |r| <= i < |s| ==> IsWhiteSpace(s[i])
  {
    if s != [] && IsWhiteSpace(s[|s| - 1]) then TrimEnd(s[..|s| - 1]) else s
  }

  /** `String.prototype.trim`. */
  function Trim(s: string): string
  {
    TrimEnd(TrimStart(s))
  }

  /** `!s.trim()`: the string is empty or only white space. */
  predicate IsBlank(s: string)
  {
    Trim(s) == ""
  }

  /** A string is blank exactly when every character of it is white space (the empty
      string included). */
  lemma TrimEmptyIffBlank(s: string)
    ensures IsBlank(s) <==> forall i :: 0 <= i < |s| ==> IsWhiteSpace(s[i])
  {
  }

  /** Index of the first occurrence of `c` in `s`, if any. */
  function IndexOf(s: string, c: char): (r: Option<nat>)
    ensures r.None? <==> c !in s
    ensures r.Some? ==> r.value < |s| && s[r.value] == c && c !in s[..r.value]
  {
    if s == [] then None
    else if s[0] == c then Some(0)
    else
      match IndexOf(s[1..], c)
      case None => None
      case Some(k) =>
        assert s[..k + 1] == [s[0]] + s[1..][..k];
        Some(k + 1)
  }

  /** `s.split(c)` for a one-character separator: the pieces between occurrences of `c`. */
  function Split(s: string, c: char): (r: seq<string>)
    ensures |r| >= 1
    ensures forall i :: 0 <= i < |r| ==> c !in r[i]
    ensures |r[0]| <= |s| && r[0] == s[..|r[0]|]
    ensures |r[0]| < |s| ==> s[|r[0]|] == c
    decreases |s|
  {
    match IndexOf(s, c)
    case None => [s]
    case Some(k) => [s[..k]] + Split(s[k + 1..], c)
  }

  /** Splitting at a first occurrence of the separator. */
  lemma {:induction false} SplitAt(s: string, c: char, k: nat)
    requires k < |s| && s[k] == c && c !in s[..k]
    ensures Split(s, c) == [s[..k]] + Split(s[k + 1..], c)
  {
    var j := IndexOf(s, c);
    assert j.Some? by { assert s[k] in s; }
  }

  // ---------------------------------------------------------------------------
  // Digits and numbers

  predicate IsDigit(ch: char) { '0' <= ch <= '9' }

  predicate AllDigits(s: string) { forall i :: 0 <= i < |s| ==> IsDigit(s[i]) }

  /** Value of `ch` as a digit in base `radix` (10 or 16), or `None`. */
  function DigitValue(ch: char, radix: nat): (r: Option<nat>)
    requires radix == 10 || radix == 16
    ensures r.Some? ==> r.value < radix
    ensures radix == 10 ==> (r.Some? <==> IsDigit(ch))
  {
    if IsDigit(ch) then Some(ch as int - '0' as int)
    else if radix == 16 && 'a' <= ch <= 'f' then Some(ch as int - 'a' as int + 10)
    else if radix == 16 && 'A' <= ch <= 'F' then Some(ch as int - 'A' as int + 10)
    else None
  }

  /** The longest prefix of `s` made of digits of base `radix`. */
  function DigitPrefix(s: string, radix: nat): (r: string)
    requires radix == 10 || radix == 16
    ensures |r| <= |s| && r == s[..|r|]
    ensures forall i :: 0 <= i < |r| ==> DigitValue(r[i], radix).Some?
    ensures |r| < |s| ==> DigitValue(s[|r|], radix).None?
  {
    if s != [] && DigitValue(s[0], radix).Some? then [s[0]] + DigitPrefix(s[1..], radix) else []
  }

  /** The number a string of base-`radix` digits denotes, most significant first. */
  function DigitsValue(s: string, radix: nat): (v: nat)
    requires radix == 10 || radix == 16
    requires forall i :: 0 <= i < |s| ==> DigitValue(s[i], radix).Some?
  {
    if s == [] then 0
    else
      var high := DigitsValue(s[..|s| - 1], radix);
      var low := DigitValue(s[|s| - 1], radix).value;
      if radix == 10 then 10 * high + low else 16 * high + low
  }

  /** `parseInt(s)` with no radix (section 19.2.5 of ECMAScript): leading white space is
      skipped, one sign is accepted, a `0x`/`0X` prefix selects base 16, and the longest
      run of digits that follows is read; `None` is `NaN`, returned when that run is empty. */
  function ParseInt(s: string): Option<int>
  {
    var t := TrimStart(s);
    if t != [] && t[0] == '-' then ParseUnsigned(t[1..], true)
    else if t != [] && t[0] == '+' then ParseUnsigned(t[1..], false)
    else ParseUnsigned(t, false)
  }

  /** The part of `parseInt` after the sign. */
  function ParseUnsigned(u: string, negative: bool): Option<int>
  {
    if |u| >= 2 && u[0] == '0' && (u[1] == 'x' || u[1] == 'X') then Signed(DigitPrefix(u[2..], 16), 16, negative)
    else Signed(DigitPrefix(u, 10), 10, negative)
  }

  function Signed(digits: string, radix: nat, negative: bool): Option<int>
    requires radix == 10 || radix == 16
    requires forall i :: 0 <= i < |digits| ==> DigitValue(digits[i], radix).Some?
  {
    if digits == [] then None
    else
      var v: int := DigitsValue(digits, radix);
      Some(if negative then -v else v)
  }

  /** On a non-empty string of decimal digits, `parseInt` returns the number it denotes. */
  lemma ParseIntDecimal(s: string)
    requires |s| > 0 && AllDigits(s)
    ensures ParseInt(s) == Some(DigitsValue(s, 10))
  {
    DigitIsNotWhiteSpace(s[0]);
    assert TrimStart(s) == s;
    ParseUnsignedDecimal(s);
  }

  lemma DigitIsNotWhiteSpace(ch: char)
    requires IsDigit(ch)
    ensures !IsWhiteSpace(ch) && ch != '-' && ch != '+'
  {
  }

  lemma ParseUnsignedDecimal(s: string)
    requires |s| > 0 && AllDigits(s)
    ensures ParseUnsigned(s, false) == Some(DigitsValue(s, 10))
  {
    assert |s| >= 2 ==> IsDigit(s[1]);
    DigitPrefixAll(s);
  }

  lemma {:induction false} DigitPrefixAll(s: string)
    requires AllDigits(s)
    ensures DigitPrefix(s, 10) == s
  {
    if s != [] {
      DigitPrefixAll(s[1..]);
    }
  }

  function Digit(k: nat): (ch: char)
    requires k < 10
    ensures IsDigit(ch) && DigitValue(ch, 10) == Some(k)
  {
    ('0' as int + k) as char
  }

  /** A digit character is written back from its value. */
  lemma DigitOfValue(ch: char)
    requires IsDigit(ch)
    ensures Digit(DigitValue(ch, 10).value) == ch
  {
  }

  /** Decimal digits of `n`, left-padded with zeros to at least `width` characters. */
  function Decimal(n: nat, width: nat): (s: string)
    ensures |s| >= 1 && AllDigits(s)
    decreases n, width
  {
    if n < 10 && width <= 1 then [Digit(n)]
    else Decimal(n / 10, if width > 0 then width - 1 else 0) + [Digit(n % 10)]
  }

  /** `Number.prototype.toString()` on a non-negative integer (as `Date.now().toString()`). */
  function NumberToString(n: nat): string
  {
    Decimal(n, 1)
  }

  function Pow10(k: nat): (p: nat)
    ensures p >= 1
  {
    if k == 0 then 1 else 10 * Pow10(k - 1)
  }

  /** Reading the padded decimal text back gives the number. */
  lemma {:induction false} DecimalValue(n: nat, width: nat)
    ensures DigitsValue(Decimal(n, width), 10) == n
    decreases n, width
  {
    if !(n < 10 && width <= 1) {
      var w := if width > 0 then width - 1 else 0;
      DecimalValue(n / 10, w);
      var s := Decimal(n, width);
      assert s[..|s| - 1] == Decimal(n / 10, w);
    }
  }

  /** A number below `10^width` is written with exactly `width` characters. */
  lemma {:induction false} DecimalLength(n: nat, width: nat)
    requires width >= 1 && n < Pow10(width)
    ensures |Decimal(n, width)| == width
    decreases width
  {
    if !(n < 10 && width <= 1) {
      DecimalLength(n / 10, width - 1);
    }
  }

  /** Writing out the value of a non-empty digit string at its own width gives it back. */
  lemma {:induction false} DecimalOfDigits(s: string)
    requires |s| >= 1 && AllDigits(s)
    ensures DigitsValue(s, 10) < Pow10(|s|)
    ensures Decimal(DigitsValue(s, 10), |s|) == s
    decreases |s|
  {
    var v := DigitsValue(s, 10);
    var init, last := s[..|s| - 1], s[|s| - 1];
    if |s| == 1 {
      assert init == [];
    } else {
      var x, d := DigitsValue(init, 10), DigitValue(last, 10).value;
      assert v == 10 * x + d;
      DecimalOfDigits(init);
      assert v / 10 == x && v % 10 == d;
      assert Decimal(v, |s|) == Decimal(x, |s| - 1) + [Digit(d)];
      DigitOfValue(last);
      assert s == init + [last];
    }
  }

  /** `a % b` in JavaScript: the remainder of truncating division, signed like `a`. */
  function JsRem(a: int, b: int): (r: int)
    requires b > 0
    ensures a >= 0 ==> 0 <= r < b
    ensures a < 0 ==> -b < r <= 0
  {
    if a >= 0 then a % b else -((-a) % b)
  }

  /** The JavaScript remainder differs from its dividend by a multiple of the divisor. */
  lemma JsRemCongruent(a: int, b: int)
    requires b > 0
    ensures (a - JsRem(a, b)) % b == 0
  {
    if a >= 0 {
      var q := a / b;
      assert a - a % b == q * b;
      MultipleRem(q, b);
    } else {
      var q := (-a) / b;
      assert a + (-a) % b == (-q) * b;
      MultipleRem(-q, b);
    }
  }

  /** For a non-negative dividend `Math.abs(a) % b` and `a % b` agree. */
  lemma RemaindersAgree(a: int, b: int)
    requires a >= 0 && b > 0
    ensures AbsRem(a, b) == JsRem(a, b)
  {
  }

  /** A multiple of `b` leaves no remainder. */
  lemma MultipleRem(q: int, b: int)
    requires b > 0
    ensures (q * b) % b == 0
  {
    var m := q - (q * b) / b;
    assert (q * b) % b == b * m;
    SmallMultiple(b, m);
  }

  lemma SmallMultiple(b: int, m: int)
    requires b > 0 && 0 <= b * m < b
    ensures m == 0
  {
    if m > 0 {
      assert b * m == b * (m - 1) + b;
      NonNegativeProduct(b, m - 1);
    } else if m < 0 {
      assert b * m == b * (m + 1) - b;
      NonPositiveProduct(b, m + 1);
    }
  }

  lemma NonNegativeProduct(b: int, m: int)
    requires b > 0 && m >= 0
    ensures b * m >= 0
  {
  }

  lemma NonPositiveProduct(b: int, m: int)
    requires b > 0 && m <= 0
    ensures b * m <= 0
  {
  }

  /** `Math.abs(a) % b` for a positive `b`. */
  function AbsRem(a: int, b: int): (r: int)
    requires b > 0
    ensures 0 <= r < b
  {
    if a >= 0 then a % b else (-a) % b
  }

  // ---------------------------------------------------------------------------
  // String order

  /** `a < b` on strings in JavaScript, and the order of `Array.prototype.sort()` with no
      comparator: a proper prefix comes first, otherwise the first differing character decides. */
  predicate LexLess(a: string, b: string)
  {
    |b| > 0 && (|a| == 0 || a[0] < b[0] || (a[0] == b[0] && LexLess(a[1..], b[1..])))
  }

  predicate LexLessEq(a: string, b: string) { a == b || LexLess(a, b) }

  lemma {:induction false} LexLessIrreflexive(a: string)
    ensures !LexLess(a, a)
  {
    if |a| > 0 { LexLessIrreflexive(a[1..]); }
  }

  lemma {:induction false} LexLessAsymmetric(a: string, b: string)
    ensures !(LexLess(a, b) && LexLess(b, a))
  {
    if |a| > 0 && |b| > 0 && a[0] == b[0] { LexLessAsymmetric(a[1..], b[1..]); }
  }

  lemma {:induction false} LexLessTransitive(a: string, b: string, c: string)
    requires LexLess(a, b) && LexLess(b, c)
    ensures LexLess(a, c)
  {
    if |a| > 0 && a[0] == b[0] && b[0] == c[0] {
      LexLessTransitive(a[1..], b[1..], c[1..]);
    }
  }

  lemma {:induction false} LexLessTotal(a: string, b: string)
    ensures a == b || LexLess(a, b) || LexLess(b, a)
  {
    if |a| > 0 && |b| > 0 && a[0] == b[0] {
      LexLessTotal(a[1..], b[1..]);
      if a[1..] == b[1..] {
        assert a == [a[0]] + a[1..] && b == [b[0]] + b[1..];
      }
    }
  }

  /** Comparing `a + b` with `c + d` where `a` and `c` have the same length: the first parts
      decide unless they are equal. */
  lemma {:induction false} LexLessConcat(a: string, b: string, c: string, d: string)
    requires |a| == |c|
    ensures LexLess(a + b, c + d) <==> (LexLess(a, c) || (a == c && LexLess(b, d)))
    decreases |a|
  {
    if |a| > 0 {
      assert (a + b)[1..] == a[1..] + b && (c + d)[1..] == c[1..] + d;
      LexLessConcat(a[1..], b, c[1..], d);
      if a[0] == c[0] && a[1..] == c[1..] {
        assert a == c;
      }
      if a == c {
        assert a[1..] == c[1..];
      }
    } else {
      assert a + b == b && c + d == d;
    }
  }

  /** On digit strings of equal length, the string order is the numeric order. */
  lemma {:induction false} LexLessDigits(a: string, b: string)
    requires |a| == |b| && AllDigits(a) && AllDigits(b)
    ensures LexLess(a, b) <==> DigitsValue(a, 10) < DigitsValue(b, 10)
    decreases |a|
  {
    if |a| > 0 {
      var a', b' := a[..|a| - 1], b[..|b| - 1];
      LexLessDigits(a', b');
      LexLessDigits(b', a');
      assert a == a' + [a[|a| - 1]] && b == b' + [b[|b| - 1]];
      LexLessConcat(a', [a[|a| - 1]], b', [b[|b| - 1]]);
      if a' == b' {
        assert DigitsValue(a', 10) == DigitsValue(b', 10);
      } else {
        LexLessTotal(a', b');
        if LexLess(b', a') { LexLessAsymmetric(a', b'); }
      }
    }
  }
}
