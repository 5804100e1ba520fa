/**
  The text-to-number conversion `pd.to_numeric(..., errors="coerce")`
  applies to a string cell: an optional sign, decimal digits and an optional
  fractional part. Text of any other shape has no numeric reading and is
  coerced to NaN.
 */
module NumericParse {
  import opened Ticks

  predicate IsDigit(c: char) {
    '0' <= c <= '9'
  }

  predicate AllDigits(s: string) {
    forall i :: 0 <= i < |s| ==> IsDigit(s[i])
  }

  function DigitValue(c: char): (d: nat)
    requires IsDigit(c)
    ensures d < 10
  {
    c as int - '0' as int
  }

  function DigitChar(d: nat): (c: char)
    requires d < 10
    ensures IsDigit(c) && DigitValue(c) == d
  {
    ('0' as int + d) as char
  }

  function Pow10(k: nat): (p: nat)
    ensures p >= 1
  {
    if k == 0 then 1 else 10 * Pow10(k - 1)
  }

  /** The value of a string of decimal digits, most significant first. */
  function DigitsValue(s: string): nat
    requires AllDigits(s)
  {
    if |s| == 0 then 0 else DigitsValue(s[..|s| - 1]) * 10 + DigitValue(s[|s| - 1])
  }

  /** The position of the first `c` in `s`, or `|s|` when there is none. */
  function IndexOf(s: string, c: char): (i: nat)
    ensures i <= |s|
    ensures i < |s| ==> s[i] == c
    ensures forall j :: 0 <= j < i ==> s[j] != c
  {
    if |s| == 0 then 0
    else if s[0] == c then 0
    else 1 + IndexOf(s[1..], c)
  }

  /** Digits with at most one decimal point, and at least one digit. */
  function ParseUnsigned(s: string): (r: Option<real>)
    ensures r.Some? ==> 0.0 <= r.value
    ensures r.Some? ==> exists i :: 0 <= i < |s| && IsDigit(s[i])
  {
    var dot := IndexOf(s, '.');
    var whole := s[..dot];
    var frac := if dot < |s| then s[dot + 1..] else "";
    if AllDigits(whole) && AllDigits(frac) && |whole| + |frac| > 0 then
      assert if |whole| > 0 then IsDigit(s[0]) else IsDigit(s[dot + 1]) by {
        if |whole| == 0 { assert frac[0] == s[dot + 1]; }
      }
      Some(FixedValue(whole, frac))
    else
      None
  }

  /** The value of the decimal `whole.frac`. */
  function FixedValue(whole: string, frac: string): (v: real)
    requires AllDigits(whole) && AllDigits(frac)
    ensures 0.0 <= v
  {
    DigitsValue(whole) as real + DigitsValue(frac) as real / Pow10(|frac|) as real
  }

  /** The numeric reading of a text cell, `None` when it has none. */
  function ParseNumber(s: string): (r: Option<real>)
    ensures r.Some? ==> exists i :: 0 <= i < |s| && IsDigit(s[i])
    ensures r.Some? && (|s| == 0 || s[0] != '-') ==> 0.0 <= r.value
    ensures r.Some? && |s| > 0 && s[0] == '-' ==> r.value <= 0.0
  {
    if |s| > 0 && s[0] == '-' then
      match ParseUnsigned(s[1..])
      case Some(v) => Some(-v)
      case None => None
    else if |s| > 0 && s[0] == '+' then
      ParseUnsigned(s[1..])
    else
      ParseUnsigned(s)
  }

  /** The shortest decimal rendering of a natural number. */
  function NatDigits(n: nat): (s: string)
    ensures AllDigits(s) && |s| > 0
  {
    if n < 10 then [DigitChar(n)] else NatDigits(n / 10) + [DigitChar(n % 10)]
  }

  /** Exactly `k` decimal digits of `n`, zero-padded on the left. */
  function PadDigits(n: nat, k: nat): (s: string)
    ensures AllDigits(s) && |s| == k
  {
    if k == 0 then [] else PadDigits(n / 10, k - 1) + [DigitChar(n % 10)]
  }

  /** Division with remainder of a natural number by a positive one. */
  function Quot(a: nat, p: nat): (q: nat)
    requires p >= 1
  {
    a / p
  }

  function Rem(a: nat, p: nat): (r: nat)
    requires p >= 1
    ensures r < p
  {
    a % p
  }

  lemma QuotRem(a: nat, p: nat)
    requires p >= 1
    ensures a == Quot(a, p) * p + Rem(a, p)
  {
  }

  /** The rendering of the decimal `a / 10^k` with exactly `k` fractional
      digits, as a provider writes a price, a volume or an amount. */
  function RenderDecimal(a: nat, k: nat): string {
    NatDigits(Quot(a, Pow10(k)))
      + (if k == 0 then "" else "." + PadDigits(Rem(a, Pow10(k)), k))
  }

  lemma {:induction false} DigitsValueAppend(s: string, c: char)
    requires AllDigits(s) && IsDigit(c)
    ensures AllDigits(s + [c])
    ensures DigitsValue(s + [c]) == DigitsValue(s) * 10 + DigitValue(c)
  {
    assert (s + [c])[..|s + [c]| - 1] == s;
  }

  lemma {:induction false} NatDigitsValue(n: nat)
    ensures DigitsValue(NatDigits(n)) == n
  {
    if n < 10 {
    } else {
      NatDigitsValue(n / 10);
      DigitsValueAppend(NatDigits(n / 10), DigitChar(n % 10));
    }
  }

  lemma {:induction false} PadDigitsValue(n: nat, k: nat)
    requires n < Pow10(k)
    ensures DigitsValue(PadDigits(n, k)) == n
  {
    if k > 0 {
      var q := n / 10;
      assert q < Pow10(k - 1) by {
        QuotientBound(n, Pow10(k - 1));
      }
      var init := PadDigits(q, k - 1);
      assert PadDigits(n, k) == init + [DigitChar(n % 10)];
      PadDigitsValue(q, k - 1);
      DigitsValueAppend(init, DigitChar(n % 10));
    }
  }

  lemma QuotientBound(n: nat, p: nat)
    requires n < 10 * p
    ensures n / 10 < p
  {
  }

  lemma NoDotInDigits(s: string)
    requires AllDigits(s)
    ensures IndexOf(s, '.') == |s|
  {
    forall j | 0 <= j < |s|
      ensures s[j] != '.'
    {
      assert IsDigit(s[j]);
    }
  }

  lemma IndexOfAfterDigits(d: string, rest: string)
    requires AllDigits(d)
    requires |rest| > 0 && rest[0] == '.'
    ensures IndexOf(d + rest, '.') == |d|
  {
    var s := d + rest;
    forall j | 0 <= j < |d|
      ensures s[j] != '.'
    {
      assert s[j] == d[j] && IsDigit(d[j]);
    }
    assert s[|d|] == '.';
  }

  /** A digit string with no point reads as a whole number. */
  lemma ParseWhole(whole: string)
    requires AllDigits(whole) && |whole| > 0
    ensures ParseUnsigned(whole) == Some(DigitsValue(whole) as real)
  {
    NoDotInDigits(whole);
    assert whole[..|whole|] == whole;
    FixedValueWhole(whole);
  }

  lemma FixedValueWhole(whole: string)
    requires AllDigits(whole)
    ensures FixedValue(whole, "") == DigitsValue(whole) as real
  {
    assert DigitsValue("") == 0 && Pow10(0) == 1;
  }

  /** Digits, a point and digits read as whole part plus fraction. */
  lemma ParseWithFraction(whole: string, frac: string)
    requires AllDigits(whole) && AllDigits(frac) && |whole| > 0
    ensures ParseUnsigned(whole + ("." + frac))
            == Some(FixedValue(whole, frac))
  {
    var s := whole + ("." + frac);
    IndexOfAfterDigits(whole, "." + frac);
    assert s[..|whole|] == whole;
    assert s[|whole| + 1..] == frac;
  }

  lemma SplitValue(a: nat, p: nat)
    requires p >= 1
    ensures Quot(a, p) as real + Rem(a, p) as real / p as real == a as real / p as real
  {
    var q := Quot(a, p);
    var r := Rem(a, p);
    QuotRem(a, p);
    assert (a as real) == (q as real) * (p as real) + (r as real);
  }

  /** Parsing an unsigned fixed-point rendering returns its value. */
  lemma UnsignedRoundTrip(a: nat, k: nat)
    ensures ParseUnsigned(RenderDecimal(a, k)) == Some(a as real / Pow10(k) as real)
  {
    if k == 0 {
      WholeRoundTrip(a);
    } else {
      FractionRoundTrip(a, k);
    }
  }

  lemma WholeRoundTrip(a: nat)
    ensures ParseUnsigned(RenderDecimal(a, 0)) == Some(a as real / Pow10(0) as real)
  {
    var whole := NatDigits(Quot(a, 1));
    assert RenderDecimal(a, 0) == whole;
    assert Quot(a, 1) == a;
    NatDigitsValue(a);
    ParseWhole(whole);
    assert Pow10(0) == 1;
    assert a as real / 1 as real == a as real;
  }

  lemma FractionRoundTrip(a: nat, k: nat)
    requires k > 0
    ensures ParseUnsigned(RenderDecimal(a, k)) == Some(a as real / Pow10(k) as real)
  {
    var p := Pow10(k);
    var q := Quot(a, p);
    var r := Rem(a, p);
    var whole := NatDigits(q);
    var frac := PadDigits(r, k);
    assert ParseUnsigned(RenderDecimal(a, k)) == Some(FixedValue(whole, frac)) by {
      assert RenderDecimal(a, k) == whole + ("." + frac);
      ParseWithFraction(whole, frac);
    }
    assert FixedValue(whole, frac) == a as real / p as real by {
      NatDigitsValue(q);
      PadDigitsValue(r, k);
      FixedValueOf(whole, frac, q, r, p);
      SplitValue(a, p);
    }
  }

  lemma FixedValueOf(whole: string, frac: string, q: nat, r: nat, p: nat)
    requires AllDigits(whole) && AllDigits(frac)
    requires DigitsValue(whole) == q && DigitsValue(frac) == r && Pow10(|frac|) == p
    ensures FixedValue(whole, frac) == q as real + r as real / p as real
  {
  }

  /** A leading minus sign negates the value of what follows it. */
  lemma ParseNegated(u: string, v: real)
    requires ParseUnsigned(u) == Some(v)
    ensures ParseNumber("-" + u) == Some(-v)
  {
    assert ("-" + u)[1..] == u;
  }

  /** A rendered decimal parses back to the value it renders. */
  lemma RenderDecimalRoundTrip(a: nat, k: nat)
    ensures ParseNumber(RenderDecimal(a, k)) == Some(a as real / Pow10(k) as real)
  {
    var u := RenderDecimal(a, k);
    UnsignedRoundTrip(a, k);
    assert u[0] == NatDigits(Quot(a, Pow10(k)))[0];
    assert IsDigit(u[0]);
  }

  /** A character that is neither a digit nor a decimal point anywhere in
      unsigned number text leaves it without a reading. */
  lemma UnsignedRejectsStray(s: string, i: nat)
    requires i < |s| && !IsDigit(s[i]) && s[i] != '.'
    ensures ParseUnsigned(s) == None
  {
    var dot := IndexOf(s, '.');
    if i < dot {
      assert s[..dot][i] == s[i];
    } else {
      assert s[dot + 1..][i - dot - 1] == s[i];
    }
  }

  /** A character other than a digit or a decimal point leaves text without
      a reading, unless it is the sign in front. */
  lemma RejectsStray(s: string, i: nat)
    requires i < |s| && !IsDigit(s[i]) && s[i] != '.'
    requires i == 0 ==> s[0] != '-' && s[0] != '+'
    ensures ParseNumber(s) == None
  {
    if s[0] == '-' || s[0] == '+' {
      assert s[1..][i - 1] == s[i];
      UnsignedRejectsStray(s[1..], i - 1);
    } else {
      UnsignedRejectsStray(s, i);
    }
  }

  /** Unsigned number text with two decimal points has no reading. */
  lemma UnsignedRejectsTwoPoints(s: string, i: nat, j: nat)
    requires i < j < |s| && s[i] == '.' && s[j] == '.'
    ensures ParseUnsigned(s) == None
  {
    var dot := IndexOf(s, '.');
    assert dot <= i;
    assert s[dot + 1..][j - dot - 1] == '.';
  }

  /** Text with two decimal points has no reading. */
  lemma RejectsTwoPoints(s: string, i: nat, j: nat)
    requires i < j < |s| && s[i] == '.' && s[j] == '.'
    ensures ParseNumber(s) == None
  {
    if s[0] == '-' || s[0] == '+' {
      assert s[1..][i - 1] == '.' && s[1..][j - 1] == '.';
      UnsignedRejectsTwoPoints(s[1..], i - 1, j - 1);
    } else {
      UnsignedRejectsTwoPoints(s, i, j);
    }
  }

  /** Text that is not a number coerces to NaN. */
  lemma RejectsNonNumericText()
    ensures ParseNumber("abc") == None
    ensures ParseNumber("") == None
    ensures ParseNumber("-") == None
    ensures ParseNumber(".") == None
    ensures ParseNumber("1.2.3") == None
  {
    RejectsStray("abc", 0);
    RejectsTwoPoints("1.2.3", 1, 3);
  }
}
