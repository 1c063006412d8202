/** The console rendering of an amount with the format "${:,.2f}": a dollar
    sign, the whole dollars in decimal with a comma between every group of
    three digits, a point, and exactly two digits of cents. Over integer
    cents the rendering is exact. */
module Currency {

  predicate IsDigit(c: char)
  {
    '0' <= c <= '9'
  }

  predicate AllDigits(s: string)
  {
    forall i :: 0 <= i < |s| ==> IsDigit(s[i])
  }

  function DigitChar(d: int): (c: char)
    requires 0 <= d < 10
    ensures IsDigit(c) && c as int - '0' as int == d
  {
    ('0' as int + d) as char
  }

  function DigitValue(c: char): (d: int)
    requires IsDigit(c)
    ensures 0 <= d < 10 && DigitChar(d) == c
  {
    c as int - '0' as int
  }

  /** The decimal numeral of `n`, without leading zeros. */
  function Decimal(n: nat): (s: string)
    ensures 1 <= |s| && AllDigits(s)
  {
    if n < 10 then [DigitChar(n)] else Decimal(n / 10) + [DigitChar(n % 10)]
  }

  /** `n` in exactly three digits, with leading zeros. */
  function ThreeDigits(n: nat): (s: string)
    requires n < 1000
    ensures |s| == 3 && AllDigits(s)
  {
    [DigitChar(n / 100), DigitChar(n / 10 % 10), DigitChar(n % 10)]
  }

  /** `n` in exactly two digits, with a leading zero. */
  function TwoDigits(n: nat): (s: string)
    requires n < 100
    ensures |s| == 2 && AllDigits(s)
  {
    [DigitChar(n / 10), DigitChar(n % 10)]
  }

  /** The decimal numeral of `n` with a comma before every group of three
      digits counted from the right. */
  function Grouped(n: nat): (g: string)
    ensures 1 <= |g| && IsDigit(g[0])
    ensures forall i :: 0 <= i < |g| ==> IsDigit(g[i]) || g[i] == ','
  {
    if n < 1000 then Decimal(n)
    else
      var head, tail := Grouped(n / 1000), ThreeDigits(n % 1000);
      var g := head + "," + tail;
      assert forall i :: 0 <= i < |g| ==> g[i] == (if i < |head| then head[i] else if i == |head| then ',' else tail[i - |head| - 1]);
      g
  }

  /** The "${:,.2f}" rendering of an amount of `cents`. */
  function FormatCurrency(cents: nat): (s: string)
    ensures |s| >= 5 && s[0] == '$' && s[|s| - 3] == '.'
    ensures forall i :: 1 <= i < |s| ==> IsDigit(s[i]) || s[i] == ',' || s[i] == '.'
  {
    var g, f := Grouped(cents / 100), TwoDigits(cents % 100);
    var s := "$" + g + "." + f;
    assert forall i :: 1 <= i < |s| ==> s[i] == (if i <= |g| then g[i - 1] else if i == |g| + 1 then '.' else f[i - |g| - 2]);
    s
  }

  // ---------------------------------------------------------------------
  // Reading a rendering back.

  /** The value of a string of decimal digits (0 for the empty string). */
  function DigitsValue(s: string): nat
    requires AllDigits(s)
  {
    if |s| == 0 then 0 else 10 * DigitsValue(s[..|s| - 1]) + DigitValue(s[|s| - 1])
  }

  /** The string with every '$', ',' and '.' removed. */
  function StripPunctuation(s: string): (r: string)
    ensures forall i :: 0 <= i < |r| ==> r[i] != '$' && r[i] != ',' && r[i] != '.'
    ensures |r| <= |s|
  {
    if |s| == 0 then []
    else (if s[0] in "$,." then [] else [s[0]]) + StripPunctuation(s[1..])
  }

  datatype Option = None | Some(value: nat)

  /** Reads a rendered amount back as cents: removes the punctuation and
      reads the remaining digits; fails on any other character. */
  function ParseCurrency(s: string): (r: Option)
  {
    var digits := StripPunctuation(s);
    if AllDigits(digits) then Some(DigitsValue(digits)) else None
  }

  function Pow10(k: nat): nat
  {
    if k == 0 then 1 else 10 * Pow10(k - 1)
  }

  lemma {:induction false} DigitsAppend(a: string, b: string)
    requires AllDigits(a) && AllDigits(b)
    ensures AllDigits(a + b)
  {
    forall i | 0 <= i < |a + b| ensures IsDigit((a + b)[i]) {
      if i < |a| { assert (a + b)[i] == a[i]; } else { assert (a + b)[i] == b[i - |a|]; }
    }
  }

  lemma {:induction false} ShiftStep(va: int, p: int, vb: int, d: int)
    ensures 10 * (va * p + vb) + d == va * (10 * p) + (10 * vb + d)
  {
  }

  lemma {:induction false} DigitsValueAppend(a: string, b: string)
    requires AllDigits(a) && AllDigits(b)
    ensures AllDigits(a + b)
    ensures DigitsValue(a + b) == DigitsValue(a) * Pow10(|b|) + DigitsValue(b)
    decreases |b|
  {
    DigitsAppend(a, b);
    if |b| == 0 {
      assert a + b == a;
    } else {
      var b' := b[..|b| - 1];
      var ab := a + b;
      assert ab[..|ab| - 1] == a + b';
      assert ab[|ab| - 1] == b[|b| - 1];
      DigitsValueAppend(a, b');
      ShiftStep(DigitsValue(a), Pow10(|b'|), DigitsValue(b'), DigitValue(b[|b| - 1]));
    }
  }

  lemma {:induction false} StripAppend(a: string, b: string)
    ensures StripPunctuation(a + b) == StripPunctuation(a) + StripPunctuation(b)
    decreases |a|
  {
    if |a| == 0 {
      assert a + b == b;
    } else {
      var h := if a[0] in "$,." then "" else [a[0]];
      assert (a + b)[0] == a[0] && (a + b)[1..] == a[1..] + b;
      assert StripPunctuation(a + b) == h + StripPunctuation(a[1..] + b);
      assert StripPunctuation(a) == h + StripPunctuation(a[1..]);
      StripAppend(a[1..], b);
    }
  }

  /** A string of digits has no punctuation to strip. */
  lemma {:induction false} StripDigits(s: string)
    requires AllDigits(s)
    ensures StripPunctuation(s) == s
    decreases |s|
  {
    if |s| > 0 {
      assert !(s[0] in "$,.");
      StripDigits(s[1..]);
      assert s == [s[0]] + s[1..];
    }
  }

  /** The decimal numeral reads back as its number; it has at most as many
      digits as the number needs and starts with 0 only for 0 itself. */
  lemma {:induction false} DecimalValue(n: nat)
    ensures DigitsValue(Decimal(n)) == n
    ensures n < 1000 ==> |Decimal(n)| <= 3
    ensures Decimal(n)[0] == '0' ==> n == 0
  {
    if n >= 10 {
      var d := Decimal(n / 10);
      DecimalValue(n / 10);
      var s := d + [DigitChar(n % 10)];
      assert s[..|s| - 1] == d;
      assert s[0] == d[0];
    }
  }

  lemma {:induction false} ThreeDigitsValue(n: nat)
    requires n < 1000
    ensures DigitsValue(ThreeDigits(n)) == n
  {
    var s := ThreeDigits(n);
    var h, t, u := n / 100, n / 10 % 10, n % 10;
    assert s[..2][..1] == [DigitChar(h)];
    assert [DigitChar(h)][..0] == [];
    assert DigitsValue([DigitChar(h)]) == h;
    assert DigitsValue(s[..2]) == 10 * h + t;
    assert DigitsValue(s) == 10 * (10 * h + t) + u;
    assert n / 10 == 10 * h + t;
  }

  lemma {:induction false} TwoDigitsValue(n: nat)
    requires n < 100
    ensures DigitsValue(TwoDigits(n)) == n
  {
    var s := TwoDigits(n);
    assert s[..1][..0] == [];
    assert DigitsValue(s[..1]) == n / 10;
  }

  /** With the commas removed, the grouped numeral is the number's digits. */
  lemma {:induction false} GroupedValue(n: nat)
    ensures AllDigits(StripPunctuation(Grouped(n)))
    ensures DigitsValue(StripPunctuation(Grouped(n))) == n
  {
    if n < 1000 {
      StripDigits(Decimal(n));
      DecimalValue(n);
    } else {
      var g, tail := Grouped(n / 1000), ThreeDigits(n % 1000);
      GroupedValue(n / 1000);
      StripAppend(g + ",", tail);
      StripAppend(g, ",");
      StripDigits(tail);
      ThreeDigitsValue(n % 1000);
      DigitsValueAppend(StripPunctuation(g), tail);
      assert Pow10(3) == 1000;
      assert StripPunctuation(Grouped(n)) == StripPunctuation(g) + tail by {
        assert Grouped(n) == g + "," + tail;
        assert StripPunctuation(",") == [];
      }
      assert n == (n / 1000) * 1000 + n % 1000;
    }
  }

  /** Reading the rendering back gives the amount: removing '$', ',' and
      '.' leaves exactly the digits of the number of cents. */
  lemma {:induction false} FormatRoundTrip(cents: nat)
    ensures ParseCurrency(FormatCurrency(cents)) == Some(cents)
  {
    var g, f := Grouped(cents / 100), TwoDigits(cents % 100);
    StripFormat(cents);
    GroupedValue(cents / 100);
    TwoDigitsValue(cents % 100);
    DigitsValueAppend(StripPunctuation(g), f);
    assert Pow10(2) == 100;
  }

  /** Removing the punctuation from a rendering leaves the digits of the
      dollars followed by the two digits of the cents. */
  lemma {:induction false} StripFormat(cents: nat)
    ensures StripPunctuation(FormatCurrency(cents))
         == StripPunctuation(Grouped(cents / 100)) + TwoDigits(cents % 100)
  {
    var g, f := Grouped(cents / 100), TwoDigits(cents % 100);
    assert FormatCurrency(cents) == "$" + g + "." + f;
    StripAppend("$" + g + ".", f);
    StripAppend("$" + g, ".");
    StripAppend("$", g);
    StripDigits(f);
  }

  /** Different amounts render differently. */
  lemma {:induction false} FormatInjective(a: nat, b: nat)
    requires FormatCurrency(a) == FormatCurrency(b)
    ensures a == b
  {
    FormatRoundTrip(a);
    FormatRoundTrip(b);
  }

  // ---------------------------------------------------------------------
  // The shape of a rendering.

  /** `s` is a comma-grouped decimal numeral: a leading group of one to
      three digits, without a leading zero unless the whole numeral is "0",
      followed by groups of a comma and exactly three digits. */
  predicate WellGrouped(s: string)
    decreases |s|
  {
    if |s| <= 3 then 1 <= |s| && AllDigits(s) && (s[0] == '0' ==> |s| == 1)
    else
      && |s| >= 5
      && s[|s| - 4] == ','
      && AllDigits(s[|s| - 3..])
      && s[0] != '0'
      && WellGrouped(s[..|s| - 4])
  }

  lemma {:induction false} GroupedWellFormed(n: nat)
    ensures WellGrouped(Grouped(n))
    ensures Grouped(n)[0] == '0' ==> n == 0
  {
    DecimalValue(n);
    if n >= 1000 {
      var g, tail := Grouped(n / 1000), ThreeDigits(n % 1000);
      GroupedWellFormed(n / 1000);
      var s := g + "," + tail;
      assert WellGrouped(g);
      assert |g| >= 1;
      assert s[..|s| - 4] == g;
      assert s[|s| - 3..] == tail;
      assert s[|s| - 4] == ',';
      assert s[0] == g[0];
    }
  }

  /** A rendering is "$", a comma-grouped numeral of the whole dollars,
      ".", and exactly two digits of cents. */
  lemma {:induction false} FormatShape(cents: nat)
    ensures var s := FormatCurrency(cents);
      && |s| >= 5
      && s[0] == '$'
      && WellGrouped(s[1..|s| - 3])
      && s[|s| - 3] == '.'
      && AllDigits(s[|s| - 2..])
      && DigitsValue(s[|s| - 2..]) == cents % 100
  {
    var s := FormatCurrency(cents);
    var g, f := Grouped(cents / 100), TwoDigits(cents % 100);
    GroupedWellFormed(cents / 100);
    TwoDigitsValue(cents % 100);
    assert s == "$" + g + "." + f;
    assert s[1..|s| - 3] == g;
    assert s[|s| - 2..] == f;
  }
}
