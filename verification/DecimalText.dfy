/** The text of a decimal is the only plain numeral of its value: no plus sign, no minus sign on
    zero, no superfluous zeros in front, and exactly as many places as the scale. */
module DecimalText {
  import opened Sets
  import opened Decimal

  /** A numeral with nothing in it that could be left out. */
  predicate Plain(s: string, scale: nat)
  {
    && (s != "" ==> s[0] != '+') && Numeral(s, scale) && (Negative(s) ==> Worth(s, scale) != 0)
    && Whole(s) != "" && (|Whole(s)| > 1 ==> Whole(s)[0] != '0')
    && |Frac(s)| == scale && (scale == 0 ==> Body(s) == Whole(s))
  }

  // ----- Digits are determined by their number -----

  lemma {:induction false} SameLength(a: string, b: string)
    requires AllDigits(a) && AllDigits(b) && |a| == |b| && NatOf(a) == NatOf(b)
    ensures a == b
  {
    if a != "" {
      var n := |a| - 1;
      LastDigit(NatOf(a[..n]), a[n] as int - '0' as int, NatOf(b[..n]), b[n] as int - '0' as int);
      SameLength(a[..n], b[..n]);
      assert a == a[..n] + [a[n]] && b == b[..n] + [b[n]];
    }
  }

  lemma LastDigit(x: nat, c: int, y: nat, d: int)
    requires 0 <= c < 10 && 0 <= d < 10 && x * 10 + c == y * 10 + d
    ensures x == y && c == d
  {
  }

  lemma {:induction false} NatOfBound(s: string)
    requires AllDigits(s)
    ensures NatOf(s) < Pow10(|s|)
  {
    if s != "" {
      NatOfBound(s[..|s| - 1]);
    }
  }

  lemma {:induction false} NatOfAtLeast(s: string)
    requires AllDigits(s) && s != "" && s[0] != '0'
    ensures NatOf(s) >= Pow10(|s| - 1)
  {
    var n := |s| - 1;
    if n == 0 {
      assert s[..0] == "" && NatOf(s[..0]) == 0;
    } else {
      assert s[..n][0] == s[0];
      NatOfAtLeast(s[..n]);
    }
  }

  lemma {:induction false} Pow10Grows(m: nat, n: nat)
    requires m <= n
    ensures Pow10(m) <= Pow10(n)
  {
    if m < n {
      Pow10Grows(m, n - 1);
    }
  }

  /** Without zeros in front a longer row of digits is a larger number. */
  lemma Shorter(a: string, b: string)
    requires AllDigits(a) && AllDigits(b) && a != "" && a[0] != '0' && NatOf(a) == NatOf(b)
    ensures |a| <= |b|
  {
    if |a| > |b| {
      Pow10Grows(|b|, |a| - 1);
      NatOfAtLeast(a);
      NatOfBound(b);
    }
  }

  /** The digits of a number, if the row has no zero in front. */
  lemma DigitsUnique(s: string, v: nat)
    requires AllDigits(s) && s != "" && s[0] != '0' && NatOf(s) == v
    ensures s == Digits(v)
  {
    DigitsMean(v);
    var d := Digits(v);
    Shorter(s, d);
    if d[0] == '0' {
      NatOfAtLeast(s);
      ZeroDigit(d);
    } else {
      Shorter(d, s);
    }
    SameLength(s, d);
  }

  lemma ZeroDigit(d: string)
    requires |d| == 1 && d[0] == '0'
    ensures AllDigits(d) && NatOf(d) == 0
  {
    assert d[..0] == "" && NatOf(d[..0]) == 0;
  }

  // ----- The padded digits -----

  /** w in front of the point and f behind it, with no zero too many. */
  ghost predicate Parts(w: string, f: string, scale: nat, v: nat)
  {
    && AllDigits(w) && AllDigits(f) && w != "" && (|w| > 1 ==> w[0] != '0') && |f| == scale
    && AllDigits(w + f) && NatOf(w + f) == v
  }

  lemma PaddedUnique(w: string, f: string, scale: nat, v: nat)
    requires Parts(w, f, scale, v)
    ensures w + f == Widened(Digits(v), scale)
  {
    DigitsMean(v);
    if w[0] != '0' {
      assert (w + f)[0] == w[0];
      DigitsUnique(w + f, v);
    } else {
      ZeroInFront(w, f, scale, v);
    }
  }

  lemma ZeroInFront(w: string, f: string, scale: nat, v: nat)
    requires Parts(w, f, scale, v) && w[0] == '0'
    ensures w + f == Widened(Digits(v), scale)
  {
    var d := Digits(v);
    DigitsMean(v);
    ZeroDigit(w);
    NatOfConcat(w, f);
    assert 0 * Pow10(scale) == 0;
    assert NatOf(f) == v;
    if v == 0 {
      assert d == "0";
    } else {
      FirstDigit(d, v);
      Shorter(d, f);
    }
    var p := Widened(d, scale);
    assert |p| == scale + 1;
    WidenedMean(d, scale);
    SameLength(w + f, p);
  }

  lemma FirstDigit(d: string, v: nat)
    requires d == Digits(v) && v > 0
    ensures d[0] != '0'
  {
    DigitsMean(v);
    if d[0] == '0' {
      ZeroDigit(d);
    }
  }

  lemma WidenedMean(d: string, scale: nat)
    requires AllDigits(d)
    ensures NatOf(Widened(d, scale)) == NatOf(d)
  {
    if |d| <= scale {
      assert Widened(d, scale) == Zeros(scale + 1 - |d|) + d;
      LeadingZeros(scale + 1 - |d|, d);
    } else {
      assert Widened(d, scale) == d;
    }
  }

  // ----- Both directions -----

  /** What the text of a value is made of. */
  ghost predicate Made(s: string, neg: bool, w: string, f: string, scale: nat)
  {
    s == (if neg then "-" else "") + (if scale == 0 then w else w + "." + f)
  }

  lemma RenderedMade(d: Decimal, v: int, w: string, f: string)
    requires d.value == Some(v) && d.scale >= 0 && |f| == d.scale && w + f == Padded(v, d.scale)
    ensures Made(Rendered(d), v < 0, w, f, d.scale)
  {
    var p, n := Padded(v, d.scale), |w|;
    assert p[..n] == w && p[n..] == f;
    assert |p| - d.scale == n;
    if d.scale == 0 {
      assert f == "" && w + f == w;
    }
  }

  lemma SignAndBody(s: string)
    requires s != "" ==> s[0] != '+'
    ensures s == (if Negative(s) then "-" else "") + Body(s)
  {
    if Negative(s) {
      assert s == [s[0]] + s[1..];
    } else {
      assert "" + s == s;
    }
  }

  lemma AroundPoint(b: string, n: nat)
    requires n < |b| && b[n] == '.'
    ensures b == b[..n] + "." + b[n + 1..]
  {
  }

  lemma BodyParts(s: string)
    ensures Frac(s) != "" ==> Body(s) == Whole(s) + "." + Frac(s)
  {
    var b := Body(s);
    if Point(b) < |b| {
      AroundPoint(b, Point(b));
    }
  }

  /** A plain text is made of its parts. */
  lemma PlainMade(s: string, scale: nat)
    requires Plain(s, scale)
    ensures Made(s, Negative(s), Whole(s), Frac(s), scale)
  {
    SignAndBody(s);
    BodyParts(s);
  }

  lemma PartsOf(s: string, scale: nat, v: int)
    requires Plain(s, scale) && Worth(s, scale) == v
    ensures Parts(Whole(s), Frac(s), scale, Abs(v)) && (Negative(s) <==> v < 0)
  {
    NatOfConcat(Whole(s), Frac(s));
    PlainWorth(s, scale, NatOf(Whole(s) + Frac(s)));
  }

  lemma PlainWorth(s: string, scale: nat, n: nat)
    requires Plain(s, scale) && n == NatOf(Whole(s)) * Pow10(scale) + NatOf(Frac(s))
    ensures Worth(s, scale) == if Negative(s) then 0 - n else n
  {
    assert NatOf(Frac(s)) * Pow10(0) == NatOf(Frac(s));
  }

  lemma PlainIsRendered(d: Decimal, v: int, s: string)
    requires d.value == Some(v) && d.scale >= 0 && Plain(s, d.scale) && Worth(s, d.scale) == v
    ensures s == Rendered(d)
  {
    PartsOf(s, d.scale, v);
    PaddedUnique(Whole(s), Frac(s), d.scale, Abs(v));
    PlainMade(s, d.scale);
    RenderedMade(d, v, Whole(s), Frac(s));
  }

  /** The digits in front of the point have no zero too many. */
  lemma FrontIsPlain(v: int, scale: nat)
    ensures var p := Padded(v, scale); |p| - scale > 1 ==> p[0] != '0'
  {
    var d := Digits(Abs(v));
    if |d| <= scale {
      assert |Padded(v, scale)| == scale + 1;
    }
  }

  lemma RenderedIsPlain(d: Decimal, v: int, s: string)
    requires d.value == Some(v) && d.scale >= 0 && s == Rendered(d)
    ensures Plain(s, d.scale) && Worth(s, d.scale) == v
  {
    var digits := RenderedShows(d, s);
    ShownNumeral(s, v, digits, d.scale);
    ShownWorth(s, v, digits, d.scale, d.scale);
    var w, f := Split(Padded(v, d.scale), d.scale);
    FrontIsPlain(v, d.scale);
    RenderedMade(d, v, w, f);
    MadeIs(s, v < 0, w, f, d.scale);
  }

  lemma ShownNumeral(s: string, v: int, digits: string, scale: nat)
    requires Shows(s, v < 0, digits, scale)
    ensures Numeral(s, scale) && (Negative(s) <==> v < 0)
  {
    assert |Whole(s) + Frac(s)| > 0;
  }

  lemma Split(p: string, scale: nat) returns (w: string, f: string)
    requires AllDigits(p) && |p| > scale
    ensures p == w + f && |f| == scale && w != "" && w[0] == p[0] && |w| == |p| - scale && AllDigits(w) && AllDigits(f)
  {
    var n := |p| - scale;
    w, f := p[..n], p[n..];
  }

  lemma MadeIs(s: string, neg: bool, w: string, f: string, scale: nat)
    requires Made(s, neg, w, f, scale) && AllDigits(w) && AllDigits(f) && w != "" && |f| == scale
    ensures s[0] != '+' && Whole(s) == w && Frac(s) == f && (scale == 0 ==> Body(s) == w)
  {
    if scale == 0 {
      SignedBodyIs(neg, w);
      PlainParts(s, w);
    } else {
      SignedBodyIs(neg, w + "." + f);
      PointedParts(s, w, f);
    }
  }

  /** String gives, of all texts, the one plain numeral of the value at its scale. */
  lemma StringIff(d: Decimal, s: string)
    requires d.value.Some? && d.scale >= 0
    ensures s == Rendered(d) <==> Plain(s, d.scale) && Worth(s, d.scale) == d.Value()
  {
    if s == Rendered(d) {
      RenderedIsPlain(d, d.Value(), s);
    }
    if Plain(s, d.scale) && Worth(s, d.scale) == d.Value() {
      PlainIsRendered(d, d.Value(), s);
    }
  }
}
