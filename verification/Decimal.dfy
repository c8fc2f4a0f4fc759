/** Decimals with a fixed number of decimal places: text form, reading and rescaling. */
module Decimal {
  import opened Sets
  import opened Arith

  /** value is absent in the zero struct, which stands for 0. */
  datatype Decimal = Decimal(value: Option<int>, scale: int)
  {
    function Value(): int { if value.Some? then value.value else 0 }
  }

  datatype Error = ParseError | NegativeScale | DivideByZero

  datatype Outcome = Ok(d: Decimal) | Failed(e: Error)

  function Abs(v: int): nat { if v < 0 then -v else v }

  // ----- Digits -----

  predicate IsDigit(c: char) { '0' <= c <= '9' }

  predicate AllDigits(s: string) { forall i :: 0 <= i < |s| ==> IsDigit(s[i]) }

  /** The number that a row of digits stands for. */
  function NatOf(s: string): nat
    requires AllDigits(s)
  {
    if s == "" then 0 else NatOf(s[..|s| - 1]) * 10 + (s[|s| - 1] as int - '0' as int)
  }

  function Pow10(n: nat): (p: nat)
    ensures p >= 1
  {
    if n == 0 then 1 else 10 * Pow10(n - 1)
  }

  function Digit(d: nat): (c: char)
    requires d < 10
    ensures IsDigit(c) && c as int - '0' as int == d
  {
    ('0' as int + d) as char
  }

  /** n without leading zeros. */
  function Digits(n: nat): (s: string)
    ensures s != "" && AllDigits(s)
    ensures s[0] == '0' ==> |s| == 1
  {
    if n < 10 then [Digit(n)] else Digits(n / 10) + [Digit(n % 10)]
  }

  function Zeros(n: nat): (s: string)
    ensures |s| == n && AllDigits(s)
  {
    seq(n, _ => '0')
  }

  lemma {:induction false} DigitsMean(n: nat)
    ensures NatOf(Digits(n)) == n
  {
    if n >= 10 {
      DigitsMean(n / 10);
      assert Digits(n)[..|Digits(n)| - 1] == Digits(n / 10);
    }
  }

  lemma {:induction false} NatOfConcat(a: string, b: string)
    requires AllDigits(a) && AllDigits(b)
    ensures AllDigits(a + b) && NatOf(a + b) == NatOf(a) * Pow10(|b|) + NatOf(b)
  {
    if b == "" {
      assert a + b == a;
    } else {
      var n := |b| - 1;
      NatOfConcat(a, b[..n]);
      assert (a + b)[..|a + b| - 1] == a + b[..n];
      Scale(NatOf(a), Pow10(n), NatOf(b[..n]));
    }
  }

  lemma Scale(x: nat, p: nat, y: nat)
    ensures (x * p + y) * 10 == x * (10 * p) + y * 10
  {
  }

  lemma {:induction false} ZerosMean(n: nat)
    ensures NatOf(Zeros(n)) == 0
  {
    if n > 0 {
      ZerosMean(n - 1);
      assert Zeros(n)[..n - 1] == Zeros(n - 1);
    }
  }

  // ----- Printing -----

  /** The digits of v, at least scale + 1 of them. */
  function Padded(v: int, scale: nat): (s: string)
    ensures AllDigits(s) && |s| > scale
  {
    Widened(Digits(Abs(v)), scale)
  }

  /** Leading zeros up to scale plus one digits. */
  function Widened(s: string, scale: nat): (r: string)
    requires AllDigits(s)
    ensures AllDigits(r) && |r| > scale
  {
    if |s| <= scale then Zeros(scale + 1 - |s|) + s else s
  }

  function Rendered(d: Decimal): string
  {
    if d.value.None? then "0"
    else
      var sign := if d.value.value < 0 then "-" else "";
      if d.scale <= 0 then sign + Digits(Abs(d.value.value))
      else
        sign + Pointed(Padded(d.value.value, d.scale), d.scale)
  }

  function Pointed(s: string, scale: nat): string
    requires scale < |s|
  {
    s[..|s| - scale] + "." + s[|s| - scale..]
  }

  method String(d: Decimal) returns (r: string)
    ensures r == Rendered(d)
  {
    if d.value.None? {
      return "0";
    }
    var v := d.value.value;
    var str := Digits(Abs(v));
    if d.scale <= 0 {
      r := WithSign(v < 0, str);
      return;
    }
    str := Pad(str, d.scale);
    r := WithSign(v < 0, str[..|str| - d.scale] + "." + str[|str| - d.scale..]);
  }

  method WithSign(neg: bool, s: string) returns (r: string)
    ensures r == (if neg then "-" else "") + s
  {
    r := s;
    if neg {
      r := "-" + r;
    }
  }

  method Pad(digits: string, scale: nat) returns (str: string)
    requires AllDigits(digits)
    ensures str == Widened(digits, scale)
  {
    str := digits;
    while |str| <= scale
      invariant |str| >= |digits| && str == Zeros(|str| - |digits|) + digits
      invariant |str| == |digits| || |str| <= scale + 1
      decreases scale + 1 - |str|
    {
      str := "0" + str;
    }
  }

  // ----- Reading -----

  predicate IsSign(c: char) { c == '+' || c == '-' }

  /** The text after one sign. */
  function Body(s: string): string { if s != "" && IsSign(s[0]) then s[1..] else s }

  predicate Negative(s: string) { s != "" && s[0] == '-' }

  /** Place of the first point, or the length. */
  function Point(s: string): (i: nat)
    ensures i <= |s| && (i < |s| ==> s[i] == '.') && forall j :: 0 <= j < i ==> s[j] != '.'
  {
    if s == "" || s[0] == '.' then 0 else 1 + Point(s[1..])
  }

  function Whole(s: string): string { Body(s)[..Point(Body(s))] }

  function Frac(s: string): string
  {
    var b := Body(s);
    if Point(b) < |b| then b[Point(b) + 1..] else ""
  }

  /** An optional sign, digits, and perhaps a point and at most scale digits, with at least one
      digit in all. */
  predicate Numeral(s: string, scale: nat)
  {
    && AllDigits(Whole(s)) && AllDigits(Frac(s)) && Whole(s) + Frac(s) != ""
    && |Frac(s)| <= scale
  }

  /** What a numeral is worth in units of the last of scale places. */
  function Worth(s: string, scale: nat): int
    requires Numeral(s, scale)
  {
    var n: int := Units(Whole(s), Frac(s), scale, scale - |Frac(s)|);
    if Negative(s) then -n else n
  }

  /** The digits w with m zeros behind them, and the digits f with n. */
  function Units(w: string, f: string, m: nat, n: nat): nat
    requires AllDigits(w) && AllDigits(f)
  {
    Raised(w, m) + Raised(f, n)
  }

  /** The digits s with n zeros behind them. */
  function Raised(s: string, n: nat): nat
    requires AllDigits(s)
  {
    NatOf(s) * Pow10(n)
  }

  /** A second sign, right behind a leading point. */
  predicate SignBehindPoint(s: string)
  {
    |Body(s)| >= 2 && Body(s)[0] == '.' && IsSign(Body(s)[1])
  }

  /** A point, perhaps signed, without any digit. */
  predicate BarePoint(s: string) { Body(s) == "." }

  /** A second sign, then digits or the zeros that the scale supplies. */
  predicate Misread(s: string, scale: nat)
  {
    SignBehindPoint(s) && AllDigits(Frac(s)[1..]) && |Frac(s)| <= scale && scale >= 2
  }

  function MisreadWorth(s: string, scale: nat): int
    requires Misread(s, scale)
  {
    var n: int := Raised(Frac(s)[1..], scale - |Frac(s)|);
    if Negative(s) != (Frac(s)[0] == '-') then -n else n
  }

  /** Exactly what Parse accepts and what it then returns. */
  ghost predicate Parses(s: string, scale: int, r: Outcome)
  {
    if scale < 0 then r == Failed(NegativeScale)
    else if Numeral(s, scale) then r == Ok(Decimal(Some(Worth(s, scale)), scale))
    else if Misread(s, scale) then r == Ok(Decimal(Some(MisreadWorth(s, scale)), scale))
    else if BarePoint(s) && scale > 0 then r == Ok(Decimal(Some(0), scale))
    else r == Failed(ParseError)
  }

  /** big.Int.SetString in base 10. */
  function SetString(s: string): Option<int>
  {
    if s == "" then None
    else if IsSign(s[0]) then
      if |s| == 1 || !AllDigits(s[1..]) then None
      else
        var n: int := NatOf(s[1..]);
        Some(if s[0] == '-' then -n else n)
    else if AllDigits(s) then Some(NatOf(s)) else None
  }

  function Converted(neg: bool, v: Option<int>, scale: int): Outcome
  {
    if v.None? then Failed(ParseError) else Ok(Decimal(Some(if neg then -v.value else v.value), scale))
  }

  method Parse(text: string, scale: int) returns (r: Outcome)
    ensures Parses(text, scale, r)
  {
    if scale < 0 {
      return Failed(NegativeScale);
    }
    if text == "" {
      return Failed(ParseError);
    }
    var s, neg := text, false;
    if s[0] == '-' {
      neg, s := true, s[1..];
    } else if s[0] == '+' {
      s := s[1..];
    }
    assert s == Body(text) && neg == Negative(text);
    r := ParseBody(text, s, neg, scale);
  }

  /** Parse once the sign of text is off. */
  method ParseBody(ghost text: string, s: string, neg: bool, scale: nat) returns (r: Outcome)
    requires s == Body(text) && neg == Negative(text)
    ensures Parses(text, scale, r)
  {
    if |s| == 0 || IsSign(s[0]) {
      SignedBody(text, scale);
      return Failed(ParseError);
    }
    var whole, frac := s[..Point(s)], "";
    if Point(s) < |s| {
      frac := s[Point(s) + 1..];
    }
    assert whole == Whole(text) && frac == Frac(text);
    if |frac| > scale {
      return Failed(ParseError);
    }
    Combined(text, scale);
    r := Converted(neg, SetString(whole + (frac + Zeros(scale - |frac|))), scale);
  }

  /** A doubled sign at the front is refused. */
  lemma SignedBody(text: string, scale: nat)
    requires Body(text) == "" || IsSign(Body(text)[0])
    ensures !Numeral(text, scale) && !Misread(text, scale) && !BarePoint(text)
  {
    if Body(text) != "" {
      assert Whole(text)[0] == Body(text)[0];
    }
  }

  /** What SetString makes of digits padded with zeros. */
  lemma PaddedMean(w: string, f: string, n: nat)
    requires AllDigits(w) && AllDigits(f)
    ensures AllDigits(w + (f + Zeros(n)))
    ensures NatOf(w + (f + Zeros(n))) == Units(w, f, |f| + n, n)
  {
    ZerosBehind(f, n);
    NatOfConcat(w, f + Zeros(n));
  }

  lemma ZerosBehind(f: string, n: nat)
    requires AllDigits(f)
    ensures AllDigits(f + Zeros(n)) && NatOf(f + Zeros(n)) == Raised(f, n)
  {
    ZerosMean(n);
    NatOfConcat(f, Zeros(n));
  }

  lemma NotDigits(w: string, f: string, n: nat)
    requires !AllDigits(w) || !AllDigits(f)
    ensures !AllDigits(w + (f + Zeros(n)))
  {
    var s := w + (f + Zeros(n));
    assert s[..|w|] == w && s[|w|..|w| + |f|] == f;
  }

  lemma Combined(text: string, scale: nat)
    requires Body(text) != "" && !IsSign(Body(text)[0]) && |Frac(text)| <= scale
    ensures Parses(text, scale,
        Converted(Negative(text), SetString(Whole(text) + (Frac(text) + Zeros(scale - |Frac(text)|))), scale))
  {
    var w, f := Whole(text), Frac(text);
    if w == "" && f != "" && IsSign(f[0]) {
      CombinedMisread(text, scale);
    } else {
      CombinedPlain(text, scale, w, f);
    }
  }

  /** Without a sign behind the point SetString sees digits, or something that is no number. */
  lemma CombinedPlain(text: string, scale: nat, w: string, f: string)
    requires Body(text) != "" && !IsSign(Body(text)[0]) && w == Whole(text) && f == Frac(text) && |f| <= scale
    requires !(w == "" && f != "" && IsSign(f[0]))
    ensures Parses(text, scale, Converted(Negative(text), SetString(w + (f + Zeros(scale - |f|))), scale))
  {
    UnsignedMean(w, f, scale, scale - |f|);
    PlainOutcome(text, scale, w, f, SetString(w + (f + Zeros(scale - |f|))));
  }

  lemma PlainOutcome(text: string, scale: nat, w: string, f: string, v: Option<int>)
    requires Body(text) != "" && w == Whole(text) && f == Frac(text) && |f| <= scale
    requires !(w == "" && f != "" && IsSign(f[0]))
    requires if AllDigits(w) && AllDigits(f) && |w| + scale > 0 then v == Some(Units(w, f, scale, scale - |f|))
             else v == None
    ensures Parses(text, scale, Converted(Negative(text), v, scale))
  {
    PlainShape(text, scale, w, f);
    NoDigits(scale, scale - |f|);
  }

  lemma PlainShape(text: string, scale: nat, w: string, f: string)
    requires Body(text) != "" && w == Whole(text) && f == Frac(text) && |f| <= scale
    requires !(w == "" && f != "" && IsSign(f[0]))
    ensures !Misread(text, scale)
    ensures BarePoint(text) <==> w == "" && f == ""
    ensures Numeral(text, scale) <==> AllDigits(w) && AllDigits(f) && |w| + |f| > 0
  {
    assert |w + f| == |w| + |f|;
  }

  lemma NoDigits(m: nat, n: nat)
    ensures Units("", "", m, n) == 0
  {
  }

  /** What SetString makes of digits and zeros without a sign. */
  lemma UnsignedMean(w: string, f: string, m: nat, n: nat)
    requires m == |f| + n
    requires if w != "" then !IsSign(w[0]) else f != "" ==> !IsSign(f[0])
    ensures var v := SetString(w + (f + Zeros(n)));
      if AllDigits(w) && AllDigits(f) && |w| + m > 0 then v == Some(Units(w, f, m, n)) else v == None
  {
    var s := w + (f + Zeros(n));
    assert s != "" ==> !IsSign(s[0]);
    if AllDigits(w) && AllDigits(f) {
      PaddedMean(w, f, n);
    } else {
      NotDigits(w, f, n);
    }
  }

  /** What SetString makes of a sign, digits and zeros. */
  lemma SignedMean(c: char, f: string, n: nat)
    requires IsSign(c)
    ensures var v := SetString([c] + (f + Zeros(n)));
      if AllDigits(f) && |f| + n > 0
        then v == Some(if c == '-' then 0 - Raised(f, n) else Raised(f, n)) else v == None
  {
    SignedDigits(c, f + Zeros(n));
    DigitsIff(f, n);
  }

  lemma DigitsIff(f: string, n: nat)
    ensures |f + Zeros(n)| == |f| + n && (AllDigits(f + Zeros(n)) <==> AllDigits(f))
    ensures AllDigits(f) ==> NatOf(f + Zeros(n)) == Raised(f, n)
  {
    if AllDigits(f) {
      ZerosBehind(f, n);
    } else {
      assert (f + Zeros(n))[..|f|] == f;
    }
  }

  lemma SignedDigits(c: char, z: string)
    requires IsSign(c)
    ensures AllDigits(z) && z != "" ==> SetString([c] + z) == Some(if c == '-' then 0 - NatOf(z) else NatOf(z))
    ensures !AllDigits(z) || z == "" ==> SetString([c] + z) == None
  {
    assert ([c] + z)[0] == c && ([c] + z)[1..] == z;
  }

  /** A sign behind a leading point goes to SetString. */
  lemma CombinedMisread(text: string, scale: nat)
    requires Body(text) != "" && |Frac(text)| <= scale && Whole(text) == "" && Frac(text) != "" && IsSign(Frac(text)[0])
    ensures Parses(text, scale,
        Converted(Negative(text), SetString(Whole(text) + (Frac(text) + Zeros(scale - |Frac(text)|))), scale))
  {
    var f, n := Frac(text), scale - |Frac(text)|;
    assert !Numeral(text, scale) && SignBehindPoint(text);
    assert "" + (f + Zeros(n)) == [f[0]] + (f[1..] + Zeros(n));
    SignedMean(f[0], f[1..], n);
  }

  // ----- What reading and printing promise -----

  /** Parse accepts numerals and nothing else exactly for the texts that are not misread and not
      a bare point. */
  lemma NumeralsOnly(s: string, scale: nat, r: Outcome)
    requires Parses(s, scale, r)
    ensures (r.Ok? <==> Numeral(s, scale)) <==> !Misread(s, scale) && !(BarePoint(s) && scale > 0)
  {
    if Misread(s, scale) {
      assert Frac(s)[0] == Body(s)[1];
    }
    if BarePoint(s) {
      assert Whole(s) + Frac(s) == "";
    }
  }

  /** A point without a digit is accepted as zero, although the empty text and a bare sign are
      refused. */
  lemma BarePointAccepted(s: string, r: Outcome)
    requires (s == "." || s == "-.") && Parses(s, 2, r)
    ensures r == Ok(Decimal(Some(0), 2)) && !Numeral(s, 2)
  {
    assert Body(s) == "." && Whole(s) == "" && Frac(s) == "";
  }

  /** The guard against a doubled sign misses one behind a leading point: minus nothing point
      minus five reads as plus five hundredths. */
  lemma DoubledSignAccepted(s: string, r: Outcome)
    requires s == "-.-5" && Parses(s, 2, r)
    ensures r == Ok(Decimal(Some(5), 2)) && !Numeral(s, 2)
  {
    assert Body(s) == ".-5";
    assert Frac(s) == "-5" && "-5"[1..] == "5";
    assert "5"[..0] == "" && NatOf("5") == 5;
    assert !AllDigits(Frac(s)) by {
      assert Frac(s)[0] == '-';
    }
  }

  lemma PlainParts(s: string, w: string)
    requires Body(s) == w && AllDigits(w)
    ensures Whole(s) == w && Frac(s) == ""
  {
    assert Point(w) == |w|;
  }

  lemma PointedParts(s: string, w: string, f: string)
    requires Body(s) == w + "." + f && AllDigits(w)
    ensures Whole(s) == w && Frac(s) == f
  {
    var b := w + "." + f;
    assert b[|w|] == '.' && b[..|w|] == w && b[|w| + 1..] == f;
    assert forall j :: 0 <= j < |w| ==> b[j] == w[j];
    assert Point(b) == |w|;
  }

  lemma SignedBodyIs(neg: bool, u: string)
    requires u != "" && !IsSign(u[0])
    ensures var s := (if neg then "-" else "") + u; Body(s) == u && Negative(s) == neg
  {
    if neg {
      assert ("-" + u)[1..] == u;
    } else {
      assert "" + u == u;
    }
  }

  /** s has this sign, these digits, and this many of them behind the point. */
  ghost predicate Shows(s: string, neg: bool, digits: string, places: nat)
  {
    && Body(s) != "" && Negative(s) == neg && |Frac(s)| == places
    && AllDigits(Whole(s)) && AllDigits(Frac(s)) && Whole(s) != "" && Whole(s) + Frac(s) == digits
  }

  lemma ShowsPlain(s: string, neg: bool, w: string)
    requires s == (if neg then "-" else "") + w && w != "" && AllDigits(w)
    ensures Shows(s, neg, w, 0)
  {
    SignedBodyIs(neg, w);
    PlainParts(s, w);
    assert w + "" == w;
  }

  lemma ShowsPointed(s: string, neg: bool, w: string, f: string)
    requires s == (if neg then "-" else "") + (w + "." + f) && w != "" && AllDigits(w) && AllDigits(f)
    ensures Shows(s, neg, w + f, |f|)
  {
    SignedBodyIs(neg, w + "." + f);
    PointedParts(s, w, f);
  }

  lemma RenderedShows(d: Decimal, s: string) returns (digits: string)
    requires d.scale >= 0 && s == Rendered(d)
    ensures Shows(s, d.Value() < 0, digits, if d.value.None? then 0 else d.scale)
    ensures AllDigits(digits) && NatOf(digits) == Abs(d.Value())
  {
    var neg := d.Value() < 0;
    if d.value.None? {
      digits := "0";
      assert "" + "0" == "0" && "0"[..0] == "";
      ShowsPlain(s, neg, digits);
    } else if d.scale == 0 {
      digits := Digits(Abs(d.Value()));
      ShowsPlain(s, neg, digits);
      DigitsMean(Abs(d.Value()));
    } else {
      digits := Padded(d.Value(), d.scale);
      ShowsDigits(s, neg, digits, d.scale);
      PaddedValue(d.Value(), d.scale);
    }
  }

  lemma ShowsDigits(s: string, neg: bool, digits: string, scale: nat)
    requires AllDigits(digits) && scale < |digits| && s == (if neg then "-" else "") + Pointed(digits, scale)
    ensures Shows(s, neg, digits, scale)
  {
    var w, f := digits[..|digits| - scale], digits[|digits| - scale..];
    assert w + f == digits;
    ShowsPointed(s, neg, w, f);
  }

  lemma LeadingZeros(n: nat, s: string)
    requires AllDigits(s)
    ensures AllDigits(Zeros(n) + s) && NatOf(Zeros(n) + s) == NatOf(s)
  {
    ZerosMean(n);
    NatOfConcat(Zeros(n), s);
    assert 0 * Pow10(|s|) == 0;
  }

  lemma PaddedValue(v: int, scale: nat)
    ensures NatOf(Padded(v, scale)) == Abs(v)
  {
    var s := Digits(Abs(v));
    DigitsMean(Abs(v));
    if |s| <= scale {
      assert Padded(v, scale) == Zeros(scale + 1 - |s|) + s;
      LeadingZeros(scale + 1 - |s|, s);
    } else {
      assert Padded(v, scale) == s;
    }
  }

  /** Parse undoes String at the same scale, for every value and sign. */
  lemma ParseUndoesString(d: Decimal, r: Outcome)
    requires d.scale >= 0 && Parses(Rendered(d), d.scale, r)
    ensures r == Ok(Decimal(Some(d.Value()), d.scale))
  {
    var s := Rendered(d);
    var digits := RenderedShows(d, s);
    ReadShown(s, d.Value(), digits, if d.value.None? then 0 else d.scale, d.scale, r);
  }

  lemma ReadShown(s: string, v: int, digits: string, places: nat, scale: nat, r: Outcome)
    requires Shows(s, v < 0, digits, places) && NatOf(digits) == Abs(v) && Parses(s, scale, r)
    requires places == scale || (places == 0 && v == 0)
    ensures r == Ok(Decimal(Some(v), scale))
  {
    assert Numeral(s, scale);
    ShownWorth(s, v, digits, places, scale);
  }

  lemma ShownWorth(s: string, v: int, digits: string, places: nat, scale: nat)
    requires Shows(s, v < 0, digits, places) && NatOf(digits) == Abs(v) && Numeral(s, scale)
    requires places == scale || (places == 0 && v == 0)
    ensures Worth(s, scale) == v
  {
    NatOfConcat(Whole(s), Frac(s));
    if places == 0 {
      assert Frac(s) == "" && Whole(s) + "" == Whole(s);
    }
  }

  // ----- Arithmetic -----

  /** big.Int.Quo: division that truncates toward zero. */
  function Quo(a: int, b: int): (q: int)
    requires b != 0
  {
    var n: int := Quotient(Abs(a), Abs(b));
    if (a < 0) != (b < 0) then -n else n
  }

  function Quotient(x: nat, y: nat): nat
    requires y > 0
  {
    x / y
  }

  /** q is a / b cut off toward zero: the largest multiple of b no further from 0 than a, on
      a's side. */
  ghost predicate Truncates(a: int, b: int, q: int)
  {
    && Abs(q) * Abs(b) <= Abs(a) < (Abs(q) + 1) * Abs(b)
    && (q == 0 || ((a < 0) != (b < 0) <==> q < 0))
  }

  function Div(d: Decimal, divisor: int): Outcome
  {
    if divisor == 0 then Failed(DivideByZero) else Ok(Decimal(Some(Quo(d.Value(), divisor)), d.scale))
  }

  function Rescale(d: Decimal, scale: int): Decimal
  {
    if scale < 0 || scale == d.scale then d
    else if scale > d.scale then Decimal(Some(d.Value() * Pow10(scale - d.scale)), scale)
    else Decimal(Some(Quo(d.Value(), Pow10(d.scale - scale))), scale)
  }

  lemma QuoTruncates(a: int, b: int)
    requires b != 0
    ensures Truncates(a, b, Quo(a, b))
  {
    var x, y := Abs(a), Abs(b);
    assert x == x / y * y + x % y;
    assert (x / y + 1) * y == x / y * y + y;
  }

  lemma TruncatesOnce(a: int, b: int, p: int, q: int)
    requires b != 0 && Truncates(a, b, p) && Truncates(a, b, q)
    ensures p == q
  {
    Between(Abs(a), Abs(b), Abs(p), Abs(q));
    Between(Abs(a), Abs(b), Abs(q), Abs(p));
  }

  lemma Between(a: nat, b: nat, p: nat, q: nat)
    requires b > 0 && p * b <= a < (q + 1) * b
    ensures p <= q
  {
    assert p > q ==> (p - q - 1) * b >= 0;
  }

  lemma {:induction false} Pow10Sum(m: nat, n: nat)
    ensures Pow10(m + n) == Pow10(m) * Pow10(n)
  {
    if m > 0 {
      Pow10Sum(m - 1, n);
      MulAssoc(10, Pow10(m - 1), Pow10(n));
    }
  }

  lemma DivDiv(x: nat, p: nat, q: nat)
    requires p > 0 && q > 0
    ensures p * q > 0 && x / p / q == x / (p * q)
  {
    var m, b := x / p, x % p;
    var n, a := m / q, m % q;
    MulPositive(p, q);
    TwoSteps(m, n, a, b, p, q);
    DivModUnique(x, n, a * p + b, p * q);
  }

  lemma TwoSteps(m: nat, n: nat, a: nat, b: nat, p: nat, q: nat)
    requires m == n * q + a && a < q && b < p
    ensures m * p + b == n * (p * q) + (a * p + b) && 0 <= a * p + b < p * q
  {
    MulSame(m, n * q + a, p);
    MulDistr(n * q, a, p);
    MulAssoc(n, q, p);
    NextMultiple(a, q, p);
  }

  lemma NextMultiple(a: nat, q: nat, p: nat)
    requires a < q
    ensures a * p + p <= q * p && a * p >= 0
  {
    MulDistr(a, 1, p);
    MulDistr(a + 1, q - a - 1, p);
  }

  lemma DivScale(x: nat, p: nat, q: nat)
    requires p > 0 && q > 0
    ensures p * q > 0 && (x * q) / (p * q) == x / p
  {
    var n, r := x / p, x % p;
    MulPositive(p, q);
    ScaledRest(x, n, r, p, q);
    DivModUnique(x * q, n, r * q, p * q);
  }

  lemma ScaledRest(x: nat, n: nat, r: nat, p: nat, q: nat)
    requires x == n * p + r && r < p && q > 0
    ensures x * q == n * (p * q) + r * q && 0 <= r * q < p * q
  {
    MulSame(x, n * p + r, q);
    MulDistr(n * p, r, q);
    MulAssoc(n, p, q);
    MulLess(r, p, q);
  }

  /** Truncating in two steps is truncating at once. */
  lemma QuoQuo(a: int, p: nat, q: nat)
    requires p > 0 && q > 0
    ensures p * q > 0 && Quo(Quo(a, p), q) == Quo(a, p * q)
  {
    DivDiv(Abs(a), p, q);
    QuoSigned(Abs(a), p);
    QuoSigned(Quotient(Abs(a), p), q);
    QuoSigned(Abs(a), p * q);
  }

  lemma QuoSigned(m: nat, q: nat)
    requires q > 0
    ensures Quo(m, q) == Quotient(m, q) && Quo(0 - m, q) == 0 - Quotient(m, q)
  {
    if m == 0 {
      DivModUnique(0, 0, 0, q);
    }
  }

  lemma QuoScale(a: int, p: nat, q: nat)
    requires p > 0 && q > 0
    ensures p * q > 0 && Quo(a * q, p * q) == Quo(a, p)
  {
    DivScale(Abs(a), p, q);
    assert Abs(a * q) == Abs(a) * q && (a * q < 0 <==> a < 0) by {
      assert a < 0 ==> -a * q == -(a * q) && -a * q > 0;
      assert a >= 0 ==> a * q >= 0;
    }
  }

  // ----- Rescaling through another scale -----

  /** Equal as numbers and in scale; the zero struct and a stored 0 are the same. */
  predicate Same(a: Decimal, b: Decimal) { a.scale == b.scale && a.Value() == b.Value() }

  /** What Rescale makes of the number: nothing for a negative scale; more places keep it as it is;
      fewer cut it off toward zero. */
  lemma RescaleMeans(d: Decimal, scale: int)
    ensures scale < 0 ==> Rescale(d, scale) == d
    ensures scale >= 0 ==> Rescale(d, scale).scale == scale
    ensures scale >= 0 && scale >= d.scale ==> Rescale(d, scale).Value() == d.Value() * Pow10(scale - d.scale)
    ensures 0 <= scale < d.scale ==> Truncates(d.Value(), Pow10(d.scale - scale), Rescale(d, scale).Value())
  {
    if 0 <= scale < d.scale {
      QuoTruncates(d.Value(), Pow10(d.scale - scale));
    }
  }

  /** Going down by steps truncates as going down at once, for either sign; and places that
      were added on the way come off without loss. */
  lemma RescaleDown(d: Decimal, mid: int, scale: int)
    requires d.scale >= 0 && mid >= scale >= 0
    ensures Same(Rescale(Rescale(d, mid), scale), Rescale(d, scale))
  {
    if scale < mid < d.scale {
      DownDown(d.Value(), d.scale - mid, mid - scale);
    } else if scale < d.scale < mid {
      UpDown(d.Value(), mid - d.scale, d.scale - scale);
    } else if d.scale <= scale < mid {
      UpBack(d.Value(), mid - scale, scale - d.scale);
    }
  }

  lemma DownDown(v: int, m: nat, n: nat)
    ensures Quo(Quo(v, Pow10(m)), Pow10(n)) == Quo(v, Pow10(m + n))
  {
    Pow10Sum(m, n);
    QuoQuo(v, Pow10(m), Pow10(n));
  }

  lemma UpDown(v: int, m: nat, n: nat)
    ensures Quo(v * Pow10(m), Pow10(m + n)) == Quo(v, Pow10(n))
  {
    Pow10Sum(n, m);
    QuoScale(v, Pow10(n), Pow10(m));
  }

  lemma UpBack(v: int, m: nat, n: nat)
    ensures Quo(v * Pow10(m + n), Pow10(m)) == v * Pow10(n)
  {
    Pow10Sum(n, m);
    assert v * Pow10(m + n) == v * Pow10(n) * Pow10(m);
    QuoScale(v * Pow10(n), 1, Pow10(m));
  }

  lemma RescaleUp(d: Decimal, mid: int, scale: int)
    requires 0 <= d.scale <= mid <= scale
    ensures Same(Rescale(Rescale(d, mid), scale), Rescale(d, scale))
  {
    var m, n := mid - d.scale, scale - mid;
    Pow10Sum(m, n);
    assert d.Value() * Pow10(m) * Pow10(n) == d.Value() * (Pow10(m) * Pow10(n));
  }

  /** A detour through another scale is harmless exactly when that scale is no smaller than
      one of the ends, or the digits it cuts off are zeros. */
  lemma RescaleVia(d: Decimal, mid: int, scale: int)
    requires d.scale >= 0 && mid >= 0 && scale >= 0
    ensures Same(Rescale(Rescale(d, mid), scale), Rescale(d, scale)) <==>
      mid >= d.scale || mid >= scale || Rescale(d, scale).Value() % Pow10(scale - mid) == 0
  {
    if mid >= scale {
      RescaleDown(d, mid, scale);
    } else if mid >= d.scale {
      RescaleUp(d, mid, scale);
    } else {
      RescaleDown(d, scale, mid);
      CutOff(Rescale(d, scale).Value(), Pow10(scale - mid));
    }
  }

  lemma CutOff(r: int, p: nat)
    requires p > 0
    ensures Quo(r, p) * p == r <==> r % p == 0
  {
    var x := Abs(r);
    assert x == x / p * p + x % p;
    if r % p == 0 {
      assert r == r / p * p;
      assert r < 0 ==> x == -(r / p) * p;
      assert r < 0 ==> x % p == 0 by {
        if r < 0 {
          DivModUnique(x, -(r / p), 0, p);
        }
      }
    }
    if Quo(r, p) * p == r {
      DivModUnique(r, Quo(r, p), 0, p);
    }
  }

  /** Div cuts off toward zero, whatever the signs. */
  lemma DivTruncates(d: Decimal, divisor: int)
    ensures divisor == 0 <==> Div(d, divisor) == Failed(DivideByZero)
    ensures divisor != 0 ==> Div(d, divisor).Ok? && Div(d, divisor).d.scale == d.scale
    ensures divisor != 0 ==> Truncates(d.Value(), divisor, Div(d, divisor).d.Value())
  {
    if divisor != 0 {
      QuoTruncates(d.Value(), divisor);
    }
  }
}
