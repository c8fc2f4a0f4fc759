/** The printed text is the canonical one of section 4 of RFC 5952: the only text that reads as the
    address, is in lower case, has no leading zeros, and shortens what it must. */
module Ipv6Canonical {
  import opened Sets
  import opened Ipv6

  // ----- Section 4 of RFC 5952, of any text -----

  /** Section 4.3: lower case. */
  predicate LowerHex(c: char) { '0' <= c <= '9' || 'a' <= c <= 'f' }

  /** Section 4.1: no leading zeros, and a zero group is a single 0. */
  predicate PlainField(f: string)
  {
    (forall i :: 0 <= i < |f| ==> LowerHex(f[i])) && (|f| > 1 ==> f[0] != '0')
  }

  predicate PlainFields(fs: seq<string>) { forall k :: 0 <= k < |fs| ==> PlainField(fs[k]) }

  /** Section 4.2: "::" stands for the leftmost longest run of at least two zero groups, and is
      there when there is such a run. */
  ghost predicate ShortensRun(s: string, g: seq<nat>)
  {
    match Double(s, 0)
    case None => Shortens(g, -1, -1)
    case Some(i) =>
      var (l, r) := (ReadList(s[..i]), ReadList(s[i + 2..]));
      l.Some? && r.Some? && Shortens(g, |l.value|, |g| - |r.value|)
  }

  ghost predicate Canonical(s: string, g: seq<nat>)
  {
    PlainFields(Fields(s)) && Read(s) == Some(g) && ShortensRun(s, g)
  }

  // ----- A plain field is the number it reads as -----

  lemma DigitOf(c: char)
    requires LowerHex(c)
    ensures HexValue(c).Some? && HexValue(c).value < 16 && Digit(HexValue(c).value) == c
    ensures HexValue(c).value == 0 <==> c == '0'
  {
    var v := HexValue(c).value;
    if c <= '9' {
      DecimalDigit(v);
    } else {
      LetterDigit(v);
    }
  }

  lemma DecimalDigit(v: nat)
    requires v < 10
    ensures Digit(v) as int == '0' as int + v
  {
  }

  lemma LetterDigit(v: nat)
    requires 10 <= v < 16
    ensures Digit(v) as int == 'a' as int + v - 10
  {
  }

  /** f is how n is written. */
  predicate Writes(f: string, n: nat) { ReadHex(f) == Some(n) && f == Hex(n) }

  lemma {:induction false} FieldIsHex(f: string) returns (n: nat)
    requires f != "" && PlainField(f)
    ensures Writes(f, n) && (f[0] != '0' ==> n > 0)
  {
    var k := |f| - 1;
    DigitOf(f[k]);
    var low := HexValue(f[k]).value;
    if k == 0 {
      n := low;
      OneDigit(f, f[0]);
    } else {
      assert f[..k][0] == f[0];
      var high := FieldIsHex(f[..k]);
      n := high * 16 + low;
      ReadNext(f, f[..k], f[k], high, low);
      SpellNext(f, f[..k], f[k], high, low);
    }
  }

  lemma OneDigit(f: string, c: char)
    requires f == [c] && LowerHex(c)
    ensures ReadHex(f) == HexValue(c) && HexValue(c).Some? && f == Hex(HexValue(c).value)
  {
    DigitOf(c);
    assert f[..0] == "";
  }

  lemma ReadNext(f: string, init: string, c: char, high: nat, low: nat)
    requires f != "" && init == f[..|f| - 1] && c == f[|f| - 1]
    requires ReadHex(init) == Some(high) && HexValue(c) == Some(low)
    ensures ReadHex(f) == Some(high * 16 + low)
  {
  }

  lemma SpellNext(f: string, init: string, c: char, high: nat, low: nat)
    requires f != "" && init == f[..|f| - 1] && c == f[|f| - 1]
    requires high > 0 && low < 16 && init == Hex(high) && c == Digit(low)
    ensures f == Hex(high * 16 + low)
  {
    HexNext(high, low);
    assert f == init + [c];
  }

  lemma HexNext(high: nat, low: nat)
    requires high > 0 && low < 16
    ensures Hex(high * 16 + low) == Hex(high) + [Digit(low)]
  {
  }

  lemma {:induction false} HexIsPlain(n: nat)
    ensures PlainField(Hex(n)) && (n > 0 ==> Hex(n)[0] != '0')
  {
    DigitIsLower(n % 16);
    if n >= 16 {
      HexIsPlain(n / 16);
      assert Hex(n)[0] == Hex(n / 16)[0];
    }
  }

  lemma DigitIsLower(d: nat)
    requires d < 16
    ensures LowerHex(Digit(d)) && (d > 0 ==> Digit(d) != '0')
  {
    if d < 10 {
      DecimalDigit(d);
    } else {
      LetterDigit(d);
    }
  }

  // ----- A list of plain fields is the text of its groups -----

  lemma {:induction false} GroupsAreFields(fs: seq<string>, g: seq<nat>)
    requires PlainFields(fs) && ReadGroups(fs) == Some(g)
    ensures fs == Texts(g)
  {
    if fs != [] {
      var n := |fs| - 1;
      GroupsAreFields(fs[..n], ReadGroups(fs[..n]).value);
      var x := FieldIsHex(fs[n]);
    }
  }

  /** One more character goes on with the last field, or a colon starts a new one. */
  function Push(fs: seq<string>, c: char): seq<string>
    requires fs != []
  {
    if c == ':' then fs + [""] else fs[|fs| - 1 := fs[|fs| - 1] + [c]]
  }

  lemma FieldsPush(s: string, init: string, c: char)
    requires s == init + [c]
    ensures Fields(s) == Push(Fields(init), c)
  {
    assert s[..|s| - 1] == init;
  }

  lemma JoinPush(fs: seq<string>, c: char)
    requires fs != []
    ensures Text(Push(fs, c), 0, |Push(fs, c)|) == Text(fs, 0, |fs|) + [c]
  {
    var n := |fs|;
    if c == ':' {
      SameText(fs + [""], fs, 0, n);
      assert Text(fs + [""], 0, n + 1) == Text(fs, 0, n) + ":" + "";
    } else {
      SameText(Push(fs, c), fs, 0, n - 1);
      if n > 1 {
        assert Text(fs, 0, n) == Text(fs, 0, n - 1) + ":" + fs[n - 1];
        assert Text(Push(fs, c), 0, n) == Text(fs, 0, n - 1) + ":" + (fs[n - 1] + [c]);
      }
    }
  }

  lemma {:induction false} JoinFields(s: string)
    ensures Text(Fields(s), 0, |Fields(s)|) == s
  {
    if s != "" {
      var init, c := s[..|s| - 1], s[|s| - 1];
      JoinFields(init);
      FieldsPush(s, init, c);
      JoinPush(Fields(init), c);
    }
  }

  /** Fields that agree from one place to another have the same text there. */
  lemma {:induction false} SameText(fs: seq<string>, hs: seq<string>, from: nat, end: nat)
    requires from <= end <= |fs| && end <= |hs| && fs[from..end] == hs[from..end]
    ensures Text(fs, from, end) == Text(hs, from, end)
    decreases end
  {
    if from < end {
      assert fs[from..end][end - 1 - from] == hs[from..end][end - 1 - from];
      assert fs[from..end][0] == hs[from..end][0];
      assert fs[from..end - 1] == fs[from..end][..end - 1 - from] == hs[from..end - 1];
      SameText(fs, hs, from, end - 1);
    }
  }

  /** The same fields, standing further on. */
  lemma {:induction false} MovedText(fs: seq<string>, hs: seq<string>, from: nat, end: nat, n: nat)
    requires end == from + n && end <= |fs| && n <= |hs| && Aligned(fs, hs, from, n)
    ensures Text(fs, from, end) == Text(hs, 0, n)
    decreases n
  {
    if n > 1 {
      MovedText(fs, hs, from, end - 1, n - 1);
      assert fs[from + (n - 1)] == hs[n - 1];
    } else if n == 1 {
      assert fs[from + 0] == hs[0];
    }
  }

  ghost predicate Aligned(fs: seq<string>, hs: seq<string>, from: nat, n: nat)
    requires from + n <= |fs| && n <= |hs|
  {
    forall k :: 0 <= k < n ==> fs[from + k] == hs[k]
  }

  lemma ListIsText(s: string, g: seq<nat>)
    requires PlainFields(Fields(s)) && ReadList(s) == Some(g)
    ensures s == Text(Texts(g), 0, |g|)
  {
    if s != "" {
      GroupsAreFields(Fields(s), g);
      JoinFields(s);
    }
  }

  lemma PushJoined(fs: seq<string>, hs: seq<string>, c: char)
    requires hs != []
    ensures Push(fs + hs, c) == fs + Push(hs, c)
  {
  }

  lemma {:induction false} FieldsJoined(a: string, b: string)
    ensures Fields(a + ":" + b) == Fields(a) + Fields(b)
  {
    if b == "" {
      FieldsPush(a + ":" + b, a, ':');
    } else {
      var init, c := b[..|b| - 1], b[|b| - 1];
      FieldsJoined(a, init);
      FieldsPush(b, init, c);
      FieldsPush(a + ":" + b, a + ":" + init, c);
      PushJoined(Fields(a), Fields(init), c);
    }
  }

  lemma SplitFields(l: string, r: string)
    ensures Fields(l + "::" + r) == Fields(l) + [""] + Fields(r)
  {
    assert l + "::" + r == l + ":" + (":" + r);
    FieldsJoined(l, ":" + r);
    assert ":" + r == "" + ":" + r;
    FieldsJoined("", r);
  }

  // ----- Both directions -----

  lemma FieldSlice(fs: seq<string>, from: nat, end: nat)
    requires from < end <= |fs|
    ensures fs[from..end] == fs[from..end - 1] + [fs[end - 1]]
    ensures from + 1 == end ==> fs[from..end] == [fs[from]]
  {
  }

  lemma {:induction false} TextFields(fs: seq<string>, from: nat, end: nat)
    requires from < end <= |fs| && forall k :: 0 <= k < |fs| ==> NoColon(fs[k])
    ensures Fields(Text(fs, from, end)) == fs[from..end]
    decreases end
  {
    if from + 1 == end {
      FieldSlice(fs, from, end);
      FieldsOne(fs[from]);
    } else {
      TextFields(fs, from, end - 1);
      NextField(fs, from, end, Text(fs, from, end - 1));
    }
  }

  lemma NextField(fs: seq<string>, from: nat, end: nat, t: string)
    requires from < end <= |fs| && NoColon(fs[end - 1]) && Fields(t) == fs[from..end - 1]
    ensures Fields(t + ":" + fs[end - 1]) == fs[from..end]
  {
    FieldSlice(fs, from, end);
    FieldsNext(t, fs[end - 1]);
  }

  lemma TextIsPlain(g: seq<nat>, from: nat, end: nat)
    requires from <= end <= |g| && Spells(Texts(g), g)
    ensures PlainFields(Fields(Text(Texts(g), from, end)))
  {
    if from < end {
      TextFields(Texts(g), from, end);
      forall k | 0 <= k < |g|
        ensures PlainField(Texts(g)[k])
      {
        HexIsPlain(g[k]);
      }
    }
  }

  /** The text with the named run shortened is canonical. */
  lemma TextIsCanonical(g: seq<nat>, a: int, b: int)
    requires |g| == 8 && (forall k :: 0 <= k < |g| ==> g[k] < 0x1_0000) && Shortens(g, a, b)
    ensures Canonical(TextWith(Texts(g), a, b), g)
  {
    TextsSpell(g);
    TextWithReads(g, a, b);
    if a == -1 {
      TextIsPlain(g, 0, |g|);
      TextSingle(Texts(g), g, 0, |g|);
    } else {
      RunIsPlain(g, a, b, Text(Texts(g), 0, a), Text(Texts(g), b, |g|));
      RunIsShortened(g, a, b, Text(Texts(g), 0, a), Text(Texts(g), b, |g|));
    }
  }

  lemma RunIsPlain(g: seq<nat>, a: int, b: int, l: string, r: string)
    requires Shortens(g, a, b) && a != -1 && Spells(Texts(g), g)
    requires l == Text(Texts(g), 0, a) && r == Text(Texts(g), b, |g|)
    ensures PlainFields(Fields(l + "::" + r))
  {
    TextIsPlain(g, 0, a);
    TextIsPlain(g, b, |g|);
    SplitFields(l, r);
  }

  lemma RunIsShortened(g: seq<nat>, a: int, b: int, l: string, r: string)
    requires Shortens(g, a, b) && a != -1 && Spells(Texts(g), g)
    requires l == Text(Texts(g), 0, a) && r == Text(Texts(g), b, |g|)
    ensures ShortensRun(l + "::" + r, g)
  {
    TextSingle(Texts(g), g, 0, a);
    ListReads(Texts(g), g, 0, a);
    ListReads(Texts(g), g, b, |g|);
    DoubleBetween(g, l, r, g[0..a], g[b..|g|]);
  }

  lemma DoubleBetween(g: seq<nat>, l: string, r: string, gl: seq<nat>, gr: seq<nat>)
    requires Single(l) && ReadList(l) == Some(gl) && ReadList(r) == Some(gr) && Shortens(g, |gl|, |g| - |gr|)
    ensures ShortensRun(l + "::" + r, g)
  {
    var s := l + "::" + r;
    SingleThenDouble(l, r);
    assert s[..|l|] == l && s[|l| + 2..] == r;
  }

  /** A canonical text is the printed one. */
  lemma CanonicalIsText(s: string, g: seq<nat>) returns (a: int, b: int)
    requires Canonical(s, g)
    ensures |g| == 8 && Shortens(g, a, b) && s == TextWith(Texts(g), a, b)
  {
    if Double(s, 0).None? {
      a, b := -1, -1;
      ListIsText(s, g);
    } else {
      var l, r, gl, gr := Halves(s, g);
      a, b := |gl|, |g| - |gr|;
      ShortParts(l, r, gl, gr);
      ShortIsText(g, gl, gr);
    }
  }

  /** What a text with "::" was read from. */
  lemma Halves(s: string, g: seq<nat>) returns (l: string, r: string, gl: seq<nat>, gr: seq<nat>)
    requires Canonical(s, g) && Double(s, 0).Some?
    ensures s == l + "::" + r && ReadList(l) == Some(gl) && ReadList(r) == Some(gr) && Shortens(g, |gl|, |g| - |gr|)
    ensures |gl| + |gr| < 8 && g == gl + Zeros(8 - |gl| - |gr|) + gr && PlainFields(Fields(l + "::" + r))
  {
    var i := Double(s, 0).value;
    l, r := s[..i], s[i + 2..];
    gl, gr := ReadList(l).value, ReadList(r).value;
    assert s == l + "::" + r;
  }

  lemma ShortIsText(g: seq<nat>, gl: seq<nat>, gr: seq<nat>)
    requires |gl| + |gr| < 8 && g == gl + Zeros(8 - |gl| - |gr|) + gr
    ensures |g| == 8 && Text(Texts(gl), 0, |gl|) == Text(Texts(g), 0, |gl|)
    ensures Text(Texts(gr), 0, |gr|) == Text(Texts(g), |g| - |gr|, |g|)
  {
    TextsParts(g, gl, gr);
    PartsMoved(Texts(g), Texts(gl), Texts(gr), |gl|, |g| - |gr|);
  }

  /** The two lists of a shortened text, as parts of the whole one. */
  lemma PartsMoved(fs: seq<string>, fl: seq<string>, fr: seq<string>, a: nat, b: nat)
    requires |fl| <= |fs| && |fr| <= |fs| && a == |fl| && b == |fs| - |fr|
    requires Aligned(fs, fl, 0, |fl|) && Aligned(fs, fr, b, |fr|)
    ensures Text(fs, 0, a) == Text(fl, 0, |fl|) && Text(fs, b, |fs|) == Text(fr, 0, |fr|)
  {
    MovedText(fs, fl, 0, a, |fl|);
    MovedText(fs, fr, b, |fs|, |fr|);
  }

  lemma ShortParts(l: string, r: string, gl: seq<nat>, gr: seq<nat>)
    requires PlainFields(Fields(l + "::" + r)) && ReadList(l) == Some(gl) && ReadList(r) == Some(gr)
    ensures l == Text(Texts(gl), 0, |gl|) && r == Text(Texts(gr), 0, |gr|)
  {
    SplitFields(l, r);
    PlainParts(Fields(l), Fields(r));
    ListIsText(l, gl);
    ListIsText(r, gr);
  }

  lemma TextsParts(g: seq<nat>, gl: seq<nat>, gr: seq<nat>)
    requires |gl| + |gr| < 8 && g == gl + Zeros(8 - |gl| - |gr|) + gr
    ensures |g| == 8 && Aligned(Texts(g), Texts(gl), 0, |gl|) && Aligned(Texts(g), Texts(gr), |g| - |gr|, |gr|)
  {
  }

  lemma PlainParts(fs: seq<string>, hs: seq<string>)
    requires PlainFields(fs + [""] + hs)
    ensures PlainFields(fs) && PlainFields(hs)
  {
    var all := fs + [""] + hs;
    assert forall k :: 0 <= k < |fs| ==> all[k] == fs[k];
    assert forall k :: 0 <= k < |hs| ==> hs[k] == all[|fs| + 1 + k];
  }

  /** A text is printed for an address if and only if it reads as the address and is canonical. */
  lemma CanonicalIff(p: seq<byte>, s: string)
    requires |p| == 16
    ensures Spelled(p, s) <==> Canonical(s, Groups(p))
    ensures Spelled(p, s) ==> ReadAddress(s) == Some(p)
  {
    var g := Groups(p);
    if Spelled(p, s) {
      var a, b :| Shortens(g, a, b) && s == TextWith(Texts(g), a, b);
      TextIsCanonical(g, a, b);
      RoundTrip(p, s);
    }
    if Canonical(s, g) {
      var a, b := CanonicalIsText(s, g);
    }
  }
}
