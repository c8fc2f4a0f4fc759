/** The text form of an IPv6 address, and a reader of the forms 1 and 2 of section 2.2 of
    RFC 4291 that knows nothing of how the text was made. */
module Ipv6 {
  import opened Sets

  type byte = x: int | 0 <= x < 256

  // ----- Reading: section 2.2 of RFC 4291 -----

  /** The pieces between colons. */
  function Fields(s: string): (fs: seq<string>)
    ensures fs != []
  {
    if s == "" then [""]
    else
      var fs, c := Fields(s[..|s| - 1]), s[|s| - 1];
      if c == ':' then fs + [""] else fs[|fs| - 1 := fs[|fs| - 1] + [c]]
  }

  function HexValue(c: char): Option<nat>
  {
    if '0' <= c <= '9' then Some(c as int - '0' as int)
    else if 'a' <= c <= 'f' then Some(c as int - 'a' as int + 10)
    else if 'A' <= c <= 'F' then Some(c as int - 'A' as int + 10)
    else None
  }

  function ReadHex(s: string): Option<nat>
  {
    if s == "" then Some(0)
    else
      var high, low := ReadHex(s[..|s| - 1]), HexValue(s[|s| - 1]);
      if high.None? || low.None? then None else Some(high.value * 16 + low.value)
  }

  /** One to four hexadecimal digits. */
  function ReadGroup(s: string): Option<nat>
  {
    if 1 <= |s| <= 4 then ReadHex(s) else None
  }

  function ReadGroups(fs: seq<string>): Option<seq<nat>>
  {
    if fs == [] then Some([])
    else
      var gs, g := ReadGroups(fs[..|fs| - 1]), ReadGroup(fs[|fs| - 1]);
      if gs.None? || g.None? then None else Some(gs.value + [g.value])
  }

  /** Groups separated by single colons; nothing at all is no group. */
  function ReadList(s: string): Option<seq<nat>>
  {
    if s == "" then Some([]) else ReadGroups(Fields(s))
  }

  predicate DoubleAt(s: string, i: int)
  {
    0 <= i < |s| - 1 && s[i] == ':' && s[i + 1] == ':'
  }

  /** Place of the first "::". */
  function Double(s: string, from: nat): (r: Option<nat>)
    requires from <= |s|
    ensures r.None? ==> forall i :: from <= i ==> !DoubleAt(s, i)
    ensures r.Some? ==> from <= r.value && DoubleAt(s, r.value) && forall i :: from <= i < r.value ==> !DoubleAt(s, i)
    decreases |s| - from
  {
    if from == |s| then None else if DoubleAt(s, from) then Some(from) else Double(s, from + 1)
  }

  function Zeros(n: nat): seq<nat> { seq(n, _ => 0) }

  /** Eight groups, or fewer with one "::" that stands for the missing zero groups. */
  function Read(s: string): Option<seq<nat>>
  {
    match Double(s, 0)
    case None =>
      var gs := ReadList(s);
      if gs.Some? && |gs.value| == 8 then gs else None
    case Some(i) =>
      var (l, r) := (ReadList(s[..i]), ReadList(s[i + 2..]));
      if l.Some? && r.Some? && |l.value| + |r.value| < 8
      then Some(l.value + Zeros(8 - |l.value| - |r.value|) + r.value)
      else None
  }

  // ----- Printing -----

  function Digit(d: nat): (c: char)
    requires d < 16
    ensures c != ':' && HexValue(c) == Some(d)
  {
    "0123456789abcdef"[d]
  }

  /** n without leading zeros. */
  function Hex(n: nat): (s: string)
    ensures s != ""
  {
    if n < 16 then [Digit(n)] else Hex(n / 16) + [Digit(n % 16)]
  }

  /** The sixteen bytes as eight groups. */
  function Groups(p: seq<byte>): (g: seq<nat>)
    requires |p| == 16
    ensures |g| == 8 && forall k :: 0 <= k < 8 ==> g[k] == p[2 * k] as int * 256 + p[2 * k + 1] < 0x1_0000
  {
    seq(8, k requires 0 <= k < 8 => p[2 * k] as int * 256 + p[2 * k + 1])
  }

  /** The text of each group. */
  function Texts(g: seq<nat>): (fs: seq<string>)
    ensures |fs| == |g| && forall k :: 0 <= k < |g| ==> fs[k] == Hex(g[k])
  {
    seq(|g|, k requires 0 <= k < |g| => Hex(g[k]))
  }

  /** The fields from one place up to another, with colons between them. */
  function Text(fs: seq<string>, from: nat, end: nat): string
    requires from <= end <= |fs|
    decreases end
  {
    if from == end then ""
    else if from + 1 == end then fs[from]
    else Text(fs, from, end - 1) + ":" + fs[end - 1]
  }

  ghost predicate ZeroRun(g: seq<nat>, c: int, d: int)
  {
    0 <= c <= d <= |g| && forall k :: c <= k < d ==> g[k] == 0
  }

  /** [a, b) is the leftmost of the longest runs of zero groups that start before limit. */
  ghost predicate Longest(g: seq<nat>, a: int, b: int, limit: int)
  {
    && (a == b == -1 || (ZeroRun(g, a, b) && a < b && a < limit))
    && forall c, d :: ZeroRun(g, c, d) && c < limit ==> d - c <= b - a && (d - c == b - a > 0 ==> a <= c)
  }

  /** What the text shortens, as sections 4.2.2 and 4.2.3 of RFC 5952 ask: the leftmost
      longest run of zero groups, if it has two groups or more. */
  ghost predicate Shortens(g: seq<nat>, a: int, b: int)
  {
    if a == -1 then b == -1 && forall c, d :: ZeroRun(g, c, d) ==> d - c <= 1
    else Longest(g, a, b, |g|) && b - a >= 2
  }

  predicate Within(fs: seq<string>, a: int, b: int) { a == -1 || 0 <= a < b <= |fs| }

  function TextWith(fs: seq<string>, a: int, b: int): string
    requires Within(fs, a, b)
  {
    if a == -1 then Text(fs, 0, |fs|) else Text(fs, 0, a) + "::" + Text(fs, b, |fs|)
  }

  function Shift(i: nat, j: nat): nat { if j == 0 then i else Shift(i, j - 1) / 16 }

  method AppendHex(dst: string, i: nat) returns (r: string)
    requires i < 0x1_0000_0000
    ensures r == dst + Hex(i)
  {
    if i == 0 {
      return dst + ['0'];
    }
    ShiftedOut(i);
    r := dst;
    var j := 7;
    while j >= 0
      invariant -1 <= j <= 7
      invariant r == dst + if Shift(i, j + 1) == 0 then "" else Hex(Shift(i, j + 1))
    {
      var v := Shift(i, j);
      if v > 0 {
        r := r + [Digit(v % 16)];
      }
      j := j - 1;
    }
  }

  lemma ShiftedOut(i: nat)
    requires i < 0x1_0000_0000
    ensures Shift(i, 8) == 0
  {
    assert Shift(i, 1) < 0x1000_0000;
    assert Shift(i, 2) < 0x100_0000;
    assert Shift(i, 3) < 0x10_0000;
    assert Shift(i, 4) < 0x1_0000;
    assert Shift(i, 5) < 0x1000;
    assert Shift(i, 6) < 0x100;
    assert Shift(i, 7) < 0x10;
  }

  // the group that starts at a byte, or -1 for no place
  function Half(e: int): int { if e == -1 then -1 else e / 2 }

  predicate Even(e: int) { e == -1 || (e >= 0 && e % 2 == 0) }

  method FindRun(p: seq<byte>) returns (e0: int, e1: int)
    requires |p| == 16
    ensures Even(e0) && Even(e1) && Shortens(Groups(p), Half(e0), Half(e1))
  {
    ghost var g := Groups(p);
    e0, e1 := -1, -1;
    ghost var a, b := -1, -1;
    var i := 0;
    ghost var k := 0;
    while i < 16
      invariant i == 2 * k && 0 <= k <= 9
      invariant Longest(g, a, b, k) && Offsets(e0, e1, a, b)
    {
      var j := i;
      ghost var m := k;
      while j < 16 && p[j] == 0 && p[j + 1] == 0
        invariant j == 2 * m && k <= m <= 8
        invariant ZeroRun(g, k, m)
      {
        assert g[m] == 0;
        j, m := j + 2, m + 1;
      }
      assert m < 8 ==> g[m] == p[j] as int * 256 + p[j + 1];
      LongestStep(g, a, b, k, m);
      if j > i && j - i > e1 - e0 {
        e0, e1, a, b := i, j, k, m;
        i, k := j, m;
      }
      i, k := i + 2, k + 1;
    }
    if e1 - e0 <= 2 {
      e0, e1, a, b := -1, -1, -1, -1;
    }
  }

  // byte offsets of a run of groups
  predicate Offsets(e0: int, e1: int, a: int, b: int)
  {
    (a == b == e0 == e1 == -1) || (0 <= a < b && e0 == 2 * a && e1 == 2 * b)
  }

  /** A run from i that ends at j: none starts at j, and those between i and j are shorter. */
  lemma LongestStep(g: seq<nat>, a: int, b: int, i: int, j: int)
    requires Longest(g, a, b, i) && i < |g|
    requires ZeroRun(g, i, j) && (j < |g| ==> g[j] != 0)
    ensures if j > i && j - i > b - a then Longest(g, i, j, j + 1) else Longest(g, a, b, i + 1)
  {
    forall c, d | ZeroRun(g, c, d) && i <= c <= j
      ensures d <= j
    {
    }
  }

  /** There is one run to shorten. */
  lemma ShortensOnce(g: seq<nat>, a: int, b: int, c: int, d: int)
    requires Shortens(g, a, b) && Shortens(g, c, d)
    ensures a == c && b == d
  {
  }

  /** s is the text of the address p. */
  ghost predicate Spelled(p: seq<byte>, s: string)
    requires |p| == 16
  {
    exists a, b :: Shortens(Groups(p), a, b) && s == TextWith(Texts(Groups(p)), a, b)
  }

  /** For 16 bytes the text with the run that RFC 5952 names shortened, else nothing. */
  method ToIPv6String(p: seq<byte>) returns (s: string)
    ensures if |p| == 16 then Spelled(p, s) else s == ""
  {
    if |p| != 16 {
      return "";
    }
    var e0, e1 := FindRun(p);
    s := Print(p, e0, e1, Half(e0), Half(e1));
  }

  method Print(p: seq<byte>, e0: int, e1: int, ghost a: int, ghost b: int) returns (s: string)
    requires |p| == 16 && Offsets(e0, e1, a, b) && Within(Texts(Groups(p)), a, b)
    ensures s == TextWith(Texts(Groups(p)), a, b)
  {
    ghost var fs := Texts(Groups(p));
    s := "";
    var i := 0;
    ghost var k := 0;
    while i < 16
      invariant i == 2 * k && 0 <= k <= 8
      invariant Reached(fs, a, b, k) && s == Partial(fs, a, b, k)
    {
      if i == e0 {
        PartialJump(fs, a, b);
        s := s + "::";
        i, k := e1, b;
        if i >= 16 {
          break;
        }
      } else {
        PartialStep(fs, a, b, k);
        s := s + if i > 0 then ":" else "";
      }
      s := PrintGroup(p, i, s, k);
      i, k := i + 2, k + 1;
    }
    PartialEnd(fs, a, b);
  }

  method PrintGroup(p: seq<byte>, i: nat, dst: string, ghost k: nat) returns (s: string)
    requires |p| == 16 && i == 2 * k < 16
    ensures s == dst + Texts(Groups(p))[k]
  {
    assert Groups(p)[k] == p[i] as int * 256 + p[i + 1];
    s := AppendHex(dst, p[i] as int * 256 + p[i + 1]);
  }

  predicate Reached(fs: seq<string>, a: int, b: int, k: nat)
  {
    Within(fs, a, b) && k <= |fs| && (a == -1 || k <= a || k > b || k == |fs|)
  }

  /** The text up to place k. */
  function Partial(fs: seq<string>, a: int, b: int, k: nat): string
    requires Reached(fs, a, b, k)
  {
    if a == -1 || k <= a then Text(fs, 0, k) else Text(fs, 0, a) + "::" + Text(fs, b, k)
  }

  lemma PartialEnd(fs: seq<string>, a: int, b: int)
    requires Within(fs, a, b)
    ensures Partial(fs, a, b, |fs|) == TextWith(fs, a, b)
  {
  }

  lemma PartialStep(fs: seq<string>, a: int, b: int, k: nat)
    requires Reached(fs, a, b, k) && k < |fs| && k != a
    ensures Reached(fs, a, b, k + 1)
    ensures Partial(fs, a, b, k + 1) == Partial(fs, a, b, k) + (if k > 0 then ":" else "") + fs[k]
  {
    if k == 0 {
      assert Text(fs, 0, 1) == fs[0];
    } else if a == -1 || k < a {
      assert Text(fs, 0, k + 1) == Text(fs, 0, k) + ":" + fs[k];
    } else {
      Assoc(Text(fs, 0, a) + "::", Text(fs, b, k), ":", fs[k]);
    }
  }

  lemma Assoc(a: string, b: string, c: string, d: string)
    ensures a + (b + c + d) == (a + b) + c + d
  {
  }

  lemma PartialJump(fs: seq<string>, a: int, b: int)
    requires Within(fs, a, b) && a >= 0
    ensures if b == |fs| then Partial(fs, a, b, b) == Partial(fs, a, b, a) + "::"
            else Partial(fs, a, b, b + 1) == Partial(fs, a, b, a) + "::" + fs[b]
  {
  }

  // ----- Reading what was printed -----

  predicate NoColon(s: string) { forall i :: 0 <= i < |s| ==> s[i] != ':' }

  lemma {:induction false} HexReads(n: nat)
    ensures ReadHex(Hex(n)) == Some(n) && NoColon(Hex(n))
  {
    if n >= 16 {
      HexReads(n / 16);
      assert Hex(n)[..|Hex(n)| - 1] == Hex(n / 16);
    }
  }

  lemma GroupReads(n: nat)
    requires n < 0x1_0000
    ensures ReadGroup(Hex(n)) == Some(n)
  {
    HexReads(n);
    HexShort(n, 4);
  }

  function Pow16(k: nat): nat { if k == 0 then 1 else 16 * Pow16(k - 1) }

  lemma {:induction false} HexShort(n: nat, k: nat)
    requires 1 <= k && n < Pow16(k)
    ensures |Hex(n)| <= k
  {
    if n >= 16 {
      HexShort(n / 16, k - 1);
    }
  }

  lemma {:induction false} FieldsOne(s: string)
    requires NoColon(s)
    ensures Fields(s) == [s]
  {
    if s != "" {
      FieldsOne(s[..|s| - 1]);
      assert s[..|s| - 1] + [s[|s| - 1]] == s;
    }
  }

  lemma {:induction false} FieldsNext(s: string, f: string)
    requires NoColon(f)
    ensures Fields(s + ":" + f) == Fields(s) + [f]
  {
    if f == "" {
      assert s + ":" + f == s + ":" && (s + ":")[..|s|] == s;
    } else {
      var n := |f| - 1;
      FieldsNext(s, f[..n]);
      assert (s + ":" + f)[..|s + ":" + f| - 1] == s + ":" + f[..n];
      assert f[..n] + [f[n]] == f;
    }
  }

  lemma GroupsNext(fs: seq<string>, f: string, gs: seq<nat>, n: nat)
    requires ReadGroups(fs) == Some(gs) && ReadGroup(f) == Some(n)
    ensures ReadGroups(fs + [f]) == Some(gs + [n])
  {
    assert (fs + [f])[..|fs|] == fs;
  }

  lemma OneReads(f: string, n: nat)
    requires NoColon(f) && ReadGroup(f) == Some(n)
    ensures ReadGroups(Fields(f)) == Some([n])
  {
    FieldsOne(f);
    GroupsNext([], f, [], n);
    assert [] + [f] == [f] && [] + [n] == [n];
  }

  lemma NextReads(s: string, f: string, gs: seq<nat>, n: nat)
    requires ReadGroups(Fields(s)) == Some(gs) && NoColon(f) && ReadGroup(f) == Some(n)
    ensures ReadGroups(Fields(s + ":" + f)) == Some(gs + [n])
  {
    FieldsNext(s, f);
    GroupsNext(Fields(s), f, gs, n);
  }

  /** Each field reads as its group. */
  ghost predicate Spells(fs: seq<string>, g: seq<nat>)
  {
    |fs| == |g| && forall k :: 0 <= k < |fs| ==> fs[k] != "" && NoColon(fs[k]) && ReadGroup(fs[k]) == Some(g[k])
  }

  lemma TextsSpell(g: seq<nat>)
    requires forall k :: 0 <= k < |g| ==> g[k] < 0x1_0000
    ensures Spells(Texts(g), g)
  {
    forall k | 0 <= k < |g|
      ensures Hex(g[k]) != "" && NoColon(Hex(g[k])) && ReadGroup(Hex(g[k])) == Some(g[k])
    {
      HexReads(g[k]);
      GroupReads(g[k]);
    }
  }

  lemma SliceNext(g: seq<nat>, from: nat, end: nat)
    requires from < end <= |g|
    ensures g[from..end] == g[from..end - 1] + [g[end - 1]]
    ensures from + 1 == end ==> g[from..end] == [g[from]]
  {
  }

  /** A text without "::" reads as the groups it was made from. */
  lemma {:induction false} TextReads(fs: seq<string>, g: seq<nat>, from: nat, end: nat)
    requires from < end <= |g| && Spells(fs, g)
    ensures ReadGroups(Fields(Text(fs, from, end))) == Some(g[from..end])
    decreases end
  {
    SliceNext(g, from, end);
    if from + 1 == end {
      OneReads(fs[from], g[from]);
    } else {
      TextReads(fs, g, from, end - 1);
      NextReads(Text(fs, from, end - 1), fs[end - 1], g[from..end - 1], g[end - 1]);
    }
  }

  lemma ListReads(fs: seq<string>, g: seq<nat>, from: nat, end: nat)
    requires from <= end <= |g| && Spells(fs, g)
    ensures ReadList(Text(fs, from, end)) == Some(g[from..end])
  {
    TextSingle(fs, g, from, end);
    if from == end {
      assert g[from..end] == [];
    } else {
      TextReads(fs, g, from, end);
    }
  }

  /** A joined text has no "::", and no colon at either end. */
  ghost predicate Single(s: string)
  {
    (s != "" ==> s[0] != ':' && s[|s| - 1] != ':') && forall i :: !DoubleAt(s, i)
  }

  lemma {:induction false} TextSingle(fs: seq<string>, g: seq<nat>, from: nat, end: nat)
    requires from <= end <= |g| && Spells(fs, g)
    ensures Single(Text(fs, from, end)) && (Text(fs, from, end) == "" <==> from == end)
    decreases end
  {
    if from + 1 < end {
      TextSingle(fs, g, from, end - 1);
      JoinSingle(Text(fs, from, end - 1), fs[end - 1]);
    }
  }

  lemma JoinSingle(s: string, f: string)
    requires Single(s) && s != "" && NoColon(f) && f != ""
    ensures Single(s + ":" + f)
  {
    var t := s + ":" + f;
    assert t[..|s|] == s && t[|s| + 1..] == f;
    forall i
      ensures !DoubleAt(t, i)
    {
      assert DoubleAt(t, i) && i < |s| - 1 ==> DoubleAt(s, i);
    }
  }

  lemma SingleThenDouble(l: string, r: string)
    requires Single(l)
    ensures Double(l + "::" + r, 0) == Some(|l|)
  {
    var t := l + "::" + r;
    assert DoubleAt(t, |l|);
    forall i | 0 <= i < |l|
      ensures !DoubleAt(t, i)
    {
      assert t[i] == l[i];
      if i < |l| - 1 {
        assert t[i + 1] == l[i + 1] && !DoubleAt(l, i);
      }
    }
  }

  lemma PlainReads(fs: seq<string>, g: seq<nat>)
    requires |g| == 8 && Spells(fs, g)
    ensures Read(Text(fs, 0, |fs|)) == Some(g)
  {
    TextSingle(fs, g, 0, |g|);
    ListReads(fs, g, 0, |g|);
    assert g[0..|g|] == g;
  }

  lemma ShortReads(l: string, r: string, gl: seq<nat>, gr: seq<nat>)
    requires Single(l) && ReadList(l) == Some(gl) && ReadList(r) == Some(gr) && |gl| + |gr| < 8
    ensures Read(l + "::" + r) == Some(gl + Zeros(8 - |gl| - |gr|) + gr)
  {
    var s := l + "::" + r;
    SingleThenDouble(l, r);
    assert s[..|l|] == l && s[|l| + 2..] == r;
  }

  lemma ZerosBetween(g: seq<nat>, a: int, b: int)
    requires ZeroRun(g, a, b)
    ensures g[0..a] + Zeros(|g| - |g[0..a]| - |g[b..|g|]|) + g[b..|g|] == g
  {
  }

  lemma RunBetween(g: seq<nat>, a: int, b: int, l: string, r: string)
    requires |g| == 8 && ZeroRun(g, a, b) && a < b && Single(l)
    requires ReadList(l) == Some(g[0..a]) && ReadList(r) == Some(g[b..|g|])
    ensures Read(l + "::" + r) == Some(g)
  {
    ShortReads(l, r, g[0..a], g[b..|g|]);
    ZerosBetween(g, a, b);
  }

  lemma RunReads(fs: seq<string>, g: seq<nat>, a: int, b: int)
    requires |g| == 8 && Spells(fs, g) && ZeroRun(g, a, b) && a < b
    ensures Read(Text(fs, 0, a) + "::" + Text(fs, b, |fs|)) == Some(g)
  {
    TextSingle(fs, g, 0, a);
    ListReads(fs, g, 0, a);
    ListReads(fs, g, b, |g|);
    RunBetween(g, a, b, Text(fs, 0, a), Text(fs, b, |fs|));
  }

  /** Whichever zero run is shortened, the text reads back as the groups. */
  lemma TextWithReads(g: seq<nat>, a: int, b: int)
    requires |g| == 8 && (forall k :: 0 <= k < |g| ==> g[k] < 0x1_0000)
    requires a == -1 || (ZeroRun(g, a, b) && a < b)
    ensures Read(TextWith(Texts(g), a, b)) == Some(g)
  {
    TextsSpell(g);
    if a == -1 {
      PlainReads(Texts(g), g);
    } else {
      RunReads(Texts(g), g, a, b);
    }
  }

  /** The bytes of eight groups. */
  function Bytes(g: seq<nat>): seq<byte>
    requires |g| == 8 && forall k :: 0 <= k < 8 ==> g[k] < 0x1_0000
  {
    seq(16, i requires 0 <= i < 16 => if i % 2 == 0 then g[i / 2] / 256 else g[i / 2] % 256)
  }

  /** The address that a text stands for. */
  function ReadAddress(s: string): Option<seq<byte>>
  {
    var g := Read(s);
    if g.Some? && |g.value| == 8 && (forall k :: 0 <= k < 8 ==> g.value[k] < 0x1_0000)
      then Some(Bytes(g.value)) else None
  }

  /** Every 16-byte address is read back from its text. */
  lemma RoundTrip(p: seq<byte>, s: string)
    requires |p| == 16 && Spelled(p, s)
    ensures ReadAddress(s) == Some(p)
  {
    var a, b :| Shortens(Groups(p), a, b) && s == TextWith(Texts(Groups(p)), a, b);
    TextWithReads(Groups(p), a, b);
    BytesOfGroups(p);
  }

  lemma BytesOfGroups(p: seq<byte>)
    requires |p| == 16
    ensures Bytes(Groups(p)) == p
  {
    var g, q := Groups(p), Bytes(Groups(p));
    forall i | 0 <= i < 16
      ensures q[i] == p[i]
    {
      var k := i / 2;
      assert g[k] == p[2 * k] as int * 256 + p[2 * k + 1];
      assert i == 2 * k || i == 2 * k + 1;
    }
  }
}
