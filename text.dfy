/** The string semantics the mail tracker relies on: Python's `str.strip`,
    `int` and `format(n, "03d")` on the server, JavaScript's `trim`,
    `Number` and `split` in the browser, and code-point string order. */
module Text {
  import opened Wrappers

  // ----- decimal digits -----

  predicate IsDigit(c: char) { '0' <= c <= '9' }

  predicate AllDigits(s: string) { forall i :: 0 <= i < |s| ==> IsDigit(s[i]) }

  function DigitChar(d: nat): (c: char)
    requires d < 10
    ensures IsDigit(c)
  {
    (48 + d) as char
  }

  function DigitValue(c: char): (d: nat)
    requires IsDigit(c)
    ensures d < 10
  {
    c as int - 48
  }

  /** The value of a string of decimal digits (the empty string reads as 0). */
  function DigitsToNat(s: string): nat
    requires AllDigits(s)
  {
    if s == [] then 0 else DigitsToNat(s[..|s| - 1]) * 10 + DigitValue(s[|s| - 1])
  }

  /** Shortest decimal rendering of n, as Python's `str(n)` and JavaScript's `String(n)`. */
  function NatToString(n: nat): (s: string)
    ensures 1 <= |s| && AllDigits(s)
    ensures |s| == 1 || s[0] != '0'
    ensures n < 10 <==> |s| == 1
    decreases n
  {
    if n < 10 then [DigitChar(n)] else NatToString(n / 10) + [DigitChar(n % 10)]
  }

  lemma {:induction false} NatToStringRoundTrip(n: nat)
    ensures DigitsToNat(NatToString(n)) == n
    decreases n
  {
    if n >= 10 {
      var s := NatToString(n);
      assert s[..|s| - 1] == NatToString(n / 10);
      NatToStringRoundTrip(n / 10);
    }
  }

  /** NatToString is injective, since DigitsToNat inverts it. */
  lemma NatToStringInjective(m: nat, n: nat)
    requires NatToString(m) == NatToString(n)
    ensures m == n
  {
    NatToStringRoundTrip(m);
    NatToStringRoundTrip(n);
  }

  function Zeros(k: nat): (s: string)
    ensures |s| == k && AllDigits(s)
    ensures forall i :: 0 <= i < k ==> s[i] == '0'
  {
    if k == 0 then [] else ['0'] + Zeros(k - 1)
  }

  lemma {:induction false} LeadingZerosIgnored(k: nat, s: string)
    requires AllDigits(s)
    ensures DigitsToNat(Zeros(k) + s) == DigitsToNat(s)
    decreases k + |s|
  {
    if s == [] {
      assert Zeros(k) + s == Zeros(k);
      if k > 0 {
        assert Zeros(k)[..k - 1] == Zeros(k - 1);
        LeadingZerosIgnored(k - 1, []);
        assert Zeros(k - 1) + [] == Zeros(k - 1);
      }
    } else {
      var t := Zeros(k) + s;
      assert t[..|t| - 1] == Zeros(k) + s[..|s| - 1];
      LeadingZerosIgnored(k, s[..|s| - 1]);
    }
  }

  /** n in decimal, left-padded with zeros to at least `width` digits. */
  function ZeroPad(n: nat, width: nat): (s: string)
    ensures AllDigits(s) && |s| >= width && |s| >= 1
    ensures DigitsToNat(s) == n
  {
    var d := NatToString(n);
    NatToStringRoundTrip(n);
    var z := if |d| < width then width - |d| else 0;
    LeadingZerosIgnored(z, d);
    Zeros(z) + d
  }

  /** Python's `format(n, "03d")`: the sign counts toward the width of three. */
  function FormatInt03(n: int): (s: string)
    ensures s != []
  {
    if n >= 0 then ZeroPad(n, 3) else "-" + ZeroPad(-n, 2)
  }

  /** For 0 <= n < 1000 the rendering is exactly three digits. */
  lemma ZeroPadThreeDigits(n: nat)
    requires n < 1000
    ensures ZeroPad(n, 3) == [DigitChar(n / 100), DigitChar(n / 10 % 10), DigitChar(n % 10)]
  {
    if n < 10 {
      assert NatToString(n) == [DigitChar(n)];
      assert Zeros(2) == "00";
    } else if n < 100 {
      assert NatToString(n / 10) == [DigitChar(n / 10)];
      assert NatToString(n) == [DigitChar(n / 10), DigitChar(n % 10)];
      assert Zeros(1) == "0";
    } else {
      assert NatToString(n / 100) == [DigitChar(n / 100)];
      assert NatToString(n / 10) == [DigitChar(n / 100), DigitChar(n / 10 % 10)];
      assert NatToString(n) == [DigitChar(n / 100), DigitChar(n / 10 % 10), DigitChar(n % 10)];
      assert Zeros(0) == [];
    }
  }

  // ----- whitespace -----

  /** Python's `str.isspace` for one character (what `str.strip()` removes). */
  predicate IsPySpace(c: char) {
    var k := c as int;
    (0x09 <= k <= 0x0D) || (0x1C <= k <= 0x20) || k == 0x85 || k == 0xA0 || k == 0x1680
    || (0x2000 <= k <= 0x200A) || k == 0x2028 || k == 0x2029 || k == 0x202F || k == 0x205F || k == 0x3000
  }

  /** A JavaScript line terminator (what `.` in a regular expression does not match). */
  predicate IsJsLineTerminator(c: char) {
    var k := c as int;
    k == 0x0A || k == 0x0D || k == 0x2028 || k == 0x2029
  }

  /** JavaScript's WhiteSpace or LineTerminator: what `\s` matches and `trim` removes. */
  predicate IsJsSpace(c: char) {
    var k := c as int;
    k == 0x09 || k == 0x0B || k == 0x0C || k == 0x20 || k == 0xA0 || k == 0xFEFF || k == 0x1680
    || (0x2000 <= k <= 0x200A) || k == 0x202F || k == 0x205F || k == 0x3000
    || IsJsLineTerminator(c)
  }

  function StripLeft(s: string, isSpace: char -> bool): (r: string)
    ensures |r| <= |s| && r == s[|s| - |r|..]
    ensures r == [] || !isSpace(r[0])
    ensures forall i :: 0 <= i < |s| - |r| ==> isSpace(s[i])
  {
    if s != [] && isSpace(s[0]) then StripLeft(s[1..], isSpace) else s
  }

  function StripRight(s: string, isSpace: char -> bool): (r: string)
    ensures |r| <= |s| && r == s[..|r|]
    ensures r == [] || !isSpace(r[|r| - 1])
    ensures forall i :: |r| <= i < |s| ==> isSpace(s[i])
  {
    if s != [] && isSpace(s[|s| - 1]) then StripRight(s[..|s| - 1], isSpace) else s
  }

  function Strip(s: string, isSpace: char -> bool): (r: string)
    ensures r == [] || (!isSpace(r[0]) && !isSpace(r[|r| - 1]))
    ensures r == [] <==> forall i :: 0 <= i < |s| ==> isSpace(s[i])
  {
    var l := StripLeft(s, isSpace);
    var r := StripRight(l, isSpace);
    r
  }

  /** A string that neither starts nor ends with a space is its own strip. */
  lemma StripOfStripped(s: string, isSpace: char -> bool)
    requires s == [] || (!isSpace(s[0]) && !isSpace(s[|s| - 1]))
    ensures Strip(s, isSpace) == s
  {
  }

  /** Python's `s.strip()`. */
  function PyStrip(s: string): string { Strip(s, IsPySpace) }

  /** JavaScript's `s.trim()`. */
  function JsTrim(s: string): string { Strip(s, IsJsSpace) }

  /** Trimming twice is trimming once. */
  lemma JsTrimIdempotent(s: string)
    ensures JsTrim(JsTrim(s)) == JsTrim(s)
  {
    var t := JsTrim(s);
    assert t == [] || (!IsJsSpace(t[0]) && !IsJsSpace(t[|t| - 1]));
  }

  /** A string that is empty after JavaScript's `trim`. */
  predicate JsBlank(s: string) { JsTrim(s) == [] }

  // ----- numbers parsed from text -----

  /** The digits of a Python integer literal: ASCII digits, possibly grouped by single
      underscores that stand between two digits (`1_000`). */
  predicate PyDigitGroups(t: string) {
    t != [] && IsDigit(t[0]) && IsDigit(t[|t| - 1]) &&
    (forall i :: 0 <= i < |t| ==> IsDigit(t[i]) || t[i] == '_') &&
    (forall i :: 0 <= i < |t| - 1 ==> t[i] == '_' ==> t[i + 1] != '_')
  }

  /** The digits of a literal with its grouping underscores removed. */
  function DropUnderscores(t: string): (r: string)
    requires forall i :: 0 <= i < |t| ==> IsDigit(t[i]) || t[i] == '_'
    ensures AllDigits(r) && |r| <= |t|
    ensures AllDigits(t) ==> r == t
  {
    if t == [] then []
    else if t[0] == '_' then DropUnderscores(t[1..])
    else [t[0]] + DropUnderscores(t[1..])
  }

  /** The value of a literal's digits. */
  function GroupsValue(t: string): nat
    requires PyDigitGroups(t)
  {
    DigitsToNat(DropUnderscores(t))
  }

  /** Python's `int(s)` for a base-10 literal: surrounding whitespace, an optional sign,
      then ASCII digits, which single underscores may group. None stands for the ValueError
      it raises otherwise. */
  function PyInt(s: string): (r: Option<int>)
    ensures AllDigits(s) && s != [] ==> r == Some(DigitsToNat(s))
    ensures PyDigitGroups(PyStrip(s)) ==> r == Some(GroupsValue(PyStrip(s)))
    ensures r.Some? <==>
      var t := PyStrip(s);
      PyDigitGroups(t) || (|t| >= 2 && (t[0] == '+' || t[0] == '-') && PyDigitGroups(t[1..]))
    ensures r.Some? && r.value < 0 ==> PyStrip(s)[0] == '-'
  {
    var t := PyStrip(s);
    assert AllDigits(s) && s != [] ==> t == s && PyDigitGroups(t);
    if PyDigitGroups(t) then Some(GroupsValue(t))
    else if |t| >= 2 && t[0] == '+' && PyDigitGroups(t[1..]) then Some(GroupsValue(t[1..]))
    else if |t| >= 2 && t[0] == '-' && PyDigitGroups(t[1..]) then Some(0 - GroupsValue(t[1..]) as int)
    else None
  }

  /** Digits grouped by underscores are read by `int`: `1_0` is ten. */
  lemma PyIntReadsGroups()
    ensures PyInt("1_0") == Some(10)
  {
    StripOfStripped("1_0", IsPySpace);
    assert PyDigitGroups("1_0");
    assert DropUnderscores("1_0") == "10";
    assert DigitsToNat("10") == 10 by { assert "10"[..1] == "1"; }
  }

  /** Two underscores in a row are refused. */
  lemma PyIntRefusesDoubleUnderscore()
    ensures PyInt("1__0").None?
  {
    var t := "1__0";
    assert t[0] == '1' && t[1] == '_' && t[2] == '_' && t[3] == '0';
    assert !PyDigitGroups(t);
    StripOfStripped(t, IsPySpace);
  }

  /** JavaScript's `Number(s)` for a string: trimmed, the empty string is 0, otherwise an
      optional sign and ASCII digits. None stands for NaN. */
  function JsNumber(s: string): (r: Option<int>)
    ensures JsBlank(s) ==> r == Some(0)
    ensures AllDigits(s) && s != [] ==> r == Some(DigitsToNat(s))
  {
    var t := JsTrim(s);
    assert AllDigits(s) && s != [] ==> t == s;
    if t == [] then Some(0)
    else if AllDigits(t) then Some(DigitsToNat(t))
    else if |t| >= 2 && t[0] == '+' && AllDigits(t[1..]) then Some(DigitsToNat(t[1..]))
    else if |t| >= 2 && t[0] == '-' && AllDigits(t[1..]) then Some(0 - DigitsToNat(t[1..]) as int)
    else None
  }

  // ----- split and join on one separator character -----

  /** JavaScript's `s.split(c)` and Python's `s.split(c)` for a one-character separator. */
  function Split(s: string, c: char): (parts: seq<string>)
    ensures |parts| >= 1
    ensures forall i :: 0 <= i < |parts| ==> c !in parts[i]
    decreases |s|
  {
    if s == [] then [[]]
    else
      var rest := Split(s[1..], c);
      if s[0] == c then [[]] + rest else [[s[0]] + rest[0]] + rest[1..]
  }

  function Join(parts: seq<string>, c: char): string
    requires |parts| >= 1
  {
    if |parts| == 1 then parts[0] else parts[0] + [c] + Join(parts[1..], c)
  }

  /** Python's `sep.join(parts)` and JavaScript's `parts.join(sep)`: no parts give the empty text. */
  function JoinWith(parts: seq<string>, sep: string): string {
    if parts == [] then [] else if |parts| == 1 then parts[0] else parts[0] + sep + JoinWith(parts[1..], sep)
  }

  function Occurrences(s: string, c: char): nat {
    if s == [] then 0 else (if s[0] == c then 1 else 0) + Occurrences(s[1..], c)
  }

  /** Splitting and joining again on the same separator recovers the string, and
      splitting gives one more piece than there are separators. */
  lemma {:induction false} SplitJoin(s: string, c: char)
    ensures Join(Split(s, c), c) == s
    ensures |Split(s, c)| == Occurrences(s, c) + 1
    decreases |s|
  {
    if s != [] {
      SplitJoin(s[1..], c);
      var rest := Split(s[1..], c);
      if s[0] == c {
        assert Split(s, c)[1..] == rest;
        assert s == [c] + s[1..];
      } else {
        var parts := Split(s, c);
        if |rest| == 1 {
          assert parts == [[s[0]] + rest[0]];
          assert s == [s[0]] + s[1..];
        } else {
          assert parts[1..] == rest[1..];
          assert Join(rest, c) == rest[0] + [c] + Join(rest[1..], c);
          assert s == [s[0]] + s[1..];
        }
      }
    }
  }

  /** Splitting a string that does not contain the separator gives the string alone. */
  lemma SplitWithoutSeparator(s: string, c: char)
    requires c !in s
    ensures Split(s, c) == [s]
  {
    SplitJoin(s, c);
    assert Occurrences(s, c) == 0 by { NoOccurrences(s, c); }
  }

  lemma {:induction false} NoOccurrences(s: string, c: char)
    requires c !in s
    ensures Occurrences(s, c) == 0
  {
    if s != [] {
      assert c !in s[1..];
      NoOccurrences(s[1..], c);
    }
  }

  /** Splitting `a + [c] + b` where a has no separator gives a, then the pieces of b. */
  lemma {:induction false} SplitAfterFirst(a: string, c: char, b: string)
    requires c !in a
    ensures Split(a + [c] + b, c) == [a] + Split(b, c)
    decreases |a|
  {
    if a == [] {
      assert ([] + [c] + b)[1..] == b;
    } else {
      assert (a + [c] + b)[1..] == a[1..] + [c] + b;
      assert c !in a[1..];
      SplitAfterFirst(a[1..], c, b);
      assert a == [a[0]] + a[1..];
    }
  }

  // ----- code-point string order -----

  /** Lexicographic order on code points (Python's `<` on `str`). */
  predicate StrLess(a: string, b: string)
    decreases |a|
  {
    if a == [] then b != []
    else if b == [] then false
    else if a[0] != b[0] then a[0] < b[0]
    else StrLess(a[1..], b[1..])
  }

  lemma {:induction false} StrLessIrreflexive(a: string)
    ensures !StrLess(a, a)
    decreases |a|
  {
    if a != [] { StrLessIrreflexive(a[1..]); }
  }

  lemma {:induction false} StrLessTransitive(a: string, b: string, c: string)
    requires StrLess(a, b) && StrLess(b, c)
    ensures StrLess(a, c)
    decreases |a|
  {
    if a != [] && b != [] && c != [] && a[0] == b[0] && b[0] == c[0] {
      StrLessTransitive(a[1..], b[1..], c[1..]);
    }
  }

  lemma {:induction false} StrLessTotal(a: string, b: string)
    ensures a == b || StrLess(a, b) || StrLess(b, a)
    decreases |a|
  {
    if a != [] && b != [] && a[0] == b[0] {
      StrLessTotal(a[1..], b[1..]);
      if a[1..] == b[1..] {
        assert a == [a[0]] + a[1..] && b == [b[0]] + b[1..];
      }
    }
  }

  /** A shared prefix does not change the order. */
  lemma {:induction false} StrLessCommonPrefix(p: string, a: string, b: string)
    ensures StrLess(p + a, p + b) == StrLess(a, b)
    decreases |p|
  {
    if p != [] {
      assert (p + a)[0] == (p + b)[0];
      assert (p + a)[1..] == p[1..] + a;
      assert (p + b)[1..] == p[1..] + b;
      StrLessCommonPrefix(p[1..], a, b);
      assert StrLess(p + a, p + b) == StrLess(p[1..] + a, p[1..] + b);
    } else {
      assert p + a == a && p + b == b;
    }
  }

  predicate StartsWith(s: string, prefix: string) {
    |prefix| <= |s| && s[..|prefix|] == prefix
  }

  /** ASCII letters folded to lower case; other characters unchanged. */
  function AsciiLower(c: char): char {
    if 'A' <= c <= 'Z' then (c as int + 32) as char else c
  }

  /** Equality of two strings up to ASCII case, as the `i` flag of a JavaScript regular expression. */
  predicate EqualsIgnoringCase(a: string, b: string) {
    |a| == |b| && forall i :: 0 <= i < |a| ==> AsciiLower(a[i]) == AsciiLower(b[i])
  }
}
