/** The Python string operations the scraper, the generator and the API server rely on,
    each written out with the semantics of CPython 3 `str`. */
module Text {

  // ---------------------------------------------------------------------------
  // Whitespace, stripping, lower-casing
  // ---------------------------------------------------------------------------

  /** The characters for which Python's str.isspace() holds; str.strip() with no
      argument removes exactly these. */
  predicate IsPySpace(c: char) {
    c == ' ' || ('\t' <= c <= '\r') || ('\U{1c}' <= c <= '\U{1f}') || c == '\U{85}' ||
    c == '\U{a0}' || c == '\U{1680}' || ('\U{2000}' <= c <= '\U{200a}') ||
    c == '\U{2028}' || c == '\U{2029}' || c == '\U{202f}' || c == '\U{205f}' || c == '\U{3000}'
  }

  /** `r` is the slice of `s` that starts at `i`. */
  predicate IsSliceAt(r: string, s: string, i: int) {
    0 <= i <= |s| - |r| && r == s[i..i + |r|]
  }

  /** Drops the leading characters that satisfy `cut`. */
  function TrimStart(s: string, cut: char -> bool): (r: string)
    ensures |r| <= |s| && r == s[|s| - |r|..]
    ensures forall k :: 0 <= k < |s| - |r| ==> cut(s[k])
    ensures r != [] ==> !cut(r[0])
  {
    if s != [] && cut(s[0]) then
      var r := TrimStart(s[1..], cut);
      assert forall k :: 1 <= k < |s| ==> s[1..][k - 1] == s[k];
      r
    else s
  }

  /** Drops the trailing characters that satisfy `cut`. */
  function TrimEnd(s: string, cut: char -> bool): (r: string)
    ensures |r| <= |s| && r == s[..|r|]
    ensures forall k :: |r| <= k < |s| ==> cut(s[k])
    ensures r != [] ==> !cut(r[|r| - 1])
  {
    if s != [] && cut(s[|s| - 1]) then
      var r := TrimEnd(s[..|s| - 1], cut);
      assert forall k :: 0 <= k < |s| - 1 ==> s[..|s| - 1][k] == s[k];
      r
    else s
  }

  /** `r` is the slice of `s` at `i`, and every character of `s` outside it is in `cut`. */
  predicate EdgesCut(r: string, s: string, i: int, cut: char -> bool) {
    IsSliceAt(r, s, i) &&
    (forall k :: 0 <= k < i ==> cut(s[k])) &&
    (forall k :: i + |r| <= k < |s| ==> cut(s[k]))
  }

  /** Python's s.strip(chars) for the character class `cut`. */
  function StripBy(s: string, cut: char -> bool): (r: string)
    ensures r != [] ==> !cut(r[0]) && !cut(r[|r| - 1])
    ensures r == [] <==> forall k :: 0 <= k < |s| ==> cut(s[k])
    ensures exists i :: IsSliceAt(r, s, i)
  {
    var t := TrimStart(s, cut);
    StripBySlice(s, t, cut);
    StripByEmpty(s, t, cut);
    assert IsSliceAt(TrimEnd(t, cut), s, |s| - |t|);
    TrimEnd(t, cut)
  }

  /** `r` is `s` with characters of `cut` removed at the two ends only, and none of them
      left at either end of `r`. */
  predicate IsStripOf(r: string, s: string, cut: char -> bool) {
    (exists i :: 0 <= i <= |s| && EdgesCut(r, s, i, cut)) && (r != [] ==> !cut(r[0]) && !cut(r[|r| - 1]))
  }

  /** Stripping removes characters of the class only, and only at the two ends. */
  lemma StripEdges(s: string, cut: char -> bool)
    ensures IsStripOf(StripBy(s, cut), s, cut)
  {
    var t := TrimStart(s, cut);
    StripBySlice(s, t, cut);
    TrimEdges(s, t, TrimEnd(t, cut), cut);
    assert StripBy(s, cut) == TrimEnd(t, cut);
    assert EdgesCut(StripBy(s, cut), s, |s| - |t|, cut);
  }

  /** Cut characters before `t` and after `u` inside it are all the text outside `u`. */
  lemma TrimEdges(s: string, t: string, u: string, cut: char -> bool)
    requires |t| <= |s| && t == s[|s| - |t|..] && |u| <= |t| && u == t[..|u|]
    requires forall k :: 0 <= k < |s| - |t| ==> cut(s[k])
    requires forall k :: |u| <= k < |t| ==> cut(t[k])
    ensures EdgesCut(u, s, |s| - |t|, cut)
  {
    var off := |s| - |t|;
    assert u == s[off..off + |u|];
    forall k | off + |u| <= k < |s| ensures cut(s[k]) {
      assert s[k] == t[k - off];
    }
  }

  lemma StripBySlice(s: string, t: string, cut: char -> bool)
    requires |t| <= |s| && t == s[|s| - |t|..]
    ensures TrimEnd(t, cut) == s[|s| - |t|..|s| - |t| + |TrimEnd(t, cut)|]
  {
    var r := TrimEnd(t, cut);
    var off := |s| - |t|;
    assert r == t[..|r|];
    assert s[off..][..|r|] == s[off..off + |r|];
  }

  lemma StripByEmpty(s: string, t: string, cut: char -> bool)
    requires t == TrimStart(s, cut)
    ensures TrimEnd(t, cut) == [] ==> forall k :: 0 <= k < |s| ==> cut(s[k])
  {
    if TrimEnd(t, cut) == [] {
      assert t == [];
    }
  }

  /** A text that neither begins nor ends with a character of the class is kept whole. */
  lemma StripNothing(s: string, cut: char -> bool)
    requires s != "" ==> !cut(s[0]) && !cut(s[|s| - 1])
    ensures StripBy(s, cut) == s
  {
    if s != "" {
      var t := TrimStart(s, cut);
      assert t == s;
      var u := TrimEnd(t, cut);
      assert |u| == |s|;
    }
  }

  /** Python's s.strip(). */
  function Strip(s: string): string { StripBy(s, IsPySpace) }

  /** Stripping keeps a prefix that neither begins nor ends with whitespace. */
  lemma StripKeepsPrefix(s: string, n: nat)
    requires 0 < n <= |s| && !IsPySpace(s[0]) && !IsPySpace(s[n - 1])
    ensures n <= |Strip(s)| && Strip(s)[..n] == s[..n]
  {
    var t := TrimStart(s, IsPySpace);
    assert t == s;
    var u := TrimEnd(t, IsPySpace);
    assert n <= |u|;
  }

  /** ASCII lower-casing of one character (Python's lower() on the ASCII range). */
  function LowerChar(c: char): char {
    if 'A' <= c <= 'Z' then (c as int + 32) as char else c
  }

  /** Python's s.lower(), restricted to ASCII letters; it keeps every position. */
  function Lower(s: string): (r: string)
    ensures |r| == |s|
  {
    seq(|s|, k requires 0 <= k < |s| => LowerChar(s[k]))
  }

  /** Lower-casing leaves whitespace alone, so a character whose lower case is no
      whitespace is none either. */
  lemma LowerNonSpace(c: char)
    requires !IsPySpace(LowerChar(c))
    ensures !IsPySpace(c)
  {
  }

  /** Lower-casing works position by position, so it commutes with taking a prefix. */
  lemma LowerPrefix(u: string, n: nat)
    requires n <= |u|
    ensures Lower(u)[..n] == Lower(u[..n])
  {
  }

  // ---------------------------------------------------------------------------
  // Substring search: `in`, str.find, str.startswith
  // ---------------------------------------------------------------------------

  lemma AppendAssoc<T>(a: seq<T>, b: seq<T>, c: seq<T>)
    ensures a + (b + c) == (a + b) + c
  {
  }

  lemma SliceExtend<T>(s: seq<T>, a: nat, b: nat)
    requires a <= b < |s|
    ensures s[a..b + 1] == s[a..b] + [s[b]]
  {
  }

  /** `pat` occurs in `s` at position `i`. */
  predicate IsAt(s: string, pat: string, i: int) {
    0 <= i && i + |pat| <= |s| && s[i..i + |pat|] == pat
  }

  /** The middle part of a concatenation occurs in it right after the first part. */
  lemma MiddleAt(a: string, b: string, c: string)
    ensures IsAt(a + b + c, b, |a|)
  {
    assert (a + b + c)[|a|..|a| + |b|] == b;
  }

  /** Python's s.find(pat, start): the first position at or after `start` where `pat` occurs, or -1. */
  function FindFrom(s: string, pat: string, start: nat): (r: int)
    requires start <= |s|
    ensures r == -1 || (start <= r && IsAt(s, pat, r))
    ensures r == -1 ==> forall i :: start <= i <= |s| ==> !IsAt(s, pat, i)
    ensures r != -1 ==> forall i :: start <= i < r ==> !IsAt(s, pat, i)
    decreases |s| - start
  {
    if start + |pat| > |s| then -1
    else if IsAt(s, pat, start) then start
    else if start == |s| then -1
    else FindFrom(s, pat, start + 1)
  }

  /** Python's s.find(pat). */
  function Find(s: string, pat: string): int { FindFrom(s, pat, 0) }

  /** Python's `pat in s`. */
  predicate Contains(s: string, pat: string) { Find(s, pat) != -1 }

  lemma ContainsAt(s: string, pat: string, i: int)
    requires IsAt(s, pat, i)
    ensures Contains(s, pat) && 0 <= Find(s, pat) <= i
  {
  }

  /** An occurrence with none before it is what find returns. */
  lemma FindIs(s: string, pat: string, i: int)
    requires IsAt(s, pat, i) && forall j :: 0 <= j < i ==> !IsAt(s, pat, j)
    ensures Find(s, pat) == i
  {
    ContainsAt(s, pat, i);
  }

  /** An occurrence of `big` in `s` carries every occurrence of `small` in `big` with it. */
  lemma {:induction false} ContainsTransitive(s: string, big: string, small: string, j: int)
    requires Contains(s, big) && IsAt(big, small, j)
    ensures Contains(s, small)
  {
    var i := Find(s, big);
    var w := s[i + j..i + j + |small|];
    forall k | 0 <= k < |small| ensures w[k] == small[k] {
      assert w[k] == s[i..i + |big|][j + k] == big[j..j + |small|][k];
    }
    assert w == small;
    ContainsAt(s, small, i + j);
  }

  /** A pattern holding a character that `s` lacks is not found in `s`. */
  lemma FindMissingChar(s: string, pat: string, j: nat)
    requires j < |pat| && pat[j] !in s
    ensures Find(s, pat) == -1
  {
    forall i | 0 <= i <= |s| ensures !IsAt(s, pat, i) {
      if i + |pat| <= |s| {
        assert s[i..i + |pat|][j] == s[i + j];
        assert s[i + j] in s;
      }
    }
  }

  /** Python's s.startswith(p). */
  predicate StartsWith(s: string, p: string) {
    |p| <= |s| && s[..|p|] == p
  }

  // ---------------------------------------------------------------------------
  // str.split(sep) and sep.join(parts) for a one-character separator
  // ---------------------------------------------------------------------------

  /** Python's s.split(sep) for a single-character separator: never empty, and no
      piece contains the separator. */
  function Split(s: string, sep: char): (parts: seq<string>)
    ensures |parts| >= 1
    ensures forall k :: 0 <= k < |parts| ==> sep !in parts[k]
  {
    if s == [] then [""]
    else
      var rest := Split(s[1..], sep);
      if s[0] == sep then [""] + rest
      else [[s[0]] + rest[0]] + rest[1..]
  }

  /** Python's sep.join(parts). */
  function Join(parts: seq<string>, sep: char): string {
    if parts == [] then ""
    else if |parts| == 1 then parts[0]
    else parts[0] + [sep] + Join(parts[1..], sep)
  }

  lemma {:induction false} JoinCons(p: string, rest: seq<string>, sep: char)
    requires rest != []
    ensures Join([p + rest[0]] + rest[1..], sep) == p + Join(rest, sep)
  {
    var ps := [p + rest[0]] + rest[1..];
    assert ps[1..] == rest[1..];
  }

  /** Splitting on a separator and joining with it again gives back the text. */
  lemma {:induction false} JoinSplit(s: string, sep: char)
    ensures Join(Split(s, sep), sep) == s
  {
    if s != [] {
      var rest := Split(s[1..], sep);
      JoinSplit(s[1..], sep);
      if s[0] == sep {
        assert ([""] + rest)[1..] == rest;
        assert Join([""] + rest, sep) == "" + [sep] + Join(rest, sep);
        assert s == [s[0]] + s[1..];
      } else {
        JoinCons([s[0]], rest, sep);
        assert s == [s[0]] + s[1..];
      }
    }
  }

  /** The text before the first separator is the first piece. */
  lemma {:induction false} SplitFirstPiece(a: string, rest: string, sep: char)
    requires sep !in a
    ensures Split(a + [sep] + rest, sep) == [a] + Split(rest, sep)
  {
    if a == [] {
      assert a + [sep] + rest == [sep] + rest;
      assert ([sep] + rest)[1..] == rest;
    } else {
      var s := a + [sep] + rest;
      assert s[0] == a[0] && s[1..] == a[1..] + [sep] + rest;
      SplitFirstPiece(a[1..], rest, sep);
      assert a == [a[0]] + a[1..];
    }
  }

  /** Text without the separator is a single piece. */
  lemma {:induction false} SplitWhole(s: string, sep: char)
    requires sep !in s
    ensures Split(s, sep) == [s]
  {
    if s != [] {
      assert sep !in s[1..] by { assert forall c :: c in s[1..] ==> c in s; }
      SplitWhole(s[1..], sep);
      assert s == [s[0]] + s[1..];
    }
  }

  // ---------------------------------------------------------------------------
  // Decimal formatting: str(n), f"{n}", f"{n:03d}"
  // ---------------------------------------------------------------------------

  predicate IsDigit(c: char) { '0' <= c <= '9' }

  function DigitChar(d: nat): (c: char)
    requires d < 10
    ensures IsDigit(c)
  {
    (48 + d) as char
  }

  /** The numeric value of a string of decimal digits. */
  function DigitsValue(s: string): nat
    requires forall k :: 0 <= k < |s| ==> IsDigit(s[k])
  {
    if s == [] then 0
    else
      assert IsDigit(s[|s| - 1]);
      DigitsValue(s[..|s| - 1]) * 10 + (s[|s| - 1] as int - 48)
  }

  /** Python's str(n) for a natural number: digits only, no leading zero. */
  function Decimal(n: nat): (r: string)
    ensures |r| >= 1 && forall k :: 0 <= k < |r| ==> IsDigit(r[k])
    ensures r[0] == '0' ==> n == 0
    ensures n < 10 <==> |r| == 1
  {
    if n < 10 then [DigitChar(n)] else Decimal(n / 10) + [DigitChar(n % 10)]
  }

  /** Reading back the digits that Decimal writes yields the number. */
  lemma {:induction false} DecimalValue(n: nat)
    ensures DigitsValue(Decimal(n)) == n
  {
    if n >= 10 {
      DecimalValue(n / 10);
      var r := Decimal(n);
      assert r[..|r| - 1] == Decimal(n / 10);
    }
  }

  /** The number of decimal digits at the start of `t`. */
  function DigitRun(t: string): nat {
    if t != [] && IsDigit(t[0]) then 1 + DigitRun(t[1..]) else 0
  }

  lemma {:induction false} DigitRunOf(d: string, x: string)
    requires forall k :: 0 <= k < |d| ==> IsDigit(d[k])
    requires x == [] || !IsDigit(x[0])
    ensures DigitRun(d + x) == |d|
  {
    if d == [] {
      assert d + x == x;
    } else {
      assert (d + x)[1..] == d[1..] + x;
      DigitRunOf(d[1..], x);
    }
  }

  /** Digits followed by a non-digit (or nothing) determine the number: the decimal
      text of a number is never a proper prefix of a longer digit run. */
  lemma DecimalPrefixUnique(a: nat, b: nat, x: string, y: string)
    requires x == [] || !IsDigit(x[0])
    requires y == [] || !IsDigit(y[0])
    requires Decimal(a) + x == Decimal(b) + y
    ensures a == b && x == y
  {
    var da, db := Decimal(a), Decimal(b);
    var s := da + x;
    DigitRunOf(da, x);
    DigitRunOf(db, y);
    assert da == s[..|da|] == db;
    DecimalValue(a);
    DecimalValue(b);
    assert x == s[|da|..] == y;
  }

  /** Python's str(i) / f"{i}" for any integer. */
  function IntStr(i: int): string {
    if i < 0 then "-" + Decimal(-i) else Decimal(i)
  }

  function Zeros(n: nat): (r: string)
    ensures |r| == n && forall k :: 0 <= k < n ==> r[k] == '0'
  {
    if n == 0 then "" else "0" + Zeros(n - 1)
  }

  /** Left-pads with zeros to width `w`; a longer text is kept whole. */
  function ZeroPad(s: string, w: nat): string {
    if |s| < w then Zeros(w - |s|) + s else s
  }

  /** Python's f"{i:03d}": zero-padded to width three, the sign counting towards the width. */
  function Format03d(i: int): string {
    if i >= 0 then ZeroPad(Decimal(i), 3) else "-" + ZeroPad(Decimal(-i), 2)
  }

  predicate AllDigits(s: string) { forall k :: 0 <= k < |s| ==> IsDigit(s[k]) }

  /** `t` is `i` in decimal, with zeros in front up to three characters, a minus sign
      counting towards the three: it reads back as `i`, and a leading zero appears only
      to reach that width. */
  predicate PaddedIndex(t: string, i: int) {
    |t| >= 3 &&
    if i >= 0 then AllDigits(t) && DigitsValue(t) == i && (|t| == 3 || t[0] != '0')
    else t[0] == '-' && AllDigits(t[1..]) && DigitsValue(t[1..]) == -i && (|t| == 3 || t[1] != '0')
  }

  /** Zeros in front of a digit string do not change its value. */
  lemma {:induction false} ZerosValue(n: nat, s: string)
    requires AllDigits(s)
    ensures AllDigits(Zeros(n) + s) && DigitsValue(Zeros(n) + s) == DigitsValue(s)
    decreases |s|, n
  {
    var t := Zeros(n) + s;
    if s == [] {
      assert t == Zeros(n);
      if n > 0 {
        assert t[..n - 1] == Zeros(n - 1) + [];
        ZerosValue(n - 1, []);
      }
    } else {
      assert t[..|t| - 1] == Zeros(n) + s[..|s| - 1];
      ZerosValue(n, s[..|s| - 1]);
    }
  }

  /** A number of `w` digits or more is padded to width `w` by zeros only. */
  lemma ZeroPadValue(n: nat, w: nat)
    ensures var t := ZeroPad(Decimal(n), w);
            |t| >= w && AllDigits(t) && DigitsValue(t) == n && (|t| == w || t[0] != '0' || n == 0)
  {
    DecimalValue(n);
    var d := Decimal(n);
    if |d| < w {
      ZerosValue(w - |d|, d);
    }
  }

  /** f"{i:03d}" is the padded index of i. */
  lemma Format03dPadded(i: int)
    ensures PaddedIndex(Format03d(i), i)
  {
    if i >= 0 {
      ZeroPadValue(i, 3);
    } else {
      var t := ZeroPad(Decimal(-i), 2);
      ZeroPadValue(-i, 2);
      assert Format03d(i)[1..] == t;
    }
  }

  /** Below 1000 the padded text is exactly the three decimal digits of the number. */
  lemma Format03dDigits(i: int)
    requires 0 <= i < 1000
    ensures Format03d(i) == [DigitChar(i / 100), DigitChar(i / 10 % 10), DigitChar(i % 10)]
  {
    if i < 10 {
      assert Decimal(i) == [DigitChar(i)];
    } else if i < 100 {
      assert Decimal(i / 10) == [DigitChar(i / 10)];
      assert Decimal(i) == [DigitChar(i / 10), DigitChar(i % 10)];
    } else {
      assert Decimal(i / 100) == [DigitChar(i / 100)];
      assert Decimal(i / 10) == [DigitChar(i / 100), DigitChar(i / 10 % 10)];
      assert Decimal(i) == [DigitChar(i / 100), DigitChar(i / 10 % 10), DigitChar(i % 10)];
    }
  }

  // ---------------------------------------------------------------------------
  // Python's ordering of str: lexicographic by code point
  // ---------------------------------------------------------------------------

  /** Python's a < b on str. */
  predicate LexLess(a: string, b: string) {
    if a == [] then b != []
    else b != [] && (a[0] < b[0] || (a[0] == b[0] && LexLess(a[1..], b[1..])))
  }

  lemma {:induction false} LexLessIrreflexive(a: string)
    ensures !LexLess(a, a)
  {
    if a != [] { LexLessIrreflexive(a[1..]); }
  }

  lemma {:induction false} LexLessTransitive(a: string, b: string, c: string)
    requires LexLess(a, b) && LexLess(b, c)
    ensures LexLess(a, c)
  {
    if a != [] && a[0] == b[0] && b[0] == c[0] {
      LexLessTransitive(a[1..], b[1..], c[1..]);
    }
  }

  lemma {:induction false} LexLessTotal(a: string, b: string)
    ensures a == b || LexLess(a, b) || LexLess(b, a)
  {
    if a != [] && b != [] && a[0] == b[0] {
      LexLessTotal(a[1..], b[1..]);
      if a[1..] == b[1..] {
        assert a == [a[0]] + a[1..] && b == [b[0]] + b[1..];
      }
    }
  }

  lemma {:induction false} LexLessAsymmetric(a: string, b: string)
    requires LexLess(a, b)
    ensures !LexLess(b, a)
  {
    if a != [] && b != [] && a[0] == b[0] {
      LexLessAsymmetric(a[1..], b[1..]);
    }
  }

  /** "Not greater" is transitive. */
  lemma LexLeTransitive(a: string, b: string, c: string)
    requires !LexLess(b, a) && !LexLess(c, b)
    ensures !LexLess(c, a)
  {
    LexLessTotal(a, b);
    LexLessTotal(b, c);
    if a != b && b != c {
      LexLessTransitive(a, b, c);
      LexLessAsymmetric(a, c);
    }
  }

  /** A common prefix does not change the order of two strings. */
  lemma {:induction false} LexLessCommonPrefix(p: string, a: string, b: string)
    ensures LexLess(p + a, p + b) <==> LexLess(a, b)
  {
    if p != [] {
      var pa, pb := p + a, p + b;
      assert pa[0] == pb[0] && pa != [] && pb != [];
      assert pa[1..] == p[1..] + a;
      assert pb[1..] == p[1..] + b;
      assert LexLess(pa, pb) == LexLess(pa[1..], pb[1..]);
      LexLessCommonPrefix(p[1..], a, b);
    } else {
      assert p + a == a && p + b == b;
    }
  }

  /** On three-character strings, Python's order compares position by position. */
  lemma LexLessThree(x: string, y: string)
    requires |x| == 3 && |y| == 3
    ensures LexLess(x, y) <==>
      x[0] < y[0] || (x[0] == y[0] && (x[1] < y[1] || (x[1] == y[1] && x[2] < y[2])))
  {
    assert LexLess(x, y) == (x[0] < y[0] || (x[0] == y[0] && LexLess(x[1..], y[1..])));
    var x1, y1 := x[1..], y[1..];
    assert LexLess(x1, y1) == (x1[0] < y1[0] || (x1[0] == y1[0] && LexLess(x1[1..], y1[1..])));
    var x2, y2 := x1[1..], y1[1..];
    assert x2[1..] == [] && y2[1..] == [];
    assert LexLess(x2, y2) == (x2[0] < y2[0]);
  }

  /** The three decimal digits of a number below 1000. */
  lemma ThreeDigits(i: int)
    requires 0 <= i < 1000
    ensures 0 <= i / 100 < 10 && 0 <= i / 10 % 10 < 10 && 0 <= i % 10 < 10
    ensures i == i / 100 * 100 + i / 10 % 10 * 10 + i % 10
  {
  }

  /** Comparing digit triples position by position is comparing the numbers they spell. */
  lemma TripleOrder(a: int, b: int, c: int, x: int, y: int, z: int)
    requires 0 <= a < 10 && 0 <= b < 10 && 0 <= c < 10 && 0 <= x < 10 && 0 <= y < 10 && 0 <= z < 10
    ensures (a < x || (a == x && (b < y || (b == y && c < z)))) <==> a * 100 + b * 10 + c < x * 100 + y * 10 + z
  {
  }

  /** With zero-padding to three digits, string order agrees with numeric order below 1000. */
  lemma PaddedOrder(i: int, j: int)
    requires 0 <= i < 1000 && 0 <= j < 1000
    ensures LexLess(Format03d(i), Format03d(j)) <==> i < j
  {
    Format03dDigits(i);
    Format03dDigits(j);
    LexLessThree(Format03d(i), Format03d(j));
    ThreeDigits(i);
    ThreeDigits(j);
    TripleOrder(i / 100, i / 10 % 10, i % 10, j / 100, j / 10 % 10, j % 10);
  }
}
