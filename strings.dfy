/**
 * String operations the completion route relies on: the decimal rendering
 * of a non-negative integer (what a template literal does with a number),
 * substring containment, and JavaScript's `String.prototype.trim`.
 */
module Strings {

  // ---------------------------------------------------------------------
  // Decimal rendering of naturals
  // ---------------------------------------------------------------------

  predicate IsDigit(c: char)
  {
    '0' <= c <= '9'
  }

  predicate AllDigits(s: string)
  {
    forall i :: 0 <= i < |s| ==> IsDigit(s[i])
  }

  /** A canonical numeral: at least one digit and no leading zero. */
  predicate IsCanonicalNumeral(s: string)
  {
    |s| >= 1 && AllDigits(s) && (|s| > 1 ==> s[0] != '0')
  }

  function DigitChar(d: nat): (c: char)
    requires d < 10
    ensures IsDigit(c) && c as int - '0' as int == d
  {
    ('0' as int + d) as char
  }

  function DigitValue(c: char): (d: nat)
    requires IsDigit(c)
    ensures d < 10 && DigitChar(d) == c
  {
    c as int - '0' as int
  }

  /** The numeral JavaScript prints for the integer `n`. */
  function Decimal(n: nat): (s: string)
    ensures IsCanonicalNumeral(s)
  {
    if n < 10 then [DigitChar(n)] else Decimal(n / 10) + [DigitChar(n % 10)]
  }

  /** The value of a numeral, read most significant digit first. */
  function NumeralValue(s: string): nat
    requires AllDigits(s)
  {
    if s == [] then 0 else NumeralValue(s[..|s| - 1]) * 10 + DigitValue(s[|s| - 1])
  }

  lemma {:induction false} NumeralValueSnoc(s: string, c: char)
    requires AllDigits(s) && IsDigit(c)
    ensures AllDigits(s + [c]) && NumeralValue(s + [c]) == NumeralValue(s) * 10 + DigitValue(c)
  {
    assert (s + [c])[..|s + [c]| - 1] == s;
  }

  /** Reading the printed numeral gives back the number. */
  lemma {:induction false} DecimalRoundTrip(n: nat)
    ensures NumeralValue(Decimal(n)) == n
  {
    if n >= 10 {
      DecimalRoundTrip(n / 10);
      NumeralValueSnoc(Decimal(n / 10), DigitChar(n % 10));
    }
  }

  lemma {:induction false} NumeralValuePositive(s: string)
    requires |s| >= 1 && AllDigits(s) && s[0] != '0'
    ensures NumeralValue(s) >= 1
  {
    if |s| > 1 {
      NumeralValuePositive(s[..|s| - 1]);
    }
  }

  /** Every canonical numeral is what `Decimal` prints for its value. */
  lemma {:induction false} NumeralRoundTrip(s: string)
    requires IsCanonicalNumeral(s)
    ensures Decimal(NumeralValue(s)) == s
  {
    var init, last := s[..|s| - 1], s[|s| - 1];
    assert s == init + [last];
    if |s| > 1 {
      assert init[0] == s[0];
      NumeralValuePositive(init);
      NumeralRoundTrip(init);
      var n := NumeralValue(s);
      assert n == NumeralValue(init) * 10 + DigitValue(last);
      assert n / 10 == NumeralValue(init) && n % 10 == DigitValue(last);
    }
  }

  /** `Decimal` prints distinct numbers as distinct numerals. */
  lemma DecimalInjective(m: nat, n: nat)
    requires Decimal(m) == Decimal(n)
    ensures m == n
  {
    DecimalRoundTrip(m);
    DecimalRoundTrip(n);
  }

  // ---------------------------------------------------------------------
  // Substrings
  // ---------------------------------------------------------------------

  predicate Contains(s: string, t: string)
  {
    exists i, j :: 0 <= i <= j <= |s| && s[i..j] == t
  }

  lemma ContainsInMiddle(s: string, a: string, t: string, b: string)
    requires s == a + t + b
    ensures Contains(s, t)
  {
    var i, j := |a|, |a| + |t|;
    assert 0 <= i <= j <= |s| && s[i..j] == t;
  }

  lemma ContainsExtend(s: string, t: string, a: string, b: string)
    requires Contains(s, t)
    ensures Contains(a + s + b, t)
  {
    var i, j :| 0 <= i <= j <= |s| && s[i..j] == t;
    var w := a + s + b;
    assert w[|a| + i..|a| + j] == s[i..j];
  }

  /** A slice of a slice is a slice of the original. */
  lemma SliceOfSlice(s: string, i: nat, j: nat, k: nat, l: nat)
    requires i <= j <= |s| && k <= l <= j - i
    ensures s[i..j][k..l] == s[i + k..i + l]
  {
    forall n | 0 <= n < l - k ensures s[i..j][k..l][n] == s[i + k..i + l][n] {
      assert s[i..j][k..l][n] == s[i..j][k + n] == s[i + k + n];
    }
  }

  lemma ContainsTransitive(s: string, t: string, u: string)
    requires Contains(s, t) && Contains(t, u)
    ensures Contains(s, u)
  {
    var i, j :| 0 <= i <= j <= |s| && s[i..j] == t;
    var k, l :| 0 <= k <= l <= |t| && t[k..l] == u;
    SliceOfSlice(s, i, j, k, l);
    assert 0 <= i + k <= i + l <= |s| && s[i + k..i + l] == u;
  }

  // ---------------------------------------------------------------------
  // Texts assembled from parts, as a template literal is
  // ---------------------------------------------------------------------

  /** The parts, joined in order with nothing between them. */
  function Concat(parts: seq<string>): string
  {
    if parts == [] then [] else parts[0] + Concat(parts[1..])
  }

  /** Every part occurs, unchanged, in the joined text. */
  lemma {:induction false} ConcatContains(parts: seq<string>, k: nat)
    requires k < |parts|
    ensures Contains(Concat(parts), parts[k])
  {
    var e: string := [];
    if k == 0 {
      ContainsInMiddle(Concat(parts), e, parts[0], Concat(parts[1..]));
    } else {
      assert parts[1..][k - 1] == parts[k];
      ConcatContains(parts[1..], k - 1);
      ContainsExtend(Concat(parts[1..]), parts[k], parts[0], e);
      assert parts[0] + Concat(parts[1..]) + e == Concat(parts);
    }
  }

  /** Replacing one part changes the length of the joined text by exactly the change in that part. */
  lemma {:induction false} ConcatUpdateLength(parts: seq<string>, k: nat, x: string)
    requires k < |parts|
    ensures |Concat(parts[k := x])| + |parts[k]| == |Concat(parts)| + |x|
  {
    if k == 0 {
      assert parts[k := x][1..] == parts[1..];
    } else {
      assert parts[k := x][1..] == parts[1..][k - 1 := x];
      assert parts[1..][k - 1] == parts[k];
      ConcatUpdateLength(parts[1..], k - 1, x);
    }
  }

  // ---------------------------------------------------------------------
  // JavaScript String.prototype.trim
  // ---------------------------------------------------------------------

  /**
   * The characters `trim` removes: ECMAScript WhiteSpace (tab, vertical
   * tab, form feed, no-break space, byte order mark and every Unicode
   * space separator) and LineTerminator (LF, CR, LS, PS).
   */
  predicate IsSpace(c: char)
  {
    c == '\t' || c == '\n' || c == '\U{000B}' || c == '\U{000C}' || c == '\r' ||
    c == ' ' || c == '\U{00A0}' || c == '\U{1680}' ||
    ('\U{2000}' <= c <= '\U{200A}') ||
    c == '\U{2028}' || c == '\U{2029}' || c == '\U{202F}' || c == '\U{205F}' ||
    c == '\U{3000}' || c == '\U{FEFF}'
  }

  predicate AllSpace(s: string)
  {
    forall i :: 0 <= i < |s| ==> IsSpace(s[i])
  }

  /** Removes the leading run of whitespace: what is left is a suffix that starts with a non-space. */
  function TrimStart(s: string): (r: string)
    ensures |r| <= |s| && r == s[|s| - |r|..]
    ensures AllSpace(s[..|s| - |r|])
    ensures r == [] || !IsSpace(r[0])
  {
    if |s| > 0 && IsSpace(s[0]) then
      var r := TrimStart(s[1..]);
      var k := |s| - |r|;
      assert s[1..][k - 1..] == s[k..];
      assert AllSpace(s[..k]) by {
        forall i | 0 <= i < k ensures IsSpace(s[..k][i]) {
          if i > 0 {
            assert s[..k][i] == s[1..][..k - 1][i - 1];
          }
        }
      }
      r
    else
      s
  }

  /** Removes the trailing run of whitespace: what is left is a prefix that ends with a non-space. */
  function TrimEnd(s: string): (r: string)
    ensures |r| <= |s| && r == s[..|r|]
    ensures AllSpace(s[|r|..])
    ensures r == [] || !IsSpace(r[|r| - 1])
  {
    if |s| > 0 && IsSpace(s[|s| - 1]) then
      var r := TrimEnd(s[..|s| - 1]);
      assert s[..|s| - 1][..|r|] == s[..|r|];
      assert s[|r|..] == s[..|s| - 1][|r|..] + [s[|s| - 1]];
      r
    else
      s
  }

  /** `s.trim()`: leading, then trailing whitespace removed. */
  function Trim(s: string): string
  {
    TrimEnd(TrimStart(s))
  }

  /** No whitespace is left at either end of a trimmed text. */
  lemma TrimLeavesNoOuterSpace(s: string)
    ensures var r := Trim(s); r == [] || (!IsSpace(r[0]) && !IsSpace(r[|r| - 1]))
  {
    var t := TrimStart(s);
    var r := TrimEnd(t);
    assert r != [] ==> r[0] == t[0];
  }

  /** A trimmed text is the unchanged middle of the original, with only whitespace cut away on either side. */
  lemma TrimIsMiddle(s: string)
    ensures exists i, j :: 0 <= i <= j <= |s| && s[i..j] == Trim(s) && AllSpace(s[..i]) && AllSpace(s[j..])
  {
    var t := TrimStart(s);
    var r := TrimEnd(t);
    var i, j := |s| - |t|, |s| - |t| + |r|;
    PrefixOfSuffix(s, t, r);
    assert AllSpace(s[..i]) && AllSpace(s[j..]);
  }

  /** A prefix `r` of a suffix `t` of `s` is a slice of `s`, and what follows `r` in `t` is what follows it in `s`. */
  lemma PrefixOfSuffix(s: string, t: string, r: string)
    requires |t| <= |s| && t == s[|s| - |t|..] && |r| <= |t| && r == t[..|r|]
    ensures s[|s| - |t|..|s| - |t| + |r|] == r && s[|s| - |t| + |r|..] == t[|r|..]
  {
    var i := |s| - |t|;
    assert t == s[i..|s|];
    SliceOfSlice(s, i, |s|, 0, |r|);
    SliceOfSlice(s, i, |s|, |r|, |t|);
    assert r == t[0..|r|] && t[|r|..] == t[|r|..|t|];
    assert s[i + |r|..] == s[i + |r|..|s|];
  }

  lemma {:induction false} TrimStartAfterSpaces(pre: string, t: string)
    requires AllSpace(pre) && (t == [] || !IsSpace(t[0]))
    ensures TrimStart(pre + t) == t
  {
    if pre != [] {
      assert (pre + t)[1..] == pre[1..] + t;
      TrimStartAfterSpaces(pre[1..], t);
    }
  }

  lemma {:induction false} TrimEndBeforeSpaces(t: string, post: string)
    requires AllSpace(post) && (t == [] || !IsSpace(t[|t| - 1]))
    ensures TrimEnd(t + post) == t
  {
    if post != [] {
      assert (t + post)[..|t + post| - 1] == t + post[..|post| - 1];
      TrimEndBeforeSpaces(t, post[..|post| - 1]);
    }
  }

  /**
   * The trim of a whitespace-padded text is the text itself, whatever the
   * padding: this pins down `Trim` completely.
   */
  lemma TrimPadded(pre: string, core: string, post: string)
    requires AllSpace(pre) && AllSpace(post)
    requires core == [] || (!IsSpace(core[0]) && !IsSpace(core[|core| - 1]))
    ensures Trim(pre + core + post) == core
  {
    if core == [] {
      assert pre + core + post == pre + post + [];
      TrimStartAfterSpaces(pre + post, []);
    } else {
      assert pre + core + post == pre + (core + post);
      TrimStartAfterSpaces(pre, core + post);
      TrimEndBeforeSpaces(core, post);
    }
  }

  /** Trimming twice is trimming once. */
  lemma TrimIdempotent(s: string)
    ensures Trim(Trim(s)) == Trim(s)
  {
    var r := Trim(s);
    TrimLeavesNoOuterSpace(s);
    assert TrimStart(r) == r;
    assert TrimEnd(r) == r;
  }

  /** A whitespace-only text trims to the empty string. */
  lemma TrimAllSpace(s: string)
    requires AllSpace(s)
    ensures Trim(s) == []
  {
    assert s + [] + [] == s;
    TrimPadded(s, [], []);
  }
}
