/**
 * String primitives the tool relies on: substring occurrence, the literal
 * replace-all of Rust's `str::replace`, the `strings.Join` of Go, ASCII digit
 * runs and the decimal rendering of integers (`format!("{}", i)`).
 */
module Text {

  // ---------------------------------------------------------------------------
  // Occurrences

  /** `pat` occurs in `s` starting at index `i`. */
  predicate OccursAt(s: string, pat: string, i: int) {
    0 <= i && i + |pat| <= |s| && s[i..i + |pat|] == pat
  }

  /** `pat` occurs somewhere in `s`. */
  ghost predicate Contains(s: string, pat: string) {
    exists i :: OccursAt(s, pat, i)
  }

  /**
   * No proper non-empty prefix of `pat` is also a suffix of it, so two
   * occurrences of `pat` can never overlap.
   */
  ghost predicate BorderFree(pat: string) {
    forall k :: 0 < k < |pat| ==> pat[k..] != pat[..|pat| - k]
  }

  lemma OccursAtSuffix(s: string, pat: string, d: nat, i: int)
    requires d <= |s|
    requires OccursAt(s[d..], pat, i)
    ensures OccursAt(s, pat, i + d)
  {
    assert s[i + d..i + d + |pat|] == s[d..][i..i + |pat|];
  }

  /** A string lacking some character of `pat` cannot contain `pat`. */
  lemma {:induction false} MissingCharExcludes(s: string, pat: string, c: char)
    requires c in pat && c !in s
    ensures !Contains(s, pat)
  {
    var j :| 0 <= j < |pat| && pat[j] == c;
    forall i | 0 <= i && i + |pat| <= |s| ensures !OccursAt(s, pat, i) {
      assert s[i..i + |pat|][j] == s[i + j] != c;
    }
  }

  // ---------------------------------------------------------------------------
  // Replace-all

  /**
   * Every leftmost, non-overlapping occurrence of `pat` in `s`, scanned from
   * the left, is replaced by `rep`; everything else is copied in order.
   */
  function ReplaceAll(s: string, pat: string, rep: string): (r: string)
    requires |pat| > 0
    decreases |s|
    ensures rep == pat ==> r == s
  {
    if |s| < |pat| then s
    else if s[..|pat|] == pat then rep + ReplaceAll(s[|pat|..], pat, rep)
    else [s[0]] + ReplaceAll(s[1..], pat, rep)
  }

  /** A string without the pattern comes back unchanged. */
  lemma {:induction false} ReplaceAllAbsent(s: string, pat: string, rep: string)
    requires |pat| > 0 && !Contains(s, pat)
    ensures ReplaceAll(s, pat, rep) == s
  {
    if |s| >= |pat| {
      assert !OccursAt(s, pat, 0);
      if Contains(s[1..], pat) {
        var i :| OccursAt(s[1..], pat, i);
        OccursAtSuffix(s, pat, 1, i);
      }
      ReplaceAllAbsent(s[1..], pat, rep);
      assert s == [s[0]] + s[1..];
    }
  }

  /** The pattern alone becomes the replacement. */
  lemma ReplaceAllSelf(pat: string, rep: string)
    requires |pat| > 0
    ensures ReplaceAll(pat, pat, rep) == rep
  {
    assert ReplaceAll(pat, pat, rep) == rep + ReplaceAll([], pat, rep);
  }

  /** A prefix in which no occurrence starts is copied verbatim. */
  lemma {:induction false} ReplaceAllSkips(p: string, t: string, pat: string, rep: string)
    requires |pat| > 0
    requires forall j :: 0 <= j < |p| ==> !OccursAt(p + t, pat, j)
    ensures ReplaceAll(p + t, pat, rep) == p + ReplaceAll(t, pat, rep)
  {
    if p != [] {
      var s := p + t;
      assert !OccursAt(s, pat, 0);
      assert s[1..] == p[1..] + t;
      forall j | 0 <= j < |p[1..]| ensures !OccursAt(p[1..] + t, pat, j) {
        if OccursAt(p[1..] + t, pat, j) {
          OccursAtSuffix(s, pat, 1, j);
        }
      }
      ReplaceAllSkips(p[1..], t, pat, rep);
      assert s[0] == p[0] && p == [p[0]] + p[1..];
      if |s| >= |pat| {
        assert s[..|pat|] != pat;
        assert ReplaceAll(s, pat, rep) == [s[0]] + ReplaceAll(p[1..] + t, pat, rep);
      } else {
        assert ReplaceAll(t, pat, rep) == t;
      }
    } else {
      assert p + t == t;
    }
  }

  /**
   * Replace-all works piece by piece across a boundary that no occurrence of
   * `pat` straddles.
   */
  lemma {:induction false} ReplaceAllSplit(s: string, t: string, pat: string, rep: string)
    requires |pat| > 0
    requires forall j :: 0 <= j < |s| < j + |pat| ==> !OccursAt(s + t, pat, j)
    ensures ReplaceAll(s + t, pat, rep) == ReplaceAll(s, pat, rep) + ReplaceAll(t, pat, rep)
    decreases |s|
  {
    if |s| < |pat| {
      ReplaceAllSkips(s, t, pat, rep);
    } else {
      var d := if s[..|pat|] == pat then |pat| else 1;
      assert (s + t)[..|pat|] == s[..|pat|];
      assert (s + t)[d..] == s[d..] + t;
      forall j | 0 <= j < |s[d..]| < j + |pat| ensures !OccursAt(s[d..] + t, pat, j) {
        if OccursAt(s[d..] + t, pat, j) {
          OccursAtSuffix(s + t, pat, d, j);
        }
      }
      ReplaceAllSplit(s[d..], t, pat, rep);
      if d == 1 {
        assert [s[0]] + ReplaceAll(s[1..], pat, rep) + ReplaceAll(t, pat, rep)
            == [s[0]] + (ReplaceAll(s[1..], pat, rep) + ReplaceAll(t, pat, rep));
      } else {
        assert rep + ReplaceAll(s[d..], pat, rep) + ReplaceAll(t, pat, rep)
            == rep + (ReplaceAll(s[d..], pat, rep) + ReplaceAll(t, pat, rep));
      }
    }
  }

  /**
   * In particular, replace-all works piece by piece where the last character
   * before the boundary, or the first after it, is not in the pattern.
   */
  lemma ReplaceAllSplitAt(s: string, t: string, pat: string, rep: string)
    requires |pat| > 0
    requires (|s| > 0 && s[|s| - 1] !in pat) || (|t| > 0 && t[0] !in pat)
    ensures ReplaceAll(s + t, pat, rep) == ReplaceAll(s, pat, rep) + ReplaceAll(t, pat, rep)
  {
    forall j | 0 <= j < |s| < j + |pat| ensures !OccursAt(s + t, pat, j) {
      if j + |pat| <= |s + t| {
        if |s| > 0 && s[|s| - 1] !in pat {
          assert (s + t)[j..j + |pat|][|s| - 1 - j] == s[|s| - 1];
        } else {
          assert (s + t)[j..j + |pat|][|s| - j] == t[0];
        }
      }
    }
    ReplaceAllSplit(s, t, pat, rep);
  }

  /**
   * When `pat` is border-free and `p` does not contain it, no occurrence of
   * `pat` in `p + pat + t` can start inside `p`.
   */
  lemma NoStraddle(p: string, pat: string, t: string, j: int)
    requires BorderFree(pat) && !Contains(p, pat)
    requires 0 <= j < |p|
    ensures !OccursAt(p + pat + t, pat, j)
  {
    var s := p + pat + t;
    if j + |pat| <= |p| {
      assert s[j..j + |pat|] == p[j..j + |pat|];
      assert !OccursAt(p, pat, j);
    } else {
      var k := |p| - j;
      assert s[j..j + |pat|] == p[j..] + pat[..|pat| - k];
      assert s[j..j + |pat|][k..] == pat[..|pat| - k] != pat[k..];
    }
  }

  /**
   * Replace-all replaces EVERY occurrence: for a border-free pattern, a string
   * built by joining occurrence-free pieces with the pattern turns into the
   * same pieces joined with the replacement.
   */
  lemma {:induction false} ReplaceAllJoin(pieces: seq<string>, pat: string, rep: string)
    requires |pat| > 0 && BorderFree(pat)
    requires forall i :: 0 <= i < |pieces| ==> !Contains(pieces[i], pat)
    ensures ReplaceAll(Join(pieces, pat), pat, rep) == Join(pieces, rep)
  {
    if |pieces| == 0 {
    } else if |pieces| == 1 {
      ReplaceAllAbsent(pieces[0], pat, rep);
    } else {
      var p, rest := pieces[0], Join(pieces[1..], pat);
      forall j | 0 <= j < |p| ensures !OccursAt(p + (pat + rest), pat, j) {
        assert p + (pat + rest) == p + pat + rest;
        NoStraddle(p, pat, rest, j);
      }
      ReplaceAllSkips(p, pat + rest, pat, rep);
      assert (pat + rest)[..|pat|] == pat && (pat + rest)[|pat|..] == rest;
      ReplaceAllJoin(pieces[1..], pat, rep);
      assert Join(pieces, pat) == p + (pat + rest);
    }
  }

  // ---------------------------------------------------------------------------
  // Join

  /** The total length of the strings in `xs`. */
  function TotalLength(xs: seq<string>): nat {
    if xs == [] then 0 else |xs[0]| + TotalLength(xs[1..])
  }

  /** Go's `strings.Join`: the elements in order, `sep` between neighbours. */
  function Join(xs: seq<string>, sep: string): (r: string)
    ensures |xs| > 0 ==> |r| == TotalLength(xs) + (|xs| - 1) * |sep|
    ensures |xs| > 0 ==> r[..|xs[0]|] == xs[0]
  {
    if |xs| == 0 then []
    else if |xs| == 1 then xs[0]
    else xs[0] + sep + Join(xs[1..], sep)
  }

  // ---------------------------------------------------------------------------
  // ASCII digits and decimal numbers

  predicate IsDigit(c: char) {
    '0' <= c <= '9'
  }

  predicate AllDigits(s: string) {
    forall i :: 0 <= i < |s| ==> IsDigit(s[i])
  }

  /** The longest run of digits that ends `s`. */
  function TrailingDigits(s: string): (d: string)
    ensures |d| <= |s| && d == s[|s| - |d|..]
    ensures AllDigits(d)
    ensures |d| == |s| || !IsDigit(s[|s| - |d| - 1])
  {
    if s == [] || !IsDigit(s[|s| - 1]) then []
    else TrailingDigits(s[..|s| - 1]) + [s[|s| - 1]]
  }

  /** The longest run of digits that starts `s`. */
  function LeadingDigits(s: string): (d: string)
    ensures |d| <= |s| && d == s[..|d|]
    ensures AllDigits(d)
    ensures |d| == |s| || !IsDigit(s[|d|])
  {
    if s == [] || !IsDigit(s[0]) then []
    else [s[0]] + LeadingDigits(s[1..])
  }

  function DigitValue(c: char): nat
    requires IsDigit(c)
  {
    (c - '0') as nat
  }

  function DigitChar(n: nat): (c: char)
    requires n < 10
    ensures IsDigit(c) && DigitValue(c) == n
  {
    ('0' as int + n) as char
  }

  /** The number a string of decimal digits denotes (leading zeros add nothing). */
  function DecimalValue(s: string): nat
    requires AllDigits(s)
  {
    if s == [] then 0
    else 10 * DecimalValue(s[..|s| - 1]) + DigitValue(s[|s| - 1])
  }

  /** Shortest decimal digits of `n`: no leading zero except for `0` itself. */
  function NatToDecimal(n: nat): (s: string)
    ensures |s| > 0 && AllDigits(s)
    ensures |s| == 1 || s[0] != '0'
  {
    if n < 10 then [DigitChar(n)]
    else NatToDecimal(n / 10) + [DigitChar(n % 10)]
  }

  /** Rust's `Display` for signed integers: a minus sign, then the digits of the magnitude. */
  function IntToDecimal(i: int): (s: string)
    ensures |s| > 0
    ensures i >= 0 ==> AllDigits(s)
    ensures i < 0 ==> s[0] == '-' && AllDigits(s[1..])
    ensures i >= 0 ==> DecimalValue(s) == i
    ensures i < 0 ==> DecimalValue(s[1..]) == -i
    ensures i >= 0 ==> Canonical(s)
    ensures i < 0 ==> Canonical(s[1..])
  {
    DecimalRoundTrip(if i < 0 then -i else i);
    if i < 0 then
      var s := "-" + NatToDecimal(-i);
      assert s[1..] == NatToDecimal(-i);
      s
    else NatToDecimal(i)
  }

  /** A digit string without a superfluous leading zero. */
  predicate Canonical(s: string) {
    |s| > 0 && AllDigits(s) && (|s| == 1 || s[0] != '0')
  }

  /** Parsing the rendering of `n` gives back `n`. */
  lemma {:induction false} DecimalRoundTrip(n: nat)
    ensures DecimalValue(NatToDecimal(n)) == n
  {
    if n >= 10 {
      DecimalRoundTrip(n / 10);
      var s := NatToDecimal(n);
      assert s[..|s| - 1] == NatToDecimal(n / 10);
    }
  }

  /** Rendering the value of a canonical digit string gives back the string. */
  lemma {:induction false} DecimalCanonicalRoundTrip(s: string)
    requires Canonical(s)
    ensures NatToDecimal(DecimalValue(s)) == s
  {
    var init, last := s[..|s| - 1], s[|s| - 1];
    if |s| == 1 {
      assert DecimalValue(s) == DigitValue(last);
      assert s == [DigitChar(DigitValue(last))];
    } else {
      assert init[0] == s[0];
      DecimalCanonicalRoundTrip(init);
      NonZeroLeadValue(s);
      var v := DecimalValue(s);
      assert v / 10 == DecimalValue(init) && v % 10 == DigitValue(last);
      assert DigitChar(DigitValue(last)) == last;
      assert s == init + [last];
    }
  }

  /** A digit string that does not start with `0` denotes a positive number, at least ten when it has two digits or more. */
  lemma {:induction false} NonZeroLeadValue(s: string)
    requires |s| > 0 && AllDigits(s) && s[0] != '0'
    ensures DecimalValue(s) >= 1
    ensures |s| > 1 ==> DecimalValue(s) >= 10
  {
    if |s| > 1 {
      var init := s[..|s| - 1];
      assert init[0] == s[0];
      NonZeroLeadValue(init);
    }
  }
}
