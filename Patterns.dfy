/**
 * Hand-written recognizers for the two regular expressions that locate a
 * pull-request number:
 *   `/pull/(\d+)$`                 in the CI_PULL_REQUEST URL (Rust and Go), and
 *   `^Merge pull request #([0-9]+)` in the last commit subject (Rust).
 * Each returns the text of capture group 1, or None when the pattern does not
 * match; `\d` is read as the ASCII digits.
 */
module Patterns {
  import opened Wrappers
  import opened Text

  const PullMarker := "/pull/"
  const MergeMarker := "Merge pull request #"

  /**
   * `d` is what `/pull/(\d+)$` captures in `url`: a non-empty digit run that
   * ends the string, right after `/pull/`.
   */
  ghost predicate PullSuffixCapture(url: string, d: string) {
    |d| > 0 && AllDigits(d)
    && |PullMarker| + |d| <= |url|
    && url[|url| - |d| - |PullMarker|..] == PullMarker + d
  }

  /**
   * `d` is what `^Merge pull request #([0-9]+)` captures in `msg`: the
   * digit run right after the marker, taken as long as it goes (the `+` is
   * greedy), whatever follows it.
   */
  ghost predicate MergePrefixCapture(msg: string, d: string) {
    |d| > 0 && AllDigits(d)
    && |MergeMarker| + |d| <= |msg|
    && msg[..|MergeMarker| + |d|] == MergeMarker + d
    && (|msg| == |MergeMarker| + |d| || !IsDigit(msg[|MergeMarker| + |d|]))
  }

  /** Any capture of the URL pattern is the trailing digit run of the URL. */
  lemma PullCaptureIsTrailingDigits(url: string, d: string)
    requires PullSuffixCapture(url, d)
    ensures TrailingDigits(url) == d
  {
    var n := |url| - |d|;
    var t := TrailingDigits(url);
    assert url[n - |PullMarker|..][|PullMarker|..] == url[n..];
    assert url[n..] == d;
    assert url[n - 1] == url[n - |PullMarker|..][|PullMarker| - 1] == '/';
  }

  /** Any capture of the commit pattern is the leading digit run after the marker. */
  lemma MergeCaptureIsLeadingDigits(msg: string, d: string)
    requires MergePrefixCapture(msg, d)
    ensures |MergeMarker| <= |msg| && msg[..|MergeMarker|] == MergeMarker
    ensures LeadingDigits(msg[|MergeMarker|..]) == d
  {
    var m := |MergeMarker|;
    var rest := msg[m..];
    var l := LeadingDigits(rest);
    assert msg[..m] == msg[..m + |d|][..m] == (MergeMarker + d)[..m] == MergeMarker;
    assert rest[..|d|] == msg[..m + |d|][m..] == d;
    assert |d| < |rest| ==> rest[|d|] == msg[m + |d|];
  }

  /** Capture group 1 of `/pull/(\d+)$`, if the URL matches. */
  function PullNumberSuffix(url: string): (r: Option<string>)
    ensures r.Some? ==> PullSuffixCapture(url, r.value)
    ensures forall d :: PullSuffixCapture(url, d) ==> r == Some(d)
  {
    assert forall d :: PullSuffixCapture(url, d) ==> TrailingDigits(url) == d by {
      forall d | PullSuffixCapture(url, d) ensures TrailingDigits(url) == d {
        PullCaptureIsTrailingDigits(url, d);
      }
    }
    var d := TrailingDigits(url);
    var n := |url| - |d|;
    if |d| > 0 && |PullMarker| <= n && url[n - |PullMarker|..n] == PullMarker then
      assert url[n - |PullMarker|..] == url[n - |PullMarker|..n] + url[n..];
      Some(d)
    else
      None
  }

  /** Capture group 1 of `^Merge pull request #([0-9]+)`, if the message matches. */
  function MergeNumberPrefix(msg: string): (r: Option<string>)
    ensures r.Some? ==> MergePrefixCapture(msg, r.value)
    ensures forall d :: MergePrefixCapture(msg, d) ==> r == Some(d)
  {
    var m := |MergeMarker|;
    assert forall d :: MergePrefixCapture(msg, d) ==>
      m <= |msg| && msg[..m] == MergeMarker && LeadingDigits(msg[m..]) == d
    by {
      forall d | MergePrefixCapture(msg, d)
        ensures m <= |msg| && msg[..m] == MergeMarker && LeadingDigits(msg[m..]) == d
      {
        MergeCaptureIsLeadingDigits(msg, d);
      }
    }
    if m <= |msg| && msg[..m] == MergeMarker && |LeadingDigits(msg[m..])| > 0 then
      var d := LeadingDigits(msg[m..]);
      assert msg[..m + |d|] == msg[..m] + msg[m..][..|d|];
      Some(d)
    else
      None
  }

  /** A URL that ends in `/pull/` and a digit run captures exactly that run, whatever precedes it. */
  lemma PullSuffixOf(prefix: string, digits: string)
    requires |digits| > 0 && AllDigits(digits)
    ensures PullNumberSuffix(prefix + PullMarker + digits) == Some(digits)
  {
    var url := prefix + PullMarker + digits;
    assert url[|url| - |digits| - |PullMarker|..] == PullMarker + digits;
  }
}
