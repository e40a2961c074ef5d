/**
 * The pure parts of the Go program (main.go): the display string of the
 * command, the pull-request number taken from CI_PULL_REQUEST, the removal
 * of ANSI colour sequences from the output, and which comment template is
 * used. Go's `int` is taken to be 64 bits wide.
 */
module GoMain {
  import opened Wrappers
  import opened Text
  import opened Patterns
  import CircleGhTee

  // ---------------------------------------------------------------------------
  // The command

  /** The values the comment template is executed on. */
  datatype Context = Context(cmd: string, args: seq<string>, exitStatus: int, result: string)

  /** `FullCmd`: the name, one space, then the arguments joined by single spaces. */
  function FullCmd(c: Context): (r: string)
    ensures |r| > |c.cmd| && r[..|c.cmd| + 1] == c.cmd + " "
    ensures r[|c.cmd| + 1..] == Join(c.args, " ")
  {
    c.cmd + " " + Join(c.args, " ")
  }

  /**
   * The Go display string is the Rust one except for a command run without
   * arguments, where Go leaves a trailing space and Rust does not.
   */
  lemma FullCmdAgainstRust(cmd: string, args: seq<string>, exitStatus: CircleGhTee.Int32, output: string)
    ensures FullCmd(Context(cmd, args, exitStatus, output))
         == CircleGhTee.NewCommandResult(cmd, args, exitStatus, output).fullCommand
            + (if args == [] then " " else "")
  {
  }

  /** A command without arguments is shown with a trailing space. */
  lemma FullCmdWithoutArgs(cmd: string, exitStatus: int, output: string)
    ensures FullCmd(Context(cmd, [], exitStatus, output)) == cmd + " "
  {
    assert Join([], " ") == [];
  }

  // ---------------------------------------------------------------------------
  // The pull-request number

  /** The largest value of a 64-bit Go `int`. */
  const MaxInt := 0x7fff_ffff_ffff_ffff

  const InvalidPullRequestError := "Invalid $CI_PULL_REQUEST"

  /** The text of the `*NumError` that `strconv.Atoi` gives for a value beyond `int`. */
  function AtoiRangeError(d: string): string {
    "strconv.Atoi: parsing \"" + d + "\": value out of range"
  }

  /**
   * `strconv.Atoi` on a non-empty string of ASCII digits (the only strings
   * the capture group can hold): the number the digits denote, leading zeros
   * ignored, or a range error when it does not fit in an `int`.
   */
  function Atoi(d: string): (r: Result<int>)
    requires |d| > 0 && AllDigits(d)
    ensures r.Ok? <==> DecimalValue(d) <= MaxInt
    ensures r.Ok? ==> r.value == DecimalValue(d)
    ensures r.Err? ==> r.error == AtoiRangeError(d)
  {
    var v := DecimalValue(d);
    if v <= MaxInt then Ok(v) else Err(AtoiRangeError(d))
  }

  /** Atoi reads back every rendering of an `int` that is not negative. */
  lemma AtoiRoundTrip(n: nat)
    requires n <= MaxInt
    ensures Atoi(NatToDecimal(n)) == Ok(n)
  {
    DecimalRoundTrip(n);
  }

  /**
   * `getPrNumberFromEnv`, with the error as an optional message: the number
   * after the final `/pull/`, or -1 with "Invalid $CI_PULL_REQUEST" when the
   * URL does not match, or -1 with Atoi's error when the number is too large.
   */
  function PrNumberFromEnv(ciPullRequest: string): (r: (int, Option<string>))
    ensures (forall d :: !PullSuffixCapture(ciPullRequest, d)) ==> r == (-1, Some(InvalidPullRequestError))
    ensures forall d :: PullSuffixCapture(ciPullRequest, d) ==>
              (DecimalValue(d) <= MaxInt ==> r == (DecimalValue(d), None))
              && (DecimalValue(d) > MaxInt ==> r == (-1, Some(AtoiRangeError(d))))
    ensures r.1.None? ==> 0 <= r.0 <= MaxInt
    ensures r.1.Some? ==> r.0 == -1
  {
    match PullNumberSuffix(ciPullRequest)
    case None => (-1, Some(InvalidPullRequestError))
    case Some(d) =>
      match Atoi(d)
      case Ok(i) => (i, None)
      case Err(e) => (-1, Some(e))
  }

  /** A URL ending in `/pull/` and the rendering of an `int` gives back that number. */
  lemma PrNumberRoundTrip(prefix: string, n: nat)
    requires n <= MaxInt
    ensures PrNumberFromEnv(prefix + PullMarker + NatToDecimal(n)) == (n, None)
  {
    PullSuffixOf(prefix, NatToDecimal(n));
    AtoiRoundTrip(n);
  }

  /** A number beyond `int` is reported as Atoi's range error, with -1. */
  lemma PrNumberOutOfRange(prefix: string, n: nat)
    requires n > MaxInt
    ensures PrNumberFromEnv(prefix + PullMarker + NatToDecimal(n)) == (-1, Some(AtoiRangeError(NatToDecimal(n))))
  {
    PullSuffixOf(prefix, NatToDecimal(n));
    DecimalRoundTrip(n);
  }

  /** The first case of main_test.go: a pull-request URL gives its number and no error. */
  lemma PrNumberFromUrlTest()
    ensures PrNumberFromEnv("https://github.com/user/repo/pull/123") == (123, None)
  {
    assert "https://github.com/user/repo/pull/123" == "https://github.com/user/repo" + PullMarker + "123";
    PullSuffixOf("https://github.com/user/repo", "123");
    assert DecimalValue("123") == 123 by {
      assert "123"[..2] == "12" && "12"[..1] == "1";
    }
  }

  /** The second case of main_test.go: text that is not a pull-request URL gives -1 and an error. */
  lemma PrNumberFromInvalidInputTest()
    ensures PrNumberFromEnv("invalid input") == (-1, Some(InvalidPullRequestError))
  {
    var bad := "invalid input";
    assert !IsDigit(bad[|bad| - 1]);
    assert TrailingDigits(bad) == [];
  }

  /**
   * Where the two versions part: for the same URL Rust hands on the digits
   * as written, while Go hands on their value, so leading zeros are lost.
   */
  lemma LeadingZerosDropped()
    ensures PrNumberFromEnv("https://github.com/user/repo/pull/0042") == (42, None)
    ensures CircleGhTee.NumberFromCiPullRequest("https://github.com/user/repo/pull/0042") == Ok("0042")
  {
    assert "https://github.com/user/repo/pull/0042" == "https://github.com/user/repo" + PullMarker + "0042";
    PullSuffixOf("https://github.com/user/repo", "0042");
    assert DecimalValue("0042") == 42 by {
      assert "0042"[..3] == "004" && "004"[..2] == "00" && "00"[..1] == "0";
    }
  }

  /**
   * On a URL whose digits have no superfluous leading zero and fit in an
   * `int`, the two versions agree: Go's number, rendered, is Rust's string.
   */
  lemma PrNumberAgreesWithRust(url: string, d: string)
    requires CircleGhTee.NumberFromCiPullRequest(url) == Ok(d)
    requires Canonical(d) && DecimalValue(d) <= MaxInt
    ensures PrNumberFromEnv(url).1 == None
    ensures PrNumberFromEnv(url).0 >= 0 && NatToDecimal(PrNumberFromEnv(url).0) == d
  {
    DecimalCanonicalRoundTrip(d);
  }

  // ---------------------------------------------------------------------------
  // ANSI colour sequences

  const Esc: char := '\U{1B}'

  /** A character of the parameter list, `[0-9;]`. */
  predicate IsParamChar(c: char) {
    '0' <= c <= '9' || c == ';'
  }

  /** `e` is matched by `\x1b\[[0-9;]*[mK]` as a whole. */
  ghost predicate IsAnsiSequence(e: string) {
    |e| >= 3 && e[0] == Esc && e[1] == '['
    && (forall k :: 2 <= k < |e| - 1 ==> IsParamChar(e[k]))
    && (e[|e| - 1] == 'm' || e[|e| - 1] == 'K')
  }

  /** The length of the run of parameter characters that starts `s`. */
  function ParamLength(s: string): (n: nat)
    ensures n <= |s|
    ensures forall k :: 0 <= k < n ==> IsParamChar(s[k])
    ensures n == |s| || !IsParamChar(s[n])
  {
    if s == [] || !IsParamChar(s[0]) then 0 else 1 + ParamLength(s[1..])
  }

  /** A run of parameter characters that is followed by something else is the whole leading run. */
  lemma {:induction false} ParamLengthExact(s: string, n: nat)
    requires n < |s| && !IsParamChar(s[n])
    requires forall k :: 0 <= k < n ==> IsParamChar(s[k])
    ensures ParamLength(s) == n
  {
    if n > 0 {
      ParamLengthExact(s[1..], n - 1);
    }
  }

  /** The length of the colour sequence that starts `s`, or 0 when none does. */
  function AnsiMatchLength(s: string): (n: nat)
    ensures n <= |s|
    ensures n > 0 ==> IsAnsiSequence(s[..n])
    ensures (|s| == 0 || s[0] != Esc) ==> n == 0
  {
    if |s| >= 3 && s[0] == Esc && s[1] == '[' then
      var n := 2 + ParamLength(s[2..]);
      if n < |s| && (s[n] == 'm' || s[n] == 'K') then
        assert forall j :: 0 <= j < n - 2 ==> s[2..][j] == s[..n + 1][j + 2];
        n + 1
      else 0
    else 0
  }

  /**
   * At most one length can match: the pattern's only choice is where
   * `[0-9;]*` stops, and `m` and `K` are not parameter characters.
   */
  lemma AnsiMatchUnique(s: string, k: nat)
    requires 0 < k <= |s| && IsAnsiSequence(s[..k])
    ensures AnsiMatchLength(s) == k
  {
    assert s[..k][k - 1] == s[2..][k - 3];
    assert forall j :: 0 <= j < k - 3 ==> s[2..][j] == s[..k][j + 2];
    ParamLengthExact(s[2..], k - 3);
  }

  /**
   * `removeAnsiColor`: scanning from the left, each colour sequence is
   * deleted and every other character is kept, in order; the scan goes on
   * after the end of a deleted sequence.
   */
  function RemoveAnsiColor(s: string): (r: string)
    decreases |s|
    ensures |r| <= |s|
    ensures Esc !in s ==> r == s
  {
    if s == [] then []
    else
      var n := AnsiMatchLength(s);
      if n > 0 then RemoveAnsiColor(s[n..])
      else
        assert Esc !in s ==> Esc !in s[1..];
        [s[0]] + RemoveAnsiColor(s[1..])
  }

  /** A first character other than ESC is kept. */
  lemma PlainCharKept(c: char, u: string)
    requires c != Esc
    ensures RemoveAnsiColor([c] + u) == [c] + RemoveAnsiColor(u)
  {
    var s := [c] + u;
    assert s[0] == c && s[1..] == u;
  }

  lemma ConsAppend(p: string, r: string)
    requires p != []
    ensures [p[0]] + (p[1..] + r) == p + r
  {
    assert p == [p[0]] + p[1..];
  }

  /** Text without ESC in front of the rest is kept as it is. */
  lemma {:induction false} EscFreePrefixKept(p: string, t: string)
    requires Esc !in p
    ensures RemoveAnsiColor(p + t) == p + RemoveAnsiColor(t)
  {
    if p == [] {
      assert p + t == t;
    } else {
      var rest := p[1..];
      assert p + t == [p[0]] + (rest + t);
      assert Esc !in rest by {
        assert forall c :: c in rest ==> c in p;
      }
      PlainCharKept(p[0], rest + t);
      EscFreePrefixKept(rest, t);
      ConsAppend(p, RemoveAnsiColor(t));
    }
  }

  /** A colour sequence at the front is deleted and the scan resumes right after it. */
  lemma SequenceDeleted(e: string, t: string)
    requires IsAnsiSequence(e)
    ensures RemoveAnsiColor(e + t) == RemoveAnsiColor(t)
  {
    assert (e + t)[..|e|] == e;
    assert (e + t)[|e|..] == t;
    AnsiMatchUnique(e + t, |e|);
  }

  /** Plain text, a colour sequence, then anything: the plain text stays and the sequence goes. */
  lemma SegmentCleaned(p: string, e: string, t: string)
    requires Esc !in p && IsAnsiSequence(e)
    ensures RemoveAnsiColor(p + e + t) == p + RemoveAnsiColor(t)
  {
    assert p + e + t == p + (e + t);
    EscFreePrefixKept(p, e + t);
    SequenceDeleted(e, t);
  }

  /**
   * An ESC that starts no colour sequence (a lone ESC, or one followed by
   * `[2J`, say) is kept, and the scan goes on with the next character.
   */
  lemma StrayEscKept(t: string)
    requires forall k :: 0 < k <= |t| + 1 ==> !IsAnsiSequence(([Esc] + t)[..k])
    ensures RemoveAnsiColor([Esc] + t) == [Esc] + RemoveAnsiColor(t)
  {
    var s := [Esc] + t;
    var n := AnsiMatchLength(s);
    assert n == 0;
    assert s[1..] == t;
  }

  /**
   * Removal is not idempotent: deleting the inner sequence of
   * ESC [ ESC [ m m  joins the outer ESC [ and the final m into a new one.
   */
  lemma RemovalNotIdempotent()
    ensures RemoveAnsiColor([Esc, '[', Esc, '[', 'm', 'm']) == [Esc, '[', 'm']
    ensures RemoveAnsiColor(RemoveAnsiColor([Esc, '[', Esc, '[', 'm', 'm'])) == []
  {
    var s: string := [Esc, '[', Esc, '[', 'm', 'm'];
    assert ParamLength(s[2..]) == 0;
    assert AnsiMatchLength(s) == 0;
    assert RemoveAnsiColor(s) == [Esc] + RemoveAnsiColor(s[1..]);
    assert AnsiMatchLength(s[1..]) == 0;
    assert RemoveAnsiColor(s[1..]) == ['['] + RemoveAnsiColor(s[2..]);
    var inner := s[2..];
    assert inner == [Esc, '[', 'm', 'm'];
    assert IsAnsiSequence(inner[..3]);
    assert AnsiMatchLength(inner) == 3;
    assert inner[3..] == ['m'];
    assert AnsiMatchLength(['m']) == 0;
    assert RemoveAnsiColor(['m']) == ['m'] + RemoveAnsiColor([]);
    assert RemoveAnsiColor(inner) == ['m'];
    var once: string := [Esc, '[', 'm'];
    assert IsAnsiSequence(once[..3]);
    assert AnsiMatchLength(once) == 3;
    assert once[3..] == [];
  }

  // ---------------------------------------------------------------------------
  // Templates (text/template syntax)

  /** defaultExitZeroTemplate; unlike the Rust default it has an empty line before the fence. */
  const DefaultExitZeroTemplate :=
    ":white_check_mark: `{{.FullCmd}}` exited with `{{.ExitStatus}}`.\n\n```\n{{.Result}}\n```"

  const DefaultExitNonZeroTemplate :=
    ":no_entry_sign: `{{.FullCmd}}` exited with `{{.ExitStatus}}`.\n```\n{{.Result}}\n```"

  /** The option when it was given a non-empty value, the default otherwise. */
  function TemplateOrDefault(option: string, default: string): (r: string)
    ensures option != [] ==> r == option
    ensures option == [] ==> r == default
    ensures default != [] ==> r != []
  {
    if option != "" then option else default
  }

  /** The template `circleGhTee` parses: the exit-zero one exactly when the status is 0. */
  function SelectTemplate(exitStatus: int, exitZeroTemplate: string, exitNonZeroTemplate: string): (r: string)
    ensures exitStatus == 0 ==> r == exitZeroTemplate
    ensures exitStatus != 0 ==> r == exitNonZeroTemplate
  {
    if exitStatus == 0 then exitZeroTemplate else exitNonZeroTemplate
  }

  /**
   * The template `main` hands over and `circleGhTee` picks is never empty,
   * and is the user's template when one was given for that outcome.
   */
  lemma ChosenTemplate(exitStatus: int, exitZeroOption: string, exitNonZeroOption: string)
    ensures var t := SelectTemplate(exitStatus,
                                    TemplateOrDefault(exitZeroOption, DefaultExitZeroTemplate),
                                    TemplateOrDefault(exitNonZeroOption, DefaultExitNonZeroTemplate));
            && t != []
            && (exitStatus == 0 && exitZeroOption != [] ==> t == exitZeroOption)
            && (exitStatus != 0 && exitNonZeroOption != [] ==> t == exitNonZeroOption)
            && (exitStatus == 0 && exitZeroOption == [] ==> t == DefaultExitZeroTemplate)
            && (exitStatus != 0 && exitNonZeroOption == [] ==> t == DefaultExitNonZeroTemplate)
  {
  }

  /** Go picks the template by the same test as Rust's `build_comment`. */
  lemma SelectionAgreesWithRust(cr: CircleGhTee.CommandResult, exitZeroTemplate: string, exitNonZeroTemplate: string)
    ensures CircleGhTee.BuildComment(exitZeroTemplate, exitNonZeroTemplate, cr)
         == CircleGhTee.ExpandTemplateVariables(SelectTemplate(cr.exitStatus, exitZeroTemplate, exitNonZeroTemplate), cr)
  {
  }
}
