/**
 * The pure core of the Rust library (src/lib.rs): the display string of the
 * command, comment templates and their expansion, the environment's
 * validation, pull-request number resolution and the comment API URL.
 * Process spawning, environment variables, git and HTTP stay outside; their
 * results enter here as parameters.
 */
module CircleGhTee {
  import opened Wrappers
  import opened Text
  import opened Patterns

  // ---------------------------------------------------------------------------
  // Templates

  const FullCommandVar := "{{full_command}}"
  const ResultVar := "{{result}}"
  const ExitStatusVar := "{{exit_status}}"

  // The literal text of the default templates around their placeholders.
  const ZeroHead := ":white_check_mark: "
  const ZeroMid := " exited with `0`.\n```"
  const NonZeroHead := ":no_entry_sign: "
  const NonZeroMid := " exited with "
  const NonZeroFence := ".\n```"
  const Fence := "```"

  /**
   * DEFAULT_EXIT_ZERO, that is
   *   :white_check_mark: `{{full_command}}` exited with `0`.
   *   ```
   *   {{result}}
   *   ```
   * (the exit status is written as a literal `0`).
   */
  const DefaultExitZero := ZeroHead + "`" + FullCommandVar + "`" + ZeroMid + "\n" + ResultVar + "\n" + Fence

  /**
   * DEFAULT_EXIT_NON_ZERO, that is
   *   :no_entry_sign: `{{full_command}}` exited with `{{exit_status}}`.
   *   ```
   *   {{result}}
   *   ```
   */
  const DefaultExitNonZero :=
    NonZeroHead + "`" + FullCommandVar + "`" + NonZeroMid + "`" + ExitStatusVar + "`" + NonZeroFence
    + "\n" + ResultVar + "\n" + Fence

  /** Rust's `i32`, the type of `exit_status`. */
  type Int32 = x: int | -0x8000_0000 <= x < 0x8000_0000

  /** The outcome of running the command, as the comment shows it. */
  datatype CommandResult = CommandResult(fullCommand: string, result: string, exitStatus: Int32)

  /** The fold of `CommandResult::new`: each argument is appended after one space. */
  function AppendArgs(acc: string, args: seq<string>): (r: string)
    decreases |args|
    ensures r == acc + (if args == [] then "" else " " + Join(args, " "))
  {
    if args == [] then acc
    else AppendArgs(acc + " " + args[0], args[1..])
  }

  /**
   * `CommandResult::new`, with the exit code and the decoded output given.
   * The full command is the name alone when there are no arguments (no
   * trailing space), and otherwise the name and the arguments separated by
   * single spaces, unquoted.
   */
  function NewCommandResult(commandName: string, args: seq<string>, exitStatus: Int32, output: string): (r: CommandResult)
    ensures args == [] ==> r.fullCommand == commandName
    ensures args != [] ==> r.fullCommand == commandName + " " + Join(args, " ")
    ensures r.result == output && r.exitStatus == exitStatus
  {
    CommandResult(AppendArgs(commandName, args), output, exitStatus)
  }

  /**
   * `expand_template_variables`: three replace-alls, chained in this order,
   * so placeholder text carried in by an earlier value is expanded by a
   * later step.
   */
  function ExpandTemplateVariables(template: string, cr: CommandResult): (r: string)
    ensures !Contains(template, FullCommandVar) && !Contains(template, ResultVar) && !Contains(template, ExitStatusVar)
            ==> r == template
  {
    assert !Contains(template, FullCommandVar) && !Contains(template, ResultVar) && !Contains(template, ExitStatusVar)
           ==> ReplaceAll(ReplaceAll(ReplaceAll(template, FullCommandVar, cr.fullCommand), ResultVar, cr.result),
                          ExitStatusVar, IntToDecimal(cr.exitStatus)) == template
    by {
      if !Contains(template, FullCommandVar) && !Contains(template, ResultVar) && !Contains(template, ExitStatusVar) {
        ReplaceAllAbsent(template, FullCommandVar, cr.fullCommand);
        ReplaceAllAbsent(template, ResultVar, cr.result);
        ReplaceAllAbsent(template, ExitStatusVar, IntToDecimal(cr.exitStatus));
      }
    }
    var withCommand := ReplaceAll(template, FullCommandVar, cr.fullCommand);
    var withResult := ReplaceAll(withCommand, ResultVar, cr.result);
    ReplaceAll(withResult, ExitStatusVar, IntToDecimal(cr.exitStatus))
  }

  /** `build_comment`: the exit-zero template exactly when the exit status is 0. */
  function BuildComment(exitZeroTemplate: string, exitNonZeroTemplate: string, cr: CommandResult): (r: string)
    ensures cr.exitStatus == 0 ==> r == ExpandTemplateVariables(exitZeroTemplate, cr)
    ensures cr.exitStatus != 0 ==> r == ExpandTemplateVariables(exitNonZeroTemplate, cr)
  {
    if cr.exitStatus == 0 then ExpandTemplateVariables(exitZeroTemplate, cr)
    else ExpandTemplateVariables(exitNonZeroTemplate, cr)
  }

  /** Two opening braces, then text without a brace, a backquote or a newline. */
  predicate PlaceholderShaped(pat: string) {
    |pat| >= 3 && pat[0] == '{' && pat[1] == '{' && '{' !in pat[2..] && '`' !in pat && '\n' !in pat
  }

  lemma PlaceholdersShaped()
    ensures PlaceholderShaped(FullCommandVar) && PlaceholderShaped(ResultVar) && PlaceholderShaped(ExitStatusVar)
  {
  }

  /** A placeholder-shaped pattern cannot overlap itself. */
  lemma ShapedBorderFree(pat: string)
    requires PlaceholderShaped(pat)
    ensures BorderFree(pat)
  {
    forall k | 0 < k < |pat| ensures pat[k..] != pat[..|pat| - k] {
      if k == 1 {
        assert pat[k..][1] == pat[2] && pat[2] in pat[2..];
        assert pat[k..][1] != pat[..|pat| - k][1];
      } else {
        assert pat[k..][0] == pat[2..][k - 2];
        assert pat[k..][0] != pat[..|pat| - k][0];
      }
    }
  }

  /** No placeholder has a proper prefix that is also its suffix, so occurrences never overlap. */
  lemma PlaceholdersBorderFree()
    ensures BorderFree(FullCommandVar) && BorderFree(ResultVar) && BorderFree(ExitStatusVar)
  {
    PlaceholdersShaped();
    ShapedBorderFree(FullCommandVar);
    ShapedBorderFree(ResultVar);
    ShapedBorderFree(ExitStatusVar);
  }

  /** How each replacement treats the placeholders of the other steps. */
  lemma PlaceholderCrossFacts(full: string, out: string)
    ensures ReplaceAll(ResultVar, FullCommandVar, full) == ResultVar
    ensures ReplaceAll(ExitStatusVar, FullCommandVar, full) == ExitStatusVar
    ensures ReplaceAll(ExitStatusVar, ResultVar, out) == ExitStatusVar
  {
    MissingCharExcludes(ExitStatusVar, ResultVar, 'r');
    ReplaceAllAbsent(ExitStatusVar, ResultVar, out);
  }

  /**
   * The replacements are chained: a template that is just `{{full_command}}`
   * yields the full command with its own `{{result}}` and `{{exit_status}}`
   * text expanded by the later steps, and one that is just `{{result}}`
   * yields the output with its `{{exit_status}}` text expanded.
   */
  lemma ExpansionIsChained(cr: CommandResult)
    ensures ExpandTemplateVariables(FullCommandVar, cr)
         == ReplaceAll(ReplaceAll(cr.fullCommand, ResultVar, cr.result), ExitStatusVar, IntToDecimal(cr.exitStatus))
    ensures ExpandTemplateVariables(ResultVar, cr) == ReplaceAll(cr.result, ExitStatusVar, IntToDecimal(cr.exitStatus))
  {
    ReplaceAllSelf(FullCommandVar, cr.fullCommand);
    PlaceholderCrossFacts(cr.fullCommand, cr.result);
    ReplaceAllSelf(ResultVar, cr.result);
  }

  /** Two instances of the chaining: `{{result}}` in the command, `{{exit_status}}` in the output. */
  lemma ChainedExpansionExamples()
    ensures ExpandTemplateVariables(FullCommandVar, CommandResult(ResultVar, "ok", 0)) == "ok"
    ensures ExpandTemplateVariables(ResultVar, CommandResult("true", ExitStatusVar, 7)) == "7"
  {
    ExpansionIsChained(CommandResult(ResultVar, "ok", 0));
    ExpansionIsChained(CommandResult("true", ExitStatusVar, 7));
    ReplaceAllSelf(ResultVar, "ok");
    assert |"ok"| < |ExitStatusVar|;
    assert IntToDecimal(7) == "7";
    ReplaceAllSelf(ExitStatusVar, "7");
  }

  /**
   * Replace-all on text of the shape  a `b` c NEWLINE d NEWLINE e  works piece
   * by piece when the pattern has neither a backquote nor a newline in it.
   */
  lemma ReplaceAllSuccessShape(a: string, b: string, c: string, d: string, e: string, pat: string, rep: string)
    requires |pat| > 1 && '`' !in pat && '\n' !in pat
    ensures ReplaceAll(a + "`" + b + "`" + c + "\n" + d + "\n" + e, pat, rep)
         == ReplaceAll(a, pat, rep) + "`" + ReplaceAll(b, pat, rep) + "`" + ReplaceAll(c, pat, rep)
            + "\n" + ReplaceAll(d, pat, rep) + "\n" + ReplaceAll(e, pat, rep)
  {
    assert ReplaceAll("`", pat, rep) == "`" && ReplaceAll("\n", pat, rep) == "\n";
    var s1 := a + "`";
    var s2 := s1 + b;
    var s3 := s2 + "`";
    var s4 := s3 + c;
    var s5 := s4 + "\n";
    var s6 := s5 + d;
    var s7 := s6 + "\n";
    ReplaceAllSplitAt(s7, e, pat, rep);
    ReplaceAllSplitAt(s6, "\n", pat, rep);
    ReplaceAllSplitAt(s5, d, pat, rep);
    ReplaceAllSplitAt(s4, "\n", pat, rep);
    ReplaceAllSplitAt(s3, c, pat, rep);
    ReplaceAllSplitAt(s2, "`", pat, rep);
    ReplaceAllSplitAt(s1, b, pat, rep);
    ReplaceAllSplitAt(a, "`", pat, rep);
  }

  /**
   * Replace-all on text of the shape  a `b` c `d` e NEWLINE f NEWLINE g  works
   * piece by piece under the same condition.
   */
  lemma ReplaceAllFailureShape(a: string, b: string, c: string, d: string, e: string, f: string, g: string,
                               pat: string, rep: string)
    requires |pat| > 1 && '`' !in pat && '\n' !in pat
    ensures ReplaceAll(a + "`" + b + "`" + c + "`" + d + "`" + e + "\n" + f + "\n" + g, pat, rep)
         == ReplaceAll(a, pat, rep) + "`" + ReplaceAll(b, pat, rep) + "`" + ReplaceAll(c, pat, rep)
            + "`" + ReplaceAll(d, pat, rep) + "`" + ReplaceAll(e, pat, rep)
            + "\n" + ReplaceAll(f, pat, rep) + "\n" + ReplaceAll(g, pat, rep)
  {
    assert ReplaceAll("`", pat, rep) == "`" && ReplaceAll("\n", pat, rep) == "\n";
    var s1 := a + "`";
    var s2 := s1 + b;
    var s3 := s2 + "`";
    var s4 := s3 + c;
    var s5 := s4 + "`";
    var s6 := s5 + d;
    var s7 := s6 + "`";
    var s8 := s7 + e;
    var s9 := s8 + "\n";
    var s10 := s9 + f;
    var s11 := s10 + "\n";
    ReplaceAllSplitAt(s11, g, pat, rep);
    ReplaceAllSplitAt(s10, "\n", pat, rep);
    ReplaceAllSplitAt(s9, f, pat, rep);
    ReplaceAllSplitAt(s8, "\n", pat, rep);
    ReplaceAllSplitAt(s7, e, pat, rep);
    ReplaceAllSplitAt(s6, "`", pat, rep);
    ReplaceAllSplitAt(s5, d, pat, rep);
    ReplaceAllSplitAt(s4, "`", pat, rep);
    ReplaceAllSplitAt(s3, c, pat, rep);
    ReplaceAllSplitAt(s2, "`", pat, rep);
    ReplaceAllSplitAt(s1, b, pat, rep);
    ReplaceAllSplitAt(a, "`", pat, rep);
  }

  /** Literal text without `{` is left alone by the replacement of any placeholder. */
  lemma Untouched(lit: string, pat: string, rep: string)
    requires '{' !in lit && |pat| > 0 && pat[0] == '{'
    ensures ReplaceAll(lit, pat, rep) == lit
  {
    MissingCharExcludes(lit, pat, '{');
    ReplaceAllAbsent(lit, pat, rep);
  }

  /** The literal text of the default templates has no `{`. */
  lemma DefaultLiteralsBraceFree()
    ensures '{' !in ZeroHead && '{' !in ZeroMid && '{' !in Fence
    ensures '{' !in NonZeroHead && '{' !in NonZeroMid && '{' !in NonZeroFence
  {
  }

  /** The success shape  a `{{full_command}}` c NEWLINE {{result}} NEWLINE e, first step. */
  lemma SuccessCommandStep(a: string, c: string, e: string, full: string)
    requires '{' !in a && '{' !in c && '{' !in e
    ensures ReplaceAll(a + "`" + FullCommandVar + "`" + c + "\n" + ResultVar + "\n" + e, FullCommandVar, full)
         == a + "`" + full + "`" + c + "\n" + ResultVar + "\n" + e
  {
    Untouched(a, FullCommandVar, full);
    Untouched(c, FullCommandVar, full);
    Untouched(e, FullCommandVar, full);
    ReplaceAllSelf(FullCommandVar, full);
    PlaceholderCrossFacts(full, []);
    PlaceholdersShaped();
    ReplaceAllSuccessShape(a, FullCommandVar, c, ResultVar, e, FullCommandVar, full);
  }

  /**
   * Second step on the success shape: `{{result}}` becomes the output, and
   * any `{{result}}` the full command brought in is replaced as well.
   */
  lemma SuccessResultStep(a: string, c: string, e: string, full: string, out: string)
    requires '{' !in a && '{' !in c && '{' !in e
    ensures ReplaceAll(a + "`" + full + "`" + c + "\n" + ResultVar + "\n" + e, ResultVar, out)
         == a + "`" + ReplaceAll(full, ResultVar, out) + "`" + c + "\n" + out + "\n" + e
  {
    Untouched(a, ResultVar, out);
    Untouched(c, ResultVar, out);
    Untouched(e, ResultVar, out);
    ReplaceAllSelf(ResultVar, out);
    PlaceholdersShaped();
    ReplaceAllSuccessShape(a, full, c, ResultVar, e, ResultVar, out);
  }

  /**
   * Third step on the success shape: the template itself has no
   * `{{exit_status}}` left, so only occurrences inside the inserted values
   * are replaced.
   */
  lemma SuccessStatusStep(a: string, c: string, e: string, full: string, out: string, status: string)
    requires '{' !in a && '{' !in c && '{' !in e
    ensures ReplaceAll(a + "`" + full + "`" + c + "\n" + out + "\n" + e, ExitStatusVar, status)
         == a + "`" + ReplaceAll(full, ExitStatusVar, status) + "`" + c + "\n"
            + ReplaceAll(out, ExitStatusVar, status) + "\n" + e
  {
    Untouched(a, ExitStatusVar, status);
    Untouched(c, ExitStatusVar, status);
    Untouched(e, ExitStatusVar, status);
    PlaceholdersShaped();
    ReplaceAllSuccessShape(a, full, c, out, e, ExitStatusVar, status);
  }

  /**
   * With the default templates and an exit status of 0, the comment is the
   * success line naming the full command, then the output in a fenced block.
   * Placeholder text inside the full command or the output is expanded by
   * the later steps of the chain, as `ExpansionIsChained` describes.
   */
  lemma DefaultExitZeroComment(cr: CommandResult)
    requires cr.exitStatus == 0
    ensures BuildComment(DefaultExitZero, DefaultExitNonZero, cr)
         == ZeroHead + "`"
            + ReplaceAll(ReplaceAll(cr.fullCommand, ResultVar, cr.result), ExitStatusVar, IntToDecimal(cr.exitStatus))
            + "`" + ZeroMid + "\n"
            + ReplaceAll(cr.result, ExitStatusVar, IntToDecimal(cr.exitStatus))
            + "\n" + Fence
  {
    var full, out, st := cr.fullCommand, cr.result, IntToDecimal(cr.exitStatus);
    DefaultLiteralsBraceFree();
    SuccessCommandStep(ZeroHead, ZeroMid, Fence, full);
    SuccessResultStep(ZeroHead, ZeroMid, Fence, full, out);
    SuccessStatusStep(ZeroHead, ZeroMid, Fence, ReplaceAll(full, ResultVar, out), out, st);
  }

  /**
   * The usual case of `DefaultExitZeroComment`: when neither value carries
   * placeholder text of a later step, both appear verbatim.
   */
  lemma DefaultExitZeroCommentPlain(cr: CommandResult)
    requires cr.exitStatus == 0
    requires !Contains(cr.fullCommand, ResultVar) && !Contains(cr.fullCommand, ExitStatusVar)
    requires !Contains(cr.result, ExitStatusVar)
    ensures BuildComment(DefaultExitZero, DefaultExitNonZero, cr)
         == ZeroHead + "`" + cr.fullCommand + "`" + ZeroMid + "\n" + cr.result + "\n" + Fence
  {
    var st := IntToDecimal(cr.exitStatus);
    DefaultExitZeroComment(cr);
    ReplaceAllAbsent(cr.fullCommand, ResultVar, cr.result);
    ReplaceAllAbsent(cr.fullCommand, ExitStatusVar, st);
    ReplaceAllAbsent(cr.result, ExitStatusVar, st);
  }

  /**
   * The failure shape  a `{{full_command}}` c `{{exit_status}}` e NEWLINE
   * {{result}} NEWLINE g, first step.
   */
  lemma FailureCommandStep(a: string, c: string, e: string, g: string, full: string)
    requires '{' !in a && '{' !in c && '{' !in e && '{' !in g
    ensures ReplaceAll(a + "`" + FullCommandVar + "`" + c + "`" + ExitStatusVar + "`" + e
                       + "\n" + ResultVar + "\n" + g, FullCommandVar, full)
         == a + "`" + full + "`" + c + "`" + ExitStatusVar + "`" + e + "\n" + ResultVar + "\n" + g
  {
    Untouched(a, FullCommandVar, full);
    Untouched(c, FullCommandVar, full);
    Untouched(e, FullCommandVar, full);
    Untouched(g, FullCommandVar, full);
    ReplaceAllSelf(FullCommandVar, full);
    PlaceholderCrossFacts(full, []);
    PlaceholdersShaped();
    ReplaceAllFailureShape(a, FullCommandVar, c, ExitStatusVar, e, ResultVar, g, FullCommandVar, full);
  }

  /**
   * Second step on the failure shape: `{{result}}` becomes the output, and
   * any `{{result}}` the full command brought in is replaced as well.
   */
  lemma FailureResultStep(a: string, c: string, e: string, g: string, full: string, out: string)
    requires '{' !in a && '{' !in c && '{' !in e && '{' !in g
    ensures ReplaceAll(a + "`" + full + "`" + c + "`" + ExitStatusVar + "`" + e
                       + "\n" + ResultVar + "\n" + g, ResultVar, out)
         == a + "`" + ReplaceAll(full, ResultVar, out) + "`" + c + "`" + ExitStatusVar + "`" + e
            + "\n" + out + "\n" + g
  {
    Untouched(a, ResultVar, out);
    Untouched(c, ResultVar, out);
    Untouched(e, ResultVar, out);
    Untouched(g, ResultVar, out);
    PlaceholderCrossFacts([], out);
    PlaceholdersShaped();
    ReplaceAllSelf(ResultVar, out);
    ReplaceAllFailureShape(a, full, c, ExitStatusVar, e, ResultVar, g, ResultVar, out);
  }

  /**
   * Third step on the failure shape: `{{exit_status}}` becomes the status,
   * in the template and inside the inserted values alike.
   */
  lemma FailureStatusStep(a: string, c: string, e: string, g: string, full: string, out: string, status: string)
    requires '{' !in a && '{' !in c && '{' !in e && '{' !in g
    ensures ReplaceAll(a + "`" + full + "`" + c + "`" + ExitStatusVar + "`" + e
                       + "\n" + out + "\n" + g, ExitStatusVar, status)
         == a + "`" + ReplaceAll(full, ExitStatusVar, status) + "`" + c + "`" + status + "`" + e
            + "\n" + ReplaceAll(out, ExitStatusVar, status) + "\n" + g
  {
    Untouched(a, ExitStatusVar, status);
    Untouched(c, ExitStatusVar, status);
    Untouched(e, ExitStatusVar, status);
    Untouched(g, ExitStatusVar, status);
    ReplaceAllSelf(ExitStatusVar, status);
    PlaceholdersShaped();
    ReplaceAllFailureShape(a, full, c, ExitStatusVar, e, out, g, ExitStatusVar, status);
  }

  /**
   * With the default templates and a non-zero exit status, the comment is the
   * failure line naming the full command and the status in decimal, then the
   * output in a fenced block; placeholder text inside the values is expanded
   * by the later steps of the chain.
   */
  lemma DefaultExitNonZeroComment(cr: CommandResult)
    requires cr.exitStatus != 0
    ensures BuildComment(DefaultExitZero, DefaultExitNonZero, cr)
         == NonZeroHead + "`"
            + ReplaceAll(ReplaceAll(cr.fullCommand, ResultVar, cr.result), ExitStatusVar, IntToDecimal(cr.exitStatus))
            + "`" + NonZeroMid + "`" + IntToDecimal(cr.exitStatus) + "`" + NonZeroFence + "\n"
            + ReplaceAll(cr.result, ExitStatusVar, IntToDecimal(cr.exitStatus))
            + "\n" + Fence
  {
    var full, out, st := cr.fullCommand, cr.result, IntToDecimal(cr.exitStatus);
    DefaultLiteralsBraceFree();
    FailureCommandStep(NonZeroHead, NonZeroMid, NonZeroFence, Fence, full);
    FailureResultStep(NonZeroHead, NonZeroMid, NonZeroFence, Fence, full, out);
    FailureStatusStep(NonZeroHead, NonZeroMid, NonZeroFence, Fence, ReplaceAll(full, ResultVar, out), out, st);
  }

  /**
   * The usual case of `DefaultExitNonZeroComment`: when neither value carries
   * placeholder text of a later step, both appear verbatim.
   */
  lemma DefaultExitNonZeroCommentPlain(cr: CommandResult)
    requires cr.exitStatus != 0
    requires !Contains(cr.fullCommand, ResultVar) && !Contains(cr.fullCommand, ExitStatusVar)
    requires !Contains(cr.result, ExitStatusVar)
    ensures BuildComment(DefaultExitZero, DefaultExitNonZero, cr)
         == NonZeroHead + "`" + cr.fullCommand + "`" + NonZeroMid + "`" + IntToDecimal(cr.exitStatus) + "`"
            + NonZeroFence + "\n" + cr.result + "\n" + Fence
  {
    var st := IntToDecimal(cr.exitStatus);
    DefaultExitNonZeroComment(cr);
    ReplaceAllAbsent(cr.fullCommand, ResultVar, cr.result);
    ReplaceAllAbsent(cr.fullCommand, ExitStatusVar, st);
    ReplaceAllAbsent(cr.result, ExitStatusVar, st);
  }

  // ---------------------------------------------------------------------------
  // Environment and pull-request number

  /** What `Environment::load` gathers; the last two fields are possibly empty. */
  datatype Environment = Environment(
    githubAccessToken: string,
    username: string,
    reponame: string,
    pullRequestUrl: string,
    lastCommitComment: string)

  const NoPullRequestError := "Failed to get the Pull Request number"
  const CiPullRequestError := "Failed to get Pull Request number from CI_PULL_REQUEST: "
  const LastCommitCommentError := "Failed to get Pull Request number from last commit comment: "

  /**
   * The closing check of `Environment::load`, with the variables and the git
   * output already read: it fails exactly when both pull-request sources are
   * empty and otherwise keeps every value as given.
   */
  function LoadEnvironment(
    githubAccessToken: string, username: string, reponame: string,
    pullRequestUrl: string, lastCommitComment: string): (r: Result<Environment>)
    ensures r.Err? <==> pullRequestUrl == [] && lastCommitComment == []
    ensures r.Err? ==> r.error == NoPullRequestError
    ensures r.Ok? ==>
              && r.value.githubAccessToken == githubAccessToken
              && r.value.username == username && r.value.reponame == reponame
              && r.value.pullRequestUrl == pullRequestUrl && r.value.lastCommitComment == lastCommitComment
  {
    if |pullRequestUrl| == 0 && |lastCommitComment| == 0 then Err(NoPullRequestError)
    else Ok(Environment(githubAccessToken, username, reponame, pullRequestUrl, lastCommitComment))
  }

  /** `get_pull_request_number_from_ci_pull_request`. */
  function NumberFromCiPullRequest(url: string): (r: Result<string>)
    ensures forall d :: r == Ok(d) <==> PullSuffixCapture(url, d)
    ensures r.Err? ==> r.error == CiPullRequestError + url
  {
    match PullNumberSuffix(url)
    case Some(d) => Ok(d)
    case None => Err(CiPullRequestError + url)
  }

  /** `get_pull_request_number_from_last_commit_comment`. */
  function NumberFromLastCommitComment(msg: string): (r: Result<string>)
    ensures forall d :: r == Ok(d) <==> MergePrefixCapture(msg, d)
    ensures r.Err? ==> r.error == LastCommitCommentError + msg
  {
    match MergeNumberPrefix(msg)
    case Some(d) => Ok(d)
    case None => Err(LastCommitCommentError + msg)
  }

  /**
   * `get_pull_request_number`: a non-empty URL is the only source consulted,
   * even when it does not match; otherwise the commit subject is.
   */
  function PullRequestNumber(env: Environment): (r: Result<string>)
    ensures env.pullRequestUrl != [] ==>
      (forall d :: r == Ok(d) <==> PullSuffixCapture(env.pullRequestUrl, d))
      && (r.Err? ==> r.error == CiPullRequestError + env.pullRequestUrl)
    ensures env.pullRequestUrl == [] ==>
      (forall d :: r == Ok(d) <==> MergePrefixCapture(env.lastCommitComment, d))
      && (r.Err? ==> r.error == LastCommitCommentError + env.lastCommitComment)
  {
    if |env.pullRequestUrl| > 0 then NumberFromCiPullRequest(env.pullRequestUrl)
    else NumberFromLastCommitComment(env.lastCommitComment)
  }

  /**
   * `get_pull_request_comment_api_url`: the issue-comments endpoint of the
   * resolved pull request, or the resolver's error unchanged.
   */
  function CommentApiUrl(env: Environment): (r: Result<string>)
    ensures r.Ok? <==> PullRequestNumber(env).Ok?
    ensures r.Ok? ==> r.value == "https://api.github.com/repos/" + env.username + "/" + env.reponame
                                 + "/issues/" + PullRequestNumber(env).value + "/comments"
    ensures r.Err? ==> r.error == PullRequestNumber(env).error
  {
    match PullRequestNumber(env)
    case Ok(number) =>
      Ok("https://api.github.com/repos/" + env.username + "/" + env.reponame + "/issues/" + number + "/comments")
    case Err(e) => Err(e)
  }

  /**
   * The URL source keeps the digits byte for byte: whatever the prefix, a URL
   * ending in `/pull/` and digits resolves to exactly those digits, leading
   * zeros included, and the commit subject plays no part.
   */
  lemma UrlDigitsKept(env: Environment, prefix: string, digits: string)
    requires |digits| > 0 && AllDigits(digits)
    requires env.pullRequestUrl == prefix + PullMarker + digits
    ensures PullRequestNumber(env) == Ok(digits)
  {
    var url := env.pullRequestUrl;
    assert url[|url| - |digits| - |PullMarker|..] == PullMarker + digits;
  }

  /** A non-empty URL that does not match is an error even when the commit subject would match. */
  lemma MalformedUrlWins(env: Environment)
    requires env.pullRequestUrl != [] && forall d :: !PullSuffixCapture(env.pullRequestUrl, d)
    ensures PullRequestNumber(env) == Err(CiPullRequestError + env.pullRequestUrl)
  {
  }

  /** An instance: a repository URL with no `/pull/` part, and a subject that would match. */
  lemma MalformedUrlWinsExample()
    ensures PullRequestNumber(Environment("token", "user", "repo", "https://github.com/user/repo",
                                          "Merge pull request #1 from a/b"))
         == Err(CiPullRequestError + "https://github.com/user/repo")
  {
    var url := "https://github.com/user/repo";
    forall d ensures !PullSuffixCapture(url, d) {
      if |d| > 0 && |PullMarker| + |d| <= |url| {
        var n := |url| - |d| - |PullMarker|;
        assert url[n..][|PullMarker| + |d| - 1] == url[|url| - 1] == 'o';
        assert (PullMarker + d)[|PullMarker| + |d| - 1] == d[|d| - 1];
      }
    }
    MalformedUrlWins(Environment("token", "user", "repo", url, "Merge pull request #1 from a/b"));
  }


  lemma ApiUrlText()
    ensures "https://api.github.com/repos/" + "user" + "/" + "repo" + "/issues/" + "1234" + "/comments"
         == "https://api.github.com/repos/user/repo/issues/1234/comments"
    ensures "https://api.github.com/repos/" + "user" + "/" + "repo" + "/issues/" + "4321" + "/comments"
         == "https://api.github.com/repos/user/repo/issues/4321/comments"
  {
  }

  /** The test with a CI_PULL_REQUEST URL (src/lib.rs, first test). */
  lemma ApiUrlFromPullRequestUrl()
    ensures CommentApiUrl(Environment("token", "user", "repo", "https://github.com/user/repo/pull/1234", ""))
         == Ok("https://api.github.com/repos/user/repo/issues/1234/comments")
  {
    var env := Environment("token", "user", "repo", "https://github.com/user/repo/pull/1234", "");
    assert env.pullRequestUrl == "https://github.com/user/repo" + PullMarker + "1234";
    UrlDigitsKept(env, "https://github.com/user/repo", "1234");
    assert PullRequestNumber(env) == Ok("1234");
    ApiUrlText();
  }

  /** The test with a merge commit subject (src/lib.rs, second test). */
  lemma ApiUrlFromLastCommitComment()
    ensures CommentApiUrl(Environment("token", "user", "repo", "", "Merge pull request #4321 from test/branch"))
         == Ok("https://api.github.com/repos/user/repo/issues/4321/comments")
  {
    var msg := "Merge pull request #4321 from test/branch";
    assert msg == MergeMarker + "4321" + " from test/branch";
    assert msg[..|MergeMarker| + 4] == MergeMarker + "4321";
    assert MergePrefixCapture(msg, "4321");
    var env := Environment("token", "user", "repo", "", msg);
    assert PullRequestNumber(env) == Ok("4321");
    ApiUrlText();
  }

  /** The test with both sources empty (src/lib.rs, third test). */
  lemma ApiUrlWithoutSources()
    ensures CommentApiUrl(Environment("token", "user", "repo", "", ""))
         == Err("Failed to get Pull Request number from last commit comment: ")
  {
  }

  // ---------------------------------------------------------------------------
  // The commit subject as `Environment::load` reads it

  /**
   * What `git --no-pager log --pretty=format:"%s" -1` prints when it is
   * started directly rather than through a shell: the double quotes in the
   * format are not shell quotes, so they come out around the subject.
   * This is a statement about git's `format:` handling, not something
   * `src/lib.rs` itself computes; it is used only to state the quoted-subject
   * finding.
   */
  function GitLogSubject(subject: string): (r: string)
    ensures |r| == |subject| + 2 && r[0] == '"' && r[|r| - 1] == '"'
    ensures r[1..|r| - 1] == subject
  {
    "\"" + subject + "\""
  }

  /**
   * As read by `Environment::load`, the subject starts with a quote, so the
   * anchored commit pattern never matches it, whatever the subject says.
   */
  lemma QuotedSubjectNeverMatches(subject: string)
    ensures NumberFromLastCommitComment(GitLogSubject(subject)).Err?
  {
    var msg := GitLogSubject(subject);
    forall d ensures !MergePrefixCapture(msg, d) {
      if |MergeMarker| + |d| <= |msg| {
        assert msg[..|MergeMarker| + |d|][0] == '"';
        assert (MergeMarker + d)[0] == 'M';
      }
    }
  }

  /**
   * The intended behaviour, which the lib.rs tests exercise: an unquoted
   * merge subject resolves to the number it names when there is no URL.
   */
  lemma MergeSubjectResolves(env: Environment, n: nat, rest: string)
    requires rest == [] || !IsDigit(rest[0])
    requires env.pullRequestUrl == [] && env.lastCommitComment == MergeMarker + NatToDecimal(n) + rest
    ensures PullRequestNumber(env) == Ok(NatToDecimal(n))
  {
    var d := NatToDecimal(n);
    var msg := env.lastCommitComment;
    assert msg[..|MergeMarker| + |d|] == MergeMarker + d;
    assert |msg| > |MergeMarker| + |d| ==> msg[|MergeMarker| + |d|] == rest[0];
    assert MergePrefixCapture(msg, d);
  }
}
