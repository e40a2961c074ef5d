# circle-gh-tee, modelled in Dafny

circle-gh-tee runs a command in CI, echoes its output and posts the output as
a comment on the pull request being built. The repository holds two versions
of the tool:

- a Rust library with a small `main` (`src/lib.rs`, `src/main.rs`);
- an older Go program (`main.go`).

This project models the pure string logic under the plumbing of both. For the
Rust version that is:

- the full command's display string;
- the comment template for the exit status and its expansion;
- the closing check that loads the environment;
- the pull-request number, taken from the CI URL or from the last commit subject;
- the comment API URL.

For the Go version it is:

- `FullCmd`;
- the pull-request number parsed from `CI_PULL_REQUEST`;
- the removal of ANSI colour sequences from the output;
- the choice of comment template.

Files:

- `Wrappers.dfy`: `Option` and `Result`.
- `Text.dfy`: the string operations both versions use.
  - Rust's `str::replace`, as a replace-all of leftmost non-overlapping occurrences.
  - Go's `strings.Join`.
  - Digit runs.
  - Decimal rendering and its value.
- `Patterns.dfy`: hand-written recognizers for `/pull/(\d+)$` and `^Merge pull request #([0-9]+)`.
  - Each recognizer is characterised by a predicate stating what the capture group holds.
  - Each is proved to return the only capture there is.
- `CircleGhTee.dfy`: the Rust library (`src/lib.rs`).
- `GoMain.dfy`: the Go program (`main.go`), with lemmas comparing it to the Rust version.

Behaviour the model follows from the code:

- `expand_template_variables` chains three replace-alls in the order `{{full_command}}`, `{{result}}`, `{{exit_status}}`.
  - Placeholder text inside an inserted value is therefore expanded again by a later step.
  - `ExpansionIsChained` states this for every command result, and `ChainedExpansionExamples` gives two instances.
- The commit pattern is anchored only at the start. It captures the longest digit run after `Merge pull request #`, whatever follows: no ` from` is needed.
- Rust hands the pull-request number on as the digits written in the URL, leading zeros included. Go converts the digits with `strconv.Atoi`, so it drops leading zeros and fails with -1 beyond a 64-bit `int`.
- Go's `FullCmd` always puts a space after the command name. Rust's fold puts a space only before each argument, so a command without arguments differs by a trailing space.

## Model

| member | source | states |
|---|---|---|
| Text.ReplaceAll | src/lib.rs:89-94 | `str::replace`, a left-to-right scan replacing each occurrence; replacing the pattern by itself leaves any text unchanged (its other properties are the ReplaceAll lemmas below) |
| Text.ReplaceAllJoin | src/lib.rs:89-94 | when no proper prefix of the placeholder is also its suffix, replace-all turns `p0 PH p1 PH … pn` into `p0 v p1 v … pn`: every occurrence is replaced and nothing else changes |
| Text.ReplaceAllAbsent | src/lib.rs:89-94 | text without the pattern is returned unchanged |
| Text.ReplaceAllSplitAt | src/lib.rs:89-94 | replace-all distributes over a concatenation whose boundary touches a character the pattern does not contain |
| Text.IntToDecimal | src/lib.rs:93 | the `{}` rendering of an `i32`: canonical digits (no leading zero) whose value is the number when it is not negative, otherwise a minus sign and canonical digits whose value is its magnitude |
| Text.Join | main.go:50 | `strings.Join`: the first element comes first, and the length is the elements' total length plus one separator per gap |
| Text.DecimalRoundTrip | src/lib.rs:93 | reading back the decimal rendering of a natural number gives that number |
| Text.DecimalCanonicalRoundTrip | main.go:168 | a digit string without a superfluous leading zero is the rendering of its own value |
| Patterns.PullNumberSuffix | src/lib.rs:190-196 | a result is returned exactly when `/pull/(\d+)$` matches, and it is the one possible capture: the trailing digit run right after `/pull/` |
| Patterns.MergeNumberPrefix | src/lib.rs:210-213 | a result is returned exactly when the subject starts with `Merge pull request #` and a digit, and it is the maximal digit run after the marker |
| Patterns.PullSuffixOf | main.go:159 | any URL ending in `/pull/` and a digit run captures exactly that run |
| CircleGhTee.AppendArgs | src/lib.rs:239-241 | the fold appends `" " + arg` for each argument, giving the accumulator followed by a space and the arguments joined by spaces, or the accumulator alone when there are no arguments |
| CircleGhTee.NewCommandResult | src/lib.rs:234-249 | the full command is the name alone without arguments and the name, a space and the space-joined arguments otherwise; output and status are kept |
| CircleGhTee.BuildComment | src/lib.rs:73-85 | the exit-zero template is expanded exactly when the status is 0, the other one otherwise |
| CircleGhTee.ExpandTemplateVariables | src/lib.rs:87-95 | a template with none of the three placeholders comes back unchanged; what the expansion produces is stated by ExpansionIsChained and the DefaultExit*Comment lemmas |
| CircleGhTee.ExpansionIsChained | src/lib.rs:87-95 | for every command result, `{{full_command}}` expands to the full command with its own `{{result}}` and `{{exit_status}}` text expanded by the later steps, and `{{result}}` expands to the output with its `{{exit_status}}` text expanded |
| CircleGhTee.ChainedExpansionExamples | src/lib.rs:87-95 | a command `{{result}}` with output `ok` expands `{{full_command}}` to `ok`; an output `{{exit_status}}` with status 7 expands `{{result}}` to `7` |
| CircleGhTee.PlaceholdersBorderFree | src/lib.rs:89-92 | no placeholder overlaps itself, so the every-occurrence lemma applies to each of them |
| CircleGhTee.DefaultExitZeroComment | src/lib.rs:15-18 | for every command result with status 0, the default exit-zero template yields the success line naming the full command, then the output in a fenced block; placeholder text inside the command or the output is expanded by the later steps of the chain |
| CircleGhTee.DefaultExitZeroCommentPlain | src/lib.rs:15-18 | when the command and output carry no placeholder text of a later step, both appear verbatim in the exit-zero comment |
| CircleGhTee.DefaultExitNonZeroComment | src/lib.rs:19-23 | for every command result with a non-zero status, the default template yields the failure line naming the full command and the decimal status, then the output in a fenced block; placeholder text inside the values is expanded by the later steps |
| CircleGhTee.DefaultExitNonZeroCommentPlain | src/lib.rs:19-23 | when the command and output carry no placeholder text of a later step, both appear verbatim in the failure comment |
| CircleGhTee.LoadEnvironment | src/lib.rs:155-165 | loading fails, with "Failed to get the Pull Request number", exactly when both the URL and the commit subject are empty; otherwise every value is kept |
| CircleGhTee.NumberFromCiPullRequest | src/lib.rs:189-207 | `Ok(d)` exactly when `d` is the URL pattern's capture; otherwise the error message with the URL appended |
| CircleGhTee.NumberFromLastCommitComment | src/lib.rs:209-224 | `Ok(d)` exactly when `d` is the commit pattern's capture; otherwise the error message with the subject appended |
| CircleGhTee.PullRequestNumber | src/lib.rs:181-187 | a non-empty URL is the only source consulted; the commit subject is used only when the URL is empty |
| CircleGhTee.CommentApiUrl | src/lib.rs:168-179 | the issue-comments endpoint for user, repository and resolved number, or the resolver's error unchanged |
| CircleGhTee.UrlDigitsKept | src/lib.rs:189-207 | a URL ending in `/pull/` and digits resolves to exactly those digits, leading zeros included |
| CircleGhTee.MalformedUrlWins | src/lib.rs:181-187 | for every environment, a non-empty URL that the URL pattern does not match gives the URL error, whatever the commit subject says |
| CircleGhTee.MalformedUrlWinsExample | src/lib.rs:181-187 | an instance: a repository URL without `/pull/` wins over a matching merge subject |
| CircleGhTee.ApiUrlFromPullRequestUrl | src/lib.rs:257-269 | the URL test: `…/pull/1234` gives the endpoint for issue 1234 |
| CircleGhTee.ApiUrlFromLastCommitComment | src/lib.rs:272-284 | the commit-subject test: `Merge pull request #4321 from test/branch` gives the endpoint for issue 4321 |
| CircleGhTee.ApiUrlWithoutSources | src/lib.rs:287-301 | the error test: without either source the commit-subject error with an empty subject is returned |
| CircleGhTee.GitLogSubject | src/lib.rs:144-151 | the subject as read from git carries the literal quotes of the format around it (a statement about git's `format:` handling, used only for the finding below) |
| CircleGhTee.QuotedSubjectNeverMatches | src/lib.rs:144-151 | the quoted subject never matches the anchored commit pattern |
| CircleGhTee.MergeSubjectResolves | src/lib.rs:209-213 | an unquoted `Merge pull request #n…` subject with no URL resolves to the digits of `n` |
| GoMain.FullCmd | main.go:49-51 | the command name, one space, then the arguments joined by single spaces |
| GoMain.FullCmdAgainstRust | main.go:49-51 | Go's full command equals Rust's, except for a trailing space when there are no arguments |
| GoMain.FullCmdWithoutArgs | main.go:49-51 | without arguments Go shows the name followed by a space |
| GoMain.Atoi | main.go:168-171 | on digits, the value when it fits a 64-bit `int`, else Atoi's range error for that string |
| GoMain.AtoiRoundTrip | main.go:168 | Atoi reads back the rendering of every non-negative `int` |
| GoMain.PrNumberFromEnv | main.go:161-174 | -1 with "Invalid $CI_PULL_REQUEST" when the URL does not match; the capture's value and no error when it fits an `int`; -1 with the range error otherwise |
| GoMain.PrNumberRoundTrip | main.go:161-174 | a URL ending in `/pull/` and the rendering of an `int` yields that number |
| GoMain.PrNumberOutOfRange | main.go:168-171 | a number beyond `int` yields -1 with Atoi's range error |
| GoMain.PrNumberFromUrlTest | main_test.go:9-14 | `https://github.com/user/repo/pull/123` gives 123 and no error |
| GoMain.PrNumberFromInvalidInputTest | main_test.go:16-21 | `invalid input` gives -1 and an error |
| GoMain.LeadingZerosDropped | main.go:168-173 | for `…/pull/0042` Go gives 42 while Rust gives `"0042"` |
| GoMain.PrNumberAgreesWithRust | main.go:161-174 | when the captured digits have no superfluous leading zero and fit an `int`, Go's number renders to Rust's string |
| GoMain.AnsiMatchLength | main.go:188 | a non-zero length is exactly the one prefix that `\x1b\[[0-9;]*[mK]` matches |
| GoMain.RemoveAnsiColor | main.go:188-192 | the result is never longer than the input, and text without ESC is unchanged; EscFreePrefixKept, SequenceDeleted and StrayEscKept together fix what happens at every position |
| GoMain.StrayEscKept | main.go:188-192 | an ESC that starts no colour sequence is kept and the scan continues with the next character |
| GoMain.EscFreePrefixKept | main.go:188-192 | text without ESC in front of the rest is kept verbatim |
| GoMain.SequenceDeleted | main.go:188-192 | a colour sequence at the front is deleted and the scan resumes right after it |
| GoMain.SegmentCleaned | main.go:188-192 | plain text, a colour sequence, then the rest: the plain text stays and the sequence goes |
| GoMain.RemovalNotIdempotent | main.go:188-192 | removing twice can differ from removing once: `ESC [ ESC [ m m` becomes `ESC [ m`, and then the empty string |
| GoMain.TemplateOrDefault | main.go:76-85 | a non-empty option is used verbatim, an empty one falls back to the default |
| GoMain.SelectTemplate | main.go:115-119 | the exit-zero template exactly when the status is 0 |
| GoMain.ChosenTemplate | main.go:73-119 | the template parsed is never empty; it is the user's template for that outcome when one was given, else the default |
| GoMain.SelectionAgreesWithRust | main.go:115-119 | Go picks the template by the same test as Rust's `build_comment` |

## Left out

- `src/main.rs`: the orchestration and its exit codes (1 on a load, spawn or post failure, otherwise the command's status). It only sequences the modelled functions and the I/O below.
- Environment variables, spawning git (`src/lib.rs:131-153`) and spawning the command (`src/lib.rs:65-71`, `main.go:90-104`). Their results enter the model as parameters. The one exception is `CircleGhTee.GitLogSubject`, which states how git formats the subject when the format's quotes reach it unchanged; it is an assumption about git, not code of this repository, and serves only the quoted-subject finding.
- The `status.code().unwrap()` panic for a signalled command and the lossy UTF-8 decoding of the output (`src/lib.rs:242-243`). The model takes the status and the decoded text as given.
- Command-line parsing with clap and go-flags. The model does not capture clap's `default_value` handling: an explicitly empty Rust template option is used as given, and the model takes the chosen templates as parameters.
- HTTP posting (`src/lib.rs:97-119`, `main.go:176-186`): network calls into foreign libraries.
- Go `text/template` parsing and execution (`main.go:113-124`): only which template is chosen is modelled.
- Go `getPrNumber`'s `sh -c` and egrep pipeline (`main.go:139-157`), and `circleGhTee`'s tee-ing of output streams and its panics (`main.go:90-137`): I/O plumbing.
- Patterns.PullNumberSuffix: `\d` is read as the ASCII digits. Rust's regex crate also accepts other Unicode decimal digits in `/pull/(\d+)$`. Go's `\d` and the `[0-9]` of the commit pattern are ASCII in both.
- GoMain.Atoi: modelled only on non-empty ASCII digit strings, the only input the capture group gives it. Go's `int` is taken to be 64 bits wide.
- GoMain.RemoveAnsiColor: works on characters rather than UTF-8 bytes. This is the same for valid UTF-8, because every byte of the pattern is ASCII.

## Findings

| source | as written | input that shows it | evidently intended | confidence | as-written member | corrected member |
|---|---|---|---|---|---|---|
| src/lib.rs:144-151 | git is started directly with `--pretty=format:"%s"`, so the quotes are not shell quotes and the subject comes back wrapped in them; the anchored pattern `^Merge pull request #([0-9]+)` then never matches | a build without `CI_PULL_REQUEST` whose last commit is `Merge pull request #12 from a/b`: the subject read is `"Merge pull request #12 from a/b"` (with quotes) and resolving the number fails | the bare subject, as the Go version gets through its shell and as the lib.rs tests feed it, resolving to `12` | high, not executed | CircleGhTee.QuotedSubjectNeverMatches | CircleGhTee.MergeSubjectResolves |
