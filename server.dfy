/**
 * The two tools of the conventional-commits server, as functions from the
 * outcomes of the file read and of the external programs (`git`,
 * `commitlint`) to the payload each tool serialises with `json.dumps`.
 */
module ConventionalCommitsServer {
  import opened Options
  import opened PyText
  import opened Normalise

  /** A JSON value held by a payload: the payloads only hold strings and booleans. */
  datatype Value = Str(s: string) | Bool(b: bool)

  /**
   * The keys the payloads use. Each is spelt in JSON as its name in snake
   * case, except `Command`, which is `git_command`.
   */
  datatype Key =
    | Valid | Message | Output | Command | Note | Errors | RequiredResource | FixInstructions
    | Error | Solution | FilePath | Hint | Repository | Status | Diff | RequiredGuideliness | Instructions

  /** The dict a tool builds; key order in the serialised text is not modelled. */
  type Payload = map<Key, Value>

  /**
   * How a tool call ends: a payload returned as JSON text, or an exception
   * the handler does not catch and lets escape to the framework.
   */
  datatype Response = Returned(payload: Payload) | Raised(reason: string)

  /** The payload reports a failure: it carries an `error` key. */
  predicate IsError(p: Payload) {
    Error in p
  }

  // ---------------------------------------------------------------------
  // validate_commit_message
  // ---------------------------------------------------------------------

  /** What `subprocess.run(['commitlint'], ...)` ends in. */
  datatype LinterOutcome =
    | Exited(code: int, stdout: string)   // the linter ran; its exit status and stdout
    | NotFound                            // FileNotFoundError: no `commitlint` on the host
    | OtherError(detail: string)          // any other exception `subprocess.run` raised, as `str(e)`

  const GuideResource: string := "guide://git-conventional-commits"
  const ValidNote: string := "\U{2713} Message is valid and follows guide://git-conventional-commits format"
  const FixText: string :=
    "Your commit message failed validation. Re-read guide://git-conventional-commits and fix the message, then validate again if needed."
  const NotInstalled: string := "commitlint is not installed"
  const InstallHint: string :=
    "Install commitlint with: npm install -g @commitlint/cli @commitlint/config-conventional"
  const ConfigNote: string := "You also need a .commitlintrc.json file in your project root"

  /** The keys of the three payload shapes a linter that ran or was missing produces. */
  const PassKeys: set<Key> := {Valid, Message, Output, Command, Note}
  const FailKeys: set<Key> := {Valid, Message, Errors, RequiredResource, FixInstructions}
  const MissingKeys: set<Key> := {Error, Solution, Note}

  /**
   * The payload for a linted `message`: exactly one of four shapes, chosen by
   * the linter outcome. Exit status 0 passes and suggests the command that
   * commits the message; any other status fails with the linter's stdout as
   * `errors`; when `subprocess.run` raises, the payload is an `error`: the
   * installation hint for a missing linter, the exception text otherwise.
   */
  function LinterResponse(message: string, outcome: LinterOutcome): (p: Payload)
    ensures IsError(p) <==> !outcome.Exited?
    ensures Valid in p <==> outcome.Exited?
    ensures outcome.Exited? ==>
      Message in p && p[Message] == Str(message) && p[Valid] == Bool(outcome.code == 0)
    ensures outcome.Exited? && outcome.code == 0 ==>
      && p.Keys == PassKeys && p[Output] == Str(outcome.stdout)
      && p[Command] == Str(GitCommand(message)) && p[Note] == Str(ValidNote)
    ensures outcome.Exited? && outcome.code != 0 ==>
      && p.Keys == FailKeys && p[Errors] == Str(outcome.stdout)
      && p[RequiredResource] == Str(GuideResource) && p[FixInstructions] == Str(FixText)
    ensures outcome.NotFound? ==>
      && p.Keys == MissingKeys && p[Error] == Str(NotInstalled)
      && p[Solution] == Str(InstallHint) && p[Note] == Str(ConfigNote)
    ensures outcome.OtherError? ==> p.Keys == {Error} && p[Error] == Str("Validation failed: " + outcome.detail)
  {
    match outcome
    case Exited(code, stdout) =>
      if code == 0 then
        map[Valid := Bool(true), Message := Str(message), Output := Str(stdout),
            Command := Str(GitCommand(message)), Note := Str(ValidNote)]
      else
        map[Valid := Bool(false), Message := Str(message), Errors := Str(stdout),
            RequiredResource := Str(GuideResource), FixInstructions := Str(FixText)]
    case NotFound =>
      map[Error := Str(NotInstalled), Solution := Str(InstallHint), Note := Str(ConfigNote)]
    case OtherError(detail) =>
      map[Error := Str("Validation failed: " + detail)]
  }

  /** A call of `validate_commit_message`: what was piped to the linter, and the payload returned. */
  datatype Validation = Validation(linterInput: string, payload: Payload)

  /**
   * `validate_commit_message(message)`, with `lint` standing for the
   * `commitlint` process as a function of its standard input. The linter
   * sees the normalised message, which is also the `message` it reports;
   * input not starting with `git commit -m` reaches it unchanged. Every
   * exception is caught, so the tool always returns a payload.
   */
  function ValidateCommitMessage(message: string, lint: string -> LinterOutcome): (v: Validation)
    ensures v.linterInput == NormaliseMessage(message)
    ensures !StartsWith(message, CommandPrefix) ==> v.linterInput == message
    ensures v.payload == LinterResponse(v.linterInput, lint(v.linterInput))
    ensures |v.linterInput| <= |message|
  {
    var m := NormaliseMessage(message);
    Validation(m, LinterResponse(m, lint(m)))
  }

  /**
   * Feeding the suggested `git_command` back into the tool lints the same
   * message and returns the same payload, whenever the linted message is one
   * the command form can carry (see `GitCommandRoundTrip`).
   */
  lemma {:induction false} SuggestedCommandRevalidates(message: string, lint: string -> LinterOutcome)
    requires Recoverable(NormaliseMessage(message))
    ensures var v := ValidateCommitMessage(message, lint);
      ValidateCommitMessage(GitCommand(v.linterInput), lint) == v
  {
    GitCommandRoundTrip(NormaliseMessage(message));
  }

  /**
   * A passing payload suggests the command that, normalised again, gives
   * back the `message` it reports, so the suggestion commits exactly what
   * was linted.
   */
  lemma PassingCommandCarriesMessage(message: string, lint: string -> LinterOutcome)
    requires Recoverable(NormaliseMessage(message))
    ensures var v := ValidateCommitMessage(message, lint);
      Command in v.payload ==>
        && v.payload[Command] == Str(GitCommand(v.linterInput))
        && v.payload[Message] == Str(v.linterInput)
        && NormaliseMessage(GitCommand(v.linterInput)) == v.linterInput
  {
    var v := ValidateCommitMessage(message, lint);
    GitCommandRoundTrip(v.linterInput);
    PassingPayload(v.linterInput, lint(v.linterInput));
  }

  /** Only the passing payload holds `git_command`, and it wraps the reported message. */
  lemma PassingPayload(m: string, outcome: LinterOutcome)
    ensures var p := LinterResponse(m, outcome);
      Command in p ==> p[Command] == Str(GitCommand(m)) && p[Message] == Str(m)
  {
  }

  // ---------------------------------------------------------------------
  // generate_conventional_commit
  // ---------------------------------------------------------------------

  /** What reading the bundled guideline file ends in. */
  datatype GuidelineRead =
    | Read(content: string)          // the file's text
    | ReadFailed(reason: string)     // FileNotFoundError, IOError or OSError, as `str(e)`
    | DecodeFailed(reason: string)   // the file is not valid UTF-8: not caught by the handler

  /**
   * What one `subprocess.check_output` of `git` ends in. `SpawnFailed` covers
   * a process that could not start (no `git`, a missing `cwd`) and also
   * output that could not be decoded as text after the command ran.
   */
  datatype ProcOutcome =
    | Ran(code: int, output: string)   // the process ran; its exit status and captured output
    | SpawnFailed(reason: string)      // an exception other than `CalledProcessError`: not caught

  /** The three `git` commands the tool runs, named after their argument vectors. */
  datatype GitCommandKind =
    | RevParseTopLevel   // git rev-parse --show-toplevel
    | ShowStatus         // git status
    | ShowStagedDiff     // git diff --staged

  /**
   * One `git` invocation: which command, its working directory, and whether
   * its stderr is merged into the captured output (only for rev-parse).
   */
  datatype GitCall = GitCall(kind: GitCommandKind, cwd: string, stderrToStdout: bool)

  function RevParseCall(workDir: string): GitCall {
    GitCall(RevParseTopLevel, workDir, true)
  }

  function StatusCall(root: string): GitCall {
    GitCall(ShowStatus, root, false)
  }

  function StagedDiffCall(root: string): GitCall {
    GitCall(ShowStagedDiff, root, false)
  }

  /** A call of `generate_conventional_commit`: the `git` commands it ran, in order, and how it ended. */
  datatype Run = Run(calls: seq<GitCall>, response: Response)

  const GuidelineHint: string :=
    "Ensure the file 'conventional_commit_guidelines.md' exists at git_guides/markdown/ relative to the server script."
  const GitHint: string := "Make sure you're in a git repository"
  const NoStagedChanges: string :=
    "No staged changes found. Please run 'git add .' to stage your changes first, then try again."
  const InstructionsText: string :=
    "\n"
    + "            Generate a conventional commit message:\n"
    + "            Step 1: Read the required guideliness\n"
    + "            Step 2: Analyze the diff above\n"
    + "                    - Understand what changed in the code\n"
    + "                    - Determine the most appropriate commit type\n"
    + "                    - Identify the scope if applicable\n"
    + "            Step 3: Generate commit message\n"
    + "                    - Follow the EXACT required guideliness\n"
    + "            Step 4: Output the command\n"
    + "                    - Return ONLY: git commit -m \"your message\"\n"
    + "            "

  /** The keys of the four payload shapes `generate_conventional_commit` returns. */
  const GuidelineErrorKeys: set<Key> := {Error, FilePath, Hint}
  const GitErrorKeys: set<Key> := {Error, Hint}
  const NoStagedKeys: set<Key> := {Error, Repository}
  const ContextKeys: set<Key> := {Repository, Status, Diff, RequiredGuideliness, Instructions}

  /**
   * The directory `git rev-parse` runs in: the given path, or the process's
   * working directory when the path is None or empty (both are falsy).
   */
  function WorkDir(repositoryPath: Option<string>, cwd: string): (d: string)
    ensures repositoryPath.Some? && repositoryPath.value != [] ==> d == repositoryPath.value
    ensures repositoryPath == None || repositoryPath == Some([]) ==> d == cwd
  {
    match repositoryPath
    case Some(path) => if path != [] then path else cwd
    case None => cwd
  }

  /** The payload for a `git` command that exited non-zero (`CalledProcessError`). */
  function GitError(output: string): (p: Payload)
    ensures p.Keys == GitErrorKeys
  {
    map[Error := Str("Git command failed: " + output), Hint := Str(GitHint)]
  }

  /** The payload for a guideline file that could not be read. */
  function GuidelineError(reason: string, guidelinePath: string): (p: Payload)
    ensures p.Keys == GuidelineErrorKeys && p[FilePath] == Str(guidelinePath)
  {
    map[
      Error := Str("Failed to load conventional commit guidelines: " + reason),
      FilePath := Str(guidelinePath),
      Hint := Str(GuidelineHint)]
  }

  /** The payload for a staged diff that is only whitespace. */
  function NoStagedError(root: string): (p: Payload)
    ensures p.Keys == NoStagedKeys && p[Repository] == Str(root)
  {
    map[Error := Str(NoStagedChanges), Repository := Str(root)]
  }

  /** The commit context returned on success. */
  function CommitContext(root: string, statusText: string, diffText: string, content: string): (p: Payload)
    ensures p.Keys == ContextKeys
  {
    map[
      Repository := Str(root),
      Status := Str(statusText),
      Diff := Str(diffText),
      RequiredGuideliness := Str(content),
      Instructions := Str(InstructionsText)]
  }

  /** `not staged_diff.strip()`: nothing is left once whitespace is stripped. */
  predicate Blank(text: string) {
    Strip(text, Whitespace) == []
  }

  /** A diff is blank exactly when every character of it is whitespace. */
  lemma BlankIsAllWhitespace(text: string)
    ensures Blank(text) <==> forall i :: 0 <= i < |text| ==> text[i] in Whitespace
  {
    StripIsSlice(text, Whitespace);
  }

  /**
   * `generate_conventional_commit(repository_path)`. The guideline file is
   * read first; then `git rev-parse --show-toplevel` runs in the working
   * directory, and `git status` and `git diff --staged` in the top-level
   * path it printed, stripped. `revParse`, `status` and `diff` are what each
   * command would end in; `calls` records which of them ran, and they run in
   * that order. Every payload returned has one of four shapes and is an
   * error unless it is the commit context.
   */
  function GenerateConventionalCommit(
    guidelines: GuidelineRead, guidelinePath: string, repositoryPath: Option<string>, cwd: string,
    revParse: ProcOutcome, status: ProcOutcome, diff: ProcOutcome): (run: Run)
    ensures |run.calls| <= 3
    ensures 1 <= |run.calls| ==> run.calls[0] == RevParseCall(WorkDir(repositoryPath, cwd))
    ensures 2 <= |run.calls| ==>
      && revParse.Ran? && revParse.code == 0
      && var root := Strip(revParse.output, Whitespace);
         run.calls[1..] == [StatusCall(root), StagedDiffCall(root)][..|run.calls| - 1]
    ensures run.response.Returned? ==>
      var keys := run.response.payload.Keys;
      && (keys == GuidelineErrorKeys || keys == GitErrorKeys || keys == NoStagedKeys || keys == ContextKeys)
      && (IsError(run.response.payload) <==> keys != ContextKeys)
  {
    match guidelines
    case ReadFailed(reason) =>
      Run([], Returned(GuidelineError(reason, guidelinePath)))
    case DecodeFailed(reason) =>
      Run([], Raised(reason))
    case Read(content) =>
      var c1 := RevParseCall(WorkDir(repositoryPath, cwd));
      match revParse
      case SpawnFailed(reason) => Run([c1], Raised(reason))
      case Ran(code1, top) =>
        if code1 != 0 then Run([c1], Returned(GitError(top)))
        else
          var root := Strip(top, Whitespace);
          var c2 := StatusCall(root);
          match status
          case SpawnFailed(reason) => Run([c1, c2], Raised(reason))
          case Ran(code2, statusText) =>
            if code2 != 0 then Run([c1, c2], Returned(GitError(statusText)))
            else
              var c3 := StagedDiffCall(root);
              match diff
              case SpawnFailed(reason) => Run([c1, c2, c3], Raised(reason))
              case Ran(code3, diffText) =>
                if code3 != 0 then Run([c1, c2, c3], Returned(GitError(diffText)))
                else if Blank(diffText) then
                  Run([c1, c2, c3], Returned(NoStagedError(root)))
                else
                  Run([c1, c2, c3], Returned(CommitContext(root, statusText, diffText, content)))
  }

  /**
   * A guideline file that cannot be opened or read ends the call before any
   * `git` command, with an error naming the file and a hint.
   */
  lemma GuidelineFailureShortCircuits(
    reason: string, guidelinePath: string, repositoryPath: Option<string>, cwd: string,
    revParse: ProcOutcome, status: ProcOutcome, diff: ProcOutcome)
    ensures var run := GenerateConventionalCommit(ReadFailed(reason), guidelinePath, repositoryPath, cwd,
        revParse, status, diff);
      && run.calls == []
      && run.response.Returned?
      && run.response.payload.Keys == GuidelineErrorKeys
      && run.response.payload[Error] == Str("Failed to load conventional commit guidelines: " + reason)
      && run.response.payload[FilePath] == Str(guidelinePath)
      && run.response.payload[Hint] == Str(GuidelineHint)
  {
  }

  /**
   * A guideline file that is not valid UTF-8 raises `UnicodeDecodeError`,
   * which the handler does not catch: the exception escapes and no `git`
   * command runs.
   */
  lemma UndecodableGuidelinesEscape(
    reason: string, guidelinePath: string, repositoryPath: Option<string>, cwd: string,
    revParse: ProcOutcome, status: ProcOutcome, diff: ProcOutcome)
    ensures GenerateConventionalCommit(DecodeFailed(reason), guidelinePath, repositoryPath, cwd,
        revParse, status, diff) == Run([], Raised(reason))
  {
  }

  /** The first `n` of the three `git` commands all exit 0. */
  predicate PassedUpTo(outcomes: seq<ProcOutcome>, n: int)
    requires 0 <= n <= |outcomes|
  {
    forall i :: 0 <= i < n ==> outcomes[i].Ran? && outcomes[i].code == 0
  }

  /**
   * When command `n` (1 = rev-parse, 2 = status, 3 = diff) is the first to
   * exit non-zero, no later command runs and the payload is the `git` error:
   * the command's output with a hint, and no `repository`.
   */
  lemma GitFailureStopsTheRun(
    content: string, guidelinePath: string, repositoryPath: Option<string>, cwd: string,
    outcomes: seq<ProcOutcome>, n: int)
    requires |outcomes| == 3 && 1 <= n <= 3
    requires PassedUpTo(outcomes, n - 1)
    requires outcomes[n - 1].Ran? && outcomes[n - 1].code != 0
    ensures var run := GenerateConventionalCommit(Read(content), guidelinePath, repositoryPath, cwd,
        outcomes[0], outcomes[1], outcomes[2]);
      && |run.calls| == n
      && run.response == Returned(GitError(outcomes[n - 1].output))
      && Hint in run.response.payload
      && Repository !in run.response.payload
  {
    if n >= 2 { assert outcomes[0].Ran? && outcomes[0].code == 0; }
    if n == 3 { assert outcomes[1].Ran? && outcomes[1].code == 0; }
  }

  /**
   * When command `n` cannot be started at all (no `git` on the host, a
   * missing directory), the OS error escapes the handler, which only catches
   * `CalledProcessError`; no later command runs.
   */
  lemma GitSpawnFailureEscapes(
    content: string, guidelinePath: string, repositoryPath: Option<string>, cwd: string,
    outcomes: seq<ProcOutcome>, n: int)
    requires |outcomes| == 3 && 1 <= n <= 3
    requires PassedUpTo(outcomes, n - 1)
    requires outcomes[n - 1].SpawnFailed?
    ensures var run := GenerateConventionalCommit(Read(content), guidelinePath, repositoryPath, cwd,
        outcomes[0], outcomes[1], outcomes[2]);
      |run.calls| == n && run.response == Raised(outcomes[n - 1].reason)
  {
    if n >= 2 { assert outcomes[0].Ran? && outcomes[0].code == 0; }
    if n == 3 { assert outcomes[1].Ran? && outcomes[1].code == 0; }
  }

  /**
   * All three commands pass but the staged diff is only whitespace: the
   * "stage your changes" error, carrying the repository root and no diff.
   */
  lemma BlankDiffKeepsRepository(
    content: string, guidelinePath: string, repositoryPath: Option<string>, cwd: string,
    top: string, statusText: string, diffText: string)
    requires Blank(diffText)
    ensures var run := GenerateConventionalCommit(Read(content), guidelinePath, repositoryPath, cwd,
        Ran(0, top), Ran(0, statusText), Ran(0, diffText));
      && |run.calls| == 3
      && run.response.Returned?
      && run.response.payload.Keys == NoStagedKeys
      && run.response.payload[Error] == Str(NoStagedChanges)
      && run.response.payload[Repository] == Str(Strip(top, Whitespace))
      && Diff !in run.response.payload
  {
  }

  /**
   * All three commands pass and the staged diff is not blank: the commit
   * context, with the stripped root, the status and diff text as `git`
   * printed them, the guidelines and the fixed instructions.
   */
  lemma StagedDiffYieldsContext(
    content: string, guidelinePath: string, repositoryPath: Option<string>, cwd: string,
    top: string, statusText: string, diffText: string)
    requires !Blank(diffText)
    ensures var run := GenerateConventionalCommit(Read(content), guidelinePath, repositoryPath, cwd,
        Ran(0, top), Ran(0, statusText), Ran(0, diffText));
      && |run.calls| == 3
      && run.response.Returned?
      && run.response.payload.Keys == ContextKeys
      && !IsError(run.response.payload)
      && run.response.payload[Repository] == Str(Strip(top, Whitespace))
      && run.response.payload[Status] == Str(statusText)
      && run.response.payload[Diff] == Str(diffText)
      && run.response.payload[RequiredGuideliness] == Str(content)
      && run.response.payload[Instructions] == Str(InstructionsText)
  {
  }

  /**
   * Only a successful call carries a `diff`, and only the blank-diff error
   * carries a `repository` without one.
   */
  lemma DiffOnlyOnSuccess(
    guidelines: GuidelineRead, guidelinePath: string, repositoryPath: Option<string>, cwd: string,
    revParse: ProcOutcome, status: ProcOutcome, diff: ProcOutcome)
    ensures var run := GenerateConventionalCommit(guidelines, guidelinePath, repositoryPath, cwd,
        revParse, status, diff);
      run.response.Returned? ==>
        && (Diff in run.response.payload <==>
              guidelines.Read? && revParse == Ran(0, revParse.output) && status == Ran(0, status.output)
              && diff == Ran(0, diff.output) && !Blank(diff.output))
        && (Repository in run.response.payload && Diff !in run.response.payload <==>
              guidelines.Read? && revParse == Ran(0, revParse.output) && status == Ran(0, status.output)
              && diff == Ran(0, diff.output) && Blank(diff.output))
  {
  }

  /**
   * The outcome of a `git` command that did not run cannot influence the
   * call: two environments that agree on the commands that ran give the
   * same run.
   */
  lemma UnrunCommandsIrrelevant(
    guidelines: GuidelineRead, guidelinePath: string, repositoryPath: Option<string>, cwd: string,
    outcomes: seq<ProcOutcome>, outcomes': seq<ProcOutcome>)
    requires |outcomes| == 3 && |outcomes'| == 3
    requires var run := GenerateConventionalCommit(guidelines, guidelinePath, repositoryPath, cwd,
        outcomes[0], outcomes[1], outcomes[2]);
      outcomes[..|run.calls|] == outcomes'[..|run.calls|]
    ensures GenerateConventionalCommit(guidelines, guidelinePath, repositoryPath, cwd, outcomes[0], outcomes[1], outcomes[2])
         == GenerateConventionalCommit(guidelines, guidelinePath, repositoryPath, cwd, outcomes'[0], outcomes'[1], outcomes'[2])
  {
    var run := GenerateConventionalCommit(guidelines, guidelinePath, repositoryPath, cwd,
      outcomes[0], outcomes[1], outcomes[2]);
    if |run.calls| >= 1 { assert outcomes[0] == outcomes[..|run.calls|][0]; }
    if |run.calls| >= 2 { assert outcomes[1] == outcomes[..|run.calls|][1]; }
    if |run.calls| >= 3 { assert outcomes[2] == outcomes[..|run.calls|][2]; }
  }
}
