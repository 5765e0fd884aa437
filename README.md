# Conventional-commits server, modelled in Dafny

This project models the logic of the conventional-commits MCP server. The
server has two tools.

- `validate_commit_message` may receive a message written as a whole
  `git commit -m "..."` command. In that case it reduces the command to the
  message itself. It then pipes the message to `commitlint` and turns the
  linter's outcome into one of four JSON payloads.
- `generate_conventional_commit` reads the bundled guideline file and runs
  `git rev-parse --show-toplevel`, `git status` and `git diff --staged`. From
  their outcomes it builds either the commit context or an error payload.

Everything is pure functions and lemmas, because the source itself is
straight-line request/response code.

- `py_text.dfy` (`PyText`): the Python `str` operations the server uses, over
  `seq<char>`.
  - `startswith`.
  - `strip(chars)`, with the exact character set that `str.isspace()`
    accepts for the no-argument form.
  - `replace(old, '')`.
- `commit_regex.dfy` (`Options`, `CommitRegex`): `re.search` of
  `git commit -m ["'](.+?)["']` and its group 1, written as the backtracking
  engine runs them.
  - Start positions are tried leftmost first.
  - The lazy group takes the shortest run of non-newline characters that a
    quote follows.
  - `IsFirstMatch` is an independent declarative definition of that match,
    and `Search`/`Group` are proved against it.
- `normalise.dfy` (`Normalise`): the message normalisation, the
  `git_command` string the server suggests, and round-trip lemmas between
  the two.
- `server.dfy` (`ConventionalCommitsServer`): the payload each tool returns.
  - Payloads are maps from a `Key` enumeration to string or boolean values.
  - The `git` and `commitlint` processes and the guideline read are
    parameters that give their outcomes.
  - `GenerateConventionalCommit` also records which `git` commands ran, in
    order, and in which directory.

The docstring of `generate_conventional_commit`
(conventional_commits/conventional_commits_server.py:65-67) says that it never
raises. The code disagrees, and the model follows the code:

- The `git` block only catches `subprocess.CalledProcessError`. A `git` that
  cannot be spawned (no executable, a missing working directory) raises an
  `OSError` that escapes the handler.
- A guideline file that is not valid UTF-8 raises `UnicodeDecodeError`. That
  is a `ValueError`, not an `OSError`, so it escapes too.

Both are `Response.Raised` in the model.

## Model

| member | source | states |
|---|---|---|
| PyText.SkipLeading | conventional_commits/conventional_commits_server.py:211 | the left edge of `strip`: the first index from `i` on whose character is outside the strip set, or the end |
| PyText.SkipLeadingPassesOnly | conventional_commits/conventional_commits_server.py:211 | every character the left scan passes over is in the strip set |
| PyText.SkipTrailing | conventional_commits/conventional_commits_server.py:211 | the right edge of `strip`, never below the left edge; the last kept character is outside the strip set |
| PyText.SkipTrailingPassesOnly | conventional_commits/conventional_commits_server.py:211 | every character the right scan passes over is in the strip set |
| PyText.Strip | conventional_commits/conventional_commits_server.py:211 | `str.strip(chars)`: the result is no longer than the input and neither of its ends is in the strip set |
| PyText.StripIsSlice | conventional_commits/conventional_commits_server.py:211 | `strip` keeps one contiguous slice and removes only characters of the strip set before and after it |
| PyText.StripKeepsUnpadded | conventional_commits/conventional_commits_server.py:211 | stripping a string whose two ends are outside the set changes nothing |
| PyText.StartsWithPointwise | conventional_commits/conventional_commits_server.py:203 | `message.startswith('git commit -m')` (`StartsWith`) holds exactly when the message is at least as long as the prefix and agrees with it character by character |
| PyText.RemoveAll | conventional_commits/conventional_commits_server.py:211 | `replace(prefix, '')` never lengthens the string |
| PyText.RemoveAllAbsent | conventional_commits/conventional_commits_server.py:211 | `replace` leaves a string in which the prefix does not occur unchanged |
| PyText.RemoveAllLeading | conventional_commits/conventional_commits_server.py:211 | `replace` drops a leading occurrence and carries on with the rest |
| CommitRegex.GroupEnd | conventional_commits/conventional_commits_server.py:206 | the lazy `.+?`: the index it returns is the nearest quote after at least one character with no newline before it; None means that no quote is reachable without crossing a newline |
| CommitRegex.MatchFrom | conventional_commits/conventional_commits_server.py:206 | the attempt at one start position: a match with the nearest closing quote, or a proof that nothing matches there |
| CommitRegex.SearchFrom | conventional_commits/conventional_commits_server.py:206 | the scan over start positions finds the leftmost one that matches, and nothing matches before it |
| CommitRegex.Search | conventional_commits/conventional_commits_server.py:206-207 | `re.search` returns exactly the leftmost, lazy match (`IsFirstMatch`), or None only when no start position and closing quote match |
| CommitRegex.Group | conventional_commits/conventional_commits_server.py:206-208 | `match.group(1)` is the text between the opening quote and the closing quote of the first match |
| CommitRegex.FirstMatchUnique | conventional_commits/conventional_commits_server.py:206 | the leftmost-then-lazy match is unique, so the group is determined |
| CommitRegex.GroupShape | conventional_commits/conventional_commits_server.py:206-208 | an extracted message is non-empty, holds no newline and no quote after its first character |
| Normalise.GitCommand | conventional_commits/conventional_commits_server.py:228 | the suggested command starts with `git commit -m`, then a space and a double quote, then the message, then a closing double quote |
| Normalise.Fallback | conventional_commits/conventional_commits_server.py:211 | the fallback result neither starts nor ends with a single quote and is no longer than the input |
| Normalise.NormaliseMessage | conventional_commits/conventional_commits_server.py:203-211 | input without the prefix reaches the linter unchanged; a regex match gives a non-empty, newline-free group with no quote after its first character; otherwise the fallback's guarantee |
| Normalise.InnerQuoteFrom | conventional_commits/conventional_commits_server.py:206 | the first quote at or after a position, or the end, with no quote before it: where the lazy group closes after its first character |
| Normalise.QuotedCommandCut | conventional_commits/conventional_commits_server.py:203-208 | a non-empty single-line M between any two quotes normalises to M cut at its first quote after the first character |
| Normalise.QuotedCommandRoundTrip | conventional_commits/conventional_commits_server.py:206-208 | `git commit -m "M"` and `git commit -m 'M'`, with either quote at either end, normalise to exactly M when M is non-empty, newline-free and has no quote after its first character |
| Normalise.SingleLineRoundTripExactly | conventional_commits/conventional_commits_server.py:203-228 | a non-empty single-line message comes back from its suggested `git_command` if and only if no quote follows its first character |
| Normalise.NoGroupInCommand | conventional_commits/conventional_commits_server.py:206-207 | the regex finds nothing in the suggested command for an empty or multi-line quote-free message: its only quotes are the two delimiters, with a newline between them |
| Normalise.CommandRemoved | conventional_commits/conventional_commits_server.py:211 | for a quote-free message in which `git commit -m` does not occur, `replace` turns the suggested command into a space, a quote, the message and a quote |
| Normalise.StripPadding | conventional_commits/conventional_commits_server.py:211 | `strip()` then removes only the leading space |
| Normalise.StripQuotes | conventional_commits/conventional_commits_server.py:211 | `strip('"')` then `strip("'")` give back a quote-free message |
| Normalise.StripExact | conventional_commits/conventional_commits_server.py:211 | `strip` returns the slice that has only strip-set characters around it and no strip-set character at its ends |
| Normalise.FallbackRoundTrip | conventional_commits/conventional_commits_server.py:209-211 | the fallback undoes the suggested command for empty and multi-line quote-free messages in which `git commit -m` does not occur |
| Normalise.GitCommandRoundTrip | conventional_commits/conventional_commits_server.py:203-228 | normalising the suggested `git_command` gives the message back when it is non-empty, single-line and has no quote after its first character, or when it is quote-free and contains no `git commit -m` |
| Normalise.EmbeddedQuoteTruncates | conventional_commits/conventional_commits_server.py:206-208 | the round trip is lossy when a quote follows the first character: the command for `a"b` normalises to `a` |
| ConventionalCommitsServer.LinterResponse | conventional_commits/conventional_commits_server.py:222-263 | the linter outcome picks exactly one payload. Exit 0 gives `valid=true` with the stdout and the `git_command` of the message. Another exit code gives `valid=false` with the stdout as `errors`. A missing linter gives the install hint. Any other exception gives the generic error. Every value is pinned. It is an error payload exactly when `subprocess.run` raised |
| ConventionalCommitsServer.ValidateCommitMessage | conventional_commits/conventional_commits_server.py:201-263 | the linter sees exactly the normalised message, which is also the message it reports; input without the prefix reaches it unchanged |
| ConventionalCommitsServer.SuggestedCommandRevalidates | conventional_commits/conventional_commits_server.py:203-234 | validating the suggested `git_command` lints the same message and returns the same payload, whenever the linted message is recoverable (`Normalise.Recoverable`) |
| ConventionalCommitsServer.PassingCommandCarriesMessage | conventional_commits/conventional_commits_server.py:222-234 | a passing payload's `git_command` wraps its `message` and, for a recoverable message, normalises back to it |
| ConventionalCommitsServer.PassingPayload | conventional_commits/conventional_commits_server.py:224-233 | a payload holding `git_command` holds the command for the linted message and that message |
| ConventionalCommitsServer.WorkDir | conventional_commits/conventional_commits_server.py:93 | the given path when it is non-empty, otherwise the process's working directory |
| ConventionalCommitsServer.GitError | conventional_commits/conventional_commits_server.py:149-155 | the `git` error payload holds exactly `error` and `hint` |
| ConventionalCommitsServer.GuidelineError | conventional_commits/conventional_commits_server.py:79-89 | the guideline error payload holds exactly `error`, `file_path` (the path) and `hint` |
| ConventionalCommitsServer.NoStagedError | conventional_commits/conventional_commits_server.py:118-126 | the blank-diff payload holds exactly `error` and `repository` (the root) |
| ConventionalCommitsServer.CommitContext | conventional_commits/conventional_commits_server.py:129-147 | the success payload holds exactly `repository`, `status`, `diff`, `required_guideliness` and `instructions` |
| ConventionalCommitsServer.BlankIsAllWhitespace | conventional_commits/conventional_commits_server.py:118 | `not staged_diff.strip()` (`Blank`) holds exactly when every character of the diff is whitespace |
| ConventionalCommitsServer.GenerateConventionalCommit | conventional_commits/conventional_commits_server.py:70-155 | at most three `git` commands run. Rev-parse always runs first, in the work directory. Status and the staged diff run, in that order, in the stripped top-level path, and only once rev-parse exited 0. Every returned payload has one of four shapes and is an error unless it is the commit context |
| ConventionalCommitsServer.GuidelineFailureShortCircuits | conventional_commits/conventional_commits_server.py:70-89 | a guideline file that cannot be read yields the error with `file_path` and `hint`, and no `git` command runs |
| ConventionalCommitsServer.UndecodableGuidelinesEscape | conventional_commits/conventional_commits_server.py:77-79 | a decode error escapes the tool and no `git` command runs |
| ConventionalCommitsServer.GitFailureStopsTheRun | conventional_commits/conventional_commits_server.py:96-155 | the first `git` command to exit non-zero is the last to run; the payload is the `git` error with its output, with `hint` and no `repository` |
| ConventionalCommitsServer.GitSpawnFailureEscapes | conventional_commits/conventional_commits_server.py:91-149 | a `git` command that cannot start makes the exception escape, and no later command runs |
| ConventionalCommitsServer.BlankDiffKeepsRepository | conventional_commits/conventional_commits_server.py:117-126 | a whitespace-only staged diff yields the "no staged changes" error with the stripped root as `repository` and no `diff` |
| ConventionalCommitsServer.StagedDiffYieldsContext | conventional_commits/conventional_commits_server.py:128-147 | a non-blank staged diff yields the commit context: the stripped root, the status and diff as printed, the guidelines and the fixed instructions |
| ConventionalCommitsServer.DiffOnlyOnSuccess | conventional_commits/conventional_commits_server.py:70-155 | a returned payload carries `diff` exactly when everything succeeded and the diff is not blank. It carries `repository` without `diff` exactly when the diff is blank |
| ConventionalCommitsServer.UnrunCommandsIrrelevant | conventional_commits/conventional_commits_server.py:96-115 | outcomes of `git` commands that did not run cannot change the result |

## Left out

- The `git` and `commitlint` subprocesses are parameters giving their outcomes (exit code and captured text, or a failure to start). They are not run or modelled.
- The guideline file read, the path joining and `os.getcwd()` are file-system I/O. The read is a parameter with three outcomes: the text, an OS error or a decode error. The path and the working directory are string parameters.
- Text decoding itself is not modelled: strings are sequences of code points. Only the failure of decoding is modelled. For the guideline file this is `DecodeFailed`. For `git` output under `text=True` it is an exception raised after the command ran, which escapes the handler, and the model counts it under `SpawnFailed`.
- `json.dumps` is not modelled. Payloads are maps, so key order and escaping in the serialised text are not modelled either.
- FastMCP tool registration and `mcp.run` are framework plumbing.
- The Python documentation server reads one file and maps its errors to fixed JSON. It is not part of this model.
- PyText.RemoveAll: its own contract only bounds the length. Its behaviour is pinned down by RemoveAllAbsent and RemoveAllLeading, which cover every input the round-trip lemmas need, not by a general characterisation of `replace`.
- Normalise.Fallback: its contract states only the single-quote guarantee and the length bound. Its result is computed exactly, and FallbackRoundTrip uses that computation.
- Normalise.GitCommandRoundTrip: for multi-line or empty messages it covers quote-free messages only. For single-line messages the exact condition is SingleLineRoundTripExactly.
