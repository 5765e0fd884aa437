/**
 * The first step of `validate_commit_message`: a message given as a whole
 * `git commit -m "..."` command is reduced to the quoted message before it is
 * handed to the linter.
 */
module Normalise {
  import opened Options
  import opened PyText
  import opened CommitRegex

  /** The prefix tested by `startswith` and removed by the fallback; no trailing space. */
  const CommandPrefix: string := "git commit -m"

  /** The message carries no quote character at all. */
  predicate QuoteFree(m: string) {
    forall i :: 0 <= i < |m| ==> !IsQuote(m[i])
  }

  /** The command string the server suggests for a valid message: `git commit -m "<m>"`. */
  function GitCommand(m: string): (r: string)
    ensures StartsWith(r, CommandPrefix) && |r| == |Literal| + |m| + 2
    ensures r[..|Literal|] == Literal && r[|Literal|] == '"' && r[|r| - 1] == '"'
    ensures r[GroupStart(0)..|r| - 1] == m
  {
    Literal + ['"'] + m + ['"']
  }

  /**
   * The fallback when the command form has no quoted match: every
   * `git commit -m` removed, then `strip()`, `strip('"')` and `strip("'")`.
   * Whatever it returns neither starts nor ends with a single quote.
   */
  function Fallback(message: string): (r: string)
    ensures r == [] || (r[0] != '\'' && r[|r| - 1] != '\'')
    ensures |r| <= |message|
  {
    var unprefixed := RemoveAll(message, CommandPrefix);
    Strip(Strip(Strip(unprefixed, Whitespace), {'"'}), {'\''})
  }

  /**
   * The message the linter receives. Input that does not start with
   * `git commit -m` passes through unchanged; otherwise the regex's group 1
   * is taken, which is never empty, has no newline and no quote after its
   * first character; failing a match, the fallback applies.
   */
  function NormaliseMessage(message: string): (r: string)
    ensures !StartsWith(message, CommandPrefix) ==> r == message
    ensures StartsWith(message, CommandPrefix) && Group(message).Some? ==>
      r != [] && '\n' !in r && NoQuoteAfterFirst(r)
    ensures StartsWith(message, CommandPrefix) && Group(message).None? ==>
      r == [] || (r[0] != '\'' && r[|r| - 1] != '\'')
  {
    if StartsWith(message, CommandPrefix) then
      match Group(message)
      case Some(m) => GroupShape(message); m
      case None => Fallback(message)
    else
      message
  }

  /**
   * The first index at or after `j` holding a quote, or `|m|`. For `j == 1`
   * it is where the lazy group closes when `m` follows an opening quote, because
   * the `.` of `.+?` always consumes the first character, whatever it is.
   */
  function InnerQuoteFrom(m: string, j: nat): (i: nat)
    requires 1 <= j <= |m|
    ensures j <= i <= |m|
    ensures i < |m| ==> IsQuote(m[i])
    ensures forall k :: j <= k < i ==> !IsQuote(m[k])
    decreases |m| - j
  {
    if j == |m| || IsQuote(m[j]) then j else InnerQuoteFrom(m, j + 1)
  }

  /**
   * For a non-empty single-line M between any two quotes, the regex matches
   * at the start and group 1 is M cut at its first quote after the first
   * character (all of M when there is none).
   */
  lemma QuotedCommandCut(m: string, open: char, close: char)
    requires m != [] && '\n' !in m
    requires IsQuote(open) && IsQuote(close)
    ensures NormaliseMessage(Literal + [open] + m + [close]) == m[..InnerQuoteFrom(m, 1)]
  {
    var s := Literal + [open] + m + [close];
    var g := GroupStart(0);
    var e := g + InnerQuoteFrom(m, 1);
    assert s[..|Literal|] == Literal;
    assert s[..|CommandPrefix|] == CommandPrefix;
    assert s[g..e] == m[..InnerQuoteFrom(m, 1)];
    assert NewlineFree(s, g, e) by {
      forall i | g <= i < e ensures s[i] != '\n' {
        assert s[i] == m[i - g];
      }
    }
    assert IsQuote(s[e]);
    assert MatchesAt(s, 0, e);
    forall k | g < k < e ensures !IsQuote(s[k]) {
      assert s[k] == m[k - g];
    }
    assert IsFirstMatch(s, 0, e);
    var p', e' :| IsFirstMatch(s, p', e') && Group(s).value == s[GroupStart(p')..e'];
    FirstMatchUnique(s, 0, e, p', e');
  }

  /**
   * `git commit -m "M"` and `git commit -m 'M'` (either quote at either end)
   * normalise to exactly M when M is non-empty, has no newline and no quote
   * after its first character.
   */
  lemma QuotedCommandRoundTrip(m: string, open: char, close: char)
    requires m != [] && '\n' !in m && NoQuoteAfterFirst(m)
    requires IsQuote(open) && IsQuote(close)
    ensures NormaliseMessage(Literal + [open] + m + [close]) == m
  {
    QuotedCommandCut(m, open, close);
  }

  /**
   * A non-empty single-line message comes back from its suggested command
   * exactly when no quote follows its first character.
   */
  lemma SingleLineRoundTripExactly(m: string)
    requires m != [] && '\n' !in m
    ensures NormaliseMessage(GitCommand(m)) == m <==> NoQuoteAfterFirst(m)
  {
    assert GitCommand(m) == Literal + ['"'] + m + ['"'];
    QuotedCommandCut(m, '"', '"');
    assert |m[..InnerQuoteFrom(m, 1)]| == InnerQuoteFrom(m, 1);
  }

  /**
   * The fallback undoes `GitCommand` for quote-free messages that the regex
   * cannot match: the empty message and multi-line messages, as long as
   * `git commit -m` does not occur inside them.
   */
  lemma FallbackRoundTrip(m: string)
    requires QuoteFree(m) && (m == [] || '\n' in m)
    requires forall i :: !OccursAt(m, CommandPrefix, i)
    ensures NormaliseMessage(GitCommand(m)) == m
  {
    NoGroupInCommand(m);
    var t := CommandRemoved(m);
    var quoted := StripPadding(m, t);
    StripQuotes(m, quoted);
  }

  /** `replace('git commit -m', '')` on `GitCommand(m)` leaves ` "<m>"`. */
  lemma CommandRemoved(m: string) returns (t: string)
    requires QuoteFree(m)
    requires forall i :: !OccursAt(m, CommandPrefix, i)
    ensures t == " \"" + m + "\""
    ensures RemoveAll(GitCommand(m), CommandPrefix) == t
  {
    t := " \"" + m + "\"";
    assert GitCommand(m) == CommandPrefix + t;
    RemoveAllLeading(CommandPrefix, t);
    forall i ensures !OccursAt(t, CommandPrefix, i) {
      NotInQuotedTail(m, t, i);
    }
    RemoveAllAbsent(t, CommandPrefix);
  }

  /** `strip()` on ` "<m>"` drops the one leading space. */
  lemma StripPadding(m: string, t: string) returns (quoted: string)
    requires t == " \"" + m + "\""
    ensures quoted == "\"" + m + "\""
    ensures Strip(t, Whitespace) == quoted
  {
    quoted := t[1..];
    assert ' ' in Whitespace && '"' !in Whitespace;
    StripExact(t, Whitespace, 1, |t|);
  }

  /** `strip('"')` then `strip("'")` on `"<m>"` give back a quote-free `m`. */
  lemma StripQuotes(m: string, quoted: string)
    requires QuoteFree(m) && quoted == "\"" + m + "\""
    ensures Strip(Strip(quoted, {'"'}), {'\''}) == m
  {
    if m == [] {
      StripExact(quoted, {'"'}, 1, 1);
    } else {
      assert quoted[1..|quoted| - 1] == m;
      StripExact(quoted, {'"'}, 1, |quoted| - 1);
      StripKeepsUnpadded(m, {'\''});
    }
  }

  /** `git commit -m` cannot start inside the padding `t` around a quote-free `m`. */
  lemma NotInQuotedTail(m: string, t: string, i: int)
    requires QuoteFree(m) && t == " \"" + m + "\""
    requires forall i :: !OccursAt(m, CommandPrefix, i)
    ensures !OccursAt(t, CommandPrefix, i)
  {
    var n := |CommandPrefix|;
    if 0 <= i < 2 && i + n <= |t| {
      assert t[i..i + n][0] == t[i] != 'g';
    } else if 2 <= i && i + n <= |m| + 2 {
      assert t[i..i + n] == m[i - 2..i - 2 + n];
      assert !OccursAt(m, CommandPrefix, i - 2);
    } else if 2 <= i && i + n == |t| {
      assert t[i..i + n][n - 1] == t[|t| - 1] == '"';
    }
  }

  /**
   * The regex finds no match in `GitCommand(m)` when the message is empty or
   * multi-line and quote-free: the only quotes are the two delimiters, and
   * the newline stops the group between them.
   */
  lemma NoGroupInCommand(m: string)
    requires QuoteFree(m) && (m == [] || '\n' in m)
    ensures Group(GitCommand(m)).None?
  {
    var s := GitCommand(m);
    var g := GroupStart(0);
    forall p, e ensures !MatchesAt(s, p, e) {
      if p == 0 && g < e < |s| - 1 {
        assert s[e] == m[e - g];
      } else if p == 0 && e == |s| - 1 && m != [] {
        var k :| 0 <= k < |m| && m[k] == '\n';
        assert s[g + k] == m[k];
        assert !NewlineFree(s, g, e);
      } else if 0 < p && p + |Literal| < |s| - 1 {
        assert s[p + |Literal|] == m[p - 1];
      }
    }
  }

  /** `strip(cs)` on a string whose kept slice is known to be `s[i..j]`. */
  lemma StripExact(s: string, cs: set<char>, i: int, j: int)
    requires 0 <= i <= j <= |s|
    requires forall k :: 0 <= k < i ==> s[k] in cs
    requires forall k :: j <= k < |s| ==> s[k] in cs
    requires i == j || (s[i] !in cs && s[j - 1] !in cs)
    ensures Strip(s, cs) == s[i..j]
  {
    var r := Strip(s, cs);
    var a := SkipLeading(s, cs, 0);
    StripIsSlice(s, cs);
    if i == j {
      assert forall k :: 0 <= k < |s| ==> s[k] in cs;
    } else {
      assert r != [];
      assert r[0] == s[a] && r[|r| - 1] == s[a + |r| - 1];
    }
  }

  /**
   * The messages that survive the suggested command: single-line ones with
   * no quote after the first character (the regex path), and quote-free ones
   * in which `git commit -m` does not occur (which the fallback recovers when
   * the regex cannot match).
   */
  ghost predicate Recoverable(m: string) {
    || (m != [] && '\n' !in m && NoQuoteAfterFirst(m))
    || (QuoteFree(m) && forall i :: !OccursAt(m, CommandPrefix, i))
  }

  /** Every recoverable message comes back unchanged from the command the server suggests for it. */
  lemma GitCommandRoundTrip(m: string)
    requires Recoverable(m)
    ensures NormaliseMessage(GitCommand(m)) == m
  {
    if m != [] && '\n' !in m && NoQuoteAfterFirst(m) {
      QuotedCommandRoundTrip(m, '"', '"');
    } else {
      FallbackRoundTrip(m);
    }
  }

  /**
   * The round trip is lossy for a message with a quote after its first
   * character: the lazy group stops there, so `git commit -m "a"b"`
   * normalises to `a`.
   */
  lemma EmbeddedQuoteTruncates()
    ensures NormaliseMessage(GitCommand("a\"b")) == "a"
  {
    var s := GitCommand("a\"b");
    var e := GroupStart(0) + 1;
    assert s[e] == '"';
    assert MatchesAt(s, 0, e);
    NoMatchAtExcludes(s, 0, e);
    assert s[GroupStart(0)..e] == "a";
  }
}
