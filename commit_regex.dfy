/** A small `Option`, for searches that may find nothing. */
module Options {
  datatype Option<+T> = None | Some(value: T)
}

/**
 * Python's `re.search(r'git commit -m ["\'](.+?)["\']', message)` and its
 * group 1, written out as the backtracking engine runs it: start positions
 * are tried from left to right, and at each one the lazy `.+?` takes the
 * shortest run of one or more characters other than a newline that is
 * followed by a quote.
 */
module CommitRegex {
  import opened Options

  /** The literal part of the pattern; note the space after `-m`. */
  const Literal: string := "git commit -m "

  /** The character class `["\']`. */
  predicate IsQuote(c: char) {
    c == '"' || c == '\''
  }

  /** No quote follows the first character of `m` (the first one may be a quote). */
  predicate NoQuoteAfterFirst(m: string) {
    forall i :: 1 <= i < |m| ==> !IsQuote(m[i])
  }

  /** Nothing in `s[lo..hi]` is a newline, so `.` matches each of those characters. */
  predicate NewlineFree(s: string, lo: int, hi: int)
    requires 0 <= lo <= hi <= |s|
  {
    forall i :: lo <= i < hi ==> s[i] != '\n'
  }

  /** Index of the first character of group 1 for a match starting at `p`. */
  function GroupStart(p: int): int {
    p + |Literal| + 1
  }

  /**
   * The pattern matches `s` starting at `p` with its closing quote at `e`,
   * so that group 1 is `s[GroupStart(p)..e]`.
   */
  predicate MatchesAt(s: string, p: int, e: int) {
    && 0 <= p
    && GroupStart(p) < e < |s|
    && s[p..p + |Literal|] == Literal
    && IsQuote(s[p + |Literal|])
    && IsQuote(s[e])
    && NewlineFree(s, GroupStart(p), e)
  }

  /** No closing quote makes the pattern match at `p`. */
  ghost predicate NoMatchAt(s: string, p: int) {
    forall e :: !MatchesAt(s, p, e)
  }

  /**
   * The match `re.search` reports: the leftmost start position at which the
   * pattern matches at all, and there the nearest closing quote (`+?` is lazy).
   */
  ghost predicate IsFirstMatch(s: string, p: int, e: int) {
    && MatchesAt(s, p, e)
    && (forall q :: 0 <= q < p ==> NoMatchAt(s, q))
    && (forall e' :: e' < e ==> !MatchesAt(s, p, e'))
  }

  /**
   * The lazy group, with `.` about to consume `s[j]`: returns the index of
   * the first quote after the consumed run, or None once `.` cannot consume.
   */
  function GroupEnd(s: string, j: nat): (r: Option<nat>)
    ensures r.Some? ==> j < r.value < |s| && IsQuote(s[r.value]) && NewlineFree(s, j, r.value)
    ensures r.Some? ==> forall i :: j < i < r.value ==> !IsQuote(s[i])
    ensures r.None? ==> forall e :: j < e < |s| && IsQuote(s[e]) ==> !NewlineFree(s, j, e)
    decreases |s| - j
  {
    if j >= |s| || s[j] == '\n' then None
    else if j + 1 < |s| && IsQuote(s[j + 1]) then Some(j + 1)
    else GroupEnd(s, j + 1)
  }

  /** The attempt at start position `p`: the closing quote of the match there, if any. */
  function MatchFrom(s: string, p: nat): (r: Option<nat>)
    ensures r.Some? ==> MatchesAt(s, p, r.value)
    ensures r.Some? ==> forall e :: e < r.value ==> !MatchesAt(s, p, e)
    ensures r.None? ==> NoMatchAt(s, p)
  {
    if p + |Literal| < |s| && s[p..p + |Literal|] == Literal && IsQuote(s[p + |Literal|]) then
      GroupEnd(s, GroupStart(p))
    else
      None
  }

  /** The scan over start positions `p`, `p + 1`, ... up to `|s|`. */
  function SearchFrom(s: string, p: nat): (r: Option<(nat, nat)>)
    ensures r.Some? ==> p <= r.value.0 && MatchesAt(s, r.value.0, r.value.1)
    ensures r.Some? ==> forall q :: p <= q < r.value.0 ==> NoMatchAt(s, q)
    ensures r.Some? ==> forall e :: e < r.value.1 ==> !MatchesAt(s, r.value.0, e)
    ensures r.None? ==> forall q :: p <= q ==> NoMatchAt(s, q)
    decreases |s| + 1 - p
  {
    if p > |s| then None
    else match MatchFrom(s, p)
      case Some(e) => Some((p, e))
      case None => SearchFrom(s, p + 1)
  }

  /** `re.search(...)`: the start of the match and the index of its closing quote. */
  function Search(s: string): (r: Option<(nat, nat)>)
    ensures r.Some? ==> IsFirstMatch(s, r.value.0, r.value.1)
    ensures r.None? ==> forall p, e :: !MatchesAt(s, p, e)
  {
    var r := SearchFrom(s, 0);
    assert r.None? ==> forall p, e :: !MatchesAt(s, p, e) by {
      forall p, e | r.None? ensures !MatchesAt(s, p, e) {
        if 0 <= p { assert NoMatchAt(s, p); }
      }
    }
    r
  }

  /** `match.group(1)` when `re.search` succeeds. */
  function Group(s: string): (r: Option<string>)
    ensures r.Some? ==> exists p, e :: IsFirstMatch(s, p, e) && r.value == s[GroupStart(p)..e]
    ensures r.None? ==> forall p, e :: !MatchesAt(s, p, e)
  {
    match Search(s)
    case Some((p, e)) => Some(s[GroupStart(p)..e])
    case None => None
  }

  /** The leftmost-then-lazy match is unique, so `Group` is determined by `IsFirstMatch`. */
  lemma FirstMatchUnique(s: string, p: int, e: int, p': int, e': int)
    requires IsFirstMatch(s, p, e) && IsFirstMatch(s, p', e')
    ensures p == p' && e == e'
  {
    NoMatchAtExcludes(s, p, e);
    NoMatchAtExcludes(s, p', e');
    assert p == p';
    assert MatchesAt(s, p, e') && MatchesAt(s, p', e);
  }

  /** Unfolds `NoMatchAt` for one closing position `e`. */
  lemma NoMatchAtExcludes(s: string, p: int, e: int)
    ensures NoMatchAt(s, p) ==> !MatchesAt(s, p, e)
  {
  }

  /**
   * What group 1 can be: never empty, never holding a newline, and with no
   * quote after its first character (a quote there would have closed the
   * lazy group earlier).
   */
  lemma GroupShape(s: string)
    requires Group(s).Some?
    ensures var m := Group(s).value;
      m != [] && '\n' !in m && NoQuoteAfterFirst(m)
  {
    var m := Group(s).value;
    var p, e := Search(s).value.0, Search(s).value.1;
    assert m == s[GroupStart(p)..e];
    forall i | 0 <= i < |m| ensures m[i] != '\n' {
      assert m[i] == s[GroupStart(p) + i];
    }
    forall i | 1 <= i < |m| ensures !IsQuote(m[i]) {
      var k := GroupStart(p) + i;
      assert m[i] == s[k];
      if IsQuote(s[k]) {
        assert MatchesAt(s, p, k);
      }
    }
  }
}
