/**
 * The few Python `str` operations the server relies on, over `seq<char>`:
 * `startswith`, `strip(chars)` and `replace(old, '')`.
 */
module PyText {

  /** `s.startswith(p)`. */
  predicate StartsWith(s: string, p: string) {
    |p| <= |s| && s[..|p|] == p
  }

  /** `s.startswith(p)` compares the first `|p|` characters one by one. */
  lemma StartsWithPointwise(s: string, p: string)
    ensures StartsWith(s, p) <==> |p| <= |s| && forall i :: 0 <= i < |p| ==> s[i] == p[i]
  {
    if |p| <= |s| && forall i :: 0 <= i < |p| ==> s[i] == p[i] {
      assert s[..|p|] == p;
    }
  }

  /** `p` occurs in `s` at index `i`. */
  predicate OccursAt(s: string, p: string, i: int) {
    0 <= i && i + |p| <= |s| && s[i..i + |p|] == p
  }

  /**
   * The characters for which Python's `str.isspace()` holds; `str.strip()`
   * with no argument removes exactly these.
   */
  const Whitespace: set<char> :=
    {'\t', '\n', '\U{B}', '\U{C}', '\r', '\U{1C}', '\U{1D}', '\U{1E}', '\U{1F}', ' ',
     '\U{85}', '\U{A0}', '\U{1680}',
     '\U{2000}', '\U{2001}', '\U{2002}', '\U{2003}', '\U{2004}', '\U{2005}', '\U{2006}',
     '\U{2007}', '\U{2008}', '\U{2009}', '\U{200A}',
     '\U{2028}', '\U{2029}', '\U{202F}', '\U{205F}', '\U{3000}'}

  /**
   * Where the `lstrip` part of `s.strip(cs)` stops when scanning from `i`:
   * the first index at or after `i` whose character is not in `cs`, or `|s|`.
   */
  function SkipLeading(s: string, cs: set<char>, i: nat): (k: nat)
    requires i <= |s|
    ensures i <= k <= |s|
    ensures k < |s| ==> s[k] !in cs
    decreases |s| - i
  {
    if i < |s| && s[i] in cs then SkipLeading(s, cs, i + 1) else i
  }

  /** Every character `SkipLeading` passes over is in `cs`. */
  lemma {:induction false} SkipLeadingPassesOnly(s: string, cs: set<char>, i: nat)
    requires i <= |s|
    ensures forall k :: i <= k < SkipLeading(s, cs, i) ==> s[k] in cs
    decreases |s| - i
  {
    if i < |s| && s[i] in cs {
      SkipLeadingPassesOnly(s, cs, i + 1);
    }
  }

  /**
   * Where the `rstrip` part stops when scanning down from `j` and not below
   * `lo`: the end of the kept slice, whose last character is not in `cs`.
   */
  function SkipTrailing(s: string, cs: set<char>, lo: nat, j: nat): (k: nat)
    requires lo <= j <= |s|
    ensures lo <= k <= j
    ensures lo < k ==> s[k - 1] !in cs
    decreases j
  {
    if lo < j && s[j - 1] in cs then SkipTrailing(s, cs, lo, j - 1) else j
  }

  /** Every character `SkipTrailing` passes over is in `cs`. */
  lemma {:induction false} SkipTrailingPassesOnly(s: string, cs: set<char>, lo: nat, j: nat)
    requires lo <= j <= |s|
    ensures forall k :: SkipTrailing(s, cs, lo, j) <= k < j ==> s[k] in cs
    decreases j
  {
    if lo < j && s[j - 1] in cs {
      SkipTrailingPassesOnly(s, cs, lo, j - 1);
    }
  }

  /** `s` with `r` cut out of it at index `i`, and only characters of `cs` around it. */
  predicate StrippedAt(s: string, cs: set<char>, r: string, i: int) {
    && 0 <= i <= |s| - |r|
    && r == s[i..i + |r|]
    && (forall k :: 0 <= k < i ==> s[k] in cs)
    && (forall k :: i + |r| <= k < |s| ==> s[k] in cs)
  }

  /**
   * `s.strip(cs)`: the slice of `s` left once every leading and trailing
   * character in `cs` is removed. Neither end of the result is in `cs`;
   * `StripIsSlice` says that nothing else was removed.
   */
  function Strip(s: string, cs: set<char>): (r: string)
    ensures |r| <= |s|
    ensures r == [] || (r[0] !in cs && r[|r| - 1] !in cs)
  {
    var a := SkipLeading(s, cs, 0);
    s[a..SkipTrailing(s, cs, a, |s|)]
  }

  /**
   * `strip` keeps one slice of `s` and removes only characters of `cs`
   * before and after it.
   */
  lemma StripIsSlice(s: string, cs: set<char>)
    ensures StrippedAt(s, cs, Strip(s, cs), SkipLeading(s, cs, 0))
  {
    var a := SkipLeading(s, cs, 0);
    SkipLeadingPassesOnly(s, cs, 0);
    SkipTrailingPassesOnly(s, cs, a, |s|);
  }

  /** Stripping a string whose two ends are already outside `cs` changes nothing. */
  lemma StripKeepsUnpadded(s: string, cs: set<char>)
    requires s == [] || (s[0] !in cs && s[|s| - 1] !in cs)
    ensures Strip(s, cs) == s
  {
  }

  /**
   * `s.replace(p, '')` for a non-empty `p`: scanning left to right, every
   * occurrence of `p` that does not overlap an earlier removed one is dropped.
   */
  function RemoveAll(s: string, p: string): (r: string)
    requires p != []
    ensures |r| <= |s|
    decreases |s|
  {
    if |s| < |p| then s
    else if s[..|p|] == p then RemoveAll(s[|p|..], p)
    else [s[0]] + RemoveAll(s[1..], p)
  }

  /** `replace` leaves a string in which `p` does not occur unchanged. */
  lemma {:induction false} RemoveAllAbsent(s: string, p: string)
    requires p != []
    requires forall i :: !OccursAt(s, p, i)
    ensures RemoveAll(s, p) == s
    decreases |s|
  {
    if |s| >= |p| {
      assert !OccursAt(s, p, 0);
      forall i ensures !OccursAt(s[1..], p, i) {
        if OccursAt(s[1..], p, i) {
          assert s[1..][i..i + |p|] == s[i + 1..i + 1 + |p|];
          assert OccursAt(s, p, i + 1);
        }
      }
      RemoveAllAbsent(s[1..], p);
    }
  }

  /** `replace` drops a leading occurrence of `p` and carries on after it. */
  lemma RemoveAllLeading(p: string, t: string)
    requires p != []
    ensures RemoveAll(p + t, p) == RemoveAll(t, p)
  {
    assert (p + t)[..|p|] == p;
    assert (p + t)[|p|..] == t;
  }
}
