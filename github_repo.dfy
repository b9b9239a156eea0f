/**
 * Extraction of a repository name from a GitHub URL.
 *
 * The command compiles the pattern  github.com/[\w-]+/([\w-]+)  and runs an
 * unanchored search over the URL, returning the first group of the leftmost
 * match, or the URL itself (with a console warning) when nothing matches.
 *
 * Python 2 regular-expression semantics, written out:
 *  - `.` is a wildcard: any character except a newline (no DOTALL flag);
 *  - `\w` on a byte string without LOCALE or UNICODE is [A-Za-z0-9_];
 *  - the search tries start positions from left to right and, at a position,
 *    the greedy `+` first tries the longest run.
 *
 * A match at position p is therefore
 *   "github" . "com/" owner "/" repo
 * where owner and repo are non-empty runs of [\w-]: 6 + 1 + 4 + i + 1 + j
 * characters for an owner of length i and a repo of length j.
 */
module GithubRepo {
  import opened Wrappers

  /** `\w` for a Python 2 `str`. */
  predicate IsWordChar(c: char) {
    ('a' <= c <= 'z') || ('A' <= c <= 'Z') || ('0' <= c <= '9') || c == '_'
  }

  /** The character class `[\w-]`. */
  predicate IsSegmentChar(c: char) {
    IsWordChar(c) || c == '-'
  }

  /** The wildcard `.` without DOTALL. */
  predicate IsWildcardChar(c: char) {
    c != '\n'
  }

  /** A non-empty string made only of `[\w-]` characters. */
  predicate IsSegment(s: string) {
    |s| > 0 && forall k :: 0 <= k < |s| ==> IsSegmentChar(s[k])
  }

  /** Every character of s[lo..hi] is in `[\w-]`. */
  predicate SegmentCharsBetween(s: string, lo: nat, hi: nat)
    requires lo <= hi <= |s|
  {
    forall t :: lo <= t < hi ==> IsSegmentChar(s[t])
  }

  /** The fixed part "github" . "com/" of the pattern starts at p (compared character by character). */
  predicate HostAt(s: string, p: nat) {
    && p + 11 <= |s|
    && s[p] == 'g' && s[p + 1] == 'i' && s[p + 2] == 't' && s[p + 3] == 'h' && s[p + 4] == 'u' && s[p + 5] == 'b'
    && IsWildcardChar(s[p + 6])
    && s[p + 7] == 'c' && s[p + 8] == 'o' && s[p + 9] == 'm' && s[p + 10] == '/'
  }

  /**
   * Reference semantics of the pattern: it matches s at position p with an
   * owner of length i and a captured repo of length j.
   */
  ghost predicate MatchesWith(s: string, p: nat, i: nat, j: nat) {
    && p + 12 + i + j <= |s|
    && HostAt(s, p)
    && 0 < i && SegmentCharsBetween(s, p + 11, p + 11 + i)
    && s[p + 11 + i] == '/'
    && 0 < j && SegmentCharsBetween(s, p + 12 + i, p + 12 + i + j)
  }

  /**
   * The match Python's `search` reports: the leftmost start position, and at
   * that position the longest runs the greedy quantifiers can take.
   */
  ghost predicate LeftmostGreedyMatch(s: string, p: nat, i: nat, j: nat) {
    && MatchesWith(s, p, i, j)
    && (forall q: nat, i': nat, j': nat :: q < p ==> !MatchesWith(s, q, i', j'))
    && (forall i': nat, j': nat :: MatchesWith(s, p, i', j') ==> i' == i && j' <= j)
  }

  /** Length of the longest `[\w-]` run starting at k. */
  function RunLength(s: string, k: nat): (n: nat)
    requires k <= |s|
    ensures k + n <= |s|
    ensures SegmentCharsBetween(s, k, k + n)
    ensures k + n == |s| || !IsSegmentChar(s[k + n])
    decreases |s| - k
  {
    if k < |s| && IsSegmentChar(s[k]) then 1 + RunLength(s, k + 1) else 0
  }

  /** A run of `[\w-]` characters ending before a non-member is exactly RunLength long. */
  lemma RunLengthExact(s: string, k: nat, n: nat)
    requires k + n <= |s|
    requires SegmentCharsBetween(s, k, k + n)
    requires k + n == |s| || !IsSegmentChar(s[k + n])
    ensures RunLength(s, k) == n
  {
  }

  /** Any run of `[\w-]` characters starting at k is at most RunLength long. */
  lemma RunLengthMaximal(s: string, k: nat, n: nat)
    requires k + n <= |s|
    requires SegmentCharsBetween(s, k, k + n)
    ensures n <= RunLength(s, k)
  {
  }

  /** What the compiled pattern captures when its match starts exactly at p. */
  function MatchAt(s: string, p: nat): (c: Option<string>)
    requires p <= |s|
    ensures c.Some? ==> IsSegment(c.value)
  {
    if HostAt(s, p) then
      var i := RunLength(s, p + 11);
      if 0 < i && p + 11 + i < |s| && s[p + 11 + i] == '/' then
        var j := RunLength(s, p + 12 + i);
        if 0 < j then
          var c := s[p + 12 + i..p + 12 + i + j];
          assert forall k :: 0 <= k < |c| ==> c[k] == s[p + 12 + i + k];
          Some(c)
        else None
      else None
    else None
  }

  /**
   * When MatchAt captures, the reference semantics matches with the owner run
   * and the longest repo run, and every other match at p has the same owner
   * and a repo no longer than the captured one.
   */
  lemma {:induction false} MatchAtSound(s: string, p: nat) returns (i: nat, j: nat)
    requires p <= |s| && MatchAt(s, p).Some?
    ensures MatchesWith(s, p, i, j)
    ensures forall i': nat, j': nat :: MatchesWith(s, p, i', j') ==> i' == i && j' <= j
    ensures MatchAt(s, p).value == s[p + 12 + i..p + 12 + i + j]
  {
    i := RunLength(s, p + 11);
    j := RunLength(s, p + 12 + i);
    forall i': nat, j': nat | MatchesWith(s, p, i', j')
      ensures i' == i && j' <= j
    {
      MatchAtUnique(s, p, i', j');
    }
  }

  /** Any match at p has the owner run RunLength gives, and a repo run no longer than RunLength's. */
  lemma MatchAtUnique(s: string, p: nat, i: nat, j: nat)
    requires MatchesWith(s, p, i, j)
    ensures i == RunLength(s, p + 11) && j <= RunLength(s, p + 12 + i)
  {
    RunLengthExact(s, p + 11, i);
    RunLengthMaximal(s, p + 12 + i, j);
  }

  /** Whenever the reference semantics matches at p, so does MatchAt. */
  lemma {:induction false} MatchAtComplete(s: string, p: nat, i: nat, j: nat)
    requires MatchesWith(s, p, i, j)
    ensures MatchAt(s, p).Some?
  {
    RunLengthExact(s, p + 11, i);
    RunLengthMaximal(s, p + 12 + i, j);
  }

  /**
   * Unanchored search from position `from`: the first position at which the
   * pattern matches, with its capture, or None when no position from `from`
   * on matches.
   */
  function Search(s: string, from: nat): (r: Option<(nat, string)>)
    requires from <= |s|
    ensures r.Some? ==> from <= r.value.0 <= |s| && MatchAt(s, r.value.0) == Some(r.value.1)
    ensures forall q :: from <= q <= |s| && (r.None? || q < r.value.0) ==> MatchAt(s, q).None?
    decreases |s| - from
  {
    match MatchAt(s, from)
    case Some(c) => Some((from, c))
    case None => if from == |s| then None else Search(s, from + 1)
  }

  /** The result of `extract_github_repo`: the value used as repo and the console warning, if any. */
  datatype Extraction = Extraction(repo: string, warning: Option<string>)

  /** The warning printed for a URL the pattern does not match. */
  function MalformedUrlWarning(url: string): string {
    "WARNING: malformed github url: " + url + ", using value as is"
  }

  /** `extract_github_repo`: the captured repo of the leftmost match, or the URL itself with a warning. */
  function ExtractGithubRepo(url: string): (r: Extraction)
    ensures r.warning.None? <==> Search(url, 0).Some?
    ensures r.warning.None? ==> IsSegment(r.repo) && r.repo == Search(url, 0).value.1
    ensures r.warning.Some? ==> r.repo == url && r.warning.value == MalformedUrlWarning(url)
  {
    match Search(url, 0)
    case None => Extraction(url, Some(MalformedUrlWarning(url)))
    case Some((_, c)) => Extraction(c, None)
  }

  /** When the search finds a position, the capture there is the group of the leftmost, greedy match. */
  lemma {:induction false} SearchFindsLeftmostGreedy(url: string) returns (p: nat, i: nat, j: nat)
    requires Search(url, 0).Some?
    ensures LeftmostGreedyMatch(url, p, i, j)
    ensures Search(url, 0).value.1 == url[p + 12 + i..p + 12 + i + j]
  {
    p := Search(url, 0).value.0;
    i, j := MatchAtSound(url, p);
    forall q: nat, i': nat, j': nat | q < p && MatchesWith(url, q, i', j')
      ensures false
    {
      MatchAtComplete(url, q, i', j');
    }
  }

  /** When the search finds nothing, no substring matches the pattern. */
  lemma {:induction false} SearchNoneMeansNoMatch(url: string)
    requires Search(url, 0).None?
    ensures forall p: nat, i: nat, j: nat :: !MatchesWith(url, p, i, j)
  {
    forall p: nat, i: nat, j: nat | MatchesWith(url, p, i, j)
      ensures false
    {
      MatchAtComplete(url, p, i, j);
    }
  }

  /** A URL in which the pattern matches yields the group of the leftmost, greedy match, without a warning. */
  lemma {:induction false} ExtractMatched(url: string)
    requires Search(url, 0).Some?
    ensures ExtractGithubRepo(url).warning.None?
    ensures exists p: nat, i: nat, j: nat ::
      LeftmostGreedyMatch(url, p, i, j) && ExtractGithubRepo(url).repo == url[p + 12 + i..p + 12 + i + j]
  {
    var p, i, j := SearchFindsLeftmostGreedy(url);
    assert LeftmostGreedyMatch(url, p, i, j) && ExtractGithubRepo(url).repo == url[p + 12 + i..p + 12 + i + j];
  }

  /**
   * The extraction against the reference semantics of the pattern: no warning
   * exactly when some substring matches, and then the repo is the group of the
   * leftmost, greedy match; otherwise the URL comes back unchanged.
   */
  lemma {:induction false} ExtractGithubRepoCorrect(url: string)
    ensures ExtractGithubRepo(url).warning.None? <==> exists p: nat, i: nat, j: nat :: MatchesWith(url, p, i, j)
    ensures ExtractGithubRepo(url).warning.None? ==>
      exists p: nat, i: nat, j: nat :: LeftmostGreedyMatch(url, p, i, j) && ExtractGithubRepo(url).repo == url[p + 12 + i..p + 12 + i + j]
    ensures ExtractGithubRepo(url).warning.Some? ==> ExtractGithubRepo(url).repo == url
  {
    if Search(url, 0).Some? {
      ExtractMatched(url);
    } else {
      SearchNoneMeansNoMatch(url);
    }
  }

  /** A capture at p with no match before p is what the extraction returns. */
  lemma {:induction false} ExtractFirstMatch(s: string, p: nat, c: string)
    requires p <= |s| && MatchAt(s, p) == Some(c)
    requires forall q :: 0 <= q < p ==> !HostAt(s, q)
    ensures ExtractGithubRepo(s) == Extraction(c, None)
  {
    var found := Search(s, 0);
    assert found.Some? && found.value.0 <= p;
    assert HostAt(s, found.value.0);
  }

  /** Where the pattern matches at p and the repo run cannot be extended, MatchAt captures exactly that run. */
  lemma {:induction false} MatchAtMaximalRun(s: string, p: nat, i: nat, j: nat)
    requires MatchesWith(s, p, i, j)
    requires p + 12 + i + j == |s| || !IsSegmentChar(s[p + 12 + i + j])
    ensures MatchAt(s, p) == Some(s[p + 12 + i..p + 12 + i + j])
  {
    RunLengthExact(s, p + 11, i);
    RunLengthExact(s, p + 12 + i, j);
  }

  /**
   * A string whose only host part ("github", any character, "com/") is at its
   * end, followed by an owner, a slash and a repo, yields that repo.
   */
  lemma {:induction false} ExtractAfterHost(pre: string, owner: string, repo: string)
    requires |pre| >= 11 && HostAt(pre, |pre| - 11)
    requires forall q :: 0 <= q < |pre| - 11 ==> !HostAt(pre, q)
    requires IsSegment(owner) && IsSegment(repo)
    ensures ExtractGithubRepo(pre + owner + "/" + repo) == Extraction(repo, None)
  {
    var s := pre + owner + "/" + repo;
    var p, i, j := |pre| - 11, |owner|, |repo|;
    assert forall t :: 0 <= t < |pre| ==> s[t] == pre[t];
    assert HostAt(s, p);
    forall q | 0 <= q < p ensures !HostAt(s, q) {
      assert !HostAt(pre, q);
    }
    assert s[p + 11 + i] == '/';
    assert SegmentCharsBetween(s, p + 11, p + 11 + i) by {
      forall t | p + 11 <= t < p + 11 + i ensures IsSegmentChar(s[t]) {
        assert s[t] == owner[t - p - 11];
      }
    }
    assert SegmentCharsBetween(s, p + 12 + i, p + 12 + i + j) by {
      forall t | p + 12 + i <= t < p + 12 + i + j ensures IsSegmentChar(s[t]) {
        assert s[t] == repo[t - p - 12 - i];
      }
    }
    MatchAtMaximalRun(s, p, i, j);
    assert s[p + 12 + i..p + 12 + i + j] == repo;
    ExtractFirstMatch(s, p, repo);
  }

  /** Any repository page URL yields the repository's short name. */
  lemma {:induction false} ExtractFromRepositoryUrl(owner: string, repo: string)
    requires IsSegment(owner) && IsSegment(repo)
    ensures ExtractGithubRepo("https://github.com/" + owner + "/" + repo) == Extraction(repo, None)
  {
    var pre := "https://github.com/";
    assert HostAt(pre, 8);
    assert forall q :: 0 <= q < 8 ==> pre[q] != 'g';
    ExtractAfterHost(pre, owner, repo);
  }

  /** A URL on another host is returned unchanged, with the warning. */
  lemma ExtractFromOtherHost()
    ensures ExtractGithubRepo("https://example.com/x") ==
      Extraction("https://example.com/x", Some(MalformedUrlWarning("https://example.com/x")))
  {
    var s := "https://example.com/x";
    assert forall q :: 0 <= q < |s| ==> s[q] != 'g';
  }

  /** The `.` of the pattern is a wildcard: any character but a newline may stand between "github" and "com/". */
  lemma {:induction false} WildcardHost(c: char, owner: string, repo: string)
    requires c != '\n'
    requires IsSegment(owner) && IsSegment(repo)
    ensures ExtractGithubRepo("github" + [c] + "com/" + owner + "/" + repo) == Extraction(repo, None)
  {
    var pre := "github" + [c] + "com/";
    assert HostAt(pre, 0);
    ExtractAfterHost(pre, owner, repo);
  }
}
