/**
 * Extraction of owner and repository name from a repository URL, exactly as
 * `repoUrl.match(/github\.com\/([^/]+)\/([^/]+)/)` does it: the pattern is
 * not anchored, so it is tried at every start position from the left, and
 * nothing after the repository name (`?query`, `#fragment`, `.git`) is
 * stripped unless a `/` ends it.
 */
module RepoUrl {
  import opened Wrappers

  /** The two capture groups of a successful match. */
  datatype RepoRef = RepoRef(owner: string, repo: string)

  /** The literal part of the pattern, `github\.com\/`. */
  const Host: string := "github.com/"

  /** The end of the run of non-`/` characters of `s` that starts at `j` (what greedy `[^/]+` consumes). */
  function RunEnd(s: string, j: nat): (e: nat)
    requires j <= |s|
    ensures j <= e <= |s|
    ensures forall k :: j <= k < e ==> s[k] != '/'
    ensures e == |s| || s[e] == '/'
    decreases |s| - j
  {
    if j == |s| || s[j] == '/' then j else RunEnd(s, j + 1)
  }

  /**
   * The pattern tried at start position `i` only. Greedy `[^/]+` followed by
   * `/` leaves no room for backtracking: any shorter run is followed by a
   * character that is not `/`, so each group has only one candidate.
   */
  function MatchAt(s: string, i: nat): Option<RepoRef>
  {
    if i + |Host| <= |s| && s[i..i + |Host|] == Host then
      var j := i + |Host|;
      var k := RunEnd(s, j);
      if j < k && k + 1 < |s| && s[k + 1] != '/' then
        Some(RepoRef(s[j..k], s[k + 1..RunEnd(s, k + 1)]))
      else
        None
    else
      None
  }

  /** The leftmost match at or after position `i`. */
  function FirstMatchFrom(s: string, i: nat): Option<RepoRef>
    requires i <= |s|
    decreases |s| - i
  {
    if i == |s| then None
    else if MatchAt(s, i).Some? then MatchAt(s, i)
    else FirstMatchFrom(s, i + 1)
  }

  /**
   * `repoUrl.match(...)`: the capture groups of the leftmost match, or None
   * where JavaScript returns null.
   */
  function ParseRepoUrl(url: string): (r: Option<RepoRef>)
    ensures r.None? <==> forall m: int, x :: !MatchesAt(url, m, x)
    ensures r.Some? ==>
      exists m: int :: MatchesAt(url, m, r.value) && forall m': int, x :: m' < m ==> !MatchesAt(url, m', x)
    ensures r.Some? ==> r.value.owner != "" && '/' !in r.value.owner
    ensures r.Some? ==> r.value.repo != "" && '/' !in r.value.repo
  {
    FirstMatchFromIsLeftmost(url, 0);
    FirstMatchFrom(url, 0)
  }

  /** A name the pattern's `[^/]+` can capture. */
  ghost predicate IsSegment(x: string)
  {
    x != "" && '/' !in x
  }

  /**
   * Declarative reading of the pattern at position `i`: `s` has
   * `github.com/`, then the owner, then `/`, then the repository name there;
   * both names are non-empty and free of `/`, and the repository name runs up
   * to the next `/` or the end of `s`.
   */
  ghost predicate MatchesAt(s: string, i: int, r: RepoRef)
  {
    var j := i + |Host|;
    var k := j + |r.owner|;
    var e := k + 1 + |r.repo|;
    && 0 <= i
    && e <= |s|
    && s[i..j] == Host
    && s[j..k] == r.owner
    && s[k] == '/'
    && s[k + 1..e] == r.repo
    && IsSegment(r.owner)
    && IsSegment(r.repo)
    && (e == |s| || s[e] == '/')
  }

  /** A run end is determined by where the first `/` (or the end) is. */
  lemma RunEndIs(s: string, j: nat, e: nat)
    requires j <= e <= |s|
    requires forall k :: j <= k < e ==> s[k] != '/'
    requires e == |s| || s[e] == '/'
    ensures RunEnd(s, j) == e
  {
  }

  /** What the computed match at `i` returns satisfies the declarative reading. */
  lemma MatchAtSound(s: string, i: nat)
    requires MatchAt(s, i).Some?
    ensures MatchesAt(s, i, MatchAt(s, i).value)
  {
    var r := MatchAt(s, i).value;
    var j := i + |Host|;
    var k := RunEnd(s, j);
    var e := RunEnd(s, k + 1);
    assert r.owner == s[j..k] && r.repo == s[k + 1..e];
    assert '/' !in r.owner by {
      forall n | 0 <= n < |r.owner| ensures r.owner[n] != '/' {
        assert r.owner[n] == s[j + n];
      }
    }
    assert '/' !in r.repo by {
      forall n | 0 <= n < |r.repo| ensures r.repo[n] != '/' {
        assert r.repo[n] == s[k + 1 + n];
      }
    }
  }

  /** A segment laid out at `j` is exactly the run greedy `[^/]+` consumes from `j` when a `/` or the end follows it. */
  lemma SegmentRun(s: string, j: nat, x: string)
    requires j + |x| <= |s| && s[j..j + |x|] == x && '/' !in x
    requires j + |x| == |s| || s[j + |x|] == '/'
    ensures RunEnd(s, j) == j + |x|
  {
    forall n | j <= n < j + |x| ensures s[n] != '/' {
      assert s[n] == x[n - j];
    }
    RunEndIs(s, j, j + |x|);
  }

  /** Every declarative match at `i` is the one the computation returns. */
  lemma MatchAtComplete(s: string, i: nat, r: RepoRef)
    requires MatchesAt(s, i, r)
    ensures MatchAt(s, i) == Some(r)
  {
    var j := i + |Host|;
    var k := j + |r.owner|;
    var e := k + 1 + |r.repo|;
    assert s[j..k] == r.owner && s[k + 1..e] == r.repo;
    SegmentRun(s, j, r.owner);
    SegmentRun(s, k + 1, r.repo);
    assert s[k + 1] == r.repo[0];
    MatchAtFound(s, i, k, e);
  }

  /** The match at `i` once both runs are known. */
  lemma MatchAtFound(s: string, i: nat, k: nat, e: nat)
    requires i + |Host| <= |s| && s[i..i + |Host|] == Host
    requires RunEnd(s, i + |Host|) == k && i + |Host| < k && k + 1 < |s| && s[k + 1] != '/'
    requires RunEnd(s, k + 1) == e
    ensures MatchAt(s, i) == Some(RepoRef(s[i + |Host|..k], s[k + 1..e]))
  {
  }

  /** `FirstMatchFrom` finds the leftmost match at or after `i`, and fails only when there is none. */
  lemma {:induction false} FirstMatchFromIsLeftmost(s: string, i: nat)
    requires i <= |s|
    ensures FirstMatchFrom(s, i).None? <==> forall m: int, r :: i <= m ==> !MatchesAt(s, m, r)
    ensures FirstMatchFrom(s, i).Some? ==>
      exists m: int :: i <= m && MatchesAt(s, m, FirstMatchFrom(s, i).value)
                       && forall m': int, r' :: i <= m' < m ==> !MatchesAt(s, m', r')
    decreases |s| - i
  {
    if i == |s| {
      forall m: int, r | i <= m ensures !MatchesAt(s, m, r) {
        assert |Host + r.owner + "/" + r.repo| > 0;
      }
    } else {
      forall r | MatchesAt(s, i, r) ensures MatchAt(s, i) == Some(r) {
        MatchAtComplete(s, i, r);
      }
      if MatchAt(s, i).Some? {
        MatchAtSound(s, i);
      } else {
        FirstMatchFromIsLeftmost(s, i + 1);
        if FirstMatchFrom(s, i).Some? {
          var m :| i + 1 <= m && MatchesAt(s, m, FirstMatchFrom(s, i).value)
                   && forall m': int, r' :: i + 1 <= m' < m ==> !MatchesAt(s, m', r');
          assert forall m': int, r' :: i <= m' < m ==> !MatchesAt(s, m', r');
        }
      }
    }
  }
}

/** Worked inputs showing how literally the pattern is applied. */
module RepoUrlExamples {
  import opened Wrappers
  import opened RepoUrl

  /** The pattern cannot start at a character other than `g`. */
  lemma {:induction false} SkipNonStarts(s: string, i: nat, m: nat)
    requires i <= m <= |s|
    requires forall k :: i <= k < m ==> s[k] != 'g'
    ensures FirstMatchFrom(s, i) == FirstMatchFrom(s, m)
    decreases m - i
  {
    if i < m {
      if i + |Host| <= |s| {
        assert s[i..i + |Host|][0] == s[i] != Host[0];
      }
      SkipNonStarts(s, i + 1, m);
    }
  }

  /** A match at `m` with no `g` before it is what the parser returns. */
  lemma ParsesAt(s: string, m: nat, r: RepoRef)
    requires m <= |s|
    requires forall k :: 0 <= k < m ==> s[k] != 'g'
    requires MatchesAt(s, m, r)
    ensures ParseRepoUrl(s) == Some(r)
  {
    SkipNonStarts(s, 0, m);
    MatchAtComplete(s, m, r);
  }

  /** When the only `g` is at `m` and the pattern fails there, the parser returns None. */
  lemma FailsAt(s: string, m: nat)
    requires m < |s|
    requires forall k :: 0 <= k < |s| && k != m ==> s[k] != 'g'
    requires MatchAt(s, m).None?
    ensures ParseRepoUrl(s) == None
  {
    SkipNonStarts(s, 0, m);
    SkipNonStarts(s, m + 1, |s|);
  }

  /**
   * A URL laid out as a prefix without `g`, `github.com/`, an owner, `/`, a
   * repository name, and then nothing or a `/`-led rest, parses to that owner
   * and repository name.
   */
  lemma ParsesLaidOut(s: string, prefix: string, owner: string, repo: string, rest: string)
    requires s == prefix + Host + owner + "/" + repo + rest
    requires 'g' !in prefix
    requires owner != "" && '/' !in owner && repo != "" && '/' !in repo
    requires rest == [] || rest[0] == '/'
    ensures ParseRepoUrl(s) == Some(RepoRef(owner, repo))
  {
    var m := |prefix|;
    var j := m + |Host|;
    var k := j + |owner|;
    var e := k + 1 + |repo|;
    assert s[m..j] == Host;
    assert s[j..k] == owner;
    assert s[k] == '/';
    assert s[k + 1..e] == repo;
    assert e == |s| || s[e] == rest[0];
    forall n | 0 <= n < m ensures s[n] != 'g' {
      assert s[n] == prefix[n];
    }
    ParsesAt(s, m, RepoRef(owner, repo));
  }

  lemma CanonicalUrl(s: string)
    requires s == "https://github.com/octocat/Hello-World"
    ensures ParseRepoUrl(s) == Some(RepoRef("octocat", "Hello-World"))
  {
    CanonicalLayout(s);
    ParsesLaidOut(s, "https://", "octocat", "Hello-World", "");
  }

  /** The URL above, cut into prefix, `github.com/`, owner, `/`, repository name and rest. */
  lemma CanonicalLayout(s: string)
    requires s == "https://github.com/octocat/Hello-World"
    ensures s == "https://" + Host + "octocat" + "/" + "Hello-World" + ""
  {
  }

  /** Further path segments are not captured. */
  lemma TrailingPathIgnored(s: string)
    requires s == "https://github.com/o/r/tree/main"
    ensures ParseRepoUrl(s) == Some(RepoRef("o", "r"))
  {
    TrailingPathLayout(s);
    ParsesLaidOut(s, "https://", "o", "r", "/tree/main");
  }

  /** The URL above, cut into prefix, `github.com/`, owner, `/`, repository name and rest. */
  lemma TrailingPathLayout(s: string)
    requires s == "https://github.com/o/r/tree/main"
    ensures s == "https://" + Host + "o" + "/" + "r" + "/tree/main"
  {
  }

  /** A query and a fragment are not stripped: they become part of the repository name. */
  lemma QueryAndFragmentKept(s: string)
    requires s == "https://github.com/o/r?tab=1#top"
    ensures ParseRepoUrl(s) == Some(RepoRef("o", "r?tab=1#top"))
  {
    QueryAndFragmentLayout(s);
    ParsesLaidOut(s, "https://", "o", "r?tab=1#top", "");
  }

  /** The URL above, cut into prefix, `github.com/`, owner, `/`, repository name and rest. */
  lemma QueryAndFragmentLayout(s: string)
    requires s == "https://github.com/o/r?tab=1#top"
    ensures s == "https://" + Host + "o" + "/" + "r?tab=1#top" + ""
  {
  }

  /** A `.git` suffix is not stripped. */
  lemma GitSuffixKept(s: string)
    requires s == "https://github.com/o/r.git"
    ensures ParseRepoUrl(s) == Some(RepoRef("o", "r.git"))
  {
    GitSuffixLayout(s);
    ParsesLaidOut(s, "https://", "o", "r.git", "");
  }

  /** The URL above, cut into prefix, `github.com/`, owner, `/`, repository name and rest. */
  lemma GitSuffixLayout(s: string)
    requires s == "https://github.com/o/r.git"
    ensures s == "https://" + Host + "o" + "/" + "r.git" + ""
  {
  }

  /** The pattern is not anchored, so another host ending in `github.com` is accepted. */
  lemma OtherHostAccepted(s: string)
    requires s == "https://notgithub.com/o/r"
    ensures ParseRepoUrl(s) == Some(RepoRef("o", "r"))
  {
    OtherHostLayout(s);
    ParsesLaidOut(s, "https://not", "o", "r", "");
  }

  /** The URL above, cut into prefix, `github.com/`, owner, `/`, repository name and rest. */
  lemma OtherHostLayout(s: string)
    requires s == "https://notgithub.com/o/r"
    ensures s == "https://not" + Host + "o" + "/" + "r" + ""
  {
  }

  /** Without a repository segment the string does not match. */
  lemma OwnerOnlyRejected(s: string)
    requires s == "https://github.com/octocat"
    ensures ParseRepoUrl(s) == None
  {
    assert s[8..19] == Host;
    RunEndIs(s, 19, |s|);
    FailsAt(s, 8);
  }

  /** An empty owner does not match. */
  lemma EmptyOwnerRejected(s: string)
    requires s == "https://github.com//r"
    ensures ParseRepoUrl(s) == None
  {
    assert s[8..19] == Host;
    RunEndIs(s, 19, 19);
    FailsAt(s, 8);
  }

  /** An empty repository name does not match. */
  lemma EmptyRepoRejected(s: string)
    requires s == "https://github.com/o/"
    ensures ParseRepoUrl(s) == None
  {
    assert s[8..19] == Host;
    RunEndIs(s, 19, 20);
    FailsAt(s, 8);
  }

  /** Another forge's URL does not match. */
  lemma OtherForgeRejected(s: string)
    requires s == "https://gitlab.com/o/r"
    ensures ParseRepoUrl(s) == None
  {
    assert s[8..19][3] != Host[3];
    FailsAt(s, 8);
  }
}
