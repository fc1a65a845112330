/** Knuth-Morris-Pratt search: the failure array and the matching loop up to the first match. */
module Kmp {

  /** The first k characters of s are also the k characters before position n. */
  ghost predicate Border(s: string, n: nat, k: nat)
    requires n <= |s|
  {
    k < n && s[..k] == s[n - k..n]
  }

  /** The longest proper border of the prefix of length n. */
  ghost predicate LongestBorder(s: string, n: nat, k: nat)
    requires n <= |s|
  {
    Border(s, n, k) && forall l :: k < l ==> !Border(s, n, l)
  }

  ghost predicate FailureTo(p: string, f: seq<int>, n: nat)
    requires n <= |f| && n <= |p|
  {
    forall i :: 0 <= i < n ==> 0 <= f[i] && LongestBorder(p, i + 1, f[i])
  }

  /** A border one character longer, and back. */
  lemma BorderGrows(s: string, n: nat, k: nat)
    requires n < |s| && k < n
    ensures Border(s, n + 1, k + 1) <==> Border(s, n, k) && s[n] == s[k]
  {
    if Border(s, n + 1, k + 1) {
      assert s[..k] == s[..k + 1][..k];
      assert s[n - k..n] == s[n - k..n + 1][..k];
      assert s[..k + 1][k] == s[n - k..n + 1][k];
    }
    if Border(s, n, k) && s[n] == s[k] {
      assert s[..k + 1] == s[..k] + [s[k]];
      assert s[n - k..n + 1] == s[n - k..n] + [s[n]];
    }
  }

  /** A shorter border of the prefix is a border of a longer border. */
  lemma BorderOfBorder(s: string, n: nat, j: nat, k: nat)
    requires n <= |s| && Border(s, n, j) && k < j
    ensures Border(s, n, k) <==> Border(s, j, k)
  {
    assert s[n - k..n] == s[n - j..n][j - k..];
    assert s[j - k..j] == s[..j][j - k..];
  }

  ghost predicate NoneOver(s: string, n: nat, k: nat)
    requires n <= |s|
  {
    forall l :: k < l ==> !Border(s, n, l)
  }

  /** No border of the prefix of length i + 1 is longer than j + 1. */
  ghost predicate NoneLonger(s: string, i: nat, j: nat)
    requires i < |s|
  {
    NoneOver(s, i + 1, j + 1)
  }

  /** After a mismatch at j, the next candidate is the longest border of the prefix of length j. */
  lemma FallBack(s: string, i: nat, j: nat, next: nat)
    requires i < |s| && 0 < j && Border(s, i, j) && s[i] != s[j] && NoneLonger(s, i, j)
    requires LongestBorder(s, j, next)
    ensures next < j && Border(s, i, next) && NoneLonger(s, i, next)
  {
    BorderOfBorder(s, i, j, next);
    var n := i + 1;
    forall l | next + 1 < l
      ensures !Border(s, n, l)
    {
      if l <= j + 1 {
        BorderGrows(s, i, l - 1);
        if l - 1 < j {
          BorderOfBorder(s, i, j, l - 1);
        }
      }
    }
  }

  /** F[i] becomes the length of the longest proper border of the first i + 1 characters. */
  method ComputeFailureArray(f: array<int>, p: string)
    requires |p| > 0 && f.Length == |p|
    modifies f
    ensures FailureTo(p, f[..], |p|)
  {
    f[0] := 0;
    var i, j, m := 1, 0, |p|;
    while i < m
      invariant 1 <= i <= m && 0 <= j < i
      invariant FailureTo(p, f[..], i) && Border(p, i, j)
      invariant i < m ==> NoneLonger(p, i, j)
      decreases 2 * (m - i) + j
    {
      BorderGrows(p, i, j);
      ghost var was := f[..];
      if p[i] == p[j] {
        f[i] := j + 1;
        FailureGrows(p, was, f[..], i, j + 1);
        NextStart(p, i, j + 1);
        i := i + 1;
        j := j + 1;
      } else if j > 0 {
        assert LongestBorder(p, j - 1 + 1, was[j - 1]);
        FallBack(p, i, j, f[j - 1]);
        j := f[j - 1];
      } else {
        f[i] := 0;
        OnlyEmptyBorder(p, i);
        FailureGrows(p, was, f[..], i, 0);
        NextStart(p, i, 0);
        i := i + 1;
      }
    }
  }

  lemma FailureGrows(p: string, was: seq<int>, now: seq<int>, i: nat, k: nat)
    requires i < |p| == |was| == |now| && FailureTo(p, was, i) && now[..i] == was[..i] && now[i] == k
    requires LongestBorder(p, i + 1, k)
    ensures FailureTo(p, now, i + 1)
  {
    forall a | 0 <= a < i
      ensures now[a] == was[a]
    {
      assert now[..i][a] == was[..i][a];
    }
  }

  lemma OnlyEmptyBorder(p: string, i: nat)
    requires 0 < i < |p| && p[i] != p[0] && NoneLonger(p, i, 0)
    ensures LongestBorder(p, i + 1, 0)
  {
    BorderGrows(p, i, 0);
    assert p[..0] == p[i + 1..i + 1];
  }

  /** The longest border of a prefix is where the search for the next one starts. */
  lemma NextStart(p: string, i: nat, k: nat)
    requires i < |p| && LongestBorder(p, i + 1, k)
    ensures i + 1 < |p| ==> NoneLonger(p, i + 1, k)
  {
    if i + 1 < |p| {
      var n := i + 2;
      forall l | k + 1 < l
        ensures !Border(p, n, l)
      {
        if l < n {
          BorderGrows(p, i + 1, l - 1);
        }
      }
    }
  }

  // --- matching ---------------------------------------------------------------------------------------

  ghost predicate OccursAt(p: string, t: string, s: nat)
  {
    s + |p| <= |t| && t[s..s + |p|] == p
  }

  /** No occurrence starts before s. */
  ghost predicate NoneBefore(p: string, t: string, s: nat)
  {
    forall u :: 0 <= u < s ==> !OccursAt(p, t, u)
  }

  /** A mismatch after j characters rules out every start up to where the failure array resumes. */
  lemma SkipStarts(p: string, t: string, at: nat, j: nat, next: nat)
    requires j < |p| && j <= at < |t| && t[at - j..at] == p[..j] && t[at] != p[j]
    requires NoneBefore(p, t, at - j)
    requires if j == 0 then next == 0 else LongestBorder(p, j, next)
    ensures j > 0 ==> next < j && t[at - next..at] == p[..next] && NoneBefore(p, t, at - next)
    ensures j == 0 ==> NoneBefore(p, t, at + 1)
  {
    NoMatchHere(p, t, at, j);
    if j > 0 {
      assert t[at - next..at] == t[at - j..at][j - next..] == p[..j][j - next..] == p[j - next..j];
      forall u | at - j < u < at - next
        ensures !OccursAt(p, t, u)
      {
        NoMatchBetween(p, t, at, j, next, u);
      }
    }
  }

  lemma NoMatchHere(p: string, t: string, at: nat, j: nat)
    requires j < |p| && j <= at < |t| && t[at] != p[j]
    ensures !OccursAt(p, t, at - j)
  {
    if OccursAt(p, t, at - j) {
      OccurrenceCharacter(p, t, at - j, j);
    }
  }

  lemma OccurrenceCharacter(p: string, t: string, s: nat, j: nat)
    requires OccursAt(p, t, s) && j < |p|
    ensures t[s + j] == p[j]
  {
    assert t[s..s + |p|][j] == p[j];
  }

  lemma NoMatchBetween(p: string, t: string, at: nat, j: nat, next: nat, u: nat)
    requires 0 < j < |p| && j <= at < |t| && t[at - j..at] == p[..j] && LongestBorder(p, j, next)
    requires at - j < u < at - next
    ensures !OccursAt(p, t, u)
  {
    if OccursAt(p, t, u) {
      var k := at - u;
      assert t[u..at] == t[u..u + |p|][..k] == p[..k];
      assert t[u..at] == t[at - j..at][j - k..] == p[j - k..j];
      assert Border(p, j, k);
    }
  }

  /** The loop of main over the characters of the file: the first occurrence, or none. */
  method Match(p: string, f: array<int>, t: string) returns (found: bool, ghost start: nat)
    requires |p| > 0 && f.Length == |p| && FailureTo(p, f[..], |p|)
    ensures found <==> exists s: nat :: OccursAt(p, t, s)
    ensures found ==> OccursAt(p, t, start) && NoneBefore(p, t, start)
  {
    var m, at, j := |p|, 0, 0;
    while at < |t|
      invariant 0 <= j < m && j <= at <= |t|
      invariant t[at - j..at] == p[..j] && NoneBefore(p, t, at - j)
      decreases 2 * (|t| - at) + j
    {
      if t[at] == p[j] {
        assert t[at - j..at + 1] == t[at - j..at] + [t[at]];
        assert p[..j + 1] == p[..j] + [p[j]];
        if j == m - 1 {
          start := at - j;
          assert OccursAt(p, t, start);
          return true, start;
        }
        at := at + 1;
        j := j + 1;
      } else if j > 0 {
        assert LongestBorder(p, j - 1 + 1, f[..][j - 1]);
        SkipStarts(p, t, at, j, f[j - 1]);
        j := f[j - 1];
      } else {
        SkipStarts(p, t, at, j, 0);
        at := at + 1;
      }
    }
    found := false;
    start := 0;
  }

  /** Building the array and matching with it reports a match exactly when the pattern occurs in the text. */
  method Search(p: string, t: string) returns (found: bool)
    requires |p| > 0
    ensures found <==> exists s: nat :: OccursAt(p, t, s)
  {
    var f := new int[|p|];
    ComputeFailureArray(f, p);
    ghost var start;
    found, start := Match(p, f, t);
  }
}
