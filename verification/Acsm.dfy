/** The Aho-Corasick pattern matcher: patterns are compiled into a table of transitions, and one pass over the text
    follows them. */
module Acsm {
  import opened AcsmTrie
  import AcsmQueue

  const CHARS := 256

  datatype Node = Node(next: seq<int>, fail: int, matches: seq<Text>)

  function ToLower(c: Byte): Byte { if 65 <= c <= 90 then c + 32 else c }

  function Folded(noCase: bool, w: Text): (r: Text)
    ensures |r| == |w| && forall i :: 0 <= i < |w| ==> r[i] == if noCase then ToLower(w[i]) else w[i]
  {
    if w == [] then [] else [if noCase then ToLower(w[0]) else w[0]] + Folded(noCase, w[1..])
  }

  // --- the trie ---------------------------------------------------------------------------------------

  ghost predicate Rows(table: seq<Node>, n: nat)
  {
    n <= |table| && forall s :: 0 <= s < |table| ==> |table[s].next| == CHARS
  }

  ghost predicate NoRow(node: Node)
  {
    node.fail == 0 && node.matches == [] && forall c :: 0 <= c < |node.next| ==> node.next[c] == FAIL_STATE
  }

  /** A state's row holds the trie's transitions, and its list the patterns that are its string. */
  ghost predicate TrieNode(node: Node, paths: seq<Text>, s: nat, added: seq<Text>)
    requires s < |paths|
  {
    && |node.next| == CHARS && node.fail == 0
    && (forall c: Byte :: node.next[c] == Goto(paths, s, c))
    && (forall p :: p in node.matches <==> p in added && p == paths[s])
  }

  ghost predicate TrieOk(table: seq<Node>, paths: seq<Text>, added: seq<Text>)
  {
    && PathsOk(paths) && Rows(table, |paths|)
    && (forall s :: 0 <= s < |paths| ==> TrieNode(table[s], paths, s, added))
    && (forall s :: |paths| <= s < |table| ==> NoRow(table[s]))
  }

  ghost predicate UnderPattern(w: Text, added: seq<Text>)
  {
    w == [] || exists p :: p in added && w <= p
  }

  /** The states are the prefixes of the patterns. */
  ghost predicate Covers(paths: seq<Text>, added: seq<Text>)
  {
    && (forall p {:trigger p in paths} :: p in added ==> p in paths)
    && (forall w {:trigger UnderPattern(w, added)} :: w in paths ==> UnderPattern(w, added))
  }

  function SetNext(table: seq<Node>, s: nat, c: Byte, t: int): (r: seq<Node>)
    requires s < |table| && |table[s].next| == CHARS
    ensures |r| == |table|
  {
    table[s := table[s].(next := table[s].next[c := t])]
  }

  /** Linking a fresh row below a state. */
  lemma TrieGrows(table: seq<Node>, paths: seq<Text>, added: seq<Text>, s: nat, c: Byte)
    requires TrieOk(table, paths, added) && s < |paths| < |table| && Goto(paths, s, c) == FAIL_STATE
    requires paths[s] + [c] !in added
    ensures TrieOk(SetNext(table, s, c, |paths|), paths + [paths[s] + [c]], added)
  {
    var more, now := paths + [paths[s] + [c]], SetNext(table, s, c, |paths|);
    PathsGrow(paths, s, c);
    forall t | 0 <= t < |more|
      ensures TrieNode(now[t], more, t, added)
    {
      if t < |paths| {
        assert TrieNode(table[t], paths, t, added);
        forall d: Byte
          ensures now[t].next[d] == Goto(more, t, d)
        {
          GotoGrows(paths, s, c, t, d);
        }
      } else {
        assert NoRow(table[t]);
        forall d: Byte
          ensures now[t].next[d] == Goto(more, t, d)
        {
          GotoOfNew(paths, s, c, d);
        }
      }
    }
  }

  function AddMatch(table: seq<Node>, s: nat, p: Text): (r: seq<Node>)
    requires s < |table|
    ensures |r| == |table|
  {
    table[s := table[s].(matches := [p] + table[s].matches)]
  }

  lemma TrieEnds(table: seq<Node>, paths: seq<Text>, added: seq<Text>, s: nat, p: Text)
    requires TrieOk(table, paths, added) && s < |paths| && paths[s] == p
    ensures TrieOk(AddMatch(table, s, p), paths, added + [p])
  {
    var now := AddMatch(table, s, p);
    forall t | 0 <= t < |paths|
      ensures TrieNode(now[t], paths, t, added + [p])
    {
      assert TrieNode(table[t], paths, t, added);
      if t != s {
        OtherState(paths, s, t);
      }
    }
  }

  lemma OtherState(paths: seq<Text>, s: nat, t: nat)
    requires PathsOk(paths) && s < |paths| && t < |paths| && s != t
    ensures paths[s] != paths[t]
  {
  }

  lemma EmptyTrie(table: seq<Node>)
    requires |table| > 0 && forall s :: 0 <= s < |table| ==> |table[s].next| == CHARS && NoRow(table[s])
    ensures TrieOk(table, [[]], []) && Covers([[]], [])
  {
    assert NoRow(table[0]);
    forall c: Byte
      ensures Goto([[]], 0, c) == FAIL_STATE
    {
      assert |[[]][0] + [c]| == 1;
    }
  }

  // --- the failure function ---------------------------------------------------------------------------

  /** A state's row, complete up to a column, and its failure state and list, once it is found. */
  ghost predicate Completed(node: Node, paths: seq<Text>, pats: seq<Text>, s: nat, upTo: nat, found: bool)
    requires PathsOk(paths) && s < |paths|
  {
    && |node.next| == CHARS
    && (forall c: Byte :: node.next[c] == if c < upTo then Full(paths, s, c) else Goto(paths, s, c))
    && (found ==> node.fail == Failure(paths, s))
    && (forall p :: p in node.matches <==> p in pats && if found then Suffix(p, paths[s]) else p == paths[s])
  }

  /** The sweep over the states in order of length: `done` are finished, `cur` is finished up to column `at`, and `q`
      are found and wait. */
  ghost predicate Found(s: int, done: set<int>, cur: int, q: seq<int>)
  {
    s in done || s == cur || s in q
  }

  ghost function UpTo(s: int, done: set<int>, cur: int, at: nat): nat
  {
    if s == 0 || s in done then CHARS else if s == cur then at else 0
  }

  ghost predicate TableOk(table: seq<Node>, paths: seq<Text>, pats: seq<Text>, done: set<int>, cur: int, at: nat,
      q: seq<int>)
  {
    && PathsOk(paths) && |paths| <= |table|
    && (forall s :: 0 <= s < |paths| ==>
       Completed(table[s], paths, pats, s, UpTo(s, done, cur, at), Found(s, done, cur, q)))
  }

  ghost predicate InSweep(paths: seq<Text>, done: set<int>, cur: int, q: seq<int>)
  {
    && 0 <= cur < |paths| && cur !in done && cur !in q && (cur == 0 || 0 in done)
    && (forall s :: s in done ==> 0 <= s < |paths|)
    && (forall i :: 0 <= i < |q| ==> 0 < q[i] < |paths| && q[i] !in done)
    && (forall i, j :: 0 <= i < j < |q| ==> q[i] != q[j])
  }

  /** The waiting states are sorted by length, and at most one longer than the current one. */
  ghost predicate ByLength(paths: seq<Text>, cur: nat, q: seq<int>)
    requires cur < |paths| && forall i :: 0 <= i < |q| ==> 0 < q[i] < |paths|
  {
    && (forall i :: 0 <= i < |q| ==> |paths[cur]| <= |paths[q[i]]| <= |paths[cur]| + 1)
    && (forall i, j :: 0 <= i < j < |q| ==> |paths[q[i]]| <= |paths[q[j]]|)
  }

  /** A state is found exactly when its parent's row has been swept up to it. */
  ghost predicate FoundByParent(paths: seq<Text>, done: set<int>, cur: int, at: nat, q: seq<int>)
    requires PathsOk(paths)
  {
    forall s :: 0 < s < |paths| ==>
      (Found(s, done, cur, q) <==> Parent(paths, s) in done || (Parent(paths, s) == cur && Last(paths[s]) < at))
  }

  ghost predicate SweepOk(paths: seq<Text>, done: set<int>, cur: int, at: nat, q: seq<int>)
  {
    PathsOk(paths) && at <= CHARS && InSweep(paths, done, cur, q) && ByLength(paths, cur, q)
        && FoundByParent(paths, done, cur, at, q)
  }

  /** The sweep has come this far, on a trie of non-empty patterns. */
  ghost predicate Swept(table: seq<Node>, paths: seq<Text>, pats: seq<Text>, done: set<int>, cur: int, at: nat,
      q: seq<int>)
  {
    Covers(paths, pats) && [] !in pats && TableOk(table, paths, pats, done, cur, at, q)
        && SweepOk(paths, done, cur, at, q)
  }

  /** Every shorter state is finished, every state as long is found. */
  lemma {:induction false} ShorterDone(paths: seq<Text>, done: set<int>, cur: int, at: nat, q: seq<int>, t: nat)
    requires SweepOk(paths, done, cur, at, q) && cur > 0 && t < |paths|
    ensures |paths[t]| < |paths[cur]| ==> t in done
    ensures |paths[t]| <= |paths[cur]| ==> Found(t, done, cur, q)
    decreases |paths[t]|
  {
    if t > 0 && |paths[t]| <= |paths[cur]| {
      ShorterDone(paths, done, cur, at, q, Parent(paths, t));
    }
  }

  /** Where the sweep stands after a column without a child. */
  lemma SweepPasses(paths: seq<Text>, done: set<int>, cur: int, at: nat, q: seq<int>)
    requires SweepOk(paths, done, cur, at, q) && at < CHARS && Goto(paths, cur, at) == FAIL_STATE
    ensures SweepOk(paths, done, cur, at + 1, q)
  {
    forall s | 0 < s < |paths| && Parent(paths, s) == cur
      ensures Last(paths[s]) != at
    {
      ParentGoto(paths, s);
    }
  }

  lemma FindOne(paths: seq<Text>, done: set<int>, cur: int, at: nat, q: seq<int>, s: nat)
    requires SweepOk(paths, done, cur, at, q) && at < CHARS && Goto(paths, cur, at) == s
    ensures 0 < s < |paths| && Parent(paths, s) == cur && Last(paths[s]) == at && !Found(s, done, cur, q)
    ensures forall t :: 0 < t < |paths| && Parent(paths, t) == cur && Last(paths[t]) == at ==> t == s
  {
    GotoIsFull(paths, cur, at);
    forall t | 0 < t < |paths| && Parent(paths, t) == cur && Last(paths[t]) == at
      ensures t == s
    {
      ParentGoto(paths, t);
    }
  }

  lemma QueueGrows(paths: seq<Text>, done: set<int>, cur: int, q: seq<int>, s: nat)
    requires PathsOk(paths) && InSweep(paths, done, cur, q) && ByLength(paths, cur, q)
    requires 0 < s < |paths| && |paths[s]| == |paths[cur]| + 1 && !Found(s, done, cur, q)
    ensures InSweep(paths, done, cur, q + [s]) && ByLength(paths, cur, q + [s])
  {
    var more := q + [s];
    forall i | 0 <= i < |more|
      ensures 0 < more[i] < |paths| && more[i] !in done && |paths[cur]| <= |paths[more[i]]| <= |paths[cur]| + 1
    {
      assert i < |q| ==> more[i] == q[i];
    }
    forall i, j | 0 <= i < j < |more|
      ensures more[i] != more[j] && |paths[more[i]]| <= |paths[more[j]]|
    {
      assert more[i] == q[i] && (j < |q| ==> more[j] == q[j]);
    }
  }

  /** And after a column with one, which joins the end of the queue. */
  lemma SweepFinds(paths: seq<Text>, done: set<int>, cur: int, at: nat, q: seq<int>, s: nat)
    requires SweepOk(paths, done, cur, at, q) && at < CHARS && Goto(paths, cur, at) == s
    ensures 0 < s < |paths| && !Found(s, done, cur, q) && SweepOk(paths, done, cur, at + 1, q + [s])
  {
    FindOne(paths, done, cur, at, q, s);
    QueueGrows(paths, done, cur, q, s);
    assert forall t :: Found(t, done, cur, q + [s]) <==> Found(t, done, cur, q) || t == s;
  }

  lemma QueueShrinks(paths: seq<Text>, done: set<int>, cur: int, q: seq<int>)
    requires PathsOk(paths) && InSweep(paths, done, cur, q) && ByLength(paths, cur, q) && q != []
    ensures InSweep(paths, done + {cur}, q[0], q[1..]) && ByLength(paths, q[0], q[1..])
    ensures forall t :: Found(t, done + {cur}, q[0], q[1..]) <==> Found(t, done, cur, q)
  {
    assert q == [q[0]] + q[1..];
  }

  /** The current state is finished; the first waiting one takes its place. */
  lemma SweepAdvances(paths: seq<Text>, done: set<int>, cur: int, q: seq<int>)
    requires SweepOk(paths, done, cur, CHARS, q) && q != []
    ensures SweepOk(paths, done + {cur}, q[0], 0, q[1..])
    ensures forall t :: Found(t, done + {cur}, q[0], q[1..]) <==> Found(t, done, cur, q)
  {
    QueueShrinks(paths, done, cur, q);
  }

  lemma {:induction false} SweepEnds(paths: seq<Text>, done: set<int>, cur: int, s: nat)
    requires SweepOk(paths, done, cur, CHARS, []) && s < |paths|
    ensures s in done || s == cur
    decreases |paths[s]|
  {
    if s > 0 {
      SweepEnds(paths, done, cur, Parent(paths, s));
    }
  }

  // --- what a step of the sweep does to the table -------------------------------------------------------

  lemma RowAt(table: seq<Node>, paths: seq<Text>, pats: seq<Text>, done: set<int>, cur: int, at: nat, q: seq<int>,
      s: nat)
    requires TableOk(table, paths, pats, done, cur, at, q) && s < |paths|
    ensures Completed(table[s], paths, pats, s, UpTo(s, done, cur, at), Found(s, done, cur, q))
  {
  }

  /** The row of the failure state of the state being swept is complete. */
  lemma FailureRow(table: seq<Node>, paths: seq<Text>, pats: seq<Text>, done: set<int>, cur: int, at: nat, q: seq<int>,
      c: Byte)
    requires TableOk(table, paths, pats, done, cur, at, q) && SweepOk(paths, done, cur, at, q) && cur > 0
    ensures table[cur].fail == Failure(paths, cur) && |table[Failure(paths, cur)].next| == CHARS
    ensures table[Failure(paths, cur)].next[c] == Full(paths, Failure(paths, cur), c)
  {
    FailureShorter(paths, cur);
    ShorterDone(paths, done, cur, at, q, Failure(paths, cur));
    RowAt(table, paths, pats, done, cur, at, q, cur);
    RowAt(table, paths, pats, done, cur, at, q, Failure(paths, cur));
  }

  lemma TablePasses(table: seq<Node>, paths: seq<Text>, pats: seq<Text>, done: set<int>, cur: int, at: Byte,
      q: seq<int>)
    requires TableOk(table, paths, pats, done, cur, at, q) && SweepOk(paths, done, cur, at, q) && cur > 0
    requires Goto(paths, cur, at) == FAIL_STATE
    ensures |table[cur].next| == CHARS
    ensures TableOk(SetNext(table, cur, at, Full(paths, Failure(paths, cur), at)), paths, pats, done, cur, at + 1, q)
  {
    RowAt(table, paths, pats, done, cur, at, q, cur);
    FullByFailure(paths, cur, at);
    var now := SetNext(table, cur, at, Full(paths, Failure(paths, cur), at));
    forall s | 0 <= s < |paths|
      ensures Completed(now[s], paths, pats, s, UpTo(s, done, cur, at + 1), Found(s, done, cur, q))
    {
      RowAt(table, paths, pats, done, cur, at, q, s);
    }
  }

  function SetFailure(table: seq<Node>, s: nat, fail: int, matches: seq<Text>): (r: seq<Node>)
    requires s < |table|
    ensures |r| == |table|
  {
    table[s := table[s].(fail := fail, matches := matches)]
  }

  lemma TableFinds(table: seq<Node>, paths: seq<Text>, pats: seq<Text>, done: set<int>, cur: int, at: Byte, q: seq<int>,
      s: nat, matches: seq<Text>)
    requires TableOk(table, paths, pats, done, cur, at, q) && SweepOk(paths, done, cur, at, q)
    requires Goto(paths, cur, at) == s < |table|
    requires forall p :: p in matches <==> p in pats && Suffix(p, paths[s])
    ensures TableOk(SetFailure(table, s, Failure(paths, s), matches), paths, pats, done, cur, at + 1, q + [s])
  {
    SweepFinds(paths, done, cur, at, q, s);
    GotoIsFull(paths, cur, at);
    FoundTable(table, paths, pats, done, cur, at, q, s, matches);
  }

  lemma FoundTable(table: seq<Node>, paths: seq<Text>, pats: seq<Text>, done: set<int>, cur: int, at: Byte, q: seq<int>,
      s: nat, matches: seq<Text>)
    requires TableOk(table, paths, pats, done, cur, at, q) && 0 < s < |paths| && 0 <= cur < |paths|
    requires !Found(s, done, cur, q)
    requires Goto(paths, cur, at) == Full(paths, cur, at)
    requires forall p :: p in matches <==> p in pats && Suffix(p, paths[s])
    ensures TableOk(SetFailure(table, s, Failure(paths, s), matches), paths, pats, done, cur, at + 1, q + [s])
  {
    var now := SetFailure(table, s, Failure(paths, s), matches);
    forall t | 0 <= t < |paths|
      ensures Completed(now[t], paths, pats, t, UpTo(t, done, cur, at + 1), Found(t, done, cur, q + [s]))
    {
      RowAt(table, paths, pats, done, cur, at, q, t);
      if t == s {
        NodeFound(table[t], paths, pats, s, UpTo(s, done, cur, at), matches);
      } else if t == cur && UpTo(t, done, cur, at) == at {
        NodeColumn(table[t], paths, pats, t, at, true);
      }
    }
  }

  lemma NodeFound(node: Node, paths: seq<Text>, pats: seq<Text>, s: nat, upTo: nat, matches: seq<Text>)
    requires PathsOk(paths) && s < |paths| && Completed(node, paths, pats, s, upTo, false)
    requires forall p :: p in matches <==> p in pats && Suffix(p, paths[s])
    ensures Completed(node.(fail := Failure(paths, s), matches := matches), paths, pats, s, upTo, true)
  {
  }

  lemma NodeColumn(node: Node, paths: seq<Text>, pats: seq<Text>, s: nat, at: Byte, found: bool)
    requires PathsOk(paths) && s < |paths| && Completed(node, paths, pats, s, at, found)
    requires Goto(paths, s, at) == Full(paths, s, at)
    ensures Completed(node, paths, pats, s, at + 1, found)
  {
  }

  lemma TablePassesRoot(table: seq<Node>, paths: seq<Text>, pats: seq<Text>, done: set<int>, at: nat, q: seq<int>)
    requires TableOk(table, paths, pats, done, 0, at, q)
    ensures TableOk(table, paths, pats, done, 0, at + 1, q)
  {
    forall s | 0 <= s < |paths|
      ensures Completed(table[s], paths, pats, s, UpTo(s, done, 0, at + 1), Found(s, done, 0, q))
    {
      RowAt(table, paths, pats, done, 0, at, q, s);
    }
  }

  lemma TableAdvances(table: seq<Node>, paths: seq<Text>, pats: seq<Text>, done: set<int>, cur: int, q: seq<int>)
    requires TableOk(table, paths, pats, done, cur, CHARS, q) && SweepOk(paths, done, cur, CHARS, q) && q != []
    ensures TableOk(table, paths, pats, done + {cur}, q[0], 0, q[1..])
  {
    SweepAdvances(paths, done, cur, q);
    forall s | 0 <= s < |paths|
      ensures Completed(table[s], paths, pats, s, UpTo(s, done + {cur}, q[0], 0), Found(s, done + {cur}, q[0], q[1..]))
    {
      RowAt(table, paths, pats, done, cur, CHARS, q, s);
    }
  }

  /** The list of a child: its own patterns and those of its failure state. */
  lemma MatchesOfChild(table: seq<Node>, paths: seq<Text>, pats: seq<Text>, done: set<int>, cur: int, at: Byte,
      q: seq<int>, s: nat, p: Text)
    requires TableOk(table, paths, pats, done, cur, at, q) && SweepOk(paths, done, cur, at, q)
    requires Goto(paths, cur, at) == s && forall p :: p in pats ==> p in paths && p != []
    ensures 0 < s < |paths| && Failure(paths, s) < |paths|
    ensures p in pats && Suffix(p, paths[s]) <==>
      p in table[s].matches || (cur > 0 && p in table[Failure(paths, s)].matches)
  {
    FindOne(paths, done, cur, at, q, s);
    var f := Failure(paths, s);
    RowAt(table, paths, pats, done, cur, at, q, s);
    RowAt(table, paths, pats, done, cur, at, q, f);
    FailureShorter(paths, s);
    if cur > 0 {
      ShorterDone(paths, done, cur, at, q, f);
    }
    if p in pats {
      MatchesByFailure(paths, s, p);
    }
  }

  /** A compiled table: every transition, failure state and list is what the automaton's definition says. */
  ghost predicate Compiled(table: seq<Node>, paths: seq<Text>, pats: seq<Text>)
  {
    && PathsOk(paths) && |paths| <= |table| && Covers(paths, pats)
    && (forall s :: 0 <= s < |paths| ==> Completed(table[s], paths, pats, s, CHARS, true))
  }

  lemma SweptCompiled(table: seq<Node>, paths: seq<Text>, pats: seq<Text>, done: set<int>, cur: int)
    requires TableOk(table, paths, pats, done, cur, CHARS, []) && SweepOk(paths, done, cur, CHARS, [])
    requires Covers(paths, pats)
    ensures Compiled(table, paths, pats)
  {
    forall s | 0 <= s < |paths|
      ensures Completed(table[s], paths, pats, s, CHARS, true)
    {
      SweepEnds(paths, done, cur, s);
      RowAt(table, paths, pats, done, cur, CHARS, [], s);
    }
  }

  // --- the matcher ----------------------------------------------------------------------------------------

  function TotalLength(patterns: seq<Text>): nat
  {
    if patterns == [] then 0 else TotalLength(patterns[..|patterns| - 1]) + |patterns[|patterns| - 1]|
  }

  lemma {:induction false} TotalOfFirst(p: Text, patterns: seq<Text>)
    ensures TotalLength([p] + patterns) == |p| + TotalLength(patterns)
  {
    if patterns == [] {
      assert ([p] + patterns)[..0] == [];
    } else {
      TotalOfFirst(p, patterns[..|patterns| - 1]);
      assert ([p] + patterns)[..|patterns|] == [p] + patterns[..|patterns| - 1];
    }
  }

  lemma TotalNext(patterns: seq<Text>, i: nat)
    requires i < |patterns|
    ensures TotalLength(patterns[..i + 1]) == TotalLength(patterns[..i]) + |patterns[i]|
  {
    assert patterns[..i + 1][..i] == patterns[..i];
  }

  lemma {:induction false} TotalOfPart(patterns: seq<Text>, i: nat)
    requires i <= |patterns|
    ensures TotalLength(patterns[..i]) <= TotalLength(patterns)
    decreases |patterns| - i
  {
    if i < |patterns| {
      TotalNext(patterns, i);
      TotalOfPart(patterns, i + 1);
    } else {
      assert patterns[..i] == patterns;
    }
  }

  /** The states while a pattern is being added: those of the patterns added before, and its first k characters. */
  ghost predicate UnderPart(w: Text, added: seq<Text>, part: Text)
  {
    w <= part || UnderPattern(w, added)
  }

  ghost predicate CoversPart(paths: seq<Text>, added: seq<Text>, p: Text, k: nat)
    requires k <= |p|
  {
    && (forall r {:trigger r in paths} :: r in added ==> r in paths)
    && (forall w {:trigger UnderPart(w, added, p[..k])} :: w in paths ==> UnderPart(w, added, p[..k]))
  }

  lemma PartGrows(paths: seq<Text>, added: seq<Text>, p: Text, k: nat, s: nat)
    requires k < |p| && s < |paths| && CoversPart(paths, added, p, k) && paths[s] == p[..k]
    ensures CoversPart(paths + [paths[s] + [p[k]]], added, p, k + 1)
  {
    var more := paths + [paths[s] + [p[k]]];
    assert p[..k + 1] == p[..k] + [p[k]];
    forall w | w in more
      ensures UnderPart(w, added, p[..k + 1])
    {
      if w in paths {
        assert UnderPart(w, added, p[..k]);
        assert w <= p[..k] ==> w <= p[..k + 1];
      }
    }
    forall r | r in added
      ensures r in more
    {
      assert r in paths;
    }
  }

  lemma PartDone(paths: seq<Text>, added: seq<Text>, p: Text, s: nat)
    requires s < |paths| && CoversPart(paths, added, p, |p|) && paths[s] == p
    ensures Covers(paths, added + [p])
  {
    assert p[..|p|] == p;
    forall w | w in paths && w != []
      ensures exists r :: r in added + [p] && w <= r
    {
      assert UnderPart(w, added, p[..|p|]);
      if w <= p {
        assert p in added + [p];
      } else {
        var r :| r in added && w <= r;
        assert r in added + [p];
      }
    }
  }

  lemma NotAdded(paths: seq<Text>, added: seq<Text>, w: Text)
    requires (forall r :: r in added ==> r in paths) && w !in paths
    ensures w !in added
  {
  }

  lemma NewWord(paths: seq<Text>, added: seq<Text>, p: Text, k: nat, s: nat, c: Byte)
    requires k <= |p| && CoversPart(paths, added, p, k) && s < |paths| && Goto(paths, s, c) == FAIL_STATE
    requires PathsOk(paths)
    ensures paths[s] + [c] !in paths && paths[s] + [c] !in added
  {
    NotAdded(paths, added, paths[s] + [c]);
  }

  lemma FullRow(table: seq<Node>, paths: seq<Text>, added: seq<Text>, s: nat)
    requires TrieOk(table, paths, added) && s < |paths|
    ensures s < |table| && |table[s].next| == CHARS
  {
    assert TrieNode(table[s], paths, s, added);
  }

  /** What a new state for character k of the pattern does to the trie. */
  lemma NewState(table: seq<Node>, paths: seq<Text>, added: seq<Text>, s: nat, p: Text, k: nat)
    requires s < |paths| < |table| && k < |p| && paths[s] == p[..k] && Goto(paths, s, p[k]) == FAIL_STATE
    requires TrieOk(table, paths, added) && CoversPart(paths, added, p, k)
    ensures |table[s].next| == CHARS && TrieOk(SetNext(table, s, p[k], |paths|), paths + [paths[s] + [p[k]]], added)
  {
    FullRow(table, paths, added, s);
    NewWord(paths, added, p, k, s, p[k]);
    TrieGrows(table, paths, added, s, p[k]);
  }

  /** The trie of the patterns added and of the first k characters of p, at whose state the walk stands. */
  ghost predicate PartOk(table: seq<Node>, paths: seq<Text>, added: seq<Text>, p: Text, k: nat, s: nat)
  {
    && k <= |p| && s < |paths| <= |table| && TrieOk(table, paths, added) && CoversPart(paths, added, p, k)
    && paths[s] == p[..k] && (k < |p| ==> Goto(paths, s, p[k]) == FAIL_STATE)
  }

  /** The whole step. */
  lemma NewStep(table: seq<Node>, paths: seq<Text>, added: seq<Text>, p: Text, k: nat, s: nat)
    requires PartOk(table, paths, added, p, k, s) && k < |p| && |paths| < |table|
    ensures |table[s].next| == CHARS
    ensures PartOk(SetNext(table, s, p[k], |paths|), paths + [p[..k + 1]], added, p, k + 1, |paths|)
  {
    NewState(table, paths, added, s, p, k);
    PartGrows(paths, added, p, k, s);
    NewLeaf(paths, s, p, k);
  }

  lemma NewLeaf(paths: seq<Text>, s: nat, p: Text, k: nat)
    requires PathsOk(paths) && s < |paths| && k < |p| && paths[s] == p[..k] && Goto(paths, s, p[k]) == FAIL_STATE
    ensures p[..k + 1] == paths[s] + [p[k]]
    ensures k + 1 < |p| ==> Goto(paths + [paths[s] + [p[k]]], |paths|, p[k + 1]) == FAIL_STATE
  {
    if k + 1 < |p| {
      GotoOfNew(paths, s, p[k], p[k + 1]);
    }
  }

  class Matcher {
    const noCase: bool
    const queue: AcsmQueue.StateQueue
    var maxState: nat
    var numState: nat
    var patterns: seq<Text>
    var table: seq<Node>
    ghost var paths: seq<Text>

    ghost predicate Valid()
      reads this, queue
    {
      queue.Valid() && queue.Contents() == [] && maxState == 1 + TotalLength(patterns)
    }

    constructor (noCase: bool)
      ensures Valid() && fresh(queue) && patterns == [] && numState == 0 && this.noCase == noCase
    {
      this.noCase := noCase;
      queue := new AcsmQueue.StateQueue();
      maxState, numState, patterns, table, paths := 1, 0, [], [], [];
    }

    /** acsm_add_pattern. */
    method AddPattern(text: Text)
      requires Valid()
      modifies this
      ensures Valid() && patterns == [Folded(noCase, text)] + old(patterns) && numState == old(numState)
    {
      TotalOfFirst(Folded(noCase, text), patterns);
      patterns := [Folded(noCase, text)] + patterns;
      maxState := maxState + |text|;
    }

    method InitTable()
      requires maxState > 0
      modifies `table, `paths
      ensures |table| == maxState && TrieOk(table, paths, []) && Covers(paths, []) && |paths| == 1
    {
      table := [];
      var empty := seq(CHARS, i => FAIL_STATE);
      while |table| < maxState
        invariant |table| <= maxState && forall s :: 0 <= s < |table| ==> table[s] == Node(empty, 0, [])
      {
        table := table + [Node(empty, 0, [])];
      }
      paths := [[]];
      EmptyTrie(table);
    }

    /** Down the transitions that are there, as far as the pattern goes. */
    method Descend(p: Text, ghost added: seq<Text>) returns (state: nat, j: nat)
      requires TrieOk(table, paths, added)
      ensures state < |paths| && j <= |p| && paths[state] == p[..j]
      ensures j < |p| ==> Goto(paths, state, p[j]) == FAIL_STATE
    {
      state, j := 0, 0;
      while j < |p|
        invariant state < |paths| && j <= |p| && paths[state] == p[..j]
      {
        assert TrieNode(table[state], paths, state, added);
        var ch := p[j];
        if table[state].next[ch] == FAIL_STATE {
          break;
        }
        assert p[..j + 1] == p[..j] + [ch];
        state := table[state].next[ch];
        j := j + 1;
      }
    }

    /** A new state for character k of the pattern. */
    method ExtendOne(p: Text, state0: nat, k: nat, ghost added: seq<Text>) returns (state: nat)
      requires PartOk(table, paths, added, p, k, state0) && numState + 1 == |paths| < |table| && k < |p|
      modifies `table, `paths, `numState
      ensures PartOk(table, paths, added, p, k + 1, state) && numState + 1 == |paths|
      ensures |table| == |old(table)| && |paths| == |old(paths)| + 1
    {
      NewStep(table, paths, added, p, k, state0);
      numState := numState + 1;
      table := SetNext(table, state0, p[k], numState);
      paths := paths + [p[..k + 1]];
      state := numState;
    }

    /** One state for every character that is left. */
    method Extend(p: Text, state0: nat, j: nat, ghost added: seq<Text>) returns (state: nat)
      requires PartOk(table, paths, added, p, j, state0) && numState + 1 == |paths| && |paths| + |p| - j <= |table|
      requires j <= |p|
      modifies `table, `paths, `numState
      ensures PartOk(table, paths, added, p, |p|, state) && numState + 1 == |paths|
      ensures |table| == |old(table)| && |paths| == |old(paths)| + |p| - j
    {
      state := state0;
      for k := j to |p|
        invariant PartOk(table, paths, added, p, k, state) && numState + 1 == |paths|
        invariant |table| == |old(table)| && |paths| == |old(paths)| + k - j
      {
        state := ExtendOne(p, state, k, added);
      }
    }

    /** The goto function: the trie of all patterns, in order of the list. */
    method BuildTrie()
      requires Valid() && numState == 0
      modifies `table, `paths, `numState
      ensures |table| == maxState && TrieOk(table, paths, patterns) && Covers(paths, patterns)
      ensures numState + 1 == |paths| && |paths| <= maxState
    {
      InitTable();
      assert patterns[..0] == [];
      for i := 0 to |patterns|
        invariant |table| == maxState && TrieOk(table, paths, patterns[..i]) && Covers(paths, patterns[..i])
        invariant numState + 1 == |paths| <= 1 + TotalLength(patterns[..i])
      {
        TotalNext(patterns, i);
        TotalOfPart(patterns, i + 1);
        AddWord(patterns[i], patterns[..i]);
        assert patterns[..i + 1] == patterns[..i] + [patterns[i]];
      }
      assert patterns[..|patterns|] == patterns;
    }

    /** The body of the loop over the patterns. */
    method AddWord(p: Text, ghost added: seq<Text>)
      requires TrieOk(table, paths, added) && Covers(paths, added) && numState + 1 == |paths|
      requires |paths| + |p| <= |table|
      modifies `table, `paths, `numState
      ensures TrieOk(table, paths, added + [p]) && Covers(paths, added + [p]) && |table| == |old(table)|
      ensures numState + 1 == |paths| <= |old(paths)| + |p|
    {
      var state, j := Descend(p, added);
      StartPartAt(paths, added, p, j);
      state := Extend(p, state, j, added);
      TrieEnds(table, paths, added, state, p);
      PartDone(paths, added, p, state);
      table := AddMatch(table, state, p);
    }

    /** The root goes back to itself where the trie has no transition. */
    method FillRoot()
      requires |table| == maxState && TrieOk(table, paths, patterns) && Covers(paths, patterns) && [] !in patterns
      modifies `table
      ensures TableOk(table, paths, patterns, {}, 0, 0, []) && |table| == |old(table)|
    {
      ghost var was := table;
      assert TrieNode(was[0], paths, 0, patterns);
      ghost var row := was[0].next;
      for j := 0 to CHARS
        invariant |row| == CHARS && table == was[0 := was[0].(next := row)]
        invariant RootRow(row, was[0].next, paths, j)
      {
        RootRowStep(row, was[0], paths, patterns, j);
        if table[0].next[j] == FAIL_STATE {
          table := SetNext(table, 0, j, 0);
          row := row[j := 0];
        }
      }
      RootFilled(was, table, paths, patterns);
    }

    /** acsm_state_union_match_pattern: every pattern of the other list goes to the front of this one. */
    method UnionMatches(state: nat, other: nat) returns (m: seq<Text>)
      requires state < |table| && other < |table| && state != other
      modifies `table
      ensures table == old(table)[state := old(table)[state].(matches := m)]
      ensures forall p :: p in m <==> p in old(table)[state].matches || p in old(table)[other].matches
    {
      var list := table[other].matches;
      m := table[state].matches;
      for i := 0 to |list|
        invariant forall p :: p in m <==> p in table[state].matches || p in list[..i]
      {
        assert list[..i + 1] == list[..i] + [list[i]];
        m := [list[i]] + m;
      }
      assert list[..|list|] == list;
      table := table[state := table[state].(matches := m)];
    }

    /** Where the sweep stands: at column `at` of state `cur`, with `done` finished and the queue holding what is
        found. */
    ghost predicate Sweeping(done: set<int>, cur: int, at: nat)
      reads this, queue
    {
      queue.Valid() && Swept(table, paths, patterns, done, cur, at, queue.Contents())
    }

    /** The children of the root: found, with the root as failure state. */
    method SweepRoot()
      requires Sweeping({}, 0, 0)
      modifies `table, queue
      ensures Sweeping({}, 0, CHARS) && |table| == |old(table)|
    {
      for j := 0 to CHARS
        invariant Sweeping({}, 0, j) && |table| == |old(table)|
      {
        RowAt(table, paths, patterns, {}, 0, j, queue.Contents(), 0);
        RootTransition(paths, j);
        if table[0].next[j] != 0 {
          RootChild(j);
        } else {
          TablePassesRoot(table, paths, patterns, {}, j, queue.Contents());
          SweepPasses(paths, {}, 0, j, queue.Contents());
        }
      }
    }

    method RootChild(j: Byte)
      requires Sweeping({}, 0, j) && |table| > 0 && |table[0].next| == CHARS
      requires table[0].next[j] == Full(paths, 0, j) != 0 && Goto(paths, 0, j) == Full(paths, 0, j)
      modifies `table, queue
      ensures Sweeping({}, 0, j + 1) && |table| == |old(table)|
    {
      var s := table[0].next[j];
      RootChildOk(table, paths, patterns, j, queue.Contents(), s);
      queue.AddState(s);
      table := table[s := table[s].(fail := 0)];
    }

    /** A column with a child: queue it, and give it its failure state and list. The failure state of the state being
        swept is shorter, so its row is complete and the search for a transition ends at once. */
    method Child(r: nat, j: Byte, ghost done: set<int>)
      requires Sweeping(done, r, j) && r > 0 && r < |table| && |table[r].next| == CHARS
      requires table[r].next[j] == Goto(paths, r, j) != FAIL_STATE
      modifies `table, queue
      ensures Sweeping(done, r, j + 1) && |table| == |old(table)|
    {
      var s := table[r].next[j];
      ghost var q := queue.Contents();
      ChildFails(table, paths, patterns, done, r, j, q, s);
      queue.AddState(s);
      var state := table[r].fail;
      assert table[state].next[j] != FAIL_STATE;
      SetChild(s, table[state].next[j], r, j, done, q);
    }

    method SetChild(s: nat, fail: nat, ghost r: int, ghost j: Byte, ghost done: set<int>, ghost q: seq<int>)
      requires Swept(table, paths, patterns, done, r, j, q) && r > 0 && Goto(paths, r, j) == s < |paths| <= |table|
      requires fail == Failure(paths, s) < |table| && s != fail
      modifies `table
      ensures Swept(table, paths, patterns, done, r, j + 1, q + [s]) && |table| == |old(table)|
    {
      ghost var was := table;
      ghost var m := LinkFailure(s, fail);
      ChildOk(was, paths, patterns, done, r, j, q, s, m);
    }

    method LinkFailure(s: nat, fail: nat) returns (ghost m: seq<Text>)
      requires s < |table| && fail < |table| && s != fail
      modifies `table
      ensures table == SetFailure(old(table), s, fail, m)
      ensures forall p :: p in m <==> p in old(table)[s].matches || p in old(table)[fail].matches
    {
      table := table[s := table[s].(fail := fail)];
      var union := UnionMatches(s, fail);
      m := union;
      TwoWrites(old(table), s, fail, m);
    }

    /** A column without one: take over the failure state's transition. */
    method NoChild(r: nat, j: Byte, ghost done: set<int>)
      requires Sweeping(done, r, j) && r > 0 && r < |table| && |table[r].next| == CHARS
      requires Goto(paths, r, j) == FAIL_STATE
      modifies `table
      ensures Sweeping(done, r, j + 1) && |table| == |old(table)|
    {
      ghost var q := queue.Contents();
      FailureRow(table, paths, patterns, done, r, j, q, j);
      TablePasses(table, paths, patterns, done, r, j, q);
      SweepPasses(paths, done, r, j, q);
      var state := table[r].fail;
      table := SetNext(table, r, j, table[state].next[j]);
    }

    /** The current state is finished; the next one comes off the queue. */
    method TakeNext(ghost done: set<int>, ghost cur: int) returns (r: nat)
      requires Sweeping(done, cur, CHARS) && queue.Contents() != []
      modifies queue
      ensures Sweeping(done + {cur}, r, 0) && 0 < r < |paths| && r !in done + {cur}
    {
      ghost var q := queue.Contents();
      TableAdvances(table, paths, patterns, done, cur, q);
      SweepAdvances(paths, done, cur, q);
      r := queue.NextState();
    }

    /** The failure function: each state once, shorter ones first. */
    method Sweep() returns (ghost order: seq<int>)
      requires Sweeping({}, 0, CHARS)
      modifies `table, queue
      ensures queue.Valid() && queue.Contents() == [] && |table| == |old(table)| && Compiled(table, paths, patterns)
      ensures EachOnce(order, |paths|)
    {
      order := [];
      ghost var done: set<int>, cur: int := {}, 0;
      var empty := queue.Empty();
      while !empty
        invariant Sweeping(done, cur, CHARS) && |table| == |old(table)| && (empty <==> queue.Contents() == [])
        invariant Dequeued(order, done, cur, |paths|)
        decreases |paths| - |order|
      {
        var r := TakeNext(done, cur);
        DequeuedNext(order, done, cur, |paths|, r);
        done, cur := done + {cur}, r;
        SweepState(r, done);
        order := order + [r];
        empty := queue.Empty();
      }
      SweptCompiled(table, paths, patterns, done, cur);
      AllDequeued(paths, order, done, cur);
    }

    method SweepState(r: nat, ghost done: set<int>)
      requires Sweeping(done, r, 0) && r > 0
      modifies `table, queue
      ensures Sweeping(done, r, CHARS) && |table| == |old(table)|
    {
      for j := 0 to CHARS
        invariant Sweeping(done, r, j) && |table| == |old(table)|
      {
        RowAt(table, paths, patterns, done, r, j, queue.Contents(), r);
        if table[r].next[j] != FAIL_STATE {
          Child(r, j, done);
        } else {
          NoChild(r, j, done);
        }
      }
    }

    /** acsm_compile: the table is the automaton of the patterns, every state is swept once, and the states fit the
        bound that adding the patterns computed. */
    method Compile() returns (ghost order: seq<int>)
      requires Valid() && numState == 0 && [] !in patterns
      modifies this, queue
      ensures Valid() && patterns == old(patterns) && Compiled(table, paths, patterns)
      ensures numState + 1 == |paths| && numState < maxState == |table| && EachOnce(order, |paths|)
    {
      BuildTrie();
      FillRoot();
      SweepStarts(table, paths, patterns);
      SweepRoot();
      order := Sweep();
    }

    /** One character of acsm_search. The state is that of the longest suffix read, and a compiled table has a
        transition for every character, so the failure loop never turns. */
    method Follow(state: nat, ch: Byte, ghost read: Text) returns (next: nat, hit: bool)
      requires Compiled(table, paths, patterns) && state == Longest(paths, read)
      ensures next == Longest(paths, read + [ch]) && (hit <==> PatternEnds(patterns, read + [ch]))
    {
      LongestStep(paths, read, ch);
      assert Completed(table[state], paths, patterns, state, CHARS, true);
      assert table[state].next[ch] != FAIL_STATE;
      next := table[state].next[ch];
      MatchesTell(table, paths, patterns, read + [ch], next);
      hit := table[next].matches != [];
    }

    /** acsm_search: 1 exactly when a pattern occurs in the text. */
    method Search(text: Text) returns (found: bool)
      requires Compiled(table, paths, patterns) && [] !in patterns
      ensures found <==> exists p :: p in patterns && Occurs(p, Folded(noCase, text))
    {
      var state := 0;
      ghost var w := Folded(noCase, text);
      NothingRead(paths, patterns, w);
      for i := 0 to |text|
        invariant 0 <= state == Longest(paths, w[..i]) && NoneEnds(patterns, w, i)
      {
        var ch := if noCase then ToLower(text[i]) else text[i];
        OneMore(w, i);
        var hit;
        state, hit := Follow(state, ch, w[..i]);
        if hit {
          EndOccurs(patterns, w, i + 1);
          return true;
        }
      }
      found := false;
      NoneOccurs(patterns, w);
    }
  }

  ghost predicate NoneEnds(pats: seq<Text>, w: Text, i: nat)
    requires i <= |w|
  {
    forall k :: 0 <= k <= i ==> !PatternEnds(pats, w[..k])
  }

  lemma NothingRead(paths: seq<Text>, pats: seq<Text>, w: Text)
    requires PathsOk(paths) && [] !in pats
    ensures Longest(paths, w[..0]) == 0 && NoneEnds(pats, w, 0)
  {
    StateUnique(paths, 0);
    assert w[..0] == paths[0];
  }

  lemma OneMore(w: Text, i: nat)
    requires i < |w|
    ensures w[..i + 1] == w[..i] + [w[i]]
  {
  }

  ghost predicate OccursAt(p: Text, w: Text, i: nat)
  {
    i + |p| <= |w| && w[i..i + |p|] == p
  }

  ghost predicate Occurs(p: Text, w: Text)
  {
    exists i: nat :: OccursAt(p, w, i)
  }

  ghost predicate PatternEnds(pats: seq<Text>, u: Text)
  {
    exists p :: p in pats && Suffix(p, u)
  }

  lemma EndOccurs(pats: seq<Text>, w: Text, k: nat)
    requires k <= |w| && PatternEnds(pats, w[..k])
    ensures exists p :: p in pats && Occurs(p, w)
  {
    var p :| p in pats && Suffix(p, w[..k]);
    assert w[..k][k - |p|..] == w[k - |p|..k - |p| + |p|];
    assert OccursAt(p, w, k - |p|);
  }

  lemma NoneOccurs(pats: seq<Text>, w: Text)
    requires NoneEnds(pats, w, |w|)
    ensures forall p :: p in pats ==> !Occurs(p, w)
  {
    forall p, i: nat | p in pats
      ensures !OccursAt(p, w, i)
    {
      if OccursAt(p, w, i) {
        OccurrenceEnds(pats, p, w, i);
      }
    }
  }

  lemma OccurrenceEnds(pats: seq<Text>, p: Text, w: Text, i: nat)
    requires p in pats && OccursAt(p, w, i)
    ensures PatternEnds(pats, w[..i + |p|])
  {
    assert w[..i + |p|][i..] == w[i..i + |p|];
    assert Suffix(p, w[..i + |p|]);
  }

  /** The list of the state of the longest suffix is not empty exactly when a pattern ends here. */
  lemma MatchesTell(table: seq<Node>, paths: seq<Text>, pats: seq<Text>, w: Text, s: nat)
    requires Compiled(table, paths, pats) && s == Longest(paths, w)
    ensures table[s].matches != [] <==> PatternEnds(pats, w)
  {
    assert Completed(table[s], paths, pats, s, CHARS, true);
    forall p | p in pats
      ensures p in table[s].matches <==> Suffix(p, w)
    {
      LongestSuffix(paths, w, p);
    }
    if table[s].matches != [] {
      var p := table[s].matches[0];
      assert p in table[s].matches;
    }
  }

  lemma SweepStarts(table: seq<Node>, paths: seq<Text>, pats: seq<Text>)
    requires TableOk(table, paths, pats, {}, 0, 0, []) && Covers(paths, pats) && [] !in pats
    ensures Swept(table, paths, pats, {}, 0, 0, [])
  {
  }

  lemma StartPartAt(paths: seq<Text>, added: seq<Text>, p: Text, k: nat)
    requires Covers(paths, added) && k <= |p|
    ensures CoversPart(paths, added, p, k)
  {
  }

  lemma TwoWrites(was: seq<Node>, s: nat, fail: int, m: seq<Text>)
    requires s < |was|
    ensures was[s := was[s].(fail := fail)][s := was[s].(fail := fail).(matches := m)] == SetFailure(was, s, fail, m)
  {
  }

  /** The order lists each number in (0, n) exactly once. */
  ghost predicate EachOnce(order: seq<int>, n: nat)
  {
    && (forall s :: s in order <==> 0 < s < n)
    && (forall i, j :: 0 <= i < j < |order| ==> order[i] != order[j])
  }

  ghost predicate Dequeued(order: seq<int>, done: set<int>, cur: int, n: nat)
  {
    && (forall s :: s in order || s == 0 <==> s in done || s == cur)
    && (forall i :: 0 <= i < |order| ==> 0 < order[i] < n)
    && (forall i, j :: 0 <= i < j < |order| ==> order[i] != order[j]) && |order| <= n
  }

  lemma DequeuedNext(order: seq<int>, done: set<int>, cur: int, n: nat, r: int)
    requires Dequeued(order, done, cur, n) && 0 < r < n && r !in done + {cur}
    ensures Dequeued(order + [r], done + {cur}, r, n) && |order| < n
  {
    DistinctBounded(order + [r], n);
  }

  lemma DistinctBounded(order: seq<int>, n: nat)
    requires forall i :: 0 <= i < |order| ==> 0 < order[i] < n
    requires forall i, j :: 0 <= i < j < |order| ==> order[i] != order[j]
    ensures |order| <= n
  {
    MembersSize(order);
    CardinalityMono(Members(order), Numbers(n));
  }

  ghost function Numbers(n: nat): (r: set<int>)
    ensures |r| == n && forall k :: k in r <==> 0 <= k < n
  {
    if n == 0 then {} else Numbers(n - 1) + {n - 1}
  }

  ghost function Members(order: seq<int>): (r: set<int>)
    ensures forall x :: x in r <==> x in order
  {
    if order == [] then {}
    else
      var front := order[..|order| - 1];
      assert order == front + [order[|order| - 1]];
      Members(front) + {order[|order| - 1]}
  }

  lemma {:induction false} MembersSize(order: seq<int>)
    requires forall i, j :: 0 <= i < j < |order| ==> order[i] != order[j]
    ensures |Members(order)| == |order|
  {
    if order != [] {
      MembersSize(order[..|order| - 1]);
      assert order[|order| - 1] !in order[..|order| - 1];
    }
  }

  lemma CardinalityMono(a: set<int>, b: set<int>)
    requires a <= b
    ensures |a| <= |b|
  {
    assert b == a + (b - a);
  }

  lemma AllDequeued(paths: seq<Text>, order: seq<int>, done: set<int>, cur: int)
    requires SweepOk(paths, done, cur, CHARS, []) && Dequeued(order, done, cur, |paths|)
    ensures EachOnce(order, |paths|)
  {
    forall s | 0 < s < |paths|
      ensures s in order
    {
      SweepEnds(paths, done, cur, s);
    }
  }

  lemma RootChildOk(table: seq<Node>, paths: seq<Text>, pats: seq<Text>, at: Byte, q: seq<int>, s: nat)
    requires Swept(table, paths, pats, {}, 0, at, q) && Goto(paths, 0, at) == s
    ensures 0 < s < |paths| <= |table| && Swept(table[s := table[s].(fail := 0)], paths, pats, {}, 0, at + 1, q + [s])
  {
    SweepFinds(paths, {}, 0, at, q, s);
    GotoIsFull(paths, 0, at);
    ChildFailure(paths, 0, at);
    forall p
      ensures p in table[s].matches <==> p in pats && Suffix(p, paths[s])
    {
      MatchesOfChild(table, paths, pats, {}, 0, at, q, s, p);
    }
    TableFinds(table, paths, pats, {}, 0, at, q, s, table[s].matches);
  }

  /** The failure state of a child is where the complete row of the parent's failure state leads. */
  lemma ChildFails(table: seq<Node>, paths: seq<Text>, pats: seq<Text>, done: set<int>, cur: int, at: Byte, q: seq<int>,
      s: nat)
    requires Swept(table, paths, pats, done, cur, at, q) && cur > 0 && Goto(paths, cur, at) == s
    ensures 0 < s < |paths| <= |table| && 0 <= table[cur].fail < |paths| && |table[table[cur].fail].next| == CHARS
    ensures table[table[cur].fail].next[at] == Failure(paths, s) != s && Failure(paths, s) < |paths|
  {
    FindOne(paths, done, cur, at, q, s);
    GotoIsFull(paths, cur, at);
    FailureRow(table, paths, pats, done, cur, at, q, at);
    ChildFailure(paths, cur, at);
    FailureShorter(paths, s);
  }

  lemma ChildOk(table: seq<Node>, paths: seq<Text>, pats: seq<Text>, done: set<int>, cur: int, at: Byte, q: seq<int>,
      s: nat, m: seq<Text>)
    requires Swept(table, paths, pats, done, cur, at, q) && cur > 0 && Goto(paths, cur, at) == s < |paths|
    requires Failure(paths, s) < |table|
    requires forall p :: p in m <==> p in table[s].matches || p in table[Failure(paths, s)].matches
    ensures Swept(SetFailure(table, s, Failure(paths, s), m), paths, pats, done, cur, at + 1, q + [s])
  {
    SweepFinds(paths, done, cur, at, q, s);
    forall p
      ensures p in m <==> p in pats && Suffix(p, paths[s])
    {
      MatchesOfChild(table, paths, pats, done, cur, at, q, s, p);
    }
    TableFinds(table, paths, pats, done, cur, at, q, s, m);
  }

  /** The root's row, complete up to column j. */
  ghost predicate RootRow(row: seq<int>, was: seq<int>, paths: seq<Text>, j: nat)
    requires PathsOk(paths) && |row| == CHARS == |was|
  {
    forall c: Byte :: row[c] == if c < j then Full(paths, 0, c) else was[c]
  }

  lemma RootRowStep(row: seq<int>, was: Node, paths: seq<Text>, pats: seq<Text>, j: Byte)
    requires PathsOk(paths) && TrieNode(was, paths, 0, pats) && |row| == CHARS && RootRow(row, was.next, paths, j)
    ensures RootRow(if row[j] == FAIL_STATE then row[j := 0] else row, was.next, paths, j + 1)
  {
    RootTransition(paths, j);
  }

  /** The filled table is where the sweep starts: at the root, with nothing swept. */
  lemma RootFilled(was: seq<Node>, now: seq<Node>, paths: seq<Text>, pats: seq<Text>)
    requires TrieOk(was, paths, pats) && |now| == |was| && [] !in pats && |now[0].next| == CHARS
    requires forall s :: 0 < s < |now| ==> now[s] == was[s]
    requires now[0].fail == was[0].fail && now[0].matches == was[0].matches
    requires forall c: Byte :: now[0].next[c] == Full(paths, 0, c)
    ensures TableOk(now, paths, pats, {}, 0, 0, [])
  {
    forall s | 0 <= s < |paths|
      ensures Completed(now[s], paths, pats, s, UpTo(s, {}, 0, 0), Found(s, {}, 0, []))
    {
      assert TrieNode(was[s], paths, s, pats);
      if s == 0 {
        forall p | p in pats
          ensures !Suffix(p, paths[0])
        {
        }
      }
    }
  }
}
