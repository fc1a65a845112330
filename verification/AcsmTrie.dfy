/** Sets of strings closed under prefixes, numbered as automaton states, and the longest suffix that is one of them. */
module AcsmTrie {

  type Byte = b: int | 0 <= b < 256
  type Text = seq<Byte>

  ghost predicate Suffix(u: Text, w: Text)
  {
    |u| <= |w| && w[|w| - |u|..] == u
  }

  function Front(w: Text): Text
    requires w != []
  {
    w[..|w| - 1]
  }

  function Last(w: Text): Byte
    requires w != []
  {
    w[|w| - 1]
  }

  lemma FrontLast(w: Text, c: Byte)
    ensures Front(w + [c]) == w && Last(w + [c]) == c
    ensures w != [] ==> w == Front(w) + [Last(w)]
  {
  }

  /** The string of every state: the root's is empty, no two are equal, and every prefix of one is one. */
  ghost predicate PathsOk(paths: seq<Text>)
  {
    && |paths| > 0 && paths[0] == []
    && (forall s, t :: 0 <= s < t < |paths| ==> paths[s] != paths[t])
    && (forall s {:trigger Front(paths[s])} :: 0 < s < |paths| ==> paths[s] != [] && Front(paths[s]) in paths)
  }

  /** The state of a string. */
  ghost function StateOf(paths: seq<Text>, w: Text): (s: nat)
    requires w in paths
    ensures s < |paths| && paths[s] == w
  {
    if paths[0] == w then 0 else 1 + StateOf(paths[1..], w)
  }

  lemma SameState(paths: seq<Text>, s: nat, t: nat)
    requires PathsOk(paths) && s < |paths| && t < |paths| && paths[s] == paths[t]
    ensures s == t
  {
  }

  lemma StateUnique(paths: seq<Text>, s: nat)
    requires PathsOk(paths) && s < |paths|
    ensures paths[s] in paths && StateOf(paths, paths[s]) == s
  {
    SameState(paths, s, StateOf(paths, paths[s]));
  }

  ghost function Parent(paths: seq<Text>, s: nat): (t: nat)
    requires PathsOk(paths) && 0 < s < |paths|
    ensures t < |paths| && paths[t] == Front(paths[s]) && |paths[t]| == |paths[s]| - 1
  {
    StateOf(paths, Front(paths[s]))
  }

  /** The state of the longest suffix that is a state. */
  ghost function Longest(paths: seq<Text>, w: Text): (s: nat)
    requires PathsOk(paths)
    ensures s < |paths|
    decreases |w|
  {
    assert paths[0] in paths;
    if w in paths then StateOf(paths, w) else Longest(paths, w[1..])
  }

  lemma SuffixTail(u: Text, w: Text)
    requires w != [] && u != w
    ensures Suffix(u, w) <==> Suffix(u, w[1..])
  {
    if |u| < |w| {
      assert w[|w| - |u|..] == w[1..][|w[1..]| - |u|..];
    } else if |u| == |w| {
      assert w[0..] == w;
    }
  }

  /** The chosen state's string is a suffix; and a state's string is a suffix of one exactly when of the other. */
  lemma {:induction false} LongestSuffix(paths: seq<Text>, w: Text, u: Text)
    requires PathsOk(paths) && u in paths
    ensures Suffix(u, w) <==> Suffix(u, paths[Longest(paths, w)])
    ensures Suffix(paths[Longest(paths, w)], w) && |paths[Longest(paths, w)]| <= |w|
    decreases |w|
  {
    assert paths[0] in paths;
    if w in paths {
      assert w[0..] == w;
    } else {
      LongestSuffix(paths, w[1..], u);
      SuffixTail(u, w);
      SuffixTail(paths[Longest(paths, w)], w);
    }
  }

  /** Appending a character: only the longest suffix matters. */
  lemma {:induction false} LongestStep(paths: seq<Text>, w: Text, c: Byte)
    requires PathsOk(paths)
    ensures Longest(paths, w + [c]) == Longest(paths, paths[Longest(paths, w)] + [c])
    decreases |w|
  {
    assert paths[0] in paths;
    if w !in paths {
      NotExtended(paths, w, c);
      assert (w + [c])[1..] == w[1..] + [c];
      LongestStep(paths, w[1..], c);
    }
  }

  lemma FrontIn(paths: seq<Text>, w: Text)
    requires PathsOk(paths) && w in paths && w != []
    ensures Front(w) in paths
  {
    var s := StateOf(paths, w);
    assert s != 0;
  }

  lemma NotExtended(paths: seq<Text>, w: Text, c: Byte)
    requires PathsOk(paths) && w !in paths
    ensures w + [c] !in paths
  {
    FrontLast(w, c);
    if w + [c] in paths {
      FrontIn(paths, w + [c]);
    }
  }

  /** The automaton's transition: to the longest suffix of the string and one character more. */
  ghost function Full(paths: seq<Text>, s: nat, c: Byte): nat
    requires PathsOk(paths) && s < |paths|
  {
    Longest(paths, paths[s] + [c])
  }

  const FAIL_STATE := -1

  /** The trie's transition: to the extended string, if it is a state. */
  ghost function Goto(paths: seq<Text>, s: nat, c: Byte): int
    requires s < |paths|
  {
    if paths[s] + [c] in paths then StateOf(paths, paths[s] + [c]) else FAIL_STATE
  }

  /** The failure state: the longest proper suffix. */
  ghost function Failure(paths: seq<Text>, s: nat): nat
    requires PathsOk(paths) && s < |paths|
  {
    if s == 0 then 0 else Longest(paths, paths[s][1..])
  }

  lemma FailureShorter(paths: seq<Text>, s: nat)
    requires PathsOk(paths) && 0 < s < |paths|
    ensures |paths[Failure(paths, s)]| < |paths[s]|
  {
    assert paths[0] in paths;
    LongestSuffix(paths, paths[s][1..], paths[0]);
  }

  /** Where the trie has a transition, the automaton has the same. */
  lemma GotoIsFull(paths: seq<Text>, s: nat, c: Byte)
    requires PathsOk(paths) && s < |paths| && Goto(paths, s, c) != FAIL_STATE
    ensures Goto(paths, s, c) == Full(paths, s, c) > 0
    ensures Parent(paths, Full(paths, s, c)) == s && Last(paths[Full(paths, s, c)]) == c
  {
    FrontLast(paths[s], c);
    StateUnique(paths, s);
  }

  lemma ParentGoto(paths: seq<Text>, s: nat)
    requires PathsOk(paths) && 0 < s < |paths|
    ensures Goto(paths, Parent(paths, s), Last(paths[s])) == s
  {
    FrontLast(paths[s], Last(paths[s]));
    StateUnique(paths, s);
  }

  /** Where it has none, the automaton goes where the failure state goes. */
  lemma FullByFailure(paths: seq<Text>, s: nat, c: Byte)
    requires PathsOk(paths) && 0 < s < |paths| && Goto(paths, s, c) == FAIL_STATE
    ensures Full(paths, s, c) == Full(paths, Failure(paths, s), c)
  {
    assert (paths[s] + [c])[1..] == paths[s][1..] + [c];
    LongestStep(paths, paths[s][1..], c);
  }

  /** The failure state of a child is where the parent's failure state goes. */
  lemma ChildFailure(paths: seq<Text>, r: nat, c: Byte)
    requires PathsOk(paths) && r < |paths| && Goto(paths, r, c) != FAIL_STATE
    ensures Failure(paths, Full(paths, r, c)) == if r == 0 then 0 else Full(paths, Failure(paths, r), c)
  {
    GotoIsFull(paths, r, c);
    var s := Full(paths, r, c);
    if r == 0 {
      assert paths[s][1..] == [];
      StateUnique(paths, 0);
    } else {
      assert paths[s][1..] == paths[r][1..] + [c];
      LongestStep(paths, paths[r][1..], c);
    }
  }

  lemma RootTransition(paths: seq<Text>, c: Byte)
    requires PathsOk(paths)
    ensures Full(paths, 0, c) == if Goto(paths, 0, c) == FAIL_STATE then 0 else Goto(paths, 0, c)
    ensures Full(paths, 0, c) != 0 <==> Goto(paths, 0, c) != FAIL_STATE
  {
    StateUnique(paths, 0);
    assert paths[0] + [c] == [c];
    if Goto(paths, 0, c) == FAIL_STATE {
      assert [c][1..] == [] == paths[0];
      assert paths[0] in paths;
      assert Longest(paths, [c]) == Longest(paths, []);
    } else {
      GotoIsFull(paths, 0, c);
    }
  }

  /** A pattern ends at a state exactly if it is the state's string or ends at its failure state. */
  lemma MatchesByFailure(paths: seq<Text>, s: nat, p: Text)
    requires PathsOk(paths) && 0 < s < |paths| && p in paths
    ensures Suffix(p, paths[s]) <==> p == paths[s] || Suffix(p, paths[Failure(paths, s)])
  {
    LongestSuffix(paths, paths[s][1..], p);
    if p != paths[s] {
      SuffixTail(p, paths[s]);
    } else {
      assert paths[s][0..] == paths[s];
    }
  }

  // --- growing --------------------------------------------------------------------------------------------

  /** A new state for a string whose front is a state. */
  lemma PathsGrow(paths: seq<Text>, s: nat, c: Byte)
    requires PathsOk(paths) && s < |paths| && paths[s] + [c] !in paths
    ensures PathsOk(paths + [paths[s] + [c]])
    ensures forall w :: w in paths ==>
      w in paths + [paths[s] + [c]] && StateOf(paths + [paths[s] + [c]], w) == StateOf(paths, w)
    ensures StateOf(paths + [paths[s] + [c]], paths[s] + [c]) == |paths|
  {
    var w := paths[s] + [c];
    var more := paths + [w];
    FrontLast(paths[s], c);
    forall t | 0 < t < |more|
      ensures more[t] != [] && Front(more[t]) in more
    {
      if t == |paths| {
        assert paths[s] in paths;
      }
    }
    assert PathsOk(more);
    StateUnique(more, |paths|);
    forall v | v in paths
      ensures v in more && StateOf(more, v) == StateOf(paths, v)
    {
      var t := StateOf(paths, v);
      assert more[t] == v;
      StateUnique(more, t);
    }
  }

  lemma GotoGrows(paths: seq<Text>, s: nat, c: Byte, t: nat, d: Byte)
    requires PathsOk(paths) && s < |paths| && t < |paths| && paths[s] + [c] !in paths
    ensures Goto(paths + [paths[s] + [c]], t, d) == if t == s && d == c then |paths| else Goto(paths, t, d)
  {
    var more := paths + [paths[s] + [c]];
    PathsGrow(paths, s, c);
    FrontLast(paths[t], d);
    FrontLast(paths[s], c);
    if !(t == s && d == c) {
      if paths[t] + [d] == paths[s] + [c] {
        StateUnique(paths, t);
        StateUnique(paths, s);
      }
      assert paths[t] + [d] in more <==> paths[t] + [d] in paths;
    }
  }

  lemma GotoOfNew(paths: seq<Text>, s: nat, c: Byte, d: Byte)
    requires PathsOk(paths) && s < |paths| && paths[s] + [c] !in paths
    ensures Goto(paths + [paths[s] + [c]], |paths|, d) == FAIL_STATE
  {
    var w := paths[s] + [c];
    NotExtended(paths, w, d);
    assert |w + [d]| != |w|;
  }
}
