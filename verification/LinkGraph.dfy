/** The dependency graph of loaded libraries: reference counts, child lists and their invariant. */
module LinkGraph {

  type Lib = int

  datatype Soinfo = Soinfo(name: string, inode: int, refCount: int, children: seq<Lib>, linked: bool)

  /** Every child entry of every library, with how often it occurs. */
  ghost function Entries(solist: seq<Lib>, libs: map<Lib, Soinfo>): multiset<Lib>
    requires forall i :: 0 <= i < |solist| ==> solist[i] in libs
  {
    if solist == [] then multiset{} else multiset(libs[solist[0]].children) + Entries(solist[1..], libs)
  }

  ghost predicate Distinct(solist: seq<Lib>)
  {
    forall i, j :: 0 <= i < j < |solist| ==> solist[i] != solist[j]
  }

  ghost predicate Listed(solist: seq<Lib>, libs: map<Lib, Soinfo>)
  {
    Distinct(solist) && (forall i :: 0 <= i < |solist| ==> solist[i] in libs) && forall x :: x in libs ==> x in solist
  }

  lemma {:induction false} EntriesSame(solist: seq<Lib>, libs: map<Lib, Soinfo>, libs': map<Lib, Soinfo>)
    requires forall i :: 0 <= i < |solist| ==>
      solist[i] in libs && solist[i] in libs' && libs'[solist[i]].children == libs[solist[i]].children
    ensures Entries(solist, libs') == Entries(solist, libs)
  {
    if solist != [] {
      EntriesSame(solist[1..], libs, libs');
    }
  }

  lemma SumsAgree(a: multiset<Lib>, e: multiset<Lib>, a': multiset<Lib>, e': multiset<Lib>, was: multiset<Lib>,
      now: multiset<Lib>)
    requires (a == was && a' == now && e' == e) || (a' == a && e' + was == e + now)
    ensures (a' + e') + was == (a + e) + now
  {
    forall x
      ensures ((a' + e') + was)[x] == ((a + e) + now)[x]
    {
      assert (e' + was)[x] == e'[x] + was[x] && (e + now)[x] == e[x] + now[x];
    }
  }

  /** Changing one library's list changes the entries by just that. */
  lemma {:induction false} EntriesUpdate(solist: seq<Lib>, libs: map<Lib, Soinfo>, libs': map<Lib, Soinfo>, x: Lib)
    requires Distinct(solist) && x in solist
    requires forall i :: 0 <= i < |solist| ==> solist[i] in libs && solist[i] in libs'
    requires forall i :: 0 <= i < |solist| && solist[i] != x ==> libs'[solist[i]].children == libs[solist[i]].children
    ensures Entries(solist, libs') + multiset(libs[x].children) == Entries(solist, libs) + multiset(libs'[x].children)
  {
    var rest := solist[1..];
    if solist[0] == x {
      EntriesSame(rest, libs, libs');
      assert Entries(rest, libs') == Entries(rest, libs);
    } else {
      assert x in rest;
      EntriesUpdate(rest, libs, libs', x);
      assert libs'[solist[0]].children == libs[solist[0]].children;
    }
    SumsAgree(multiset(libs[solist[0]].children), Entries(rest, libs), multiset(libs'[solist[0]].children),
        Entries(rest, libs'),
              multiset(libs[x].children), multiset(libs'[x].children));
  }

  lemma {:induction false} EntriesAppend(solist: seq<Lib>, libs: map<Lib, Soinfo>, x: Lib)
    requires forall i :: 0 <= i < |solist| ==> solist[i] in libs
    requires x in libs
    ensures Entries(solist + [x], libs) == Entries(solist, libs) + multiset(libs[x].children)
  {
    if solist == [] {
      assert [x][1..] == [];
    } else {
      EntriesAppend(solist[1..], libs, x);
      assert (solist + [x])[1..] == solist[1..] + [x];
    }
  }

  lemma {:induction false} EntriesRemove(solist: seq<Lib>, libs: map<Lib, Soinfo>, k: nat)
    requires k < |solist| && forall i :: 0 <= i < |solist| ==> solist[i] in libs
    ensures Entries(solist[..k] + solist[k + 1..], libs) + multiset(libs[solist[k]].children) == Entries(solist, libs)
  {
    if k == 0 {
      assert solist[..0] + solist[1..] == solist[1..];
    } else {
      EntriesRemove(solist[1..], libs, k - 1);
      assert (solist[..k] + solist[k + 1..])[1..] == solist[1..][..k - 1] + solist[1..][k..];
    }
  }

  lemma {:induction false} EntryHasParent(solist: seq<Lib>, libs: map<Lib, Soinfo>, y: Lib)
    requires (forall i :: 0 <= i < |solist| ==> solist[i] in libs) && y in Entries(solist, libs)
    ensures exists x :: x in solist && x in libs && y in libs[x].children
  {
    if y in libs[solist[0]].children {
      var x := solist[0];
      assert x in solist && x in libs && y in libs[x].children;
    } else {
      EntryHasParent(solist[1..], libs, y);
      var x :| x in solist[1..] && x in libs && y in libs[x].children;
      assert x in solist;
    }
  }

  lemma {:induction false} ChildIsEntry(solist: seq<Lib>, libs: map<Lib, Soinfo>, x: Lib, y: Lib)
    requires (forall i :: 0 <= i < |solist| ==> solist[i] in libs) && x in solist && y in libs[x].children
    ensures y in Entries(solist, libs)
  {
    if solist[0] != x {
      ChildIsEntry(solist[1..], libs, x, y);
    }
  }

  // --- the invariant ----------------------------------------------------------------------------------

  /** Ranks that fall from parent to child: the graph has no cycle. */
  ghost predicate Ranked(libs: map<Lib, Soinfo>, rank: map<Lib, nat>)
  {
    && (forall x :: x in libs ==> x in rank)
    && (forall x, y {:trigger y in libs[x].children} ::
          x in libs && y in libs[x].children ==> y in libs && rank[y] < rank[x])
  }

  /** Every count is the open handles plus the child entries. */
  ghost predicate Counted(solist: seq<Lib>, libs: map<Lib, Soinfo>, ext: multiset<Lib>)
    requires Listed(solist, libs)
  {
    && (forall x :: x in ext ==> x in libs)
    && (forall x :: x in libs ==> libs[x].refCount == ext[x] + Entries(solist, libs)[x])
  }

  /** Nothing loaded is unreferenced. */
  ghost predicate AllUsed(libs: map<Lib, Soinfo>)
  {
    forall x :: x in libs ==> libs[x].refCount > 0
  }

  ghost predicate GraphOk(solist: seq<Lib>, libs: map<Lib, Soinfo>, ext: multiset<Lib>, rank: map<Lib, nat>)
  {
    Listed(solist, libs) && Ranked(libs, rank) && Counted(solist, libs, ext)
  }

  // --- reachability -----------------------------------------------------------------------------------

  ghost predicate Reaches(libs: map<Lib, Soinfo>, rank: map<Lib, nat>, a: Lib, b: Lib)
    requires Ranked(libs, rank) && a in libs
    decreases rank[a]
  {
    a == b || exists c :: c in libs[a].children && Reaches(libs, rank, c, b)
  }

  lemma {:induction false} ReachesOn(libs: map<Lib, Soinfo>, rank: map<Lib, nat>, a: Lib, g: Lib, b: Lib)
    requires Ranked(libs, rank) && a in libs && Reaches(libs, rank, a, g) && g in libs && b in libs[g].children
    ensures Reaches(libs, rank, a, b)
    decreases rank[a]
  {
    if a == g {
      assert Reaches(libs, rank, b, b);
    } else {
      var c :| c in libs[a].children && Reaches(libs, rank, c, g);
      ReachesOn(libs, rank, c, g, b);
    }
  }

  lemma {:induction false} ReachesFrom(libs: map<Lib, Soinfo>, rank: map<Lib, nat>, a: Lib, b: Lib)
    requires Ranked(libs, rank) && a in libs && Reaches(libs, rank, a, b) && a != b
    ensures exists g :: g in libs && b in libs[g].children && Reaches(libs, rank, a, g)
    decreases rank[a]
  {
    var c :| c in libs[a].children && Reaches(libs, rank, c, b);
    if c == b {
      assert Reaches(libs, rank, a, a);
    } else {
      ReachesFrom(libs, rank, c, b);
      var g :| g in libs && b in libs[g].children && Reaches(libs, rank, c, g);
      assert Reaches(libs, rank, a, g);
    }
  }

  /** The ranks after an edge from p to c: everything that c does not reach moves up past it. */
  ghost function Reranked(libs: map<Lib, Soinfo>, rank: map<Lib, nat>, c: Lib): map<Lib, nat>
    requires Ranked(libs, rank) && c in libs
  {
    map x | x in libs :: if Reaches(libs, rank, c, x) then rank[x] else rank[x] + rank[c] + 1
  }

  /** An edge to a library that does not reach back leaves the graph without cycles. */
  lemma EdgeKeepsRanks(libs: map<Lib, Soinfo>, rank: map<Lib, nat>, p: Lib, c: Lib, libs': map<Lib, Soinfo>)
    requires Ranked(libs, rank) && p in libs && c in libs && !Reaches(libs, rank, c, p)
    requires libs'.Keys == libs.Keys && libs'[p].children == libs[p].children + [c]
    requires forall x :: x in libs && x != p ==> libs'[x].children == libs[x].children
    ensures Ranked(libs', Reranked(libs, rank, c))
  {
    var r := Reranked(libs, rank, c);
    assert Reaches(libs, rank, c, c);
    forall x, y | x in libs' && y in libs'[x].children
      ensures y in libs' && r[y] < r[x]
    {
      if x == p && y !in libs[p].children {
        assert y == c;
      } else {
        if Reaches(libs, rank, c, x) {
          ReachesOn(libs, rank, c, x, y);
        }
      }
    }
  }

  // --- what each change does to the graph ---------------------------------------------------------------

  /** The counts after one library's list and some counts changed. */
  lemma RecountAfterUpdate(solist: seq<Lib>, libs: map<Lib, Soinfo>, ext: multiset<Lib>, x: Lib,
      libs': map<Lib, Soinfo>, ext': multiset<Lib>)
    requires Listed(solist, libs) && Counted(solist, libs, ext) && x in libs && libs'.Keys == libs.Keys
    requires forall y :: y in libs && y != x ==> libs'[y].children == libs[y].children
    requires forall y :: y in ext' ==> y in libs
    requires forall y :: y in libs ==>
      libs'[y].refCount + ext[y] + multiset(libs[x].children)[y] ==
          libs[y].refCount + ext'[y] + multiset(libs'[x].children)[y]
    ensures Listed(solist, libs') && Counted(solist, libs', ext')
  {
    EntriesUpdate(solist, libs, libs', x);
    var was, now := multiset(libs[x].children), multiset(libs'[x].children);
    forall y | y in libs'
      ensures libs'[y].refCount == ext'[y] + Entries(solist, libs')[y]
    {
      assert (Entries(solist, libs') + was)[y] == (Entries(solist, libs) + now)[y];
    }
  }

  lemma DropRef(solist: seq<Lib>, libs: map<Lib, Soinfo>, ext: multiset<Lib>, rank: map<Lib, nat>, x: Lib)
    requires GraphOk(solist, libs, ext, rank) && ext[x] > 0
    ensures x in libs && GraphOk(solist, libs[x := libs[x].(refCount := libs[x].refCount - 1)], ext - multiset{x}, rank)
  {
    var libs' := libs[x := libs[x].(refCount := libs[x].refCount - 1)];
    RecountAfterUpdate(solist, libs, ext, x, libs', ext - multiset{x});
  }

  lemma AddHandle(solist: seq<Lib>, libs: map<Lib, Soinfo>, ext: multiset<Lib>, rank: map<Lib, nat>, x: Lib)
    requires GraphOk(solist, libs, ext, rank) && x in libs
    ensures GraphOk(solist, libs[x := libs[x].(refCount := libs[x].refCount + 1)], ext + multiset{x}, rank)
  {
    var libs' := libs[x := libs[x].(refCount := libs[x].refCount + 1)];
    RecountAfterUpdate(solist, libs, ext, x, libs', ext + multiset{x});
  }

  lemma HeadCounts(children: seq<Lib>)
    requires children != []
    ensures multiset(children) == multiset{children[0]} + multiset(children[1..])
  {
    assert children == [children[0]] + children[1..];
  }

  function Popped(libs: map<Lib, Soinfo>, x: Lib): map<Lib, Soinfo>
    requires x in libs && libs[x].children != []
  {
    libs[x := libs[x].(children := libs[x].children[1..])]
  }

  /** Taking the first child off a list: its entry becomes a handle in passing. */
  lemma PopCounted(solist: seq<Lib>, libs: map<Lib, Soinfo>, ext: multiset<Lib>, x: Lib)
    requires Listed(solist, libs) && Counted(solist, libs, ext) && x in libs && libs[x].children != []
    requires libs[x].children[0] in libs
    ensures Listed(solist, Popped(libs, x)) && Counted(solist, Popped(libs, x), ext + multiset{libs[x].children[0]})
  {
    HeadCounts(libs[x].children);
    RecountAfterUpdate(solist, libs, ext, x, Popped(libs, x), ext + multiset{libs[x].children[0]});
  }

  lemma PopShrinks(solist: seq<Lib>, libs: map<Lib, Soinfo>, x: Lib)
    requires Listed(solist, libs) && x in libs && libs[x].children != []
    ensures Listed(solist, Popped(libs, x)) && |Entries(solist, Popped(libs, x))| < |Entries(solist, libs)|
  {
    EntriesUpdate(solist, libs, Popped(libs, x), x);
    HeadCounts(libs[x].children);
    var e, e', rest := Entries(solist, libs), Entries(solist, Popped(libs, x)), multiset(libs[x].children[1..]);
    assert |e' + (multiset{libs[x].children[0]} + rest)| == |e'| + 1 + |rest|;
    assert |e + rest| == |e| + |rest|;
  }

  lemma PopRanked(libs: map<Lib, Soinfo>, rank: map<Lib, nat>, x: Lib)
    requires Ranked(libs, rank) && x in libs && libs[x].children != []
    ensures Ranked(Popped(libs, x), rank) && libs[x].children[0] in libs
  {
    var c: Lib := libs[x].children[0];
    assert c in libs[x].children;
    forall y | y in libs[x].children[1..]
      ensures y in libs[x].children
    {
    }
  }

  lemma PopChild(solist: seq<Lib>, libs: map<Lib, Soinfo>, ext: multiset<Lib>, rank: map<Lib, nat>, x: Lib)
    requires GraphOk(solist, libs, ext, rank) && x in libs && libs[x].children != []
    ensures GraphOk(solist, Popped(libs, x), ext + multiset{libs[x].children[0]}, rank)
  {
    PopRanked(libs, rank, x);
    PopCounted(solist, libs, ext, x);
  }

  lemma AddEdge(solist: seq<Lib>, libs: map<Lib, Soinfo>, ext: multiset<Lib>, rank: map<Lib, nat>, p: Lib, c: Lib)
    requires GraphOk(solist, libs, ext, rank) && p in libs && c in libs && !Reaches(libs, rank, c, p)
    ensures p != c && GraphOk(solist, Joined(libs, p, c), ext, Reranked(libs, rank, c))
  {
    assert Reaches(libs, rank, c, c);
    EdgeKeepsRanks(libs, rank, p, c, Joined(libs, p, c));
    RecountAfterUpdate(solist, libs, ext, p, Joined(libs, p, c), ext);
  }

  /** One reference more on c, and an entry for it at p. */
  function Joined(libs: map<Lib, Soinfo>, p: Lib, c: Lib): map<Lib, Soinfo>
    requires p in libs && c in libs
  {
    var counted := libs[c := libs[c].(refCount := libs[c].refCount + 1)];
    counted[p := counted[p].(children := counted[p].children + [c])]
  }

  lemma AddLibrary(solist: seq<Lib>, libs: map<Lib, Soinfo>, ext: multiset<Lib>, rank: map<Lib, nat>, x: Lib,
      so: Soinfo)
    requires GraphOk(solist, libs, ext, rank) && x !in libs && so.refCount == 0 && so.children == []
    ensures GraphOk(solist + [x], libs[x := so], ext, rank[x := 0])
  {
    AddedCounted(solist, libs, ext, rank, x, so);
    AddedRanked(libs, rank, x, so);
  }

  lemma AddedRanked(libs: map<Lib, Soinfo>, rank: map<Lib, nat>, x: Lib, so: Soinfo)
    requires Ranked(libs, rank) && x !in libs && so.children == []
    ensures Ranked(libs[x := so], rank[x := 0])
  {
  }

  lemma AddedCounted(solist: seq<Lib>, libs: map<Lib, Soinfo>, ext: multiset<Lib>, rank: map<Lib, nat>, x: Lib,
      so: Soinfo)
    requires GraphOk(solist, libs, ext, rank) && x !in libs && so.refCount == 0 && so.children == []
    ensures Listed(solist + [x], libs[x := so]) && Counted(solist + [x], libs[x := so], ext)
  {
    var libs' := libs[x := so];
    EntriesAppend(solist, libs', x);
    EntriesSame(solist, libs, libs');
    NoEntry(solist, libs, rank, x);
    AddedListed(solist, libs, x, so);
    assert Entries(solist + [x], libs') == Entries(solist, libs);
  }

  lemma AddedListed(solist: seq<Lib>, libs: map<Lib, Soinfo>, x: Lib, so: Soinfo)
    requires Listed(solist, libs) && x !in libs
    ensures Listed(solist + [x], libs[x := so])
  {
  }

  lemma NoEntry(solist: seq<Lib>, libs: map<Lib, Soinfo>, rank: map<Lib, nat>, x: Lib)
    requires Listed(solist, libs) && Ranked(libs, rank) && x !in libs
    ensures x !in Entries(solist, libs)
  {
    if x in Entries(solist, libs) {
      EntryHasParent(solist, libs, x);
    }
  }

  /** The last reference goes with the last handle: no child list names the library, and it leaves the graph. */
  lemma RemoveLast(solist: seq<Lib>, libs: map<Lib, Soinfo>, ext: multiset<Lib>, rank: map<Lib, nat>, k: nat)
    requires GraphOk(solist, libs, ext, rank) && k < |solist|
    requires libs[solist[k]].children == [] && libs[solist[k]].refCount == 1 && ext[solist[k]] > 0
    ensures GraphOk(solist[..k] + solist[k + 1..], libs - {solist[k]}, ext - multiset{solist[k]}, rank)
  {
    assert Entries(solist, libs)[solist[k]] == 0;
    RemovedListed(solist, libs, k);
    RemovedCounted(solist, libs, ext, k);
    RemovedRanked(solist, libs, rank, solist[k]);
  }

  lemma RemovedRanked(solist: seq<Lib>, libs: map<Lib, Soinfo>, rank: map<Lib, nat>, x: Lib)
    requires Listed(solist, libs) && Ranked(libs, rank) && x in libs && x !in Entries(solist, libs)
    ensures Ranked(libs - {x}, rank)
  {
    forall y, z | y in libs - {x} && z in (libs - {x})[y].children
      ensures z in libs - {x} && rank[z] < rank[y]
    {
      ChildIsEntry(solist, libs, y, z);
    }
  }

  lemma RemovedCounted(solist: seq<Lib>, libs: map<Lib, Soinfo>, ext: multiset<Lib>, k: nat)
    requires Listed(solist, libs) && Counted(solist, libs, ext) && k < |solist|
    requires libs[solist[k]].children == [] && ext[solist[k]] == 1
    ensures Listed(solist[..k] + solist[k + 1..], libs - {solist[k]})
    ensures Counted(solist[..k] + solist[k + 1..], libs - {solist[k]}, ext - multiset{solist[k]})
  {
    var solist', libs' := solist[..k] + solist[k + 1..], libs - {solist[k]};
    RemovedListed(solist, libs, k);
    EntriesRemove(solist, libs, k);
    EntriesSame(solist', libs, libs');
    assert Entries(solist', libs') == Entries(solist, libs);
  }

  lemma RemovedListed(solist: seq<Lib>, libs: map<Lib, Soinfo>, k: nat)
    requires Listed(solist, libs) && k < |solist|
    ensures Listed(solist[..k] + solist[k + 1..], libs - {solist[k]})
  {
    var rest := solist[..k] + solist[k + 1..];
    forall y | y in libs && y != solist[k]
      ensures y in rest
    {
      var i :| 0 <= i < |solist| && solist[i] == y;
      assert rest[if i < k then i else i - 1] == y;
    }
  }

  // --- restoration --------------------------------------------------------------------------------------

  /** What loading and unloading never change in a library that stays. */
  ghost predicate SameChildren(was: map<Lib, Soinfo>, now: map<Lib, Soinfo>)
  {
    forall x :: x in was && x in now ==> now[x].children == was[x].children
  }

  /** Every library of the first state is in the second: a handle keeps it, or a parent that is there. */
  lemma {:induction false} OldStays(solist: seq<Lib>, libs: map<Lib, Soinfo>, ext: multiset<Lib>, rank: map<Lib, nat>,
      height: nat, solist': seq<Lib>, libs': map<Lib, Soinfo>, rank': map<Lib, nat>, x: Lib)
    requires GraphOk(solist, libs, ext, rank) && AllUsed(libs) && (forall y :: y in libs ==> rank[y] <= height)
    requires GraphOk(solist', libs', ext, rank') && SameChildren(libs, libs') && x in libs
    ensures x in libs'
    decreases height - rank[x]
  {
    if ext[x] > 0 {
      assert x in ext;
    } else {
      EntryHasParent(solist, libs, x);
      var p :| p in solist && p in libs && x in libs[p].children;
      OldStays(solist, libs, ext, rank, height, solist', libs', rank', p);
    }
  }

  ghost function Highest(s: seq<Lib>, rank: map<Lib, nat>): (h: nat)
    requires forall i :: 0 <= i < |s| ==> s[i] in rank
    ensures forall i :: 0 <= i < |s| ==> rank[s[i]] <= h
  {
    if s == [] then 0
    else
      var h := Highest(s[1..], rank);
      if rank[s[0]] > h then rank[s[0]] else h
  }

  lemma AllOldStay(solist: seq<Lib>, libs: map<Lib, Soinfo>, ext: multiset<Lib>, rank: map<Lib, nat>,
                   solist': seq<Lib>, libs': map<Lib, Soinfo>, rank': map<Lib, nat>)
    requires GraphOk(solist, libs, ext, rank) && AllUsed(libs) && GraphOk(solist', libs', ext, rank')
    requires SameChildren(libs, libs')
    ensures libs.Keys <= libs'.Keys
  {
    var height := Highest(solist, rank);
    forall x | x in libs
      ensures x in libs'
    {
      OldStays(solist, libs, ext, rank, height, solist', libs', rank', x);
    }
  }

  /** Two states with the same handles, in which nothing is unreferenced and the libraries they share have the same
      children, are the same: same libraries, same counts, same children. */
  lemma SameHandlesSameState(solist: seq<Lib>, libs: map<Lib, Soinfo>, ext: multiset<Lib>, rank: map<Lib, nat>,
                             solist': seq<Lib>, libs': map<Lib, Soinfo>, rank': map<Lib, nat>)
    requires GraphOk(solist, libs, ext, rank) && AllUsed(libs)
    requires GraphOk(solist', libs', ext, rank') && AllUsed(libs') && SameChildren(libs, libs')
    ensures libs'.Keys == libs.Keys
    ensures forall x :: x in libs ==> libs'[x].refCount == libs[x].refCount && libs'[x].children == libs[x].children
  {
    AllOldStay(solist, libs, ext, rank, solist', libs', rank');
    AllOldStay(solist', libs', ext, rank', solist, libs, rank);
    forall x | x in libs
      ensures Entries(solist', libs')[x] == Entries(solist, libs)[x]
    {
      EntriesOrder(solist, libs, solist', libs');
    }
  }

  lemma {:induction false} EntriesOrder(solist: seq<Lib>, libs: map<Lib, Soinfo>, solist': seq<Lib>,
      libs': map<Lib, Soinfo>)
    requires Distinct(solist) && Distinct(solist') && (forall x :: x in solist <==> x in solist')
    requires forall i :: 0 <= i < |solist| ==> solist[i] in libs && solist[i] in libs'
    requires forall i :: 0 <= i < |solist'| ==> solist'[i] in libs'
    requires forall i :: 0 <= i < |solist| ==> libs'[solist[i]].children == libs[solist[i]].children
    ensures Entries(solist', libs') == Entries(solist, libs)
  {
    forall i | 0 <= i < |solist'|
      ensures solist'[i] in solist
    {
    }
    if solist != [] {
      var x := solist[0];
      assert x in solist;
      var k :| 0 <= k < |solist'| && solist'[k] == x;
      var rest, rest' := solist[1..], solist'[..k] + solist'[k + 1..];
      EntriesRemove(solist', libs', k);
      RestSame(solist, solist', k);
      EntriesOrder(rest, libs, rest', libs');
    }
  }

  lemma RestSame(solist: seq<Lib>, solist': seq<Lib>, k: nat)
    requires solist != [] && Distinct(solist) && Distinct(solist') && (forall x :: x in solist <==> x in solist')
    requires k < |solist'| && solist'[k] == solist[0]
    ensures Distinct(solist[1..]) && Distinct(solist'[..k] + solist'[k + 1..])
    ensures forall x :: x in solist[1..] <==> x in solist'[..k] + solist'[k + 1..]
  {
    var rest, rest' := solist[1..], solist'[..k] + solist'[k + 1..];
    forall x
      ensures x in rest <==> x in solist && x != solist[0]
      ensures x in rest' <==> x in solist' && x != solist[0]
    {
      assert x in solist <==> x == solist[0] || x in rest;
      assert x in solist' <==> x == solist'[k] || x in rest';
    }
  }
}
