/** The dynamic linker's bookkeeping: dlopen loads a library with everything it needs or leaves no trace, dlclose drops
    what nothing refers to any more. */
module Linker {
  import opened Options
  import opened LinkGraph

  /** What the file system and the image of a library decide: its inode, the names it needs, and whether reading and
      linking it succeed. */
  datatype File = File(inode: int, needed: seq<string>, loads: bool, links: bool)

  type Files = map<string, File>

  /** A name to load, and the library that needs it. */
  datatype Task = Task(name: string, neededBy: Option<Lib>)

  // --- frames -----------------------------------------------------------------------------------------

  /** The same library, up to its count. */
  ghost predicate SameBut(a: Soinfo, b: Soinfo)
  {
    a.name == b.name && a.inode == b.inode && a.children == b.children && a.linked == b.linked
  }

  ghost predicate Survivors(was: map<Lib, Soinfo>, now: map<Lib, Soinfo>)
  {
    forall x :: x in now ==> x in was && SameBut(was[x], now[x])
  }

  /** The list with only the libraries of a map. */
  function Kept(solist: seq<Lib>, libs: map<Lib, Soinfo>): seq<Lib>
  {
    if solist == [] then []
    else if solist[0] in libs then [solist[0]] + Kept(solist[1..], libs) else Kept(solist[1..], libs)
  }

  lemma {:induction false} KeptTwice(solist: seq<Lib>, a: map<Lib, Soinfo>, b: map<Lib, Soinfo>)
    requires b.Keys <= a.Keys
    ensures Kept(Kept(solist, a), b) == Kept(solist, b)
  {
    if solist != [] {
      KeptTwice(solist[1..], a, b);
      if solist[0] in a {
        assert ([solist[0]] + Kept(solist[1..], a))[1..] == Kept(solist[1..], a);
      }
    }
  }

  lemma {:induction false} KeptAll(solist: seq<Lib>, libs: map<Lib, Soinfo>)
    requires forall i :: 0 <= i < |solist| ==> solist[i] in libs
    ensures Kept(solist, libs) == solist
  {
    if solist != [] {
      KeptAll(solist[1..], libs);
    }
  }

  lemma {:induction false} KeptNone(solist: seq<Lib>, libs: map<Lib, Soinfo>)
    requires forall i :: 0 <= i < |solist| ==> solist[i] !in libs
    ensures Kept(solist, libs) == []
  {
    if solist != [] {
      KeptNone(solist[1..], libs);
    }
  }

  lemma {:induction false} KeptConcat(a: seq<Lib>, b: seq<Lib>, libs: map<Lib, Soinfo>)
    ensures Kept(a + b, libs) == Kept(a, libs) + Kept(b, libs)
  {
    if a == [] {
      assert a + b == b;
    } else {
      KeptConcat(a[1..], b, libs);
      assert (a + b)[1..] == a[1..] + b;
    }
  }

  lemma KeptWithout(solist: seq<Lib>, libs: map<Lib, Soinfo>, k: nat)
    requires Listed(solist, libs) && k < |solist|
    ensures Kept(solist, libs - {solist[k]}) == solist[..k] + solist[k + 1..]
  {
    var libs' := libs - {solist[k]};
    assert solist == solist[..k] + ([solist[k]] + solist[k + 1..]);
    KeptConcat(solist[..k], [solist[k]] + solist[k + 1..], libs');
    KeptConcat([solist[k]], solist[k + 1..], libs');
    KeptAll(solist[..k], libs');
    KeptNone([solist[k]], libs');
    KeptAll(solist[k + 1..], libs');
  }

  /** What an unload leaves: fewer libraries, in the same order, otherwise unchanged up to their counts. */
  ghost predicate Shrunk(solist: seq<Lib>, libs: map<Lib, Soinfo>, solist': seq<Lib>, libs': map<Lib, Soinfo>)
  {
    && Listed(solist, libs) && Listed(solist', libs') && Survivors(libs, libs')
    && solist' == Kept(solist, libs') && Entries(solist', libs') <= Entries(solist, libs)
  }

  /** The same in the middle of unloading x, whose list is being emptied. */
  ghost predicate ShrunkBut(solist: seq<Lib>, libs: map<Lib, Soinfo>, solist': seq<Lib>, libs': map<Lib, Soinfo>,
      x: Lib)
  {
    && Listed(solist, libs) && Listed(solist', libs') && x in libs && x in libs'
    && (forall y :: y in libs' ==> y in libs && (y != x ==> SameBut(libs[y], libs'[y])))
    && solist' == Kept(solist, libs') && Entries(solist', libs') <= Entries(solist, libs)
  }

  lemma SelfShrunk(solist: seq<Lib>, libs: map<Lib, Soinfo>)
    requires Listed(solist, libs)
    ensures Shrunk(solist, libs, solist, libs) && forall x :: x in libs ==> ShrunkBut(solist, libs, solist, libs, x)
  {
    KeptAll(solist, libs);
  }

  lemma Smaller(a: multiset<Lib>, b: multiset<Lib>)
    requires a <= b
    ensures |a| <= |b|
  {
    assert b == a + (b - a);
  }

  lemma ShrunkTwice(solist: seq<Lib>, libs: map<Lib, Soinfo>, list: seq<Lib>, mid: map<Lib, Soinfo>, solist': seq<Lib>,
      libs': map<Lib, Soinfo>, x: Lib)
    requires ShrunkBut(solist, libs, list, mid, x) && ShrunkBut(list, mid, solist', libs', x)
    ensures ShrunkBut(solist, libs, solist', libs', x)
  {
    forall y | y in libs'.Keys
      ensures y in mid.Keys
    {
      assert y in libs' && y in mid;
    }
    KeptTwice(solist, mid, libs');
  }

  /** Popping a child and shrinking is shrinking, but for the popped list. */
  lemma PoppedShrunk(solist: seq<Lib>, libs: map<Lib, Soinfo>, solist': seq<Lib>, libs': map<Lib, Soinfo>, x: Lib)
    requires Listed(solist, libs) && x in libs && libs[x].children != [] && x in libs'
    requires Shrunk(solist, Popped(libs, x), solist', libs')
    ensures ShrunkBut(solist, libs, solist', libs', x) && libs'[x].children == libs[x].children[1..]
  {
    EntriesUpdate(solist, libs, Popped(libs, x), x);
    HeadCounts(libs[x].children);
    EntriesPopped(Entries(solist, libs), Entries(solist, Popped(libs, x)), multiset(libs[x].children[1..]),
        libs[x].children[0]);
  }

  lemma EntriesPopped(e: multiset<Lib>, e': multiset<Lib>, rest: multiset<Lib>, c: Lib)
    requires e' + (multiset{c} + rest) == e + rest
    ensures e' <= e
  {
    forall x
      ensures e'[x] <= e[x]
    {
      assert (e' + (multiset{c} + rest))[x] == (e + rest)[x];
    }
  }

  /** A library that only its handle keeps stays at one reference while others go. */
  lemma StillLast(libs: map<Lib, Soinfo>, solist': seq<Lib>, libs': map<Lib, Soinfo>, ext: multiset<Lib>,
      solist: seq<Lib>, x: Lib)
    requires Listed(solist, libs) && Counted(solist, libs, ext) && x in libs && libs[x].refCount == 1 && ext[x] > 0
    requires Listed(solist', libs') && Counted(solist', libs', ext) && x in libs'
    requires Entries(solist', libs') <= Entries(solist, libs)
    ensures libs'[x].refCount == 1
  {
  }

  lemma DroppedShrunk(solist: seq<Lib>, libs: map<Lib, Soinfo>, x: Lib)
    requires Listed(solist, libs) && x in libs
    ensures Shrunk(solist, libs, solist, libs[x := libs[x].(refCount := libs[x].refCount - 1)])
  {
    var libs' := libs[x := libs[x].(refCount := libs[x].refCount - 1)];
    KeptAll(solist, libs');
    EntriesSame(solist, libs, libs');
  }

  lemma FreedShrunk(solist: seq<Lib>, libs: map<Lib, Soinfo>, mid: seq<Lib>, libs1: map<Lib, Soinfo>, solist': seq<Lib>,
      libs': map<Lib, Soinfo>, x: Lib)
    requires ShrunkBut(solist, libs, mid, libs1, x) && libs1[x].children == []
    requires libs' == libs1 - {x} && solist' == Kept(mid, libs') && Listed(solist', libs')
    ensures Shrunk(solist, libs, solist', libs')
  {
    KeptTwice(solist, libs1, libs');
    var k :| 0 <= k < |mid| && mid[k] == x;
    KeptWithout(mid, libs1, k);
    EntriesRemove(mid, libs1, k);
    EntriesSame(solist', libs1, libs');
  }

  // --- loading ----------------------------------------------------------------------------------------

  /** What loading never changes in the libraries that were there. */
  ghost predicate Grown(solist: seq<Lib>, libs: map<Lib, Soinfo>, solist': seq<Lib>, libs': map<Lib, Soinfo>)
  {
    solist <= solist' && forall x :: x in libs ==> x in libs' && SameBut(libs[x], libs'[x])
  }

  /** The library that a name stands for: by its name, or as the same file. */
  ghost predicate Named(so: Soinfo, name: string, files: Files)
  {
    so.name == name || (name in files && so.inode == files[name].inode)
  }

  /** The names still to be loaded for a library. */
  ghost function NamesFor(tasks: seq<Task>, p: Lib): seq<string>
  {
    if tasks == [] then []
    else (if tasks[0].neededBy == Some(p) then [tasks[0].name] else []) + NamesFor(tasks[1..], p)
  }

  lemma {:induction false} NamesForConcat(a: seq<Task>, b: seq<Task>, p: Lib)
    ensures NamesFor(a + b, p) == NamesFor(a, p) + NamesFor(b, p)
  {
    if a == [] {
      assert a + b == b;
    } else {
      NamesForConcat(a[1..], b, p);
      assert (a + b)[1..] == a[1..] + b && (a + b)[0] == a[0];
      JoinLeft(if a[0].neededBy == Some(p) then [a[0].name] else [], NamesFor(a[1..], p), NamesFor(b, p));
    }
  }

  lemma JoinLeft<T>(a: seq<T>, b: seq<T>, c: seq<T>)
    ensures (a + b) + c == a + (b + c)
  {
  }

  function TasksOf(needed: seq<string>, x: Lib): (tasks: seq<Task>)
    ensures |tasks| == |needed| && forall i :: 0 <= i < |tasks| ==> tasks[i] == Task(needed[i], Some(x))
  {
    if needed == [] then [] else [Task(needed[0], Some(x))] + TasksOf(needed[1..], x)
  }

  lemma {:induction false} NamesForOwn(needed: seq<string>, x: Lib, p: Lib)
    ensures NamesFor(TasksOf(needed, x), p) == if p == x then needed else []
  {
    if needed != [] {
      NamesForOwn(needed[1..], x, p);
      assert TasksOf(needed, x)[1..] == TasksOf(needed[1..], x);
      assert needed == [needed[0]] + needed[1..];
    }
  }

  lemma {:induction false} NamesForNone(tasks: seq<Task>, p: Lib)
    requires forall i :: 0 <= i < |tasks| ==> tasks[i].neededBy != Some(p)
    ensures NamesFor(tasks, p) == []
  {
    if tasks != [] {
      NamesForNone(tasks[1..], p);
    }
  }

  /** The children of a library stand for the names given. */
  ghost predicate Wired(libs: map<Lib, Soinfo>, children: seq<Lib>, names: seq<string>, files: Files)
  {
    && |children| == |names|
    && forall i :: 0 <= i < |children| ==> children[i] in libs && Named(libs[children[i]], names[i], files)
  }

  /** A library loaded by this call: its children stand for the first names it needs, and tasks for the others wait. */
  ghost predicate Underway(libs: map<Lib, Soinfo>, tasks: seq<Task>, p: Lib, files: Files)
    requires p in libs
  {
    && libs[p].name in files
    && var needed, children := files[libs[p].name].needed, libs[p].children;
    && |children| <= |needed| && Wired(libs, children, needed[..|children|], files)
    && NamesFor(tasks, p) == needed[|children|..]
  }

  // --- refusing ---------------------------------------------------------------------------------------

  /** Why a call is refused: a file cannot be loaded, or not linked, or a library needs one that reaches back to it. */
  datatype Why =
    | Unloadable(name: string)
    | Unlinkable(name: string)
    | Cyclic(libs: map<Lib, Soinfo>, rank: map<Lib, nat>, si: Lib, parent: Lib, name: string)

  ghost predicate Needs(libs: map<Lib, Soinfo>, p: Lib, name: string, files: Files)
  {
    p in libs && libs[p].name in files && name in files[libs[p].name].needed
  }

  /** The reason holds of the files, and of the libraries at the moment of the refusal. */
  ghost predicate Justified(why: Why, files: Files, noload: bool)
  {
    match why
    case Unloadable(name) => name !in files || !files[name].loads || noload
    case Unlinkable(name) => name in files && !files[name].links
    case Cyclic(libs, rank, si, p, name) =>
      && Needs(libs, p, name, files) && si in libs && Named(libs[si], name, files)
      && Ranked(libs, rank) && Reaches(libs, rank, si, p)
  }

  /** The first name still to be loaded for a library is one that it needs. */
  lemma FirstIsNeeded(libs: map<Lib, Soinfo>, tasks: seq<Task>, p: Lib, files: Files)
    requires p in libs && Underway(libs, tasks, p, files) && tasks != [] && tasks[0].neededBy == Some(p)
    ensures Needs(libs, p, tasks[0].name, files)
  {
    var needed, k := files[libs[p].name].needed, |libs[p].children|;
    assert needed[k..] == [tasks[0].name] + NamesFor(tasks[1..], p);
    assert needed[k] == needed[k..][0];
  }

  /** The names of files that no loaded library has. */
  ghost function Missing(files: Files, libs: map<Lib, Soinfo>): set<string>
  {
    set n | n in files && forall x :: x in libs ==> libs[x].name != n
  }

  class LinkMap {
    var solist: seq<Lib>
    var libs: map<Lib, Soinfo>
    var nextId: Lib
    ghost var rank: map<Lib, nat>
    ghost var handles: multiset<Lib>
    const somain: Lib

    /** Process start: the program itself, held by one reference. */
    constructor (name: string)
      ensures Stable() && handles == multiset{somain} && solist == [somain]
      ensures libs == map[somain := Soinfo(name, 0, 1, [], true)]
    {
      somain, nextId := 0, 1;
      solist := [0];
      libs := map[0 := Soinfo(name, 0, 1, [], true)];
      rank := map[0 := 0];
      handles := multiset{0};
      new;
      assert solist[1..] == [];
      assert multiset(libs[solist[0]].children) == multiset{};
      assert Entries(solist, libs) == multiset{};
    }

    /** The graph with the handles given: counts right, no cycle, nothing unreferenced. */
    ghost predicate Ok(ext: multiset<Lib>)
      reads this
    {
      GraphOk(solist, libs, ext, rank) && AllUsed(libs) && forall x :: x in libs ==> x < nextId
    }

    /** soinfo_free: out of the list and gone. */
    method Free(si: Lib, ghost ext: multiset<Lib>)
      requires GraphOk(solist, libs, ext, rank) && AllUsed(libs) && (forall x :: x in libs ==> x < nextId)
      requires si in libs && libs[si].children == [] && libs[si].refCount == 1 && ext[si] > 0
      modifies `solist, `libs
      ensures Ok(ext - multiset{si}) && libs == old(libs) - {si} && solist == Kept(old(solist), libs)
    {
      var k := 0;
      while solist[k] != si
        invariant 0 <= k < |solist| && si in solist[k..]
        decreases |solist| - k
      {
        assert solist[k..] == [solist[k]] + solist[k + 1..];
        k := k + 1;
      }
      RemoveLast(solist, libs, ext, rank, k);
      KeptWithout(solist, libs, k);
      solist := solist[..k] + solist[k + 1..];
      libs := libs - {si};
    }

    /** One turn of the loop over the children: the entry comes off the list, then the child loses it. */
    method UnloadChild(si: Lib, ghost ext: multiset<Lib>)
      requires Ok(ext) && si in libs && libs[si].refCount == 1 && ext[si] > 0 && libs[si].children != []
      modifies `solist, `libs
      ensures Ok(ext) && si in libs && libs[si].refCount == 1 && libs[si].children == old(libs)[si].children[1..]
      ensures ShrunkBut(old(solist), old(libs), solist, libs, si)
      decreases |Entries(solist, libs)|, 0
    {
      var child := libs[si].children[0];
      PopChild(solist, libs, ext, rank, si);
      PopShrinks(solist, libs, si);
      ghost var was := libs;
      libs := libs[si := libs[si].(children := libs[si].children[1..])];
      Unload(child, ext + multiset{child});
      assert ext + multiset{child} - multiset{child} == ext && si in ext;
      PoppedShrunk(old(solist), was, solist, libs, si);
      StillLast(was, solist, libs, ext, old(solist), si);
    }

    /** The loop over the children of a library that only its handle keeps. */
    method UnloadChildren(si: Lib, ghost ext: multiset<Lib>)
      requires Ok(ext) && si in libs && libs[si].refCount == 1 && ext[si] > 0
      modifies `solist, `libs
      ensures Ok(ext) && si in libs && libs[si].refCount == 1 && libs[si].children == []
      ensures ShrunkBut(old(solist), old(libs), solist, libs, si)
      decreases |Entries(solist, libs)|, 1
    {
      SelfShrunk(solist, libs);
      while libs[si].children != []
        invariant Ok(ext) && si in libs && libs[si].refCount == 1
        invariant ShrunkBut(old(solist), old(libs), solist, libs, si)
        decreases |libs[si].children|
      {
        ghost var list, mid := solist, libs;
        Smaller(Entries(solist, libs), Entries(old(solist), old(libs)));
        UnloadChild(si, ext);
        ShrunkTwice(old(solist), old(libs), list, mid, solist, libs, si);
      }
    }

    /** soinfo_unload: one reference less; with the last one the children are unloaded and the library goes. The
        children of every library that stays are as they were. */
    method Unload(si: Lib, ghost ext: multiset<Lib>)
      requires Ok(ext) && ext[si] > 0
      modifies `solist, `libs
      ensures Ok(ext - multiset{si}) && Shrunk(old(solist), old(libs), solist, libs)
      decreases |Entries(solist, libs)|, 2
    {
      assert si in ext;
      if libs[si].refCount == 1 {
        assert Entries(solist, libs)[si] == 0;
        UnloadChildren(si, ext);
        ghost var list, mid := solist, libs;
        Free(si, ext);
        FreedShrunk(old(solist), old(libs), list, mid, solist, libs, si);
      } else {
        DropOne(si, ext);
      }
    }

    method DropOne(si: Lib, ghost ext: multiset<Lib>)
      requires Ok(ext) && ext[si] > 0 && si in libs && libs[si].refCount != 1
      modifies `libs
      ensures Ok(ext - multiset{si}) && Shrunk(solist, old(libs), solist, libs)
    {
      DropRef(solist, libs, ext, rank, si);
      DroppedShrunk(solist, libs, si);
      libs := libs[si := libs[si].(refCount := libs[si].refCount - 1)];
    }

    /** The visit of is_recursive to the libraries that have `parent` as a child. */
    method IsRecursive(si: Lib, parent: Lib) returns (r: bool)
      requires Listed(solist, libs) && Ranked(libs, rank) && si in libs && parent in libs
      ensures r <==> Reaches(libs, rank, si, parent)
      decreases Highest(solist, rank) - rank[parent]
    {
      if si == parent {
        return true;
      }
      for i := 0 to |solist|
        invariant forall j :: 0 <= j < i && parent in libs[solist[j]].children ==> !Reaches(libs, rank, si, solist[j])
      {
        if parent in libs[solist[i]].children {
          r := IsRecursive(si, solist[i]);
          if r {
            ReachesOn(libs, rank, si, solist[i], parent);
            return;
          }
        }
      }
      r := false;
      if Reaches(libs, rank, si, parent) {
        ReachesFrom(libs, rank, si, parent);
      }
    }

    /** find_loaded_library_by_name. */
    method FindByName(name: string) returns (r: Option<Lib>)
      requires Listed(solist, libs)
      ensures r.Some? ==> r.value in libs && libs[r.value].name == name
      ensures r.None? ==> forall x :: x in libs ==> libs[x].name != name
    {
      for i := 0 to |solist|
        invariant forall j :: 0 <= j < i ==> libs[solist[j]].name != name
      {
        if libs[solist[i]].name == name {
          return Some(solist[i]);
        }
      }
      r := None;
    }

    /** load_library for a name that no loaded library has: the same file under another name, or a new library. */
    method LoadLibrary(name: string, files: Files, noload: bool, ghost ext: multiset<Lib>)
      returns (r: Option<Lib>, needed: seq<string>, isNew: bool)
      requires Ok(ext) && forall x :: x in libs ==> libs[x].name != name
      modifies `solist, `libs, `rank, `nextId
      ensures !isNew ==>
        && libs == old(libs) && solist == old(solist) && rank == old(rank) && needed == []
        && (r.Some? ==> r.value in libs)
      ensures isNew ==>
        && r.Some? && name in files && r.value !in old(libs) && needed == files[name].needed
        && libs == old(libs)[r.value := Soinfo(name, files[name].inode, 0, [], false)]
        && solist == old(solist) + [r.value]
      ensures GraphOk(solist, libs, ext, rank) && forall x :: x in libs ==> x < nextId
      ensures r.Some? ==> r.value in libs && Named(libs[r.value], name, files)
      ensures r.None? ==> Justified(Unloadable(name), files, noload)
    {
      needed, isNew := [], false;
      if name !in files {
        return None, needed, isNew;
      }
      for i := 0 to |solist|
      {
        if libs[solist[i]].inode != 0 && libs[solist[i]].inode == files[name].inode {
          return Some(solist[i]), needed, isNew;
        }
      }
      if noload || !files[name].loads {
        return None, needed, isNew;
      }
      var si := nextId;
      AddLibrary(solist, libs, ext, rank, si, Soinfo(name, files[name].inode, 0, [], false));
      libs := libs[si := Soinfo(name, files[name].inode, 0, [], false)];
      solist := solist + [si];
      rank := rank[si := 0];
      nextId := nextId + 1;
      return Some(si), files[name].needed, true;
    }

    /** Count the reference of a library asked for. */
    method AttachRoot(si: Lib, ghost ext: multiset<Lib>)
      requires GraphOk(solist, libs, ext, rank) && si in libs && UsedBut(libs, si)
      requires (forall x :: x in libs ==> x < nextId)
      modifies `libs
      ensures Ok(ext + multiset{si}) && libs == Referenced(old(libs), si)
    {
      AddHandle(solist, libs, ext, rank, si);
      libs := libs[si := libs[si].(refCount := libs[si].refCount + 1)];
    }

    /** Count the reference of a needed library, and enter it at the one that needs it. */
    method AttachChild(si: Lib, p: Lib, ghost ext: multiset<Lib>)
      requires GraphOk(solist, libs, ext, rank) && si in libs && UsedBut(libs, si)
      requires (forall x :: x in libs ==> x < nextId)
      requires p in libs && !Reaches(libs, rank, si, p)
      modifies `libs, `rank
      ensures Ok(ext) && libs == Joined(old(libs), p, si)
    {
      AddEdge(solist, libs, ext, rank, p, si);
      JoinedUsed(libs, p, si);
      rank := Reranked(libs, rank, si);
      JoinWords(si, p);
    }

    method JoinWords(si: Lib, p: Lib)
      requires si in libs && p in libs
      modifies `libs
      ensures libs == Joined(old(libs), p, si)
    {
      libs := libs[si := libs[si].(refCount := libs[si].refCount + 1)];
      libs := libs[p := libs[p].(children := libs[p].children + [si])];
    }

    /** find_library_internal: among the loaded ones by name, or through the file system. A new library brings tasks for
        what it needs. */
    method FindLibrary(name: string, files: Files, noload: bool, ghost ext: multiset<Lib>)
      returns (r: Option<Lib>, needed: seq<string>, isNew: bool)
      requires Ok(ext)
      modifies `solist, `libs, `rank, `nextId
      ensures !isNew ==>
        && libs == old(libs) && solist == old(solist) && rank == old(rank) && needed == []
        && (r.Some? ==> r.value in libs)
      ensures isNew ==>
        && r.Some? && name in files && r.value !in old(libs) && needed == files[name].needed
        && name in Missing(files, old(libs))
        && libs == old(libs)[r.value := Soinfo(name, files[name].inode, 0, [], false)]
        && solist == old(solist) + [r.value]
      ensures GraphOk(solist, libs, ext, rank) && forall x :: x in libs ==> x < nextId
      ensures r.Some? ==> r.value in libs && Named(libs[r.value], name, files) && UsedBut(libs, r.value)
      ensures r.None? ==> Justified(Unloadable(name), files, noload)
    {
      needed, isNew := [], false;
      r := FindByName(name);
      if r.None? {
        r, needed, isNew := LoadLibrary(name, files, noload, ext);
      }
    }

    /** Find the library of a task; what a new one needs joins the end of the queue. */
    method FindNext(t: Task, files: Files, noload: bool, ghost ext: multiset<Lib>, ghost solist0: seq<Lib>,
        ghost libs0: map<Lib, Soinfo>, ghost tasks: seq<Task>, ghost roots: seq<Lib>, ghost names: seq<string>,
        ghost found: seq<Lib>)
      returns (r: Option<Lib>, more: seq<Task>, ghost isNew: bool)
      requires Ok(ext) && LoadingOk(solist0, libs0, solist, libs, tasks, roots, names, found, files)
      modifies `solist, `libs, `rank, `nextId
      ensures GraphOk(solist, libs, ext, rank) && forall x :: x in libs ==> x < nextId
      ensures LoadingOk(solist0, libs0, solist, libs, tasks + more, roots, names, found, files)
      ensures r.Some? ==> r.value in libs && Named(libs[r.value], t.name, files) && UsedBut(libs, r.value)
      ensures !isNew ==> libs == old(libs) && solist == old(solist) && more == []
      ensures r.None? ==> Justified(Unloadable(t.name), files, noload)
      ensures isNew ==>
        && r.Some? && r.value !in old(libs) && libs.Keys == old(libs).Keys + {r.value} && libs[r.value].children == []
        && |Missing(files, libs)| < |Missing(files, old(libs))|
    {
      var needed, new0;
      r, needed, new0 := FindLibrary(t.name, files, noload, ext);
      isNew := new0;
      if new0 {
        more := TasksOf(needed, r.value);
        LoadingFinds(solist0, libs0, old(solist), old(libs), tasks, roots, names, found, files, r.value, t.name);
        MissingLess(files, old(libs), r.value, libs[r.value]);
      } else {
        more := [];
        assert tasks + [] == tasks;
      }
    }

    /** Attach the library of a name asked for. */
    method AttachRootTask(si: Lib, ghost files: Files, ghost ext: multiset<Lib>, ghost solist0: seq<Lib>,
        ghost libs0: map<Lib, Soinfo>, ghost tasks: seq<Task>, ghost roots: seq<Lib>, ghost names: seq<string>,
        ghost found: seq<Lib>)
      requires GraphOk(solist, libs, ext, rank) && (forall x :: x in libs ==> x < nextId) && si in libs
      requires UsedBut(libs, si)
      requires LoadingOk(solist0, libs0, solist, libs, tasks, roots, names, found, files)
      requires tasks != [] && tasks[0].neededBy == None && Named(libs[si], tasks[0].name, files)
      modifies `libs
      ensures Ok(ext + multiset{si}) && libs.Keys == old(libs).Keys && Missing(files, libs) == Missing(files, old(libs))
      ensures LoadingOk(solist0, libs0, solist, libs, tasks[1..], roots + [si], names, [si] + found, files)
    {
      LoadingAttachesRoot(solist0, libs0, solist, libs, tasks, roots, names, found, files, si);
      MissingReferenced(files, libs, si);
      AttachRoot(si, ext);
    }

    /** Attach the library of a name that p needs. */
    method AttachChildTask(si: Lib, p: Lib, ghost files: Files, ghost ext: multiset<Lib>, ghost solist0: seq<Lib>,
        ghost libs0: map<Lib, Soinfo>, ghost tasks: seq<Task>, ghost roots: seq<Lib>, ghost names: seq<string>,
        ghost found: seq<Lib>)
      requires GraphOk(solist, libs, ext, rank) && (forall x :: x in libs ==> x < nextId) && si in libs
      requires UsedBut(libs, si)
      requires LoadingOk(solist0, libs0, solist, libs, tasks, roots, names, found, files)
      requires tasks != [] && tasks[0].neededBy == Some(p) && Named(libs[si], tasks[0].name, files)
      requires p in libs && si != p && !Reaches(libs, rank, si, p)
      modifies `libs, `rank
      ensures Ok(ext) && libs.Keys == old(libs).Keys && Missing(files, libs) == Missing(files, old(libs))
      ensures LoadingOk(solist0, libs0, solist, libs, tasks[1..], roots, names, [si] + found, files)
    {
      LoadingAttachesChild(solist0, libs0, solist, libs, tasks, roots, names, found, files, si, p);
      MissingJoined(files, libs, p, si);
      AttachChild(si, p, ext);
    }

    /** The check for a cycle, and the attachment if there is none. A library just loaded cannot be part of a cycle, so
        a refusal finds every library referenced. */
    method TakeNeeded(si: Lib, p: Lib, ghost isNew: bool, ghost files: Files, ghost noload: bool,
        ghost ext: multiset<Lib>, ghost solist0: seq<Lib>, ghost libs0: map<Lib, Soinfo>, ghost tasks: seq<Task>,
        ghost roots: seq<Lib>, ghost names: seq<string>, ghost found: seq<Lib>)
      returns (done: bool)
      requires GraphOk(solist, libs, ext, rank) && (forall x :: x in libs ==> x < nextId) && si in libs
      requires UsedBut(libs, si)
      requires LoadingOk(solist0, libs0, solist, libs, tasks, roots, names, found, files)
      requires tasks != [] && tasks[0].neededBy == Some(p) && Named(libs[si], tasks[0].name, files)
      requires p in libs && p !in libs0 && (isNew ==> libs[si].children == [] && p != si)
      modifies `libs, `rank
      ensures !done ==>
        && !isNew && libs == old(libs) && rank == old(rank)
        && Justified(Cyclic(libs, rank, si, p, tasks[0].name), files, noload)
      ensures done ==>
        && Ok(ext) && libs.Keys == old(libs).Keys && Missing(files, libs) == Missing(files, old(libs))
        && LoadingOk(solist0, libs0, solist, libs, tasks[1..], roots, names, [si] + found, files)
    {
      var recursive := IsRecursive(si, p);
      if recursive {
        if isNew {
          NewReachesNothing(libs, rank, si, p);
        }
        FirstIsNeeded(libs, tasks, p, files);
        return false;
      }
      assert Reaches(libs, rank, si, si);
      AttachChildTask(si, p, files, ext, solist0, libs0, tasks, roots, names, found);
      done := true;
    }

    /** One turn of the loading loop: find the library of the first task, refuse a cycle, and attach it. */
    method TakeTask(t: Task, files: Files, noload: bool, ghost ext: multiset<Lib>, ghost solist0: seq<Lib>,
        ghost libs0: map<Lib, Soinfo>, ghost tasks: seq<Task>, ghost roots: seq<Lib>, ghost names: seq<string>,
        ghost found: seq<Lib>)
      returns (r: Option<Lib>, more: seq<Task>, ghost why: Why)
      requires Ok(ext) && LoadingOk(solist0, libs0, solist, libs, tasks, roots, names, found, files) && tasks != []
      requires t == tasks[0]
      modifies `solist, `libs, `rank, `nextId
      ensures r.None? ==> Ok(ext) && solist == old(solist) && libs == old(libs) && Justified(why, files, noload)
      ensures r.Some? ==>
        && Ok(if t.neededBy.None? then ext + multiset{r.value} else ext)
        && LoadingOk(solist0, libs0, solist, libs, (tasks + more)[1..], if t.neededBy.None? then roots + [r.value]
           else roots, names, [r.value] + found, files)
        && libs.Keys <= old(libs).Keys + {r.value}
        && (more == [] || |Missing(files, libs)| < |Missing(files, old(libs))|)
        && |Missing(files, libs)| <= |Missing(files, old(libs))|
    {
      ghost var isNew;
      why := Unloadable(t.name);
      TaskTaken(libs0, libs, tasks, |roots|, names, libs);
      r, more, isNew := FindNext(t, files, noload, ext, solist0, libs0, tasks, roots, names, found);
      if r.None? {
        return;
      }
      if t.neededBy.None? {
        AttachRootTask(r.value, files, ext, solist0, libs0, tasks + more, roots, names, found);
      } else {
        var done := TakeNeeded(r.value, t.neededBy.value, isNew, files, noload, ext, solist0, libs0, tasks + more,
            roots, names, found);
        if !done {
          why := Cyclic(libs, rank, r.value, t.neededBy.value, t.name);
          r := None;
        }
      }
    }

    /** The loading loop stands at these tasks, with one reference taken on every root. */
    ghost predicate Loading(ext: multiset<Lib>, solist0: seq<Lib>, libs0: map<Lib, Soinfo>, tasks: seq<Task>,
        roots: seq<Lib>, names: seq<string>, found: seq<Lib>, files: Files)
      reads this
    {
      && Ok(ext + multiset(roots)) && LoadingOk(solist0, libs0, solist, libs, tasks, roots, names, found, files)
      && libs.Keys <= libs0.Keys + Listing(found)
    }

    method TakeNext(t: Task, files: Files, noload: bool, k: nat, ghost ext: multiset<Lib>, ghost solist0: seq<Lib>,
        ghost libs0: map<Lib, Soinfo>, ghost tasks: seq<Task>, roots: seq<Lib>, ghost names: seq<string>,
        ghost found: seq<Lib>)
      returns (r: Option<Lib>, more: seq<Task>, roots': seq<Lib>, ghost why: Why)
      requires Loading(ext, solist0, libs0, tasks, roots, names, found, files) && tasks != [] && t == tasks[0]
      requires k == |names|
      modifies `solist, `libs, `rank, `nextId
      ensures r.None? ==>
        && Loading(ext, solist0, libs0, tasks, roots, names, found, files) && roots' == roots
        && Justified(why, files, noload)
      ensures r.Some? ==>
        && Loading(ext, solist0, libs0, tasks[1..] + more, roots', names, [r.value] + found, files)
        && (more == [] || |Missing(files, libs)| < |Missing(files, old(libs))|)
        && |Missing(files, libs)| <= |Missing(files, old(libs))|
    {
      TaskTaken(libs0, libs, tasks, |roots|, names, libs);
      r, more, why := TakeTask(t, files, noload, ext + multiset(roots), solist0, libs0, tasks, roots, names, found);
      roots' := roots;
      if r.Some? {
        RootsGrow(ext, roots, r.value);
        TailFirst(tasks, more);
        if |roots| < k {
          roots' := roots + [r.value];
        }
      }
    }

    /** Step 1 of find_libraries: load everything needed, breadth first. `roots` are the libraries of the first names,
        each with one reference more; `found` lists every library that was loaded. */
    method LoadAll(names: seq<string>, files: Files, noload: bool, ghost ext: multiset<Lib>)
      returns (ok: bool, roots: seq<Lib>, found: seq<Lib>, ghost why: Why)
      requires Ok(ext)
      modifies `solist, `libs, `rank, `nextId
      ensures Ok(ext + multiset(roots)) && Grown(old(solist), old(libs), solist, libs)
      ensures (forall i :: 0 <= i < |found| ==> found[i] in libs) && forall p :: p in libs && p !in old(libs) ==>
          p in found
      ensures !ok ==> Justified(why, files, noload)
      ensures ok ==> Wired(libs, roots, names, files) && forall p :: p in libs && p !in old(libs) ==>
          AllLoaded(libs, p, files)
    {
      var tasks := RootTasks(names);
      roots, found, why := [], [], Unloadable("");
      ghost var solist0, libs0 := solist, libs;
      LoadingStarts(solist0, libs0, names, files);
      assert ext + multiset(roots) == ext;
      while tasks != []
        invariant Loading(ext, solist0, libs0, tasks, roots, names, found, files)
        decreases |Missing(files, libs)|, |tasks|
      {
        var r, more, roots';
        r, more, roots', why :=
          TakeNext(tasks[0], files, noload, |names|, ext, solist0, libs0, tasks, roots, names, found);
        if r.None? {
          LoadingGrown(solist0, libs0, solist, libs, tasks, roots, names, found, files);
          ok := false;
          return;
        }
        tasks := tasks[1..] + more;
        found := [r.value] + found;
        roots := roots';
      }
      ok := true;
      LoadingEnds(solist0, libs0, solist, libs, roots, names, found, files);
    }

    /** Link one library, unless it is linked already. */
    method LinkOne(si: Lib, files: Files, ghost ext: multiset<Lib>) returns (ok: bool)
      requires Ok(ext) && si in libs && (libs[si].linked || libs[si].name in files)
      modifies `libs
      ensures Ok(ext) && Flagged(old(libs), libs)
      ensures ok ==> si in libs && libs[si].linked
      ensures !ok ==> libs == old(libs) && Justified(Unlinkable(libs[si].name), files, false)
    {
      if !libs[si].linked {
        if !files[libs[si].name].links {
          return false;
        }
        FlagKeepsGraph(solist, libs, ext, rank, si);
        libs := libs[si := libs[si].(linked := true)];
      }
      ok := true;
    }

    /** Step 2 of find_libraries: link every library that is not linked yet. */
    method LinkAll(found: seq<Lib>, files: Files, ghost ext: multiset<Lib>) returns (ok: bool, ghost why: Why)
      requires Ok(ext) && Linkable(libs, found, files)
      modifies `libs
      ensures Ok(ext) && Flagged(old(libs), libs)
      ensures ok ==> LinkedTo(libs, found, |found|)
      ensures !ok ==> why.Unlinkable? && Justified(why, files, false)
    {
      why := Unlinkable("");
      for k := 0 to |found|
        invariant Ok(ext) && Flagged(old(libs), libs) && Linkable(libs, found, files) && LinkedTo(libs, found, k)
      {
        ghost var was := libs;
        var linked := LinkOne(found[k], files, ext);
        if !linked {
          why := Unlinkable(libs[found[k]].name);
          return false, why;
        }
        FlaggedStep(old(libs), was, libs, found, k, files);
      }
      ok := true;
    }

    /** The failure guard: every root gives its reference back. */
    method UnloadAll(roots: seq<Lib>, ghost ext: multiset<Lib>)
      requires Ok(ext + multiset(roots))
      modifies `solist, `libs
      ensures Ok(ext) && Shrunk(old(solist), old(libs), solist, libs)
    {
      SelfShrunk(solist, libs);
      assert roots[0..] == roots;
      for i := 0 to |roots|
        invariant Ok(ext + multiset(roots[i..])) && Shrunk(old(solist), old(libs), solist, libs)
      {
        ghost var list, mid := solist, libs;
        FirstRoot(ext, roots, i);
        Unload(roots[i], ext + multiset(roots[i..]));
        ShrunkAgain(old(solist), old(libs), list, mid, solist, libs);
      }
      assert ext + multiset(roots[|roots|..]) == ext;
    }

    /** Between calls: the counts are right for the open handles, and everything loaded is linked. */
    ghost predicate Stable()
      reads this
    {
      Ok(handles) && AllLinked(libs)
    }

    /** find_libraries: all of it, or no trace. */
    method FindLibraries(names: seq<string>, files: Files, noload: bool)
      returns (ok: bool, roots: seq<Lib>, ghost why: Why)
      requires Stable()
      modifies this
      ensures Stable()
      ensures ok ==>
        && handles == old(handles) + multiset(roots) && Grown(old(solist), old(libs), solist, libs)
        && Wired(libs, roots, names, files) && forall p :: p in libs && p !in old(libs) ==> AllLoaded(libs, p, files)
      ensures !ok ==>
        && handles == old(handles) && libs == old(libs) && solist == old(solist) && Justified(why, files, noload)
    {
      ghost var rank0 := rank;
      var found;
      ok, roots, found, why := LoadAll(names, files, noload, handles);
      ghost var loaded := libs;
      if ok {
        NewOnesNamed(old(libs), old(solist), solist, libs, found, files);
        ok, why := LinkAll(found, files, handles + multiset(roots));
        FlaggedKeeps(old(solist), old(libs), solist, loaded, libs, roots, names, files);
      }
      if !ok {
        ghost var list, mid := solist, libs;
        UnloadAll(roots, handles);
        Restored(old(solist), old(libs), rank0, handles, list, mid, solist, libs, rank);
      } else {
        handles := handles + multiset(roots);
      }
    }

    /** dlopen: the library named, or the program itself, with one handle more; or no trace. */
    method DlOpen(name: Option<string>, files: Files, noload: bool) returns (r: Option<Lib>, ghost why: Why)
      requires Stable() && (name.None? ==> somain in libs)
      modifies this
      ensures Stable()
      ensures r.None? ==>
        && name.Some? && handles == old(handles) && libs == old(libs) && solist == old(solist)
        && Justified(why, files, noload)
      ensures r.Some? ==>
        && handles == old(handles) + multiset{r.value} && Grown(old(solist), old(libs), solist, libs) && r.value in libs
        && (name.None? ==> r.value == somain && solist == old(solist))
        && (name.Some? ==> Named(libs[r.value], name.value, files))
    {
      why := Unloadable("");
      if name.None? {
        AddHandle(solist, libs, handles, rank, somain);
        libs := libs[somain := libs[somain].(refCount := libs[somain].refCount + 1)];
        handles := handles + multiset{somain};
        r := Some(somain);
        return;
      }
      var ok, roots;
      ok, roots, why := FindLibraries([name.value], files, noload);
      if !ok {
        r := None;
        return;
      }
      assert roots == [roots[0]];
      r := Some(roots[0]);
    }

    /** dlclose of a handle. */
    method DlClose(si: Lib)
      requires Stable() && si in handles
      modifies this
      ensures Stable() && handles == old(handles) - multiset{si} && Shrunk(old(solist), old(libs), solist, libs)
    {
      Unload(si, handles);
      handles := handles - multiset{si};
    }
  }

  function Referenced(libs: map<Lib, Soinfo>, x: Lib): map<Lib, Soinfo>
    requires x in libs
  {
    libs[x := libs[x].(refCount := libs[x].refCount + 1)]
  }

  /** Only x may still be without a reference. */
  ghost predicate UsedBut(libs: map<Lib, Soinfo>, x: Lib)
  {
    forall y :: y in libs ==> libs[y].refCount >= 0 && (y != x ==> libs[y].refCount > 0)
  }

  lemma JoinedUsed(libs: map<Lib, Soinfo>, p: Lib, c: Lib)
    requires p in libs && c in libs && p != c && UsedBut(libs, c)
    ensures Joined(libs, p, c).Keys == libs.Keys && AllUsed(Joined(libs, p, c))
  {
  }

  /** A library just loaded reaches nothing but itself. */
  lemma NewReachesNothing(libs: map<Lib, Soinfo>, rank: map<Lib, nat>, x: Lib, p: Lib)
    requires Ranked(libs, rank) && x in libs && libs[x].children == [] && p != x
    ensures !Reaches(libs, rank, x, p)
  {
  }

  lemma MissingSame(files: Files, libs: map<Lib, Soinfo>, libs': map<Lib, Soinfo>)
    requires libs'.Keys == libs.Keys && forall x :: x in libs ==> libs'[x].name == libs[x].name
    ensures Missing(files, libs') == Missing(files, libs)
  {
  }

  lemma MissingJoined(files: Files, libs: map<Lib, Soinfo>, p: Lib, c: Lib)
    requires p in libs && c in libs
    ensures Joined(libs, p, c).Keys == libs.Keys && Missing(files, Joined(libs, p, c)) == Missing(files, libs)
  {
    MissingSame(files, libs, Joined(libs, p, c));
  }

  lemma MissingReferenced(files: Files, libs: map<Lib, Soinfo>, x: Lib)
    requires x in libs
    ensures Referenced(libs, x).Keys == libs.Keys && Missing(files, Referenced(libs, x)) == Missing(files, libs)
  {
    MissingSame(files, libs, Referenced(libs, x));
  }

  lemma MissingLess(files: Files, libs: map<Lib, Soinfo>, x: Lib, so: Soinfo)
    requires x !in libs && so.name in Missing(files, libs)
    ensures Missing(files, libs[x := so]) < Missing(files, libs)
    ensures |Missing(files, libs[x := so])| < |Missing(files, libs)|
  {
    var now, was := Missing(files, libs[x := so]), Missing(files, libs);
    assert forall y :: y in libs ==> y in libs[x := so] && libs[x := so][y] == libs[y];
    assert x in libs[x := so] && libs[x := so][x].name == so.name;
    assert so.name !in now;
    forall n | n in now
      ensures n in was
    {
      forall y | y in libs
        ensures libs[y].name != n
      {
        assert y in libs[x := so] && libs[x := so][y] == libs[y];
      }
    }
    Fewer(now, was, so.name);
  }

  lemma Fewer(now: set<string>, was: set<string>, n: string)
    requires now <= was - {n} && n in was
    ensures now < was && |now| < |was|
  {
    assert was == now + (was - now);
    assert n in was - now;
  }

  ghost predicate Linkable(libs: map<Lib, Soinfo>, found: seq<Lib>, files: Files)
  {
    forall i :: 0 <= i < |found| ==> found[i] in libs && (libs[found[i]].linked || libs[found[i]].name in files)
  }

  ghost predicate LinkedTo(libs: map<Lib, Soinfo>, found: seq<Lib>, k: nat)
  {
    k <= |found| && forall i :: 0 <= i < k ==> found[i] in libs && libs[found[i]].linked
  }

  lemma FlaggedStep(was: map<Lib, Soinfo>, mid: map<Lib, Soinfo>, now: map<Lib, Soinfo>, found: seq<Lib>, k: nat,
      files: Files)
    requires Flagged(was, mid) && Flagged(mid, now) && Linkable(mid, found, files) && LinkedTo(mid, found, k)
    requires k < |found| && found[k] in now && now[found[k]].linked
    ensures Flagged(was, now) && Linkable(now, found, files) && LinkedTo(now, found, k + 1)
  {
    forall i | 0 <= i < |found|
      ensures found[i] in now && (now[found[i]].linked || now[found[i]].name in files)
      ensures i < k ==> now[found[i]].linked
    {
      var x: Lib := found[i];
      assert x in mid && x in now;
    }
  }

  /** The same libraries; only link flags were set. */
  ghost predicate Flagged(was: map<Lib, Soinfo>, now: map<Lib, Soinfo>)
  {
    && now.Keys == was.Keys
    && forall x :: x in was ==> now[x] == was[x] || (!was[x].linked && now[x] == was[x].(linked := true))
  }

  ghost predicate AllLinked(libs: map<Lib, Soinfo>)
  {
    forall x :: x in libs ==> libs[x].linked
  }

  lemma FlagKeepsGraph(solist: seq<Lib>, libs: map<Lib, Soinfo>, ext: multiset<Lib>, rank: map<Lib, nat>, x: Lib)
    requires GraphOk(solist, libs, ext, rank) && x in libs
    ensures GraphOk(solist, libs[x := libs[x].(linked := true)], ext, rank)
  {
    var libs' := libs[x := libs[x].(linked := true)];
    EntriesSame(solist, libs, libs');
  }

  lemma FirstRoot(ext: multiset<Lib>, roots: seq<Lib>, i: nat)
    requires i < |roots|
    ensures (ext + multiset(roots[i..]))[roots[i]] > 0
    ensures ext + multiset(roots[i..]) - multiset{roots[i]} == ext + multiset(roots[i + 1..])
  {
    assert roots[i..] == [roots[i]] + roots[i + 1..];
  }

  lemma ShrunkAgain(solist: seq<Lib>, libs: map<Lib, Soinfo>, list: seq<Lib>, mid: map<Lib, Soinfo>, solist': seq<Lib>,
      libs': map<Lib, Soinfo>)
    requires Shrunk(solist, libs, list, mid) && Shrunk(list, mid, solist', libs')
    ensures Shrunk(solist, libs, solist', libs')
  {
    forall y | y in libs'.Keys
      ensures y in mid.Keys
    {
      assert y in libs' && y in mid;
    }
    KeptTwice(solist, mid, libs');
  }

  /** Loading something and unloading it again: with the same handles as before, everything is as before. */
  lemma Restored(solist: seq<Lib>, libs: map<Lib, Soinfo>, rank: map<Lib, nat>, ext: multiset<Lib>, list: seq<Lib>,
      mid: map<Lib, Soinfo>, solist': seq<Lib>, libs': map<Lib, Soinfo>, rank': map<Lib, nat>)
    requires GraphOk(solist, libs, ext, rank) && AllUsed(libs) && GraphOk(solist', libs', ext, rank') && AllUsed(libs')
    requires Grown(solist, libs, list, mid) && Shrunk(list, mid, solist', libs')
    ensures libs' == libs && solist' == solist
  {
    SameHandlesSameState(solist, libs, ext, rank, solist', libs', rank');
    forall x | x in libs
      ensures libs'[x] == libs[x]
    {
      assert x in libs' && SameBut(mid[x], libs'[x]) && SameBut(libs[x], mid[x]);
    }
    assert libs' == libs;
    var more := list[|solist|..];
    assert list == solist + more;
    KeptConcat(solist, more, libs);
    KeptAll(solist, libs);
    forall i | 0 <= i < |more|
      ensures more[i] !in libs
    {
      LaterIsOther(solist, list, libs, |solist| + i);
      assert more[i] == list[|solist| + i];
    }
    KeptNone(more, libs);
  }

  lemma LaterIsOther(solist: seq<Lib>, list: seq<Lib>, libs: map<Lib, Soinfo>, k: nat)
    requires Listed(solist, libs) && Distinct(list) && solist <= list && |solist| <= k < |list|
    ensures list[k] !in libs
  {
    var c: Lib := list[k];
    forall j | 0 <= j < |solist|
      ensures solist[j] != c
    {
      assert solist[j] == list[j];
    }
    assert c !in solist;
  }

  lemma NewOnesNamed(libs0: map<Lib, Soinfo>, solist0: seq<Lib>, solist: seq<Lib>, libs: map<Lib, Soinfo>,
      found: seq<Lib>, files: Files)
    requires AllLinked(libs0) && Grown(solist0, libs0, solist, libs)
    requires forall i :: 0 <= i < |found| ==> found[i] in libs
    requires forall p :: p in libs && p !in libs0 ==> AllLoaded(libs, p, files)
    ensures forall i :: 0 <= i < |found| ==> found[i] in libs && (libs[found[i]].linked || libs[found[i]].name in files)
  {
    forall i | 0 <= i < |found|
      ensures libs[found[i]].linked || libs[found[i]].name in files
    {
      var p := found[i];
      if p in libs0 {
        assert SameBut(libs0[p], libs[p]);
      } else {
        assert AllLoaded(libs, p, files);
      }
    }
  }

  /** Setting link flags touches nothing that was there before, and no wiring. */
  lemma FlaggedKeeps(solist0: seq<Lib>, libs0: map<Lib, Soinfo>, solist: seq<Lib>, libs: map<Lib, Soinfo>,
      libs': map<Lib, Soinfo>, roots: seq<Lib>, names: seq<string>, files: Files)
    requires AllLinked(libs0) && Grown(solist0, libs0, solist, libs) && Flagged(libs, libs')
    requires Wired(libs, roots, names, files) && forall p :: p in libs && p !in libs0 ==> AllLoaded(libs, p, files)
    ensures Grown(solist0, libs0, solist, libs') && Wired(libs', roots, names, files)
    ensures forall p :: p in libs' && p !in libs0 ==> AllLoaded(libs', p, files)
  {
    WiredLater(libs, libs', roots, names, files);
    forall p | p in libs' && p !in libs0
      ensures AllLoaded(libs', p, files)
    {
      assert AllLoaded(libs, p, files);
      WiredLater(libs, libs', libs[p].children, files[libs[p].name].needed, files);
    }
    forall x | x in libs0
      ensures x in libs' && SameBut(libs0[x], libs'[x])
    {
      assert x in libs && SameBut(libs0[x], libs[x]);
    }
  }

  function RootTasks(names: seq<string>): (tasks: seq<Task>)
    ensures |tasks| == |names| && forall i :: 0 <= i < |tasks| ==> tasks[i] == Task(names[i], None)
  {
    if names == [] then [] else [Task(names[0], None)] + RootTasks(names[1..])
  }

  ghost function Listing(found: seq<Lib>): (r: set<Lib>)
    ensures forall x :: x in r <==> x in found
  {
    if found == [] then {} else {found[0]} + Listing(found[1..])
  }

  /** Everything that the library needs is loaded and entered. */
  ghost predicate AllLoaded(libs: map<Lib, Soinfo>, p: Lib, files: Files)
    requires p in libs
  {
    libs[p].name in files && Wired(libs, libs[p].children, files[libs[p].name].needed, files)
  }

  lemma LoadingStarts(solist: seq<Lib>, libs: map<Lib, Soinfo>, names: seq<string>, files: Files)
    ensures LoadingOk(solist, libs, solist, libs, RootTasks(names), [], names, [], files)
  {
    assert names[..0] == [];
  }

  lemma LoadingGrown(solist0: seq<Lib>, libs0: map<Lib, Soinfo>, solist: seq<Lib>, libs: map<Lib, Soinfo>,
                     tasks: seq<Task>, roots: seq<Lib>, names: seq<string>, found: seq<Lib>, files: Files)
    requires LoadingOk(solist0, libs0, solist, libs, tasks, roots, names, found, files)
    requires libs.Keys <= libs0.Keys + Listing(found)
    ensures Grown(solist0, libs0, solist, libs)
    ensures (forall i :: 0 <= i < |found| ==> found[i] in libs) && forall p :: p in libs && p !in libs0 ==> p in found
  {
    forall p | p in libs && p !in libs0
      ensures p in found
    {
      assert p in libs.Keys && p in Listing(found);
    }
  }

  lemma LoadingEnds(solist0: seq<Lib>, libs0: map<Lib, Soinfo>, solist: seq<Lib>, libs: map<Lib, Soinfo>,
                    roots: seq<Lib>, names: seq<string>, found: seq<Lib>, files: Files)
    requires LoadingOk(solist0, libs0, solist, libs, [], roots, names, found, files)
    requires libs.Keys <= libs0.Keys + Listing(found)
    ensures Grown(solist0, libs0, solist, libs)
    ensures (forall i :: 0 <= i < |found| ==> found[i] in libs) && forall p :: p in libs && p !in libs0 ==> p in found
    ensures Wired(libs, roots, names, files) && forall p :: p in libs && p !in libs0 ==> AllLoaded(libs, p, files)
  {
    LoadingGrown(solist0, libs0, solist, libs, [], roots, names, found, files);
    assert names[..|roots|] == names;
    forall p | p in libs && p !in libs0
      ensures AllLoaded(libs, p, files)
    {
      assert Underway(libs, [], p, files);
      var needed, k := files[libs[p].name].needed, |libs[p].children|;
      assert needed[k..] == [];
      assert needed[..k] == needed;
    }
  }

  lemma TailFirst(tasks: seq<Task>, more: seq<Task>)
    requires tasks != []
    ensures (tasks + more)[1..] == tasks[1..] + more
  {
  }

  lemma RootsGrow(ext: multiset<Lib>, roots: seq<Lib>, x: Lib)
    ensures ext + multiset(roots) + multiset{x} == ext + multiset(roots + [x])
  {
  }

  /** The queue: first the names asked for from number k on, then what libraries loaded by this call need. */
  ghost predicate TasksOk(libs0: map<Lib, Soinfo>, libs: map<Lib, Soinfo>, tasks: seq<Task>, k: nat, names: seq<string>)
  {
    && k <= |names| <= k + |tasks|
    && (forall i :: 0 <= i < |names| - k ==> tasks[i] == Task(names[k + i], None))
    && (forall i :: |names| - k <= i < |tasks| ==> ForNew(libs0, libs, tasks[i]))
  }

  ghost predicate ForNew(libs0: map<Lib, Soinfo>, libs: map<Lib, Soinfo>, t: Task)
  {
    t.neededBy.Some? && t.neededBy.value in libs && t.neededBy.value !in libs0
  }

  lemma TasksAdded(libs0: map<Lib, Soinfo>, libs: map<Lib, Soinfo>, tasks: seq<Task>, k: nat, names: seq<string>,
      libs': map<Lib, Soinfo>, more: seq<Task>)
    requires TasksOk(libs0, libs, tasks, k, names) && libs.Keys <= libs'.Keys
    requires forall i :: 0 <= i < |more| ==> ForNew(libs0, libs', more[i])
    ensures TasksOk(libs0, libs', tasks + more, k, names)
  {
    var all := tasks + more;
    forall i | |names| - k <= i < |all|
      ensures ForNew(libs0, libs', all[i])
    {
      if i < |tasks| {
        assert all[i] == tasks[i] && ForNew(libs0, libs, tasks[i]);
      } else {
        assert all[i] == more[i - |tasks|];
      }
    }
  }

  lemma TaskTaken(libs0: map<Lib, Soinfo>, libs: map<Lib, Soinfo>, tasks: seq<Task>, k: nat, names: seq<string>,
      libs': map<Lib, Soinfo>)
    requires TasksOk(libs0, libs, tasks, k, names) && tasks != [] && libs'.Keys == libs.Keys
    ensures if tasks[0].neededBy.None? then k < |names| && tasks[0].name == names[k]
        && TasksOk(libs0, libs', tasks[1..], k + 1, names)
            else k == |names| && ForNew(libs0, libs, tasks[0]) && TasksOk(libs0, libs', tasks[1..], k, names)
  {
    assert k < |names| ==> tasks[0] == Task(names[k + 0], None);
    assert k == |names| ==> ForNew(libs0, libs, tasks[0]);
    var rest := tasks[1..];
    forall i | 0 <= i < |names| - k - 1
      ensures rest[i] == Task(names[k + 1 + i], None)
    {
      assert rest[i] == tasks[i + 1] == Task(names[k + (i + 1)], None);
    }
    forall i | 0 <= i < |rest| && i >= |names| - k - 1
      ensures ForNew(libs0, libs', rest[i])
    {
      assert rest[i] == tasks[i + 1] && ForNew(libs0, libs, tasks[i + 1]);
    }
  }

  /** The state of the loading loop: what was loaded before is as it was, roots wait before everything else, and every
      library loaded by this call has its first children and tasks for the others. */
  ghost predicate LoadingOk(solist0: seq<Lib>, libs0: map<Lib, Soinfo>, solist: seq<Lib>, libs: map<Lib, Soinfo>,
                            tasks: seq<Task>, roots: seq<Lib>, names: seq<string>, found: seq<Lib>, files: Files)
  {
    && Grown(solist0, libs0, solist, libs)
    && |roots| <= |names| && Wired(libs, roots, names[..|roots|], files)
    && TasksOk(libs0, libs, tasks, |roots|, names)
    && (forall p :: p in libs && p !in libs0 ==> Underway(libs, tasks, p, files))
    && (forall i :: 0 <= i < |found| ==> found[i] in libs)
  }

  lemma WiredLater(libs: map<Lib, Soinfo>, libs': map<Lib, Soinfo>, children: seq<Lib>, names: seq<string>,
      files: Files)
    requires Wired(libs, children, names, files)
    requires forall x :: x in libs ==> x in libs' && libs'[x].name == libs[x].name && libs'[x].inode == libs[x].inode
    ensures Wired(libs', children, names, files)
  {
    forall i | 0 <= i < |children|
      ensures children[i] in libs' && Named(libs'[children[i]], names[i], files)
    {
      var c: Lib := children[i];
      assert c in libs && c in libs';
    }
  }

  lemma WiredNext(libs: map<Lib, Soinfo>, children: seq<Lib>, names: seq<string>, files: Files, x: Lib, k: nat)
    requires k < |names| && Wired(libs, children, names[..k], files) && x in libs && Named(libs[x], names[k], files)
    ensures Wired(libs, children + [x], names[..k + 1], files)
  {
    var all, first := children + [x], names[..k];
    forall i | 0 <= i < |all|
      ensures all[i] in libs && Named(libs[all[i]], names[..k + 1][i], files)
    {
      assert names[..k + 1][i] == names[i];
      if i < k {
        assert all[i] == children[i] && first[i] == names[i];
      }
    }
  }

  lemma UnderwayLater(libs: map<Lib, Soinfo>, libs': map<Lib, Soinfo>, tasks: seq<Task>, tasks': seq<Task>, p: Lib,
      files: Files)
    requires p in libs && p in libs' && Underway(libs, tasks, p, files) && NamesFor(tasks', p) == NamesFor(tasks, p)
    requires libs'[p].children == libs[p].children
    requires forall x :: x in libs ==> x in libs' && libs'[x].name == libs[x].name && libs'[x].inode == libs[x].inode
    ensures Underway(libs', tasks', p, files)
  {
    WiredLater(libs, libs', libs[p].children, files[libs[p].name].needed[..|libs[p].children|], files);
  }

  lemma UnderwayFound(libs0: map<Lib, Soinfo>, libs: map<Lib, Soinfo>, tasks: seq<Task>, k: nat, names: seq<string>,
                      files: Files, x: Lib, name: string, p: Lib)
    requires TasksOk(libs0, libs, tasks, k, names) && x !in libs && name in files
    requires (p == x || (p in libs && Underway(libs, tasks, p, files)))
    ensures Underway(libs[x := Soinfo(name, files[name].inode, 0, [], false)], tasks + TasksOf(files[name].needed, x),
        p, files)
  {
    var needed := files[name].needed;
    NamesForConcat(tasks, TasksOf(needed, x), p);
    NamesForOwn(needed, x, p);
    if p == x {
      NoTaskYet(libs0, libs, tasks, k, names, x);
      assert needed[0..] == needed && needed[..0] == [];
    } else {
      UnderwayLater(libs, libs[x := Soinfo(name, files[name].inode, 0, [], false)], tasks, tasks + TasksOf(needed, x),
          p, files);
    }
  }

  lemma NoTaskYet(libs0: map<Lib, Soinfo>, libs: map<Lib, Soinfo>, tasks: seq<Task>, k: nat, names: seq<string>, x: Lib)
    requires TasksOk(libs0, libs, tasks, k, names) && x !in libs
    ensures NamesFor(tasks, x) == []
  {
    forall i | 0 <= i < |tasks|
      ensures tasks[i].neededBy != Some(x)
    {
      assert if i < |names| - k then tasks[i] == Task(names[k + i], None) else ForNew(libs0, libs, tasks[i]);
    }
    NamesForNone(tasks, x);
  }

  /** A new library: its tasks join the end of the queue. */
  lemma LoadingFinds(solist0: seq<Lib>, libs0: map<Lib, Soinfo>, solist: seq<Lib>, libs: map<Lib, Soinfo>,
      tasks: seq<Task>, roots: seq<Lib>, names: seq<string>, found: seq<Lib>, files: Files, x: Lib, name: string)
    requires LoadingOk(solist0, libs0, solist, libs, tasks, roots, names, found, files) && x !in libs && name in files
    ensures LoadingOk(solist0, libs0, solist + [x], libs[x := Soinfo(name, files[name].inode, 0, [], false)],
                      tasks + TasksOf(files[name].needed, x), roots, names, found, files)
  {
    var needed := files[name].needed;
    var libs' := libs[x := Soinfo(name, files[name].inode, 0, [], false)];
    var tasks' := tasks + TasksOf(needed, x);
    forall p | p in libs' && p !in libs0
      ensures Underway(libs', tasks', p, files)
    {
      UnderwayFound(libs0, libs, tasks, |roots|, names, files, x, name, p);
    }
    WiredLater(libs, libs', roots, names[..|roots|], files);
    TasksAdded(libs0, libs, tasks, |roots|, names, libs', TasksOf(needed, x));
    assert forall i :: 0 <= i < |found| ==> found[i] in libs;
  }

  lemma LoadingAttachesRoot(solist0: seq<Lib>, libs0: map<Lib, Soinfo>, solist: seq<Lib>, libs: map<Lib, Soinfo>,
      tasks: seq<Task>, roots: seq<Lib>, names: seq<string>, found: seq<Lib>, files: Files, x: Lib)
    requires LoadingOk(solist0, libs0, solist, libs, tasks, roots, names, found, files) && x in libs
    requires tasks != [] && tasks[0].neededBy == None && Named(libs[x], tasks[0].name, files)
    ensures |roots| < |names|
    ensures LoadingOk(solist0, libs0, solist, Referenced(libs, x), tasks[1..], roots + [x], names, [x] + found, files)
  {
    var libs' := Referenced(libs, x);
    TaskTaken(libs0, libs, tasks, |roots|, names, libs');
    forall p | p in libs' && p !in libs0
      ensures Underway(libs', tasks[1..], p, files)
    {
      UnderwayLater(libs, libs', tasks, tasks[1..], p, files);
    }
    WiredLater(libs, libs', roots, names[..|roots|], files);
    WiredNext(libs', roots, names, files, x, |roots|);
  }

  lemma LoadingAttachesChild(solist0: seq<Lib>, libs0: map<Lib, Soinfo>, solist: seq<Lib>, libs: map<Lib, Soinfo>,
      tasks: seq<Task>, roots: seq<Lib>, names: seq<string>, found: seq<Lib>, files: Files, x: Lib, p: Lib)
    requires LoadingOk(solist0, libs0, solist, libs, tasks, roots, names, found, files) && x in libs && p in libs
    requires x != p
    requires tasks != [] && tasks[0].neededBy == Some(p) && Named(libs[x], tasks[0].name, files)
    ensures |roots| == |names|
    ensures LoadingOk(solist0, libs0, solist, Joined(libs, p, x), tasks[1..], roots, names, [x] + found, files)
  {
    var libs' := Joined(libs, p, x);
    TaskTaken(libs0, libs, tasks, |roots|, names, libs');
    forall q | q in libs' && q !in libs0
      ensures Underway(libs', tasks[1..], q, files)
    {
      if q == p {
        ChildWired(libs, tasks, p, x, files);
      } else {
        UnderwayLater(libs, libs', tasks, tasks[1..], q, files);
      }
    }
    WiredLater(libs, libs', roots, names[..|roots|], files);
  }

  lemma ChildWired(libs: map<Lib, Soinfo>, tasks: seq<Task>, p: Lib, x: Lib, files: Files)
    requires p in libs && x in libs && x != p && Underway(libs, tasks, p, files)
    requires tasks != [] && tasks[0].neededBy == Some(p) && Named(libs[x], tasks[0].name, files)
    ensures Underway(Joined(libs, p, x), tasks[1..], p, files)
  {
    var libs' := Joined(libs, p, x);
    var needed, k := files[libs[p].name].needed, |libs[p].children|;
    assert needed[k..] == [tasks[0].name] + NamesFor(tasks[1..], p);
    assert needed[k] == needed[k..][0] && needed[k + 1..] == needed[k..][1..];
    WiredLater(libs, libs', libs[p].children, needed[..k], files);
    WiredNext(libs', libs[p].children, needed, files, x, k);
  }
}
