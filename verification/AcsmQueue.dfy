/** The work queue of the pattern compiler: states on an intrusive ring, with a second ring of nodes kept for reuse. */
module AcsmQueue {
  import opened Ring

  const FAIL_STATE := -1

  /** The two sentinels. */
  const WORK: Addr := 0
  const FREE: Addr := 1

  lemma InsertBeforeHead(fd: map<Addr, Addr>, bk: map<Addr, Addr>, r: seq<Addr>, x: Addr)
    requires IsRing(fd, bk, r) && x !in r
    ensures r[0] in bk && bk[r[0]] in fd && bk[r[0]] == r[|r| - 1] && fd[bk[r[0]]] == r[0]
    ensures IsRing(FdAfterInsert(fd, bk[r[0]], x), BkAfterInsert(fd, bk, bk[r[0]], x), r + [x])
  {
    var n := |r|;
    assert LinkedAt(fd, bk, r, 0) && LinkedAt(fd, bk, r, n - 1);
    var turned := r[n - 1..] + r[..n - 1];
    Rotate(fd, bk, r, n - 1);
    InsertBehindHead(fd, bk, turned, x);
    var s := [turned[0], x] + turned[1..];
    if n == 1 {
      assert s == r + [x];
    } else {
      Rotate(FdAfterInsert(fd, r[n - 1], x), BkAfterInsert(fd, bk, r[n - 1], x), s, 2);
      assert s[2..] + s[..2] == r + [x];
    }
  }

  /** Words that agree on the members of a ring thread the same ring. */
  lemma SameRing(fd: map<Addr, Addr>, bk: map<Addr, Addr>, fd': map<Addr, Addr>, bk': map<Addr, Addr>, r: seq<Addr>)
    requires IsRing(fd, bk, r)
    requires forall i :: 0 <= i < |r| ==> (r[i] in fd ==> r[i] in fd' && fd'[r[i]] == fd[r[i]])
    requires forall i :: 0 <= i < |r| ==> (r[i] in bk ==> r[i] in bk' && bk'[r[i]] == bk[r[i]])
    ensures IsRing(fd', bk', r)
  {
    forall i | 0 <= i < |r|
      ensures LinkedAt(fd', bk', r, i)
    {
      assert LinkedAt(fd, bk, r, i);
    }
  }

  /** Unlinking a node of one ring leaves the other. */
  lemma UnlinkKeepsOther(fd: map<Addr, Addr>, bk: map<Addr, Addr>, r: seq<Addr>, k: nat, other: seq<Addr>)
    requires IsRing(fd, bk, r) && k < |r| && IsRing(fd, bk, other) && Apart(r, other)
    ensures r[k] in fd && r[k] in bk
    ensures IsRing(fd[bk[r[k]] := fd[r[k]]], bk[fd[r[k]] := bk[r[k]]], other)
  {
    assert LinkedAt(fd, bk, r, k);
    assert fd[r[k]] in r && bk[r[k]] in r;
    SameRing(fd, bk, fd[bk[r[k]] := fd[r[k]]], bk[fd[r[k]] := bk[r[k]]], other);
  }

  /** Linking a new node into one ring leaves the other. */
  lemma InsertKeepsOther(fd: map<Addr, Addr>, bk: map<Addr, Addr>, r: seq<Addr>, k: nat, x: Addr, other: seq<Addr>)
    requires IsRing(fd, bk, r) && k < |r| && IsRing(fd, bk, other) && Apart(r, other) && x !in other
    ensures r[k] in fd && IsRing(FdAfterInsert(fd, r[k], x), BkAfterInsert(fd, bk, r[k], x), other)
  {
    assert LinkedAt(fd, bk, r, k);
    assert fd[r[k]] in r && r[k] in r;
    forall i | 0 <= i < |other|
      ensures other[i] !in r && other[i] != x
    {
      assert other[i] in other;
    }
    SameRing(fd, bk, FdAfterInsert(fd, r[k], x), BkAfterInsert(fd, bk, r[k], x), other);
  }

  lemma DropNode(r: seq<Addr>, k: nat, other: seq<Addr>)
    requires Distinct(r) && k < |r| && Apart(r, other)
    ensures r[k] !in r[..k] + r[k + 1..] && Apart(r[..k] + r[k + 1..], other) && r[k] !in other
  {
    var rest := r[..k] + r[k + 1..];
    assert r[k] in r;
    forall x | x in rest
      ensures x in r && x != r[k]
    {
      var i :| 0 <= i < |rest| && rest[i] == x;
      assert r[if i < k then i else i + 1] == x;
    }
  }

  /** Nodes of one ring are untouched by relinking nodes of another. */
  ghost predicate Apart(a: seq<Addr>, b: seq<Addr>)
  {
    forall x :: x in a ==> x !in b
  }

  /** The states of the nodes behind the head, from the last node to the first. */
  ghost function Listed(work: seq<Addr>, state: map<Addr, int>): (s: seq<int>)
    requires work != [] && forall i :: 0 < i < |work| ==> work[i] in state
    ensures |s| == |work| - 1
  {
    seq(|work| - 1, i requires 0 <= i < |work| - 1 => state[work[|work| - 1 - i]])
  }

  class StateQueue {
    var next: map<Addr, Addr>
    var prev: map<Addr, Addr>
    var state: map<Addr, int>
    var brk: Addr
    ghost var work: seq<Addr>
    ghost var spare: seq<Addr>

    ghost predicate Rings()
      reads this
    {
      && work != [] && work[0] == WORK && IsRing(next, prev, work)
      && spare != [] && spare[0] == FREE && IsRing(next, prev, spare)
      && Apart(work, spare)
    }

    ghost predicate Valid()
      reads this
    {
      && Rings() && brk >= 2
      && (forall x :: x in work || x in spare ==> 0 <= x < brk)
      && (forall i :: 0 < i < |work| ==> work[i] in state)
    }

    /** The states in the queue, the one to come out next first. */
    ghost function Contents(): seq<int>
      requires Valid()
      reads this
    {
      Listed(work, state)
    }

    constructor ()
      ensures Valid() && Contents() == []
    {
      next := map[WORK := WORK, FREE := FREE];
      prev := map[WORK := WORK, FREE := FREE];
      state := map[];
      brk := 2;
      work, spare := [WORK], [FREE];
    }

    /** acsm_queue_empty. */
    method Empty() returns (empty: bool)
      requires Valid()
      ensures empty <==> Contents() == []
    {
      assert LinkedAt(next, prev, work, 0);
      empty := prev[WORK] == WORK;
    }

    /** acsm_queue_remove. */
    method Remove(x: Addr)
      requires x in next && x in prev
      modifies `next, `prev
      ensures next == old(next)[old(prev)[x] := old(next)[x]] && prev == old(prev)[old(next)[x] := old(prev)[x]]
    {
      prev := prev[next[x] := prev[x]];
      next := next[prev[x] := next[x]];
    }

    /** acsm_queue_insert_head. */
    method InsertHead(h: Addr, x: Addr)
      requires h in next && h != x
      modifies `next, `prev
      ensures next == FdAfterInsert(old(next), h, x) && prev == BkAfterInsert(old(next), old(prev), h, x)
    {
      var first := next[h];
      next := next[x := first];
      prev := prev[first := x];
      prev := prev[x := h];
      next := next[h := x];
    }

    /** acsm_queue_insert_tail. */
    method InsertTail(h: Addr, x: Addr)
      requires h in prev && prev[h] in next && next[prev[h]] == h && h != x && prev[h] != x
      modifies `next, `prev
      ensures next == FdAfterInsert(old(next), old(prev)[h], x)
      ensures prev == BkAfterInsert(old(next), old(prev), old(prev)[h], x)
    {
      var last := prev[h];
      prev := prev[x := last];
      next := next[last := x];
      next := next[x := h];
      prev := prev[h := x];
    }

    /** acsm_alloc_state_queue: the last spare node, or a new one. */
    method Alloc() returns (x: Addr)
      requires Valid()
      modifies `next, `prev, `brk, `spare
      ensures Valid() && work == old(work) && Contents() == old(Contents())
      ensures 2 <= x < brk && x !in work && x !in spare
    {
      assert LinkedAt(next, prev, spare, 0);
      if prev[FREE] == FREE {
        x := brk;
        brk := brk + 1;
      } else {
        ghost var k := |spare| - 1;
        x := prev[FREE];
        assert LinkedAt(next, prev, spare, k);
        Unlink(next, prev, spare, k);
        UnlinkKeepsOther(next, prev, spare, k, work);
        DropNode(spare, k, work);
        Remove(x);
        spare := spare[..k] + spare[k + 1..];
      }
    }

    /** acsm_add_state: to the head of the work ring. */
    method AddState(s: int)
      requires Valid()
      modifies this
      ensures Valid() && Contents() == old(Contents()) + [s]
    {
      var x := Alloc();
      state := state[x := s];
      InsertBehindHead(next, prev, work, x);
      InsertKeepsOther(next, prev, work, 0, x, spare);
      InsertHead(WORK, x);
      ghost var was := work;
      work := [WORK, x] + work[1..];
      assert Listed(work, state) == Listed(was, state) + [s];
    }

    /** acsm_next_state: from the end of the work ring; -1 when it is empty. The node is unlinked twice, the second time
        to no effect, and goes to the spare ring. */
    method NextState() returns (s: int)
      requires Valid()
      modifies this
      ensures Valid()
      ensures
        if old(Contents()) == [] then s == FAIL_STATE && Contents() == []
        else s == old(Contents())[0] && Contents() == old(Contents())[1..]
    {
      assert LinkedAt(next, prev, work, 0);
      if prev[WORK] == WORK {
        return FAIL_STATE;
      }
      ghost var k := |work| - 1;
      var x := prev[WORK];
      assert LinkedAt(next, prev, work, k);
      s := state[x];
      Unlink(next, prev, work, k);
      UnlinkKeepsOther(next, prev, work, k, spare);
      DropNode(work, k, spare);
      Remove(x);
      ghost var once, back := next, prev;
      Remove(x);
      assert next == once && prev == back;
      ghost var was := work;
      work := work[..k] + work[k + 1..];
      assert Listed(work, state) == Listed(was, state)[1..];
      InsertBeforeHead(next, prev, spare, x);
      InsertKeepsOther(next, prev, spare, |spare| - 1, x, work);
      InsertTail(FREE, x);
      spare := spare + [x];
      state := state[x := FAIL_STATE];
    }
  }
}
