/** Circular doubly-linked lists threaded through memory: `fd[a]` and `bk[a]` are the forward and back
    words of the record at address `a`. A ring is the cyclic sequence of the addresses it threads. */
module Ring {

  type Addr = int

  function Next(i: nat, n: nat): nat { if i + 1 < n then i + 1 else 0 }
  function Prev(i: nat, n: nat): int { if i == 0 then n - 1 else i - 1 }

  ghost predicate Distinct(r: seq<Addr>)
  {
    forall i, j :: 0 <= i < j < |r| ==> r[i] != r[j]
  }

  ghost predicate LinkedAt(fd: map<Addr, Addr>, bk: map<Addr, Addr>, r: seq<Addr>, i: nat)
    requires i < |r|
  {
    && r[i] in fd && fd[r[i]] == r[Next(i, |r|)]
    && r[i] in bk && bk[r[i]] == r[Prev(i, |r|)]
  }

  ghost predicate IsRing(fd: map<Addr, Addr>, bk: map<Addr, Addr>, r: seq<Addr>)
  {
    && |r| > 0
    && Distinct(r)
    && forall i :: 0 <= i < |r| ==> LinkedAt(fd, bk, r, i)
  }

  /** The forward words after `x` is linked in behind `t`; `BkAfterInsert` the back words. */
  function FdAfterInsert(fd: map<Addr, Addr>, t: Addr, x: Addr): map<Addr, Addr>
    requires t in fd
  {
    fd[t := x][x := fd[t]]
  }

  function BkAfterInsert(fd: map<Addr, Addr>, bk: map<Addr, Addr>, t: Addr, x: Addr): map<Addr, Addr>
    requires t in fd
  {
    bk[fd[t] := x][x := t]
  }

  lemma InsertBehindHead(fd: map<Addr, Addr>, bk: map<Addr, Addr>, r: seq<Addr>, x: Addr)
    requires IsRing(fd, bk, r) && x !in r
    ensures r[0] in fd
    ensures IsRing(FdAfterInsert(fd, r[0], x), BkAfterInsert(fd, bk, r[0], x), [r[0], x] + r[1..])
  {
    var s := [r[0], x] + r[1..];
    assert LinkedAt(fd, bk, r, 0);
    var fd', bk' := FdAfterInsert(fd, r[0], x), BkAfterInsert(fd, bk, r[0], x);
    forall i | 0 <= i < |s|
      ensures LinkedAt(fd', bk', s, i)
    {
      InsertedAt(fd, bk, r, x, s, i);
    }
  }

  lemma InsertedAt(fd: map<Addr, Addr>, bk: map<Addr, Addr>, r: seq<Addr>, x: Addr, s: seq<Addr>, i: nat)
    requires IsRing(fd, bk, r) && x !in r
    requires s == [r[0], x] + r[1..] && i < |s| && r[0] in fd
    ensures LinkedAt(FdAfterInsert(fd, r[0], x), BkAfterInsert(fd, bk, r[0], x), s, i)
  {
    assert LinkedAt(fd, bk, r, 0);
    assert fd[r[0]] == r[Next(0, |r|)];
    if i >= 2 {
      assert s[i] == r[i - 1];
      assert LinkedAt(fd, bk, r, i - 1);
      assert Next(i, |s|) >= 2 ==> s[Next(i, |s|)] == r[Next(i, |s|) - 1];
    } else if i == 1 {
      assert |r| > 1 ==> s[2] == r[1];
    }
  }

  /** Unlinking stitches the neighbours together; the other members keep their order. */
  lemma Unlink(fd: map<Addr, Addr>, bk: map<Addr, Addr>, r: seq<Addr>, k: nat)
    requires IsRing(fd, bk, r) && k < |r| && |r| >= 2
    ensures r[k] in fd && r[k] in bk
    ensures var f, b := fd[r[k]], bk[r[k]];
            IsRing(fd[b := f], bk[f := b], r[..k] + r[k + 1..])
  {
    var s := r[..k] + r[k + 1..];
    assert LinkedAt(fd, bk, r, k);
    var f, b := fd[r[k]], bk[r[k]];
    var fd', bk' := fd[b := f], bk[f := b];
    forall i | 0 <= i < |s|
      ensures LinkedAt(fd', bk', s, i)
    {
      UnlinkedAt(fd, bk, r, k, s, i);
    }
  }

  lemma UnlinkedAt(fd: map<Addr, Addr>, bk: map<Addr, Addr>, r: seq<Addr>, k: nat, s: seq<Addr>, i: nat)
    requires IsRing(fd, bk, r) && k < |r| && |r| >= 2
    requires s == r[..k] + r[k + 1..] && i < |s|
    requires LinkedAt(fd, bk, r, k)
    ensures var f, b := fd[r[k]], bk[r[k]];
            LinkedAt(fd[b := f], bk[f := b], s, i)
  {
    var n := |r|;
    var f, b := fd[r[k]], bk[r[k]];
    var j := if i < k then i else i + 1;
    assert LinkedAt(fd, bk, r, j);
    assert f == r[Next(k, n)] && b == r[Prev(k, n)];
    var up := Next(i, n - 1);
    assert s[up] == if up < k then r[up] else r[up + 1];
    if j == Prev(k, n) {
      assert (if up < k then up else up + 1) == Next(k, n);
    } else {
      assert r[j] != b;
      assert (if up < k then up else up + 1) == Next(j, n);
    }
    if j == Next(k, n) {
      assert s[Prev(i, n - 1)] == b;
    } else {
      assert r[j] != f;
      assert s[Prev(i, n - 1)] == r[Prev(j, n)];
    }
  }

  /** A ring has no first member: any member can be taken as its head. */
  lemma Rotate(fd: map<Addr, Addr>, bk: map<Addr, Addr>, r: seq<Addr>, k: nat)
    requires IsRing(fd, bk, r) && k < |r|
    ensures IsRing(fd, bk, r[k..] + r[..k])
  {
    var n := |r|;
    var s := r[k..] + r[..k];
    assert forall i :: 0 <= i < n ==> s[i] == r[if i + k < n then i + k else i + k - n];
    forall i, j | 0 <= i < j < n
      ensures s[i] != s[j]
    {
      var i', j' := if i + k < n then i + k else i + k - n, if j + k < n then j + k else j + k - n;
      assert s[i] == r[i'] && s[j] == r[j'];
    }
    forall i | 0 <= i < n
      ensures LinkedAt(fd, bk, s, i)
    {
      var j := if i + k < n then i + k else i + k - n;
      assert s[i] == r[j];
      assert LinkedAt(fd, bk, r, j);
      assert s[Next(i, n)] == r[Next(j, n)];
      assert s[Prev(i, n)] == r[Prev(j, n)];
    }
  }

  /** Writes outside a ring leave it alone. */
  lemma Frame(fd: map<Addr, Addr>, bk: map<Addr, Addr>, fd': map<Addr, Addr>, bk': map<Addr, Addr>, r: seq<Addr>)
    requires IsRing(fd, bk, r)
    requires forall a :: a in r ==> a in fd' && a in bk' && a in fd && a in bk && fd'[a] == fd[a] && bk'[a] == bk[a]
    ensures IsRing(fd', bk', r)
  {
    forall i | 0 <= i < |r|
      ensures LinkedAt(fd', bk', r, i)
    {
      assert r[i] in r;
      assert LinkedAt(fd, bk, r, i);
    }
  }

  lemma Singleton(fd: map<Addr, Addr>, bk: map<Addr, Addr>, x: Addr)
    requires x in fd && x in bk && fd[x] == x && bk[x] == x
    ensures IsRing(fd, bk, [x])
  {
  }
}
