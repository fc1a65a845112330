/** The bins of small free chunks: one ring per size, threaded through a header that lives in the
    allocator's state. An empty bin is recorded in the bin map only: the header's links are left stale. */
module SmallBins {
  import opened BinMap
  import opened Ring

  const NSMALLBINS: nat := 32

  /** smallbin_at: the address of the header of bin `i`. */
  function Header(i: nat): Addr { -100 - i }

  datatype Small = Small(
    fd: map<Addr, Addr>, bk: map<Addr, Addr>, smallmap: bv32,
    ghost ring: map<nat, seq<Addr>>, ghost home: map<Addr, nat>)

  /** A marked bin is a ring of its header and at least one chunk at home there. */
  ghost predicate SmallBinOK(s: Small, i: nat)
    requires i < NSMALLBINS
  {
    Marked(s.smallmap, i) ==>
      && i in s.ring && |s.ring[i]| >= 2 && IsRing(s.fd, s.bk, s.ring[i])
      && s.ring[i][0] == Header(i)
      && forall k :: 1 <= k < |s.ring[i]| ==> s.ring[i][k] in s.home && s.home[s.ring[i][k]] == i
  }

  ghost predicate HomeOK(s: Small, x: Addr)
    requires x in s.home
  {
    var i := s.home[x];
    x > 0 && i < NSMALLBINS && Marked(s.smallmap, i) && i in s.ring && x in s.ring[i]
  }

  ghost predicate SmallOK(s: Small)
  {
    && (forall i :: 0 <= i < NSMALLBINS ==> SmallBinOK(s, i))
    && (forall x {:trigger HomeOK(s, x)} :: x in s.home ==> HomeOK(s, x))
  }

  /** The chunks in the bins, with their sizes: bin `i` holds chunks of `8 * i` bytes. */
  ghost function HeldIn(s: Small): map<Addr, nat>
  {
    map x | x in s.home :: 8 * s.home[x]
  }

  lemma RingOf(s: Small, i: nat, x: Addr)
    requires SmallOK(s) && i < NSMALLBINS && Marked(s.smallmap, i) && i in s.ring && x in s.ring[i]
    ensures x == Header(i) || (x in s.home && s.home[x] == i && x > 0)
    ensures x in s.fd && x in s.bk
  {
    assert SmallBinOK(s, i);
    var k :| 0 <= k < |s.ring[i]| && s.ring[i][k] == x;
    assert LinkedAt(s.fd, s.bk, s.ring[i], k);
    if k > 0 {
      assert HomeOK(s, x);
    }
  }

  // --- insert_small_chunk ---------------------------------------------------------------------------

  /** The link writes: the chunk goes between the header `b` and `f`. */
  function LinkBetween(s: Small, b: Addr, f: Addr, x: Addr): Small
  {
    s.(fd := s.fd[b := x][x := f], bk := s.bk[f := x][x := b])
  }

  ghost function AfterInsert(s: Small, x: Addr, i: nat): Small
    requires i < NSMALLBINS
  {
    var h := Header(i);
    if !Marked(s.smallmap, i) then
      LinkBetween(s, h, h, x).(smallmap := Mark(s.smallmap, i), ring := s.ring[i := [h, x]], home := s.home[x := i])
    else if h in s.fd && i in s.ring && s.ring[i] != [] then
      LinkBetween(s, h, s.fd[h], x).(ring := s.ring[i := [h, x] + s.ring[i][1..]], home := s.home[x := i])
    else s
  }

  lemma InsertedBin(s: Small, x: Addr, i: nat)
    requires SmallOK(s) && x > 0 && x !in s.home && i < NSMALLBINS
    ensures SmallBinOK(AfterInsert(s, x, i), i)
  {
    MarkExact(s.smallmap, i, i);
    assert SmallBinOK(s, i);
    var h := Header(i);
    var s' := AfterInsert(s, x, i);
    if !Marked(s.smallmap, i) {
      PairIsRing(s'.fd, s'.bk, h, x);
    } else {
      var r := s.ring[i];
      if x in r {
        RingOf(s, i, x);
      }
      InsertBehindHead(s.fd, s.bk, r, x);
      forall k | 1 <= k < |s'.ring[i]|
        ensures s'.ring[i][k] in s'.home && s'.home[s'.ring[i][k]] == i
      {
        assert k >= 2 ==> s'.ring[i][k] == r[k - 1];
      }
    }
  }

  lemma PairIsRing(fd: map<Addr, Addr>, bk: map<Addr, Addr>, h: Addr, x: Addr)
    requires h != x && h in fd && x in fd && h in bk && x in bk
    requires fd[h] == x && fd[x] == h && bk[h] == x && bk[x] == h
    ensures IsRing(fd, bk, [h, x])
  {
    assert LinkedAt(fd, bk, [h, x], 0);
    assert LinkedAt(fd, bk, [h, x], 1);
  }

  /** The rings of other bins are not written. */
  lemma OtherBin(s: Small, i: nat, j: nat, s': Small)
    requires SmallOK(s) && i < NSMALLBINS && j < NSMALLBINS && i != j
    requires Marked(s'.smallmap, j) <==> Marked(s.smallmap, j)
    requires j in s.ring ==> j in s'.ring && s'.ring[j] == s.ring[j]
    requires forall x :: x in s.home && s.home[x] == j ==> x in s'.home && s'.home[x] == j
    requires Marked(s.smallmap, j) && j in s.ring ==> forall x :: x in s.ring[j] ==>
               (x in s.fd ==> x in s'.fd && s'.fd[x] == s.fd[x]) && (x in s.bk ==> x in s'.bk && s'.bk[x] == s.bk[x])
    ensures SmallBinOK(s', j)
  {
    assert SmallBinOK(s, j);
    if Marked(s.smallmap, j) {
      forall x | x in s.ring[j]
        ensures x in s'.fd && x in s'.bk && x in s.fd && x in s.bk && s'.fd[x] == s.fd[x] && s'.bk[x] == s.bk[x]
      {
        RingOf(s, j, x);
      }
      Frame(s.fd, s.bk, s'.fd, s'.bk, s.ring[j]);
    }
  }

  /** Members of the ring of another bin are neither the header nor chunks at home in this bin. */
  lemma ElsewhereOf(s: Small, i: nat, j: nat)
    requires SmallOK(s) && i < NSMALLBINS && j < NSMALLBINS && i != j
    ensures Marked(s.smallmap, j) && j in s.ring ==> forall x :: x in s.ring[j] ==>
              x != Header(i) && (x in s.home ==> s.home[x] == j) && (x !in s.home ==> x == Header(j))
  {
    if Marked(s.smallmap, j) && j in s.ring {
      forall x | x in s.ring[j]
        ensures x != Header(i) && (x in s.home ==> s.home[x] == j) && (x !in s.home ==> x == Header(j))
      {
        RingOf(s, j, x);
        if x in s.home {
          assert HomeOK(s, x);
        }
      }
    }
  }

  lemma InsertOK(s: Small, x: Addr, i: nat)
    requires SmallOK(s) && x > 0 && x !in s.home && i < NSMALLBINS
    ensures SmallOK(AfterInsert(s, x, i))
  {
    var s' := AfterInsert(s, x, i);
    var h := Header(i);
    assert SmallBinOK(s, i);
    if Marked(s.smallmap, i) {
      FirstOf(s, i);
    }
    forall j | 0 <= j < NSMALLBINS
      ensures SmallBinOK(s', j)
    {
      MarkExact(s.smallmap, i, j);
      if j == i {
        InsertedBin(s, x, i);
      } else {
        ElsewhereOf(s, i, j);
        OtherBin(s, i, j, s');
      }
    }
    forall y | y in s'.home
      ensures HomeOK(s', y)
    {
      InsertedHome(s, x, i, y);
    }
  }

  lemma InsertedHome(s: Small, x: Addr, i: nat, y: Addr)
    requires SmallOK(s) && x > 0 && x !in s.home && i < NSMALLBINS && (y == x || y in s.home)
    requires Marked(s.smallmap, i) ==> i in s.ring && |s.ring[i]| >= 2 && Header(i) in s.fd
    ensures HomeOK(AfterInsert(s, x, i), y)
  {
    var s' := AfterInsert(s, x, i);
    if y == x {
      MarkExact(s.smallmap, i, i);
      assert s'.ring[i][1] == x;
    } else {
      assert HomeOK(s, y);
      MarkExact(s.smallmap, i, s.home[y]);
      if s.home[y] == i {
        assert SmallBinOK(s, i);
        BehindHeader(s.ring[i], Header(i), x, y);
      }
    }
  }

  lemma BehindHeader(r: seq<Addr>, h: Addr, x: Addr, y: Addr)
    requires y in r && |r| >= 2 && r[0] == h && y != h
    ensures y in [h, x] + r[1..]
  {
    var k :| 0 <= k < |r| && r[k] == y;
    assert ([h, x] + r[1..])[k + 1] == y;
  }

  /** The chunk behind the header of a marked bin is at home there. */
  lemma FirstOf(s: Small, i: nat)
    requires SmallOK(s) && i < NSMALLBINS && Marked(s.smallmap, i)
    ensures i in s.ring && |s.ring[i]| >= 2 && Header(i) in s.fd
    ensures s.fd[Header(i)] == s.ring[i][1] && s.fd[Header(i)] in s.home && s.home[s.fd[Header(i)]] == i
    ensures s.fd[Header(i)] > 0
  {
    assert SmallBinOK(s, i);
    assert LinkedAt(s.fd, s.bk, s.ring[i], 0);
    assert HomeOK(s, s.ring[i][1]);
  }

  // --- unlink_small_chunk ---------------------------------------------------------------------------

  /** Where a held chunk stands in its ring, and what its neighbours are. */
  lemma Neighbours(s: Small, x: Addr) returns (k: nat)
    requires SmallOK(s) && x in s.home
    ensures HomeOK(s, x)
    ensures var r := s.ring[s.home[x]];
            && 1 <= k < |r| && r[k] == x && IsRing(s.fd, s.bk, r)
            && x in s.fd && x in s.bk && s.fd[x] in r && s.bk[x] in r
            && (s.fd[x] == s.bk[x] <==> |r| == 2)
  {
    assert HomeOK(s, x);
    var i := s.home[x];
    assert SmallBinOK(s, i);
    var r := s.ring[i];
    k :| 0 <= k < |r| && r[k] == x;
    assert LinkedAt(s.fd, s.bk, r, k);
  }

  ghost function AfterUnlink(s: Small, x: Addr, k: nat): Small
    requires x in s.home && s.home[x] < NSMALLBINS && s.home[x] in s.ring && k < |s.ring[s.home[x]]|
    requires x in s.fd && x in s.bk
  {
    var i := s.home[x];
    var f, b := s.fd[x], s.bk[x];
    var r := s.ring[i];
    if b == f then s.(smallmap := Clear(s.smallmap, i), home := s.home - {x})
    else s.(fd := s.fd[b := f], bk := s.bk[f := b], ring := s.ring[i := r[..k] + r[k + 1..]], home := s.home - {x})
  }

  lemma UnlinkedBin(s: Small, x: Addr, k: nat)
    requires SmallOK(s) && x in s.home && s.home[x] < NSMALLBINS && s.home[x] in s.ring
    requires 1 <= k < |s.ring[s.home[x]]| && s.ring[s.home[x]][k] == x && x in s.fd && x in s.bk
    requires s.fd[x] == s.bk[x] <==> |s.ring[s.home[x]]| == 2
    requires IsRing(s.fd, s.bk, s.ring[s.home[x]])
    ensures SmallBinOK(AfterUnlink(s, x, k), s.home[x])
  {
    var i := s.home[x];
    var r := s.ring[i];
    var s' := AfterUnlink(s, x, k);
    ClearExact(s.smallmap, i, i);
    assert HomeOK(s, x) && SmallBinOK(s, i);
    if |r| > 2 {
      Unlink(s.fd, s.bk, r, k);
      var r' := r[..k] + r[k + 1..];
      forall l | 1 <= l < |r'|
        ensures r'[l] in s'.home && s'.home[r'[l]] == i
      {
        assert r'[l] == if l < k then r[l] else r[l + 1];
      }
    }
  }

  lemma UnlinkOK(s: Small, x: Addr, k: nat)
    requires SmallOK(s) && x in s.home && HomeOK(s, x)
    requires var r := s.ring[s.home[x]];
             && 1 <= k < |r| && r[k] == x && IsRing(s.fd, s.bk, r)
             && x in s.fd && x in s.bk && s.fd[x] in r && s.bk[x] in r
             && (s.fd[x] == s.bk[x] <==> |r| == 2)
    ensures SmallOK(AfterUnlink(s, x, k))
  {
    var i := s.home[x];
    var r := s.ring[i];
    var s' := AfterUnlink(s, x, k);
    RingOf(s, i, s.fd[x]);
    RingOf(s, i, s.bk[x]);
    forall j | 0 <= j < NSMALLBINS
      ensures SmallBinOK(s', j)
    {
      ClearExact(s.smallmap, i, j);
      if j == i {
        UnlinkedBin(s, x, k);
      } else {
        ElsewhereOf(s, i, j);
        OtherBin(s, i, j, s');
      }
    }
    forall y | y in s'.home
      ensures HomeOK(s', y)
    {
      assert HomeOK(s, y) && SmallBinOK(s, i);
      ClearExact(s.smallmap, i, s.home[y]);
      if s.home[y] == i {
        StillThere(r, k, y);
      }
    }
  }

  lemma StillThere(r: seq<Addr>, k: nat, y: Addr)
    requires 1 <= k < |r| && y in r && y != r[k] && y != r[0]
    ensures y in r[..k] + r[k + 1..]
    ensures |r| > 2
  {
    var l :| 0 <= l < |r| && r[l] == y;
    assert (r[..k] + r[k + 1..])[if l < k then l else l - 1] == y;
  }

  /** A held chunk's bin is marked. */
  lemma HeldMarked(s: Small)
    requires SmallOK(s)
    ensures forall x :: x in HeldIn(s) ==>
      HeldIn(s)[x] % 8 == 0 && HeldIn(s)[x] / 8 < NSMALLBINS && Marked(s.smallmap, HeldIn(s)[x] / 8)
  {
    forall x | x in HeldIn(s)
      ensures HeldIn(s)[x] % 8 == 0 && HeldIn(s)[x] / 8 < NSMALLBINS && Marked(s.smallmap, HeldIn(s)[x] / 8)
    {
      assert HomeOK(s, x);
    }
  }

  class SmallBins {
    var small: Small

    ghost predicate Valid()
      reads this
    {
      SmallOK(small)
    }

    ghost function Held(): map<Addr, nat>
      reads this
    {
      HeldIn(small)
    }

    constructor ()
      ensures Valid() && Held() == map[]
    {
      small := Small(map[], map[], 0, map[], map[]);
      new;
      ZeroIffNone(0);
    }

    /** The chunk behind the header of a marked bin: the one unlink_first_small_chunk takes. */
    method First(i: nat) returns (p: Addr)
      requires Valid() && i < NSMALLBINS && Marked(small.smallmap, i)
      ensures p in Held() && Held()[p] == 8 * i
    {
      FirstOf(small, i);
      p := small.fd[Header(i)];
    }

    /** insert_small_chunk */
    method Insert(x: Addr, i: nat)
      requires Valid() && x > 0 && x !in small.home && i < NSMALLBINS
      modifies this
      ensures Valid()
      ensures Held() == old(Held())[x := 8 * i]
    {
      InsertOK(small, x, i);
      var b := Header(i);
      if !Marked(small.smallmap, i) {
        small := LinkBetween(small, b, b, x).(
          smallmap := Mark(small.smallmap, i), ring := small.ring[i := [b, x]], home := small.home[x := i]);
      } else {
        FirstOf(small, i);
        small := LinkBetween(small, b, small.fd[b], x).(
          ring := small.ring[i := [b, x] + small.ring[i][1..]], home := small.home[x := i]);
      }
    }

    /** unlink_small_chunk; unlink_first_small_chunk is the same unlinking of the chunk behind the header. */
    method Unlink(x: Addr, i: nat)
      requires Valid() && x in small.home && small.home[x] == i
      modifies this
      ensures Valid()
      ensures Held() == old(Held()) - {x}
    {
      ghost var k := Neighbours(small, x);
      UnlinkOK(small, x, k);
      var f, b := small.fd[x], small.bk[x];
      if b == f {
        small := small.(smallmap := Clear(small.smallmap, i));
      } else {
        small := small.(fd := small.fd[b := f], bk := small.bk[f := b],
                        ring := small.ring[i := small.ring[i][..k] + small.ring[i][k + 1..]]);
      }
      small := small.(home := small.home - {x});
    }
  }
}
