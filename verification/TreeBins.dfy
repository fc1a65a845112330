/** The bins of large free chunks: one bitwise tree per bin, with chunks of equal size in a ring
    of which only one stands in the tree. */
module TreeBins {
  import opened Arith
  import opened SizeClass
  import opened BinMap
  import opened Ring
  import opened TreeShape
  import opened TreeOrder

  /** Same-size rings in memory, with the ghost grouping of chunks. */
  datatype Chains = Chains(
    fd: map<Addr, Addr>, bk: map<Addr, Addr>,
    ghost chain: map<Addr, seq<Addr>>, ghost owner: map<Addr, Addr>)

  /** The ring of tree member `a` starts at `a` and every chunk in it belongs to `a`. */
  ghost predicate ChainOK(c: Chains, a: Addr)
    requires a in c.chain
  {
    && IsRing(c.fd, c.bk, c.chain[a])
    && c.chain[a][0] == a
    && forall x :: x in c.chain[a] ==> x in c.owner && c.owner[x] == a
  }

  /** A held chunk has the size of its tree member; unless it is that member it has no tree links. */
  ghost predicate HeldOK(m: Mem, c: Chains, x: Addr)
    requires x in c.owner
  {
    var o := c.owner[x];
    && x > 0
    && o in m.pos && o in c.chain && x in c.chain[o]
    && x in m.size && o in m.size && m.size[x] == m.size[o]
    && x in m.index && o in m.index && m.index[x] == m.index[o]
    && x in m.parent && (x, 0) in m.child && (x, 1) in m.child
    && (x != o ==> m.parent[x] == 0 && m.child[(x, 0)] == 0 && m.child[(x, 1)] == 0)
  }

  ghost predicate ChainsOK(m: Mem, c: Chains)
  {
    && c.chain.Keys == m.pos.Keys
    && (forall a {:trigger ChainOK(c, a)} :: a in c.chain ==> ChainOK(c, a))
    && forall x {:trigger HeldOK(m, c, x)} :: x in c.owner ==> HeldOK(m, c, x)
  }

  lemma MemberHeld(m: Mem, c: Chains, a: Addr)
    requires ChainsOK(m, c) && a in m.pos
    ensures a in c.owner && c.owner[a] == a
  {
    assert a in c.chain.Keys;
    assert ChainOK(c, a);
  }

  /** A non-member is held by another chunk's ring. */
  lemma ChainedHeld(m: Mem, c: Chains, x: Addr)
    requires ChainsOK(m, c) && x in c.owner && x !in m.pos
    ensures c.owner[x] != x
  {
    assert HeldOK(m, c, x);
  }

  // --- the effect of the link writes on the rings -------------------------------------------------

  function NewChain(c: Chains, x: Addr): Chains
  {
    Chains(c.fd[x := x], c.bk[x := x], c.chain[x := [x]], c.owner[x := x])
  }

  lemma NewChainOK(m: Mem, c: Chains, p: Pos, x: Addr, s: nat)
    requires ChainsOK(m, c) && x !in c.owner && CanAdd(m, p, x, s)
    ensures ChainsOK(AddNode(m, p, x, s), NewChain(c, x))
  {
    var m', c' := AddNode(m, p, x, s), NewChain(c, x);
    forall a | a in c'.chain
      ensures ChainOK(c', a)
    {
      NewRing(m, c, x, a);
    }
    forall y | y in c'.owner
      ensures HeldOK(m', c', y)
    {
      NewHeld(m, c, p, x, s, y);
    }
  }

  lemma NewRing(m: Mem, c: Chains, x: Addr, a: Addr)
    requires ChainsOK(m, c) && x !in c.owner && a in NewChain(c, x).chain
    ensures ChainOK(NewChain(c, x), a)
  {
    var c' := NewChain(c, x);
    if a == x {
      Singleton(c'.fd, c'.bk, x);
    } else {
      assert ChainOK(c, a);
      assert forall i :: 0 <= i < |c.chain[a]| ==> LinkedAt(c.fd, c.bk, c.chain[a], i);
      RingFields(c, a);
      Frame(c.fd, c.bk, c'.fd, c'.bk, c.chain[a]);
    }
  }

  lemma NewHeld(m: Mem, c: Chains, p: Pos, x: Addr, s: nat, y: Addr)
    requires ChainsOK(m, c) && x !in c.owner && CanAdd(m, p, x, s) && y in NewChain(c, x).owner
    ensures HeldOK(AddNode(m, p, x, s), NewChain(c, x), y)
  {
    if y != x {
      assert HeldOK(m, c, y);
      if p != Root(p.bin) {
        var t := m.node[Up(p)];
        assert NodeOK(m, t);
        MemberHeld(m, c, t);
      }
    } else {
      assert NodeOK(AddNode(m, p, x, s), x) by { AddNodeOK(m, p, x, s); }
    }
  }

  lemma RingFields(c: Chains, a: Addr)
    requires a in c.chain && ChainOK(c, a)
    ensures forall x :: x in c.chain[a] ==> x in c.fd && x in c.bk
  {
    forall x | x in c.chain[a]
      ensures x in c.fd && x in c.bk
    {
      var i :| 0 <= i < |c.chain[a]| && c.chain[a][i] == x;
      assert LinkedAt(c.fd, c.bk, c.chain[a], i);
    }
  }

  /** Memory after `x` joins the ring of tree member `t`: no tree field of another chunk changes. */
  function SetLoose(m: Mem, x: Addr, s: nat, i: nat): Mem
  {
    m.(size := m.size[x := s], parent := m.parent[x := 0],
       child := m.child[(x, 0) := 0][(x, 1) := 0], index := m.index[x := i])
  }

  lemma SetLooseOK(m: Mem, x: Addr, s: nat, i: nat)
    requires TreeOK(m) && x !in m.pos
    ensures TreeOK(SetLoose(m, x, s, i))
  {
    var m' := SetLoose(m, x, s, i);
    forall a | a in m'.pos
      ensures NodeOK(m', a)
    {
      assert NodeOK(m, a);
    }
    forall i | 0 <= i < NTREEBINS
      ensures BinOK(m', i)
    {
      assert BinOK(m, i);
    }
    forall a, b | a in m'.pos && b in m'.pos && a in m'.size && b in m'.size && m'.size[a] == m'.size[b]
      ensures a == b
    {
      assert NodeOK(m, a) && NodeOK(m, b);
    }
  }

  /** `x` is linked in behind `t`. */
  function JoinChain(c: Chains, t: Addr, x: Addr): Chains
    requires t in c.fd && t in c.chain && |c.chain[t]| > 0
  {
    Chains(FdAfterInsert(c.fd, t, x), BkAfterInsert(c.fd, c.bk, t, x),
           c.chain[t := [t, x] + c.chain[t][1..]], c.owner[x := t])
  }

  lemma JoinChainOK(m: Mem, c: Chains, t: Addr, x: Addr)
    requires TreeOK(m) && ChainsOK(m, c) && x !in c.owner && x !in m.pos && x > 0 && t in m.pos && t in m.size
    requires t in m.index
    ensures t in c.fd && t in c.chain && |c.chain[t]| > 0
    ensures ChainsOK(SetLoose(m, x, m.size[t], m.index[t]), JoinChain(c, t, x))
  {
    MemberHeld(m, c, t);
    assert t in c.chain.Keys;
    assert ChainOK(c, t);
    assert LinkedAt(c.fd, c.bk, c.chain[t], 0);
    var m', c' := SetLoose(m, x, m.size[t], m.index[t]), JoinChain(c, t, x);
    forall a | a in c'.chain
      ensures ChainOK(c', a)
    {
      JoinedChain(c, t, x, a);
    }
    forall y | y in c'.owner
      ensures HeldOK(m', c', y)
    {
      if y != x {
        assert HeldOK(m, c, y);
        assert y in c.chain[t] ==> y in c'.chain[t];
      } else {
        assert c'.chain[t][1] == x;
      }
    }
  }

  lemma JoinedChain(c: Chains, t: Addr, x: Addr, a: Addr)
    requires x !in c.owner && t in c.chain && a in c.chain
    requires ChainOK(c, t) && ChainOK(c, a)
    requires t in c.fd
    ensures ChainOK(JoinChain(c, t, x), a)
  {
    var c' := JoinChain(c, t, x);
    var r := c.chain[t];
    assert x !in r;
    if a == t {
      InsertBehindHead(c.fd, c.bk, r, x);
      assert forall y :: y in [t, x] + r[1..] ==> y == x || y in r;
    } else {
      assert LinkedAt(c.fd, c.bk, r, 0);
      assert c.fd[t] in r;
      assert t in r;
      RingFields(c, a);
      Frame(c.fd, c.bk, c'.fd, c'.bk, c.chain[a]);
    }
  }

  // --- unlinking from a ring ----------------------------------------------------------------------

  lemma IndexIn(r: seq<Addr>, x: Addr) returns (k: nat)
    requires x in r
    ensures k < |r| && r[k] == x
  {
    k :| 0 <= k < |r| && r[k] == x;
  }

  /** A chunk whose back link leaves it shares its ring with that neighbour; one linked to itself is alone. */
  lemma AloneIff(c: Chains, a: Addr, x: Addr)
    requires a in c.chain && ChainOK(c, a) && x in c.chain[a]
    ensures x in c.fd && x in c.bk
    ensures c.bk[x] in c.chain[a] && c.fd[x] in c.chain[a]
    ensures c.bk[x] == x <==> |c.chain[a]| == 1
  {
    var k := IndexIn(c.chain[a], x);
    assert LinkedAt(c.fd, c.bk, c.chain[a], k);
  }

  /** Rings after `x` is stitched out of the ring of `a`; `a'` heads what is left of it. */
  ghost function LeaveChain(c: Chains, a: Addr, x: Addr, a': Addr): Chains
    requires a in c.chain && x in c.fd && x in c.bk
  {
    var rest := Remove(c.chain[a], x);
    Chains(c.fd[c.bk[x] := c.fd[x]], c.bk[c.fd[x] := c.bk[x]],
           (c.chain - {a})[a' := Headed(rest, a')],
           map y | y in c.owner && y != x :: if c.owner[y] == a then a' else c.owner[y])
  }

  ghost function Remove(r: seq<Addr>, x: Addr): seq<Addr>
  {
    if x in r then
      var k :| 0 <= k < |r| && r[k] == x;
      r[..k] + r[k + 1..]
    else r
  }

  ghost function Headed(r: seq<Addr>, a: Addr): seq<Addr>
  {
    if a in r then
      var k :| 0 <= k < |r| && r[k] == a;
      r[k..] + r[..k]
    else r
  }

  lemma RemoveMembers(r: seq<Addr>, x: Addr, y: Addr)
    requires Distinct(r)
    ensures y in Remove(r, x) <==> y in r && y != x
  {
    if x in r {
      var k :| 0 <= k < |r| && r[k] == x && Remove(r, x) == r[..k] + r[k + 1..];
      if y in r && y != x {
        var j := IndexIn(r, y);
        assert (r[..k] + r[k + 1..])[if j < k then j else j - 1] == y;
      }
    }
  }

  lemma HeadedMembers(r: seq<Addr>, a: Addr, y: Addr)
    requires a in r
    ensures Headed(r, a) != [] && Headed(r, a)[0] == a
    ensures y in Headed(r, a) <==> y in r
  {
    var k :| 0 <= k < |r| && r[k] == a && Headed(r, a) == r[k..] + r[..k];
    assert r == r[..k] + r[k..];
  }

  lemma LeftChain(c: Chains, a: Addr, x: Addr, a': Addr)
    requires a in c.chain && ChainOK(c, a)
    requires x in c.chain[a] && |c.chain[a]| >= 2 && a' in c.chain[a] && a' != x
    requires x in c.fd && x in c.bk
    ensures ChainOK(LeaveChain(c, a, x, a'), a')
  {
    var c' := LeaveChain(c, a, x, a');
    var r := c.chain[a];
    var k :| 0 <= k < |r| && r[k] == x && Remove(r, x) == r[..k] + r[k + 1..];
    Unlink(c.fd, c.bk, r, k);
    var rest := Remove(r, x);
    RemoveMembers(r, x, a');
    var h :| 0 <= h < |rest| && rest[h] == a' && Headed(rest, a') == rest[h..] + rest[..h];
    Rotate(c'.fd, c'.bk, rest, h);
    forall y | y in c'.chain[a']
      ensures y in c'.owner && c'.owner[y] == a'
    {
      HeadedMembers(rest, a', y);
      RemoveMembers(r, x, y);
    }
  }

  lemma OtherChain(c: Chains, a: Addr, x: Addr, a': Addr, b: Addr)
    requires a in c.chain && ChainOK(c, a) && x in c.chain[a] && a' in c.chain[a]
    requires b in c.chain && ChainOK(c, b) && b != a
    requires x in c.fd && x in c.bk
    ensures a' != b
    ensures ChainOK(LeaveChain(c, a, x, a'), b)
  {
    var c' := LeaveChain(c, a, x, a');
    AloneIff(c, a, x);
    RingFields(c, b);
    assert b in c.chain[b];
    Frame(c.fd, c.bk, c'.fd, c'.bk, c.chain[b]);
  }

  /** A loose chunk leaves: the trees stay as they are. */
  lemma LeaveLooseOK(m: Mem, c: Chains, x: Addr)
    requires TreeOK(m) && ChainsOK(m, c) && x in c.owner && x !in m.pos
    ensures x in c.fd && x in c.bk && c.bk[x] != x && c.owner[x] in c.chain
    ensures ChainsOK(m, LeaveChain(c, c.owner[x], x, c.owner[x]))
  {
    var o := c.owner[x];
    assert HeldOK(m, c, x);
    ChainedHeld(m, c, x);
    assert ChainOK(c, o);
    AloneIff(c, o, x);
    assert o in c.chain[o];
    var c' := LeaveChain(c, o, x, o);
    forall b | b in c'.chain
      ensures ChainOK(c', b)
    {
      if b == o {
        LeftChain(c, o, x, o);
      } else {
        assert ChainOK(c, b);
        OtherChain(c, o, x, o, b);
      }
    }
    forall y | y in c'.owner
      ensures HeldOK(m, c', y)
    {
      assert HeldOK(m, c, y);
      if c.owner[y] == o {
        RemoveMembers(c.chain[o], x, o);
        RemoveMembers(c.chain[o], x, y);
        HeadedMembers(Remove(c.chain[o], x), o, y);
      }
    }
  }

  /** The back neighbour of a member that is not alone may take the member's place in the tree. */
  lemma NeighbourCanReplace(m: Mem, c: Chains, x: Addr)
    requires TreeOK(m) && ChainsOK(m, c) && x in m.pos
    ensures x in c.fd && x in c.bk && x in c.chain && ChainOK(c, x) && x in c.chain[x]
    ensures c.bk[x] in c.chain[x] && c.fd[x] in c.chain[x]
    ensures c.bk[x] == x <==> |c.chain[x]| == 1
    ensures c.bk[x] != x ==> CanReplace(m, x, c.bk[x])
  {
    assert x in c.chain.Keys;
    assert ChainOK(c, x);
    assert x in c.chain[x];
    AloneIff(c, x, x);
    var r := c.bk[x];
    if r != x {
      assert HeldOK(m, c, r);
      if r in m.pos {
        MemberHeld(m, c, r);
      }
      assert NodeOK(m, x);
      forall a | a in m.pos && a in m.size && a != x
        ensures m.size[a] != m.size[r]
      {
        assert NodeOK(m, a);
      }
    }
  }

  lemma LeaveMemberOK(m: Mem, c: Chains, x: Addr)
    requires TreeOK(m) && ChainsOK(m, c) && x in m.pos
    requires x in c.fd && x in c.bk && c.bk[x] != x
    ensures CanReplace(m, x, c.bk[x]) && x in c.chain
    ensures ChainsOK(ReplaceNode(m, x, c.bk[x]), LeaveChain(c, x, x, c.bk[x]))
  {
    NeighbourCanReplace(m, c, x);
    var r := c.bk[x];
    var m', c' := ReplaceNode(m, x, r), LeaveChain(c, x, x, r);
    forall b | b in c'.chain
      ensures ChainOK(c', b)
    {
      if b == r {
        LeftChain(c, x, x, r);
      } else {
        assert ChainOK(c, b);
        OtherChain(c, x, x, r, b);
      }
    }
    forall y | y in c'.owner
      ensures HeldOK(m', c', y)
    {
      LeaveMemberHeld(m, c, x, y);
    }
  }

  lemma LeaveMemberHeld(m: Mem, c: Chains, x: Addr, y: Addr)
    requires TreeOK(m) && ChainsOK(m, c) && x in m.pos && x in c.chain && ChainOK(c, x)
    requires x in c.fd && x in c.bk && c.bk[x] != x && c.bk[x] in c.chain[x]
    requires CanReplace(m, x, c.bk[x])
    requires y in c.owner && y != x
    ensures HeldOK(ReplaceNode(m, x, c.bk[x]), LeaveChain(c, x, x, c.bk[x]), y)
  {
    var r := c.bk[x];
    assert HeldOK(m, c, y) && HeldOK(m, c, r);
    assert NodeOK(m, x);
    ReplaceKeepsLoose(m, c, x, r, y);
    if c.owner[y] == x {
      RemoveMembers(c.chain[x], x, r);
      RemoveMembers(c.chain[x], x, y);
      HeadedMembers(Remove(c.chain[x], x), r, y);
    } else {
      assert ChainOK(c, c.owner[y]);
      if c.owner[y] == r {
        MemberHeld(m, c, r);
      }
    }
  }

  /** Replacing a member writes tree links of members and of the newcomer only. */
  lemma ReplaceKeepsLoose(m: Mem, c: Chains, x: Addr, r: Addr, y: Addr)
    requires ChainsOK(m, c) && CanReplace(m, x, r)
    requires y in c.owner
    ensures var m' := ReplaceNode(m, x, r);
            && m'.size == m.size && m'.index == m.index
            && (y in m.parent ==> y in m'.parent) && ((y, 0) in m.child ==> (y, 0) in m'.child)
            && ((y, 1) in m.child ==> (y, 1) in m'.child)
            && (y !in m.pos && y != r && y in m.parent && (y, 0) in m.child && (y, 1) in m.child ==>
                  m'.parent[y] == m.parent[y] && m'.child[(y, 0)] == m.child[(y, 0)] && m'.child[(y, 1)] ==
                      m.child[(y, 1)])
  {
    assert NodeOK(m, x);
    KidsDiffer(m, x, r);
    var p := m.pos[x];
    if p != Root(p.bin) {
      assert NodeOK(m, m.node[Up(p)]);
    }
    var c0, c1 := m.child[(x, 0)], m.child[(x, 1)];
    assert c0 == 0 || c0 in m.pos;
    assert c1 == 0 || c1 in m.pos;
  }

  function DropChain(c: Chains, x: Addr): Chains
  {
    c.(chain := c.chain - {x}, owner := c.owner - {x})
  }

  lemma DropChainOK(m: Mem, c: Chains, x: Addr, m': Mem)
    requires TreeOK(m) && ChainsOK(m, c) && x in m.pos && x in c.chain && |c.chain[x]| == 1
    requires m'.pos.Keys == m.pos.Keys - {x} && m'.size == m.size && m'.index == m.index
    requires m.parent.Keys <= m'.parent.Keys && m.child.Keys <= m'.child.Keys
    requires forall y :: y in c.owner && y !in m.pos && y in m.parent ==> m'.parent[y] == m.parent[y]
    requires forall y, b {:trigger (y, b) in m.child} :: y in c.owner && y !in m.pos && (y, b) in m.child ==>
        m'.child[(y, b)] == m.child[(y, b)]
    ensures ChainsOK(m', DropChain(c, x))
  {
    var c' := DropChain(c, x);
    assert ChainOK(c, x);
    assert c.chain[x] == [x];
    forall b | b in c'.chain
      ensures ChainOK(c', b)
    {
      assert ChainOK(c, b);
    }
    forall y | y in c'.owner
      ensures HeldOK(m', c', y)
    {
      assert HeldOK(m, c, y);
      if y in m.pos {
        MemberHeld(m, c, y);
      }
    }
  }

  /** The slot of a member's parent that leads to the member. */
  lemma SlotOf(m: Mem, x: Addr)
    requires TreeOK(m) && x in m.pos
    ensures NodeOK(m, x)
    ensures var p := m.pos[x];
            if p == Root(p.bin) then m.treebins[p.bin] == x
            else
              var t := m.parent[x];
              && t in m.pos && NodeOK(m, t) && m.pos[t] == Up(p)
              && m.treebins[p.bin] != x
              && (m.child[(t, 0)] == x <==> p.q % 2 == 0)
              && (m.child[(t, 1)] == x <==> p.q % 2 == 1)
  {
    assert NodeOK(m, x);
    var p := m.pos[x];
    assert BinOK(m, p.bin);
    if p != Root(p.bin) {
      var t := m.node[Up(p)];
      assert NodeOK(m, t);
      KidOfUp(p, Up(p), p.q % 2);
      assert Kid(Up(p), 1 - p.q % 2) != p;
    }
  }

  // --- the pointer writes of unlink_large_chunk ----------------------------------------------------

  /** Step 3, first half: the bin or the parent slot that leads to `x` leads to `r` (0 when there is none). */
  function Redirect(m: Mem, x: Addr, xp: Addr, r: Addr): Mem
    requires x in m.index && m.index[x] < NTREEBINS == |m.treebins|
    requires x != m.treebins[m.index[x]] ==> (xp, 0) in m.child
  {
    var h := m.index[x];
    if x == m.treebins[h] then
      m.(treebins := m.treebins[h := r], treemap := if r == 0 then Clear(m.treemap, h) else m.treemap)
    else if m.child[(xp, 0)] == x then m.(child := m.child[(xp, 0) := r])
    else m.(child := m.child[(xp, 1) := r])
  }

  /** Step 3, second half: `r` takes over the parent and the kids of `x`. */
  function TakeOver(m: Mem, x: Addr, xp: Addr, r: Addr): Mem
    requires (x, 0) in m.child && (x, 1) in m.child
  {
    var c0, c1 := m.child[(x, 0)], m.child[(x, 1)];
    m.(child := TakeKid(TakeKid(m.child, r, 0, c0), r, 1, c1), parent := Adopt(m.parent[r := xp], r, c0, c1))
  }

  function TakeKid(child: map<(Addr, nat), Addr>, r: Addr, b: nat, c: Addr): map<(Addr, nat), Addr>
  {
    if c != 0 then child[(r, b) := c] else child
  }

  lemma TakeKidSame(child: map<(Addr, nat), Addr>, r: Addr, b: nat, c: Addr)
    requires (r, b) in child && child[(r, b)] == 0
    ensures TakeKid(child, r, b, c) == child[(r, b) := c]
  {
  }

  lemma DetachWrites(m: Mem, x: Addr)
    requires TreeOK(m) && x in m.pos && IsLeaf(m, x)
    ensures NodeOK(m, x) && (x != m.treebins[m.index[x]] ==> (m.parent[x], 0) in m.child)
    ensures DetachLeaf(m, x) == Redirect(m, x, m.parent[x], 0).(node := m.node - {m.pos[x]}, pos := m.pos - {x})
  {
    SlotOf(m, x);
  }

  lemma RedirectWrites(m: Mem, x: Addr, r: Addr)
    requires TreeOK(m) && x in m.pos && r != 0
    ensures NodeOK(m, x) && (x != m.treebins[m.index[x]] ==> (m.parent[x], 0) in m.child)
    ensures var p := m.pos[x];
            Redirect(m, x, m.parent[x], r) ==
            m.(treebins := if p == Root(p.bin) then m.treebins[p.bin := r] else m.treebins,
               child := if p == Root(p.bin) then m.child else m.child[(m.parent[x], p.q % 2) := r])
  {
    SlotOf(m, x);
  }

  lemma ReplaceWrites(m: Mem, x: Addr, r: Addr)
    requires CanReplace(m, x, r)
    ensures NodeOK(m, x) && (x != m.treebins[m.index[x]] ==> (m.parent[x], 0) in m.child)
    ensures var m1 := Redirect(m, x, m.parent[x], r);
            && (x, 0) in m1.child && (x, 1) in m1.child
            && ReplaceNode(m, x, r) ==
               TakeOver(m1, x, m.parent[x], r).(node := m.node[m.pos[x] := r], pos := (m.pos - {x})[r := m.pos[x]])
  {
    RedirectWrites(m, x, r);
    SlotOf(m, x);
    var p, t := m.pos[x], m.parent[x];
    var m1 := Redirect(m, x, t, r);
    var c0, c1 := m.child[(x, 0)], m.child[(x, 1)];
    assert t != x && t != r;
    assert m1.child[(x, 0)] == c0 && m1.child[(x, 1)] == c1;
    TakeKidSame(m1.child, r, 0, c0);
    TakeKidSame(m1.child[(r, 0) := c0], r, 1, c1);
  }

  /** The chunks in the bins, with their sizes. */
  ghost function HeldIn(m: Mem, c: Chains): map<Addr, nat>
  {
    map x | x in c.owner && x in m.size :: m.size[x]
  }

  lemma HeldAfterInsert(m: Mem, c: Chains, m': Mem, c': Chains, x: Addr, s: nat)
    requires m'.size == m.size[x := s] && c'.owner.Keys == c.owner.Keys + {x} && x !in c.owner
    ensures HeldIn(m', c') == HeldIn(m, c)[x := s]
  {
  }

  lemma HeldAfterUnlink(m: Mem, c: Chains, m': Mem, c': Chains, x: Addr)
    requires m'.size == m.size && c'.owner.Keys == c.owner.Keys - {x}
    ensures HeldIn(m', c') == HeldIn(m, c) - {x}
  {
  }

  class TreeBins {
    /** Sizes, tree links and bin heads. */
    var mem: Mem
    /** The links between chunks of equal size. */
    var links: Chains

    ghost predicate Valid()
      reads this
    {
      TreeOK(mem) && ChainsOK(mem, links)
    }

    /** The chunks in the bins, with their sizes. */
    ghost function Held(): map<Addr, nat>
      reads this
    {
      HeldIn(mem, links)
    }

    constructor ()
      ensures Valid() && Held() == map[]
    {
      mem := Mem(map[], map[], map[], map[], seq(NTREEBINS, i => 0), 0, map[], map[]);
      links := Chains(map[], map[], map[], map[]);
      new;
      forall i | 0 <= i < NTREEBINS
        ensures BinOK(mem, i)
      {
        ZeroIffNone(0);
      }
    }

    /** The walk of insert_large_chunk down a non-empty bin: it ends at a member of the wanted size, or at
        one whose slot for the next bit of the size is empty. */
    method Descend(s: nat) returns (t: Addr, c: nat, ghost p: Pos)
      requires Valid() && LargeSize(s) && TreeIndex(s) < NTREEBINS && Marked(mem.treemap, TreeIndex(s))
      ensures p in mem.node && mem.node[p] == t && t in mem.size && Fits(s, p)
      ensures mem.size[t] != s ==> p.e > 0 && c < 2 && (t, c) in mem.child && mem.child[(t, c)] == 0
      ensures mem.size[t] != s ==>
        && Fits(s, Kid(p, c)) && Kid(p, c) !in mem.node && InRange(Kid(p, c)) && Kid(p, c) != Root(p.bin)
      ensures mem.size[t] != s ==> forall a :: a in mem.pos && a in mem.size ==> mem.size[a] != s
    {
      var i := TreeIndex(s);
      assert BinOK(mem, i);
      t, c := mem.treebins[i], 0;
      var k := (s * Pow2(LeftShift(i))) % WORD;
      p := Root(i);
      RootShared(s);
      BelowRoot(mem, i, s);
      assert NodeOK(mem, t);
      while mem.size[t] != s
        invariant p in mem.node && mem.node[p] == t && p.bin == i && NodeOK(mem, t) && Fits(s, p)
        invariant RootBits(i) <= 32 && k == SizeBits(s, p.e)
        invariant forall a :: a in mem.pos && a in mem.size && mem.size[a] == s ==> mem.pos[a].e <= p.e
        decreases p.e
      {
        if p.e == 0 {
          FitsExact(s, mem.size[t], p);
        }
        c := k / 0x8000_0000;
        KidFits(s, p);
        SizeBitsStep(s, p.e);
        k := (k * 2) % WORD;
        PassBy(mem, p, t, s);
        if mem.child[(t, c)] == 0 {
          KidFree(mem, p, t, s, c);
          NoneOfSize(mem, Kid(p, c), s);
          break;
        }
        t, p := mem.child[(t, c)], Kid(p, c);
        assert NodeOK(mem, t);
      }
    }

    /** insert_large_chunk */
    method Insert(x: Addr, s: nat)
      requires Valid() && x > 0 && x !in links.owner && LargeSize(s)
      modifies this
      ensures Valid()
      ensures Held() == old(Held())[x := s]
    {
      ghost var m0, c0 := mem, links;
      NotMember(mem, links, x);
      var i := TreeIndex(s);
      BinRange(s);
      if !Marked(mem.treemap, i) {
        NewRootOK(mem, links, x, s, i);
        mem := RootMem(mem, x, s, i);
        links := NewChain(links, x);
      } else {
        InsertBelow(x, s, i);
      }
      HeldAfterInsert(m0, c0, mem, links, x, s);
    }

    /** The part of insert_large_chunk for a bin that is not empty. */
    method InsertBelow(x: Addr, s: nat, i: nat)
      requires Valid() && x > 0 && x !in links.owner && x !in mem.pos && LargeSize(s)
      requires i == TreeIndex(s) < NTREEBINS && Marked(mem.treemap, i)
      modifies this
      ensures Valid()
      ensures mem.size == old(mem.size)[x := s] && links.owner.Keys == old(links.owner.Keys) + {x}
    {
      var t, c;
      ghost var p;
      t, c, p := Descend(s);
      assert NodeOK(mem, t);
      if mem.size[t] != s {
        NewKidOK(mem, links, p, c, x, s);
        mem := LeafMem(mem, x, s, i, t, c, p);
        links := NewChain(links, x);
      } else {
        JoinChainOK(mem, links, t, x);
        SetLooseOK(mem, x, s, i);
        mem := SetLoose(mem, x, s, i);
        links := JoinChain(links, t, x);
      }
    }

    /** The second loop of tmalloc_large and the loop of tmalloc_small: the smallest large-enough size is
        met on the leftmost path. */
    method SearchLeftmost(nb: nat, v0: Addr, rsize0: nat, t0: Addr) returns (v: Addr, rsize: nat)
      requires Valid() && 0 < nb < WORD && RemainderOf(mem, nb, v0, rsize0)
      requires t0 != 0 ==> t0 in mem.pos && AllLarge(mem, nb, v0, t0)
      requires Covered(mem, nb, v0, t0)
      ensures RemainderOf(mem, nb, v, rsize) && Covered(mem, nb, v, 0)
    {
      var t := t0;
      v, rsize := v0, rsize0;
      while t != 0
        invariant RemainderOf(mem, nb, v, rsize)
        invariant t != 0 ==> t in mem.pos && AllLarge(mem, nb, v, t)
        invariant Covered(mem, nb, v, t)
        decreases if t != 0 && t in mem.pos then mem.pos[t].e + 1 else 0
      {
        assert NodeOK(mem, t);
        ghost var v1, rsize1 := v, rsize;
        var trem := Minus(mem.size[t], nb);
        if trem < rsize {
          rsize, v := trem, t;
        }
        Compared(mem, nb, v1, rsize1, t, v, rsize);
        LeftmostCovers(mem, nb, v1, v, t);
        LeftmostInside(mem, t);
        t := LeftmostChild(mem.child, t);
      }
    }

    /** The first loop of tmalloc_large: down the path of `nb` in its own bin. */
    method SearchPath(nb: nat) returns (v: Addr, rsize: nat, t: Addr)
      requires Valid() && LargeSize(nb) && TreeIndex(nb) < NTREEBINS && mem.treebins[TreeIndex(nb)] != 0
      ensures RemainderOf(mem, nb, v, rsize)
      ensures t != 0 ==> t in mem.pos && AllLarge(mem, nb, v, t)
      ensures v != 0 || t != 0 ==> Covered(mem, nb, v, t)
      ensures v == 0 && t == 0 ==> forall a :: a in mem.pos && a in mem.size && mem.size[a] >= nb ==>
          mem.pos[a].bin > TreeIndex(nb)
    {
      var idx := TreeIndex(nb);
      assert BinOK(mem, idx);
      v, rsize, t := 0, WORD - nb, mem.treebins[idx];
      var sizebits := (nb * Pow2(LeftShift(idx))) % WORD;
      var rst := 0;
      ghost var p := Root(idx);
      RootShared(nb);
      RootCovered(mem, nb, idx);
      while true
        invariant t in mem.pos && mem.pos[t] == p && p.bin == idx && Fits(nb, p) && p.e <= RootBits(idx) <= 32
        invariant sizebits == SizeBits(nb, p.e)
        invariant rsize > 0 && RemainderOf(mem, nb, v, rsize) && (v != 0 ==> mem.pos[v].bin == idx)
        invariant PathCovered(mem, nb, v, rst, p) && RightOf(mem, rst, p)
        decreases p.e
      {
        assert NodeOK(mem, t);
        ghost var v1, rsize1 := v, rsize;
        var trem := Minus(mem.size[t], nb);
        if trem < rsize {
          v, rsize := t, trem;
          if rsize == 0 {
            ExactCovers(mem, nb, v);
            return;
          }
        }
        PathTurn(mem, nb, v1, rsize1, t, v, rsize, rst, sizebits);
        var b := sizebits / 0x8000_0000;
        var rt := mem.child[(t, 1)];
        t := mem.child[(t, b)];
        if rt != 0 && rt != t {
          rst := rt;
        }
        p := Kid(p, b);
        if t == 0 {
          t := rst;
          PathStops(mem, nb, p, v, rst);
          return;
        }
        sizebits := (sizebits * 2) % WORD;
      }
    }

    /** The search of tmalloc_large: the smallest held chunk of at least `nb` bytes, over all bins. */
    method FindBestFit(nb: nat) returns (v: Addr, rsize: nat)
      requires Valid() && LargeSize(nb)
      ensures v == 0 ==> rsize + nb == WORD && forall x :: x in Held() ==> Held()[x] < nb
      ensures v != 0 ==> v in Held() && Held()[v] == nb + rsize
      ensures v != 0 ==> forall x :: x in Held() && Held()[x] >= nb ==> Held()[v] <= Held()[x]
    {
      var idx := TreeIndex(nb);
      BinRange(nb);
      var t;
      v, rsize, t := 0, WORD - nb, mem.treebins[idx];
      if t != 0 {
        v, rsize, t := SearchPath(nb);
      } else {
        EmptyBin(mem, nb, idx);
      }
      if t == 0 && v == 0 {
        var i := NextMarked(mem.treemap, idx);
        if i < NTREEBINS {
          NextBinCovers(mem, nb, idx, i);
          t := mem.treebins[i];
        } else {
          NoBinAbove(mem, nb, idx);
        }
      }
      v, rsize := SearchLeftmost(nb, v, rsize, t);
      FromMembers(mem, links, nb, v);
    }

    /** The search of tmalloc_small: the smallest held chunk, found in the lowest marked bin. */
    method FindSmallest(nb: nat) returns (v: Addr, rsize: nat)
      requires Valid() && 0 < nb < MIN_LARGE_SIZE && mem.treemap != 0
      ensures v in Held() && Held()[v] == nb + rsize
      ensures forall x :: x in Held() ==> Held()[v] <= Held()[x]
    {
      var i := LeastMarked(mem.treemap);
      LowestBinCovers(mem, nb, i);
      var t := mem.treebins[i];
      v, rsize := t, Minus(mem.size[t], nb);
      LeftmostCovers(mem, nb, v, v, t);
      LeftmostInside(mem, t);
      v, rsize := SearchLeftmost(nb, v, rsize, LeftmostChild(mem.child, t));
      FromMembers(mem, links, nb, v);
      HeldLarge(mem, links);
    }

    /** Step 2 of unlink_large_chunk: the rightmost leaf below `x`, with the slot that leads to it;
        0 when `x` is itself a leaf. */
    method RightmostLeaf(x: Addr) returns (r: Addr, rp: (Addr, nat))
      requires Valid() && x in mem.pos
      ensures r == 0 ==> IsLeaf(mem, x)
      ensures r != 0 ==> r in mem.pos && r != x && IsLeaf(mem, r) && IsSlotOf(mem, r, rp)
      ensures r != 0 ==> NodeOK(mem, r) && Fits(mem.size[r], mem.pos[x])
    {
      assert NodeOK(mem, x);
      r, rp := mem.child[(x, 1)], (x, 1);
      if r == 0 {
        r, rp := mem.child[(x, 0)], (x, 0);
      }
      if r == 0 {
        return;
      }
      ghost var top := mem.pos[x];
      UnderSelf(top);
      KidStep(mem, x, rp.1, top);
      while mem.child[(r, 1)] != 0 || mem.child[(r, 0)] != 0
        invariant r in mem.pos && NodeOK(mem, r) && IsSlotOf(mem, r, rp)
        invariant mem.pos[r].e < top.e && Under(mem.pos[r], top)
        decreases mem.pos[r].e
      {
        rp := if mem.child[(r, 1)] != 0 then (r, 1) else (r, 0);
        KidStep(mem, r, rp.1, top);
        r := mem.child[rp];
      }
      UnderFits(mem.size[r], mem.pos[r], top);
    }

    /** Step 3 of unlink_large_chunk: `r`, or nothing, takes the place of member `x`. */
    method Supplant(x: Addr, xp: Addr, r: Addr)
      requires TreeOK(mem) && x in mem.pos && NodeOK(mem, x) && xp == mem.parent[x]
      requires if r == 0 then IsLeaf(mem, x) else CanReplace(mem, x, r)
      modifies this`mem
      ensures mem == old(if r == 0 then DetachLeaf(mem, x) else ReplaceNode(mem, x, r))
    {
      ghost var p := mem.pos[x];
      if r == 0 {
        DetachWrites(mem, x);
        mem := Redirect(mem, x, xp, r);
        mem := mem.(node := mem.node - {p}, pos := mem.pos - {x});
      } else {
        ReplaceWrites(mem, x, r);
        mem := Redirect(mem, x, xp, r);
        mem := TakeOver(mem, x, xp, r);
        mem := mem.(node := mem.node[p := r], pos := (mem.pos - {x})[r := p]);
      }
    }

    /** unlink_large_chunk */
    method Unlink(x: Addr)
      requires Valid() && x in links.owner
      modifies this
      ensures Valid()
      ensures Held() == old(Held()) - {x}
    {
      ghost var m0, c0 := mem, links;
      assert HeldOK(mem, links, x);
      ParentIffMember(mem, links, x);
      assert ChainOK(links, links.owner[x]);
      AloneIff(links, links.owner[x], x);
      var xp := mem.parent[x];
      var r;
      if links.bk[x] != x {
        var f := links.fd[x];
        r := links.bk[x];
        if xp != 0 {
          LeaveMemberOK(mem, links, x);
          ReplaceNodeOK(mem, x, r);
        } else {
          LeaveLooseOK(mem, links, x);
        }
        links := Chains(links.fd[r := f], links.bk[f := r], StitchedChain(links, x, r), StitchedOwner(links, x, r));
      } else {
        var rp;
        MemberAlone(mem, links, x);
        r, rp := RightmostLeaf(x);
        if r != 0 {
          PromoteLeafOK(mem, links, x, r, rp);
          mem := mem.(child := mem.child[rp := 0], node := mem.node - {mem.pos[r]}, pos := mem.pos - {r});
        } else {
          DropLeafOK(mem, links, x);
        }
        links := DropChain(links, x);
      }
      if xp != 0 {
        Supplant(x, xp, r);
      }
      HeldAfterUnlink(m0, c0, mem, links, x);
    }
  }

  /** `a - b` on size_t words. */
  function Minus(a: nat, b: nat): nat
    requires a < WORD && b < WORD
  {
    if a >= b then a - b else a + WORD - b
  }

  /** The remainder of the best choice so far: that of `v`, or the unsigned negation of `nb` when there is none. */
  ghost predicate RemainderOf(m: Mem, nb: nat, v: Addr, rsize: nat)
  {
    if v == 0 then rsize + nb == WORD
    else v in m.pos && NodeOK(m, v) && m.size[v] == nb + rsize
  }

  /** One comparison of the search: after it the choice is no larger than `t`, if `t` is large enough. */
  lemma Compared(m: Mem, nb: nat, v: Addr, rsize: nat, t: Addr, v': Addr, rsize': nat)
    requires 0 < nb < WORD && RemainderOf(m, nb, v, rsize) && t in m.pos && NodeOK(m, t)
    requires var trem := Minus(m.size[t], nb);
             if trem < rsize then v' == t && rsize' == trem else v' == v && rsize' == rsize
    ensures RemainderOf(m, nb, v', rsize')
    ensures m.size[t] >= nb ==> Settled(m, v', t)
    ensures forall a :: Settled(m, v, a) ==> Settled(m, v', a)
    ensures v' == v || (v' == t && m.size[t] >= nb)
    ensures rsize == 0 ==> v' == v
  {
  }

  /** One turn of the walk down the path of `nb`, after the comparison with `t`: which kid it takes, and that the
      choice, the remembered subtree and the kid's subtree cover the bin again. */
  lemma PathTurn(m: Mem, nb: nat, v: Addr, rsize: nat, t: Addr, v': Addr, rsize': nat, rst: Addr, sizebits: nat)
    requires TreeOK(m) && 0 < nb < WORD && t in m.pos && NodeOK(m, t) && m.pos[t].e <= 32
    requires Fits(nb, m.pos[t]) && sizebits == SizeBits(nb, m.pos[t].e)
    requires RemainderOf(m, nb, v, rsize) && (v != 0 ==> m.pos[v].bin == m.pos[t].bin)
    requires PathCovered(m, nb, v, rst, m.pos[t]) && RightOf(m, rst, m.pos[t]) && rsize' > 0
    requires var trem := Minus(m.size[t], nb);
      if trem < rsize then v' == t && rsize' == trem else v' == v && rsize' == rsize
    ensures RemainderOf(m, nb, v', rsize') && (v' != 0 ==> m.pos[v'].bin == m.pos[t].bin)
    ensures m.pos[t].e > 0
    ensures var b := sizebits / 0x8000_0000;
      && b < 2 && (t, 1) in m.child && (t, b) in m.child && Fits(nb, Kid(m.pos[t], b))
      && PathCovered(m, nb, v', NextRst(m, t, b, rst), Kid(m.pos[t], b))
      && RightOf(m, NextRst(m, t, b, rst), Kid(m.pos[t], b))
      && var u := m.child[(t, b)];
         if u == 0 then Kid(m.pos[t], b) !in m.node else u in m.pos && m.pos[u] == Kid(m.pos[t], b) && NodeOK(m, u)
    ensures (sizebits * 2) % WORD == SizeBits(nb, m.pos[t].e - 1)
  {
    var p, b := m.pos[t], sizebits / 0x8000_0000;
    Compared(m, nb, v, rsize, t, v', rsize');
    if p.e == 0 {
      FitsExact(nb, m.size[t], p);
    }
    KidFits(nb, p);
    SizeBitsStep(nb, p.e);
    PathSteps(m, nb, v, v', rst, t, b);
    RightOfStep(m, rst, t, b);
    PathDown(m, t, b);
  }

  /** A held chunk's bin is marked. */
  lemma MarkedWhenHeld(m: Mem, c: Chains, x: Addr)
    requires TreeOK(m) && ChainsOK(m, c) && x in c.owner
    ensures x in m.size && TreeIndex(m.size[x]) < NTREEBINS && Marked(m.treemap, TreeIndex(m.size[x]))
  {
    assert HeldOK(m, c, x);
    BinOfMember(m, c.owner[x]);
  }

  /** Only large sizes are held. */
  lemma HeldLarge(m: Mem, c: Chains)
    requires TreeOK(m) && ChainsOK(m, c)
    ensures forall x :: x in HeldIn(m, c) ==> LargeSize(HeldIn(m, c)[x])
  {
    forall x | x in HeldIn(m, c)
      ensures LargeSize(HeldIn(m, c)[x])
    {
      assert HeldOK(m, c, x);
      assert NodeOK(m, c.owner[x]);
    }
  }

  lemma FromMembers(m: Mem, c: Chains, nb: nat, v: Addr)
    requires TreeOK(m) && ChainsOK(m, c) && Covered(m, nb, v, 0) && (v == 0 || v in m.pos)
    ensures v == 0 ==> forall x :: x in HeldIn(m, c) ==> HeldIn(m, c)[x] < nb
    ensures v != 0 ==> v in HeldIn(m, c) && HeldIn(m, c)[v] == m.size[v]
    ensures v != 0 ==> forall x :: x in HeldIn(m, c) && HeldIn(m, c)[x] >= nb ==> m.size[v] <= HeldIn(m, c)[x]
  {
    if v != 0 {
      MemberHeld(m, c, v);
      assert HeldOK(m, c, v);
    }
    forall x | x in HeldIn(m, c) && HeldIn(m, c)[x] >= nb
      ensures v != 0 && m.size[v] <= HeldIn(m, c)[x]
    {
      assert HeldOK(m, c, x);
      assert Settled(m, v, c.owner[x]);
    }
  }

  /** The address `rp` is the child slot that leads to `r`. */
  ghost predicate IsSlotOf(m: Mem, r: Addr, rp: (Addr, nat))
    requires r in m.pos
  {
    var p := m.pos[r];
    p != Root(p.bin) && r in m.parent && rp == (m.parent[r], p.q % 2)
  }

  lemma KidStep(m: Mem, t: Addr, b: nat, top: Pos)
    requires TreeOK(m) && t in m.pos && b < 2 && NodeOK(m, t) && m.child[(t, b)] != 0
    requires Under(m.pos[t], top)
    ensures var k := m.child[(t, b)];
            && k in m.pos && NodeOK(m, k) && k != t && IsSlotOf(m, k, (t, b)) && m.pos[k].e < m.pos[t].e
            && Under(m.pos[k], top)
  {
    var p := m.pos[t];
    var k := m.child[(t, b)];
    assert NodeOK(m, k);
    KidUp(p, b);
    UpKid(Kid(p, b), p, b);
    UnderKid(p, top, b);
    assert p.e <= RootBits(p.bin);
  }

  lemma ParentIffMember(m: Mem, c: Chains, x: Addr)
    requires TreeOK(m) && ChainsOK(m, c) && x in c.owner
    ensures HeldOK(m, c, x)
    ensures m.parent[x] != 0 <==> x in m.pos
    ensures x in m.pos ==> c.owner[x] == x
  {
    assert HeldOK(m, c, x);
    if x in m.pos {
      MemberHeld(m, c, x);
      assert NodeOK(m, x);
      if m.pos[x] != Root(m.pos[x].bin) {
        Occupied(m, Up(m.pos[x]));
      }
    } else {
      ChainedHeld(m, c, x);
    }
  }

  /** A chunk linked to itself is a member, alone in its ring. */
  lemma MemberAlone(m: Mem, c: Chains, x: Addr)
    requires TreeOK(m) && ChainsOK(m, c) && x in c.owner && x in c.bk && c.bk[x] == x
    ensures x in m.pos && x in c.chain && |c.chain[x]| == 1
  {
    assert HeldOK(m, c, x);
    var o := c.owner[x];
    assert ChainOK(c, o);
    AloneIff(c, o, x);
    assert c.chain[o] == [x];
    assert o in c.chain.Keys;
  }

  ghost function StitchedChain(c: Chains, x: Addr, r: Addr): map<Addr, seq<Addr>>
    requires x in c.owner && c.owner[x] in c.chain && x in c.fd && x in c.bk
  {
    var o := c.owner[x];
    LeaveChain(c, o, x, if o == x then r else o).chain
  }

  ghost function StitchedOwner(c: Chains, x: Addr, r: Addr): map<Addr, Addr>
    requires x in c.owner && c.owner[x] in c.chain && x in c.fd && x in c.bk
  {
    var o := c.owner[x];
    LeaveChain(c, o, x, if o == x then r else o).owner
  }

  /** Taking out a leaf that is alone in its ring. */
  lemma DropLeafOK(m: Mem, c: Chains, x: Addr)
    requires TreeOK(m) && ChainsOK(m, c) && x in m.pos && x in c.chain && |c.chain[x]| == 1 && IsLeaf(m, x)
    ensures TreeOK(DetachLeaf(m, x)) && ChainsOK(DetachLeaf(m, x), DropChain(c, x))
  {
    DetachLeafOK(m, x);
    SlotOf(m, x);
    var m' := DetachLeaf(m, x);
    DropChainOK(m, c, x, m');
  }

  /** Taking out an inner member that is alone in its ring: the leaf below it moves into its place. */
  lemma PromoteLeafOK(m: Mem, c: Chains, x: Addr, r: Addr, rp: (Addr, nat))
    requires TreeOK(m) && ChainsOK(m, c) && x in m.pos && x in c.chain && |c.chain[x]| == 1
    requires r in m.pos && r != x && IsLeaf(m, r) && IsSlotOf(m, r, rp)
    requires NodeOK(m, r) && Fits(m.size[r], m.pos[x])
    ensures var m1 := m.(child := m.child[rp := 0], node := m.node - {m.pos[r]}, pos := m.pos - {r});
            && CanReplace(m1, x, r)
            && TreeOK(ReplaceNode(m1, x, r)) && ChainsOK(ReplaceNode(m1, x, r), DropChain(c, x))
  {
    var m1 := DetachLeaf(m, r);
    DetachLeafOK(m, r);
    SlotOf(m, r);
    assert m1 == m.(child := m.child[rp := 0], node := m.node - {m.pos[r]}, pos := m.pos - {r});
    assert NodeOK(m, x);
    forall a | a in m1.pos && a in m1.size && a != x
      ensures m1.size[a] != m1.size[r]
    {
      assert NodeOK(m, a);
    }
    assert CanReplace(m1, x, r);
    ReplaceNodeOK(m1, x, r);
    PromotedChains(m, c, x, r, m1);
  }

  lemma PromotedChains(m: Mem, c: Chains, x: Addr, r: Addr, m1: Mem)
    requires TreeOK(m) && ChainsOK(m, c) && x in m.pos && x in c.chain && |c.chain[x]| == 1
    requires r in m.pos && r != x && CanReplace(m1, x, r)
    requires m1.size == m.size && m1.parent == m.parent && m1.index == m.index
    requires m1.node.Keys <= m.node.Keys && m1.pos == m.pos - {r} && m1.child.Keys == m.child.Keys
    requires forall y, b {:trigger (y, b) in m.child} ::
      y !in m.pos && (y, b) in m.child ==> m1.child[(y, b)] == m.child[(y, b)]
    ensures ChainsOK(ReplaceNode(m1, x, r), DropChain(c, x))
  {
    assert NodeOK(m1, x);
    KidsDiffer(m1, x, r);
    var p := m1.pos[x];
    if p != Root(p.bin) {
      assert NodeOK(m1, m1.node[Up(p)]);
    }
    DropChainOK(m, c, x, ReplaceNode(m1, x, r));
  }

  /** The writes that make `x` the root of the empty bin `i`. */
  function RootMem(m: Mem, x: Addr, s: nat, i: nat): Mem
    requires i < NTREEBINS == |m.treebins|
  {
    m.(size := m.size[x := s], index := m.index[x := i],
       child := m.child[(x, 0) := 0][(x, 1) := 0], parent := m.parent[x := BinRef(i)],
       treebins := m.treebins[i := x], treemap := Mark(m.treemap, i),
       node := m.node[Root(i) := x], pos := m.pos[x := Root(i)])
  }

  /** The writes that hang `x` in the empty slot `b` of `t`. */
  function LeafMem(m: Mem, x: Addr, s: nat, i: nat, t: Addr, b: nat, ghost p: Pos): Mem
    requires p.e > 0
  {
    m.(size := m.size[x := s], index := m.index[x := i],
       child := m.child[(x, 0) := 0][(x, 1) := 0][(t, b) := x], parent := m.parent[x := t],
       node := m.node[Kid(p, b) := x], pos := m.pos[x := Kid(p, b)])
  }

  lemma NewLeafOK(m: Mem, c: Chains, p: Pos, x: Addr, s: nat)
    requires CanAdd(m, p, x, s) && ChainsOK(m, c) && x !in c.owner
    ensures TreeOK(AddNode(m, p, x, s)) && ChainsOK(AddNode(m, p, x, s), NewChain(c, x))
  {
    AddNodeOK(m, p, x, s);
    NewChainOK(m, c, p, x, s);
  }

  lemma NewRootOK(m: Mem, c: Chains, x: Addr, s: nat, i: nat)
    requires TreeOK(m) && ChainsOK(m, c) && x > 0 && x !in c.owner && x !in m.pos && LargeSize(s)
    requires i == TreeIndex(s) < NTREEBINS && !Marked(m.treemap, i)
    ensures TreeOK(RootMem(m, x, s, i)) && ChainsOK(RootMem(m, x, s, i), NewChain(c, x))
  {
    assert BinOK(m, i);
    RootShared(s);
    BelowRoot(m, i, s);
    NoneOfSize(m, Root(i), s);
    NewLeafOK(m, c, Root(i), x, s);
  }

  lemma NewKidOK(m: Mem, c: Chains, p: Pos, b: nat, x: Addr, s: nat)
    requires TreeOK(m) && ChainsOK(m, c) && x > 0 && x !in c.owner && x !in m.pos && LargeSize(s)
    requires p in m.node && p.e > 0 && b < 2
    requires Fits(s, Kid(p, b)) && Kid(p, b) !in m.node && InRange(Kid(p, b)) && Kid(p, b) != Root(p.bin)
    requires forall a :: a in m.pos && a in m.size ==> m.size[a] != s
    ensures var m' := LeafMem(m, x, s, TreeIndex(s), m.node[p], b, p);
            TreeOK(m') && ChainsOK(m', NewChain(c, x))
  {
    KidUp(p, b);
    UpKid(Kid(p, b), p, b);
    NewLeafOK(m, c, Kid(p, b), x, s);
  }

  lemma BelowRoot(m: Mem, i: nat, s: nat)
    requires TreeOK(m) && i == TreeIndex(s)
    ensures forall a :: a in m.pos && a in m.size && m.size[a] == s ==> m.pos[a].e <= Root(i).e
  {
    forall a | a in m.pos && a in m.size && m.size[a] == s
      ensures m.pos[a].e <= Root(i).e
    {
      assert NodeOK(m, a);
    }
  }

  lemma NotMember(m: Mem, c: Chains, x: Addr)
    requires ChainsOK(m, c) && x !in c.owner
    ensures x !in m.pos
  {
    if x in m.pos {
      MemberHeld(m, c, x);
    }
  }

  /** No member has a size that fits a free position which members of that size could not lie above. */
  lemma NoneOfSize(m: Mem, p: Pos, s: nat)
    requires TreeOK(m) && p !in m.node && InRange(p) && Fits(s, p)
    requires forall a :: a in m.pos && a in m.size && m.size[a] == s ==> m.pos[a].e <= p.e
    ensures forall a :: a in m.pos && a in m.size ==> m.size[a] != s
  {
    forall a | a in m.pos && a in m.size
      ensures m.size[a] != s
    {
      assert NodeOK(m, a);
      if m.size[a] == s {
        AncestorsOccupied(m, a, p, s);
      }
    }
  }

  lemma NotHere(m: Mem, p: Pos, t: Addr, s: nat, a: Addr)
    requires TreeOK(m) && p in m.node && m.node[p] == t && t in m.size && m.size[t] != s && Fits(s, p)
    requires a in m.pos && a in m.size && m.size[a] == s
    ensures m.pos[a].e != p.e
  {
    assert NodeOK(m, a);
  }

  /** A member with the size being inserted lies strictly below the members already passed. */
  lemma PassBy(m: Mem, p: Pos, t: Addr, s: nat)
    requires TreeOK(m) && p in m.node && m.node[p] == t && t in m.size && m.size[t] != s
    requires Fits(s, p) && p.e > 0
    requires forall a :: a in m.pos && a in m.size && m.size[a] == s ==> m.pos[a].e <= p.e
    ensures forall a :: a in m.pos && a in m.size && m.size[a] == s ==> m.pos[a].e <= p.e - 1
  {
    forall a | a in m.pos && a in m.size && m.size[a] == s
      ensures m.pos[a].e <= p.e - 1
    {
      NotHere(m, p, t, s, a);
    }
  }

  lemma KidFree(m: Mem, p: Pos, t: Addr, s: nat, b: nat)
    requires TreeOK(m) && p in m.node && m.node[p] == t && t in m.size && m.size[t] != s
    requires Fits(s, p) && p.e > 0 && b < 2 && KidRef(m.node, p, b) == 0
    requires forall a :: a in m.pos && a in m.size && m.size[a] == s ==> m.pos[a].e <= p.e
    ensures Kid(p, b) !in m.node && InRange(Kid(p, b)) && Kid(p, b) != Root(p.bin)
    ensures forall a :: a in m.pos && a in m.size && m.size[a] == s ==> m.pos[a].e <= p.e - 1
  {
    assert NodeOK(m, t);
    PassBy(m, p, t, s);
    if Kid(p, b) in m.node {
      Occupied(m, Kid(p, b));
    }
  }
}
