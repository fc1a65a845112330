/** The bitwise trees of free large chunks as they lie in memory, and what the pointer writes of
    insertion and removal do to them. A tree position is a bin together with the high bits of the sizes
    below it; the ghost maps `node` and `pos` say which chunk stands at which position. */
module TreeShape {
  import opened Arith
  import opened SizeClass
  import opened BinMap
  import opened Ring

  /** The position in bin `bin` whose sizes `s` have `s >> e == q`. */
  datatype Pos = Pos(bin: nat, e: nat, q: nat)

  function Root(i: nat): Pos { Pos(i, RootBits(i), RootPrefix(i)) }

  function Kid(p: Pos, b: nat): Pos
    requires p.e > 0
  {
    Pos(p.bin, p.e - 1, 2 * p.q + b)
  }

  function Up(p: Pos): Pos { Pos(p.bin, p.e + 1, p.q / 2) }

  /** Tree links and bin heads in memory, with the ghost placement of chunks. */
  datatype Mem = Mem(
    size: map<Addr, nat>, parent: map<Addr, Addr>, child: map<(Addr, nat), Addr>, index: map<Addr, nat>,
    treebins: seq<Addr>, treemap: bv32,
    ghost node: map<Pos, Addr>, ghost pos: map<Addr, Pos>)

  /** The address of bin head `i`, which the root's parent field holds. */
  function BinRef(i: nat): Addr { -1 - i }

  function Ref(node: map<Pos, Addr>, p: Pos): Addr { if p in node then node[p] else 0 }

  function KidRef(node: map<Pos, Addr>, p: Pos, b: nat): Addr { if p.e > 0 then Ref(node, Kid(p, b)) else 0 }

  function ParentRef(node: map<Pos, Addr>,
      p: Pos): Addr { if p == Root(p.bin) then BinRef(p.bin) else Ref(node, Up(p)) }

  /** A chunk of size `s` may stand at `p`: it belongs to the bin and has the position's high bits. */
  predicate Fits(s: nat, p: Pos)
  {
    LargeSize(s) && TreeIndex(s) == p.bin && s / Pow2(p.e) == p.q
  }

  predicate InRange(p: Pos)
  {
    p.bin < NTREEBINS && p.e <= RootBits(p.bin) && (p.e == RootBits(p.bin) ==> p == Root(p.bin))
  }

  /** The member's position exists, hangs below an existing one, and suits its size. */
  ghost predicate Placed(m: Mem, a: Addr)
    requires a in m.pos
  {
    var p := m.pos[a];
    && a > 0
    && InRange(p)
    && p in m.node && m.node[p] == a
    && (p != Root(p.bin) ==> Up(p) in m.node)
    && a in m.size && Fits(m.size[a], p)
  }

  /** The member's link fields say what its position says. */
  ghost predicate Linked(m: Mem, a: Addr)
    requires a in m.pos
  {
    var p := m.pos[a];
    && a in m.index && m.index[a] == p.bin
    && a in m.parent && m.parent[a] == ParentRef(m.node, p)
    && (a, 0) in m.child && m.child[(a, 0)] == KidRef(m.node, p, 0)
    && (a, 1) in m.child && m.child[(a, 1)] == KidRef(m.node, p, 1)
  }

  ghost predicate NodeOK(m: Mem, a: Addr)
    requires a in m.pos
  {
    Placed(m, a) && Linked(m, a)
  }

  ghost predicate BinOK(m: Mem, i: nat)
    requires i < NTREEBINS && |m.treebins| == NTREEBINS
  {
    m.treebins[i] == Ref(m.node, Root(i)) && (Marked(m.treemap, i) <==> Root(i) in m.node)
  }

  ghost predicate PlacesOK(m: Mem)
  {
    forall p :: p in m.node ==> m.node[p] in m.pos && m.pos[m.node[p]] == p
  }

  /** No two tree members have the same size. */
  ghost predicate UniqueSizes(m: Mem)
  {
    forall a, b :: a in m.pos && b in m.pos && a in m.size && b in m.size && m.size[a] == m.size[b] ==> a == b
  }

  ghost predicate TreeOK(m: Mem)
  {
    && |m.treebins| == NTREEBINS
    && (forall a {:trigger NodeOK(m, a)} :: a in m.pos ==> NodeOK(m, a))
    && PlacesOK(m)
    && UniqueSizes(m)
    && forall i :: 0 <= i < NTREEBINS ==> BinOK(m, i)
  }

  lemma Occupied(m: Mem, p: Pos)
    requires TreeOK(m) && p in m.node
    ensures m.node[p] > 0
  {
    assert NodeOK(m, m.node[p]);
  }

  lemma KidUp(p: Pos, b: nat)
    requires p.e > 0 && b < 2
    ensures Up(Kid(p, b)) == p
  {
    Halves(p.q);
  }

  lemma UpKid(p: Pos, r: Pos, b: nat)
    requires r.e > 0 && b < 2 && Kid(r, b) == p
    ensures r == Up(p) && b == p.q % 2
  {
    Halves(r.q);
  }

  /** A size that fits a position fits exactly the kid named by its next bit. */
  lemma KidFits(s: nat, p: Pos)
    requires Fits(s, p) && p.e > 0 && p.e <= 32
    ensures var b := SizeBits(s, p.e) / 0x8000_0000;
            b < 2 && Fits(s, Kid(p, b)) && (forall c | 0 <= c < 2 && c != b :: !Fits(s, Kid(p, c)))
  {
    SizeBitsStep(s, p.e);
  }

  /** Two sizes fitting a position with no bits left are equal. */
  lemma FitsExact(s: nat, t: nat, p: Pos)
    requires p.e == 0 && Fits(s, p) && Fits(t, p)
    ensures s == t
  {
  }

  // --- insertion ---------------------------------------------------------------------------------

  /** The memory after `x` is hung at the free position `p`. */
  ghost function AddNode(m: Mem, p: Pos, x: Addr, s: nat): Mem
    requires |m.treebins| == NTREEBINS && p.bin < NTREEBINS
  {
    var t := ParentRef(m.node, p);
    Mem(
      m.size[x := s],
      m.parent[x := t],
      if p == Root(p.bin) then m.child[(x, 0) := 0][(x, 1) := 0]
      else m.child[(x, 0) := 0][(x, 1) := 0][(t, p.q % 2) := x],
      m.index[x := p.bin],
      if p == Root(p.bin) then m.treebins[p.bin := x] else m.treebins,
      if p == Root(p.bin) then Mark(m.treemap, p.bin) else m.treemap,
      m.node[p := x],
      m.pos[x := p])
  }

  ghost predicate CanAdd(m: Mem, p: Pos, x: Addr, s: nat)
  {
    && TreeOK(m) && x > 0 && x !in m.pos
    && InRange(p) && p !in m.node && (p != Root(p.bin) ==> Up(p) in m.node)
    && Fits(s, p)
    && (forall a :: a in m.pos && a in m.size ==> m.size[a] != s)
  }

  lemma NoKids(m: Mem, p: Pos)
    requires TreeOK(m) && p !in m.node && InRange(p)
    ensures KidRef(m.node, p, 0) == 0 && KidRef(m.node, p, 1) == 0
  {
    if p.e > 0 {
      KidUp(p, 0);
      KidUp(p, 1);
      assert Kid(p, 0) in m.node ==> NodeOK(m, m.node[Kid(p, 0)]);
      assert Kid(p, 1) in m.node ==> NodeOK(m, m.node[Kid(p, 1)]);
    }
  }

  lemma AddedPlaced(m: Mem, p: Pos, x: Addr, s: nat, a: Addr)
    requires CanAdd(m, p, x, s) && (a in m.pos || a == x)
    ensures Placed(AddNode(m, p, x, s), a)
  {
    if a != x {
      assert NodeOK(m, a);
    }
  }

  lemma AddedNewLinks(m: Mem, p: Pos, x: Addr, s: nat)
    requires CanAdd(m, p, x, s)
    ensures Linked(AddNode(m, p, x, s), x)
  {
    if p != Root(p.bin) {
      assert NodeOK(m, m.node[Up(p)]);
    }
    NoKids(m, p);
  }

  lemma AddedOldLinks(m: Mem, p: Pos, x: Addr, s: nat, a: Addr)
    requires CanAdd(m, p, x, s) && a in m.pos
    ensures Linked(AddNode(m, p, x, s), a)
  {
    assert NodeOK(m, a);
    var r := m.pos[a];
    if p != Root(p.bin) {
      assert NodeOK(m, m.node[Up(p)]);
      assert ParentRef(m.node, p) == a <==> r == Up(p);
    }
    if r.e > 0 {
      AddedKid(m, p, x, r, 0);
      AddedKid(m, p, x, r, 1);
    }
    if r.e > 0 && p == Root(p.bin) {
      RootNoKid(p, r);
    }
  }

  lemma RootNoKid(p: Pos, r: Pos)
    requires p == Root(p.bin) && InRange(r)
    ensures r != Up(p)
  {
  }

  /** Only the slot of the new node's parent that leads to the new node changes. */
  lemma AddedKid(m: Mem, p: Pos, x: Addr, r: Pos, b: nat)
    requires r.e > 0 && b < 2
    ensures KidRef(m.node[p := x], r, b) == if r == Up(p) && b == p.q % 2 then x else KidRef(m.node, r, b)
  {
    if Kid(r, b) == p {
      UpKid(p, r, b);
    } else if r == Up(p) && b == p.q % 2 {
      KidOfUp(p, r, b);
    }
  }

  lemma KidOfUp(p: Pos, r: Pos, b: nat)
    requires r.e > 0 && r == Up(p) && b == p.q % 2
    ensures Kid(r, b) == p
  {
  }

  lemma AddNodeOK(m: Mem, p: Pos, x: Addr, s: nat)
    requires CanAdd(m, p, x, s)
    ensures TreeOK(AddNode(m, p, x, s))
  {
    var m' := AddNode(m, p, x, s);
    forall a | a in m'.pos
      ensures NodeOK(m', a)
    {
      AddedPlaced(m, p, x, s, a);
      if a == x {
        AddedNewLinks(m, p, x, s);
      } else {
        AddedOldLinks(m, p, x, s, a);
      }
    }
    forall i | 0 <= i < NTREEBINS
      ensures BinOK(m', i)
    {
      assert BinOK(m, i);
      MarkExact(m.treemap, p.bin, i);
    }
    forall a, b | a in m'.pos && b in m'.pos && m'.size[a] == m'.size[b]
      ensures a == b
    {
      if a != x && b != x {
        assert NodeOK(m, a) && NodeOK(m, b);
      }
    }
  }

  // --- removal of a leaf -------------------------------------------------------------------------

  ghost predicate IsLeaf(m: Mem, x: Addr)
    requires TreeOK(m) && x in m.pos
  {
    assert NodeOK(m, x);
    m.child[(x, 0)] == 0 && m.child[(x, 1)] == 0
  }

  /** The memory after the slot that leads to leaf `x` is zeroed. */
  ghost function DetachLeaf(m: Mem, x: Addr): Mem
    requires TreeOK(m) && x in m.pos
  {
    var p := m.pos[x];
    assert NodeOK(m, x);
    var t := m.parent[x];
    Mem(
      m.size, m.parent,
      if p == Root(p.bin) then m.child else m.child[(t, p.q % 2) := 0],
      m.index,
      if p == Root(p.bin) then m.treebins[p.bin := 0] else m.treebins,
      if p == Root(p.bin) then Clear(m.treemap, p.bin) else m.treemap,
      m.node - {p},
      m.pos - {x})
  }

  /** Nothing hangs below a leaf. */
  lemma LeafHasNoKids(m: Mem, x: Addr, p: Pos)
    requires TreeOK(m) && x in m.pos && IsLeaf(m, x)
    requires p in m.node && p != Root(p.bin)
    ensures Up(p) != m.pos[x]
  {
    if Up(p) == m.pos[x] {
      assert NodeOK(m, x);
      assert NodeOK(m, m.node[p]);
      KidOfUp(p, m.pos[x], p.q % 2);
    }
  }

  lemma DetachedKid(m: Mem, p: Pos, r: Pos, b: nat)
    requires r.e > 0 && b < 2
    ensures KidRef(m.node - {p}, r, b) == if r == Up(p) && b == p.q % 2 then 0 else KidRef(m.node, r, b)
  {
    if Kid(r, b) == p {
      UpKid(p, r, b);
    } else if r == Up(p) && b == p.q % 2 {
      KidOfUp(p, r, b);
    }
  }

  lemma DetachedPlaced(m: Mem, x: Addr, a: Addr)
    requires TreeOK(m) && x in m.pos && IsLeaf(m, x) && a in m.pos && a != x
    ensures Placed(DetachLeaf(m, x), a)
  {
    assert NodeOK(m, a) && NodeOK(m, x);
    var p := m.pos[a];
    if p != Root(p.bin) {
      LeafHasNoKids(m, x, p);
    }
  }

  lemma DetachedLinks(m: Mem, x: Addr, a: Addr)
    requires TreeOK(m) && x in m.pos && IsLeaf(m, x) && a in m.pos && a != x
    ensures Linked(DetachLeaf(m, x), a)
  {
    assert NodeOK(m, a) && NodeOK(m, x);
    var p, r := m.pos[x], m.pos[a];
    if p != Root(p.bin) {
      assert NodeOK(m, m.node[Up(p)]);
      assert m.parent[x] == a <==> r == Up(p);
    } else {
      RootNoKid(p, r);
    }
    if r != Root(r.bin) {
      LeafHasNoKids(m, x, r);
    }
    if r.e > 0 {
      DetachedKid(m, p, r, 0);
      DetachedKid(m, p, r, 1);
    }
  }

  lemma DetachLeafOK(m: Mem, x: Addr)
    requires TreeOK(m) && x in m.pos && IsLeaf(m, x)
    ensures TreeOK(DetachLeaf(m, x))
  {
    assert NodeOK(m, x);
    var p := m.pos[x];
    var m' := DetachLeaf(m, x);
    forall a | a in m'.pos
      ensures NodeOK(m', a)
    {
      DetachedPlaced(m, x, a);
      DetachedLinks(m, x, a);
    }
    forall i | 0 <= i < NTREEBINS
      ensures BinOK(m', i)
    {
      assert BinOK(m, i);
      ClearExact(m.treemap, p.bin, i);
    }
  }

  // --- replacement of a member -------------------------------------------------------------------

  ghost predicate CanReplace(m: Mem, x: Addr, r: Addr)
  {
    && TreeOK(m) && x in m.pos && r > 0 && r !in m.pos
    && r in m.size && Fits(m.size[r], m.pos[x])
    && (forall a :: a in m.pos && a in m.size && a != x ==> m.size[a] != m.size[r])
    && r in m.index && m.index[r] == m.pos[x].bin
    && (r, 0) in m.child && m.child[(r, 0)] == 0
    && (r, 1) in m.child && m.child[(r, 1)] == 0
  }

  /** The parent words after the kids `c0` and `c1` of the replaced node are handed to `r`. */
  function Adopt(parent: map<Addr, Addr>, r: Addr, c0: Addr, c1: Addr): map<Addr, Addr>
  {
    var p0 := if c0 != 0 then parent[c0 := r] else parent;
    if c1 != 0 then p0[c1 := r] else p0
  }

  /** The memory after `r` takes the place of tree member `x`. */
  ghost function ReplaceNode(m: Mem, x: Addr, r: Addr): Mem
    requires CanReplace(m, x, r)
  {
    var p := m.pos[x];
    assert NodeOK(m, x);
    var t := m.parent[x];
    var c0, c1 := m.child[(x, 0)], m.child[(x, 1)];
    var child := if p == Root(p.bin) then m.child else m.child[(t, p.q % 2) := r];
    Mem(
      m.size,
      Adopt(m.parent[r := t], r, c0, c1),
      child[(r, 0) := c0][(r, 1) := c1],
      m.index,
      if p == Root(p.bin) then m.treebins[p.bin := r] else m.treebins,
      m.treemap,
      m.node[p := r],
      (m.pos - {x})[r := p])
  }

  lemma ReplacedPlaced(m: Mem, x: Addr, r: Addr, a: Addr)
    requires CanReplace(m, x, r) && (a == r || (a in m.pos && a != x))
    ensures Placed(ReplaceNode(m, x, r), a)
  {
    assert NodeOK(m, x);
    if a != r {
      assert NodeOK(m, a);
    }
  }

  lemma ReplacedNewLinks(m: Mem, x: Addr, r: Addr)
    requires CanReplace(m, x, r)
    ensures Linked(ReplaceNode(m, x, r), r)
  {
    assert NodeOK(m, x);
    var p := m.pos[x];
    if p != Root(p.bin) {
      assert NodeOK(m, m.node[Up(p)]);
    }
    KidsDiffer(m, x, r);
    if p.e > 0 {
      AddedKid(m, p, r, p, 0);
      AddedKid(m, p, r, p, 1);
    }
  }

  /** The kids of a member are members other than it. */
  lemma KidsDiffer(m: Mem, x: Addr, r: Addr)
    requires TreeOK(m) && x in m.pos && r !in m.pos
    ensures NodeOK(m, x)
    ensures var c0, c1 := m.child[(x, 0)], m.child[(x, 1)];
            (c0 != x && c0 != r) || c0 == 0
    ensures var c0, c1 := m.child[(x, 0)], m.child[(x, 1)];
            (c1 != x && c1 != r) || c1 == 0
  {
    assert NodeOK(m, x);
    var p := m.pos[x];
    if p.e > 0 {
      assert Kid(p, 0) != p && Kid(p, 1) != p;
    }
  }

  /** A member whose position is not below `x` is none of its kids, and the kids are exactly the members below it. */
  lemma KidIffUp(m: Mem, x: Addr, a: Addr)
    requires TreeOK(m) && x in m.pos && a in m.pos
    ensures NodeOK(m, x) && NodeOK(m, a)
    ensures a == m.child[(x, 0)] || a == m.child[(x, 1)] <==>
            m.pos[a] != Root(m.pos[a].bin) && Up(m.pos[a]) == m.pos[x]
  {
    assert NodeOK(m, x) && NodeOK(m, a);
    var p, r := m.pos[x], m.pos[a];
    if p.e > 0 {
      KidUp(p, 0);
      KidUp(p, 1);
    }
    if r != Root(r.bin) && Up(r) == p {
      KidOfUp(r, p, r.q % 2);
    }
  }

  /** Exactly the kids of the replaced member are re-parented. */
  lemma ReplacedParent(m: Mem, x: Addr, r: Addr, a: Addr)
    requires CanReplace(m, x, r) && a in m.pos && a != x
    ensures var m' := ReplaceNode(m, x, r);
            a in m'.parent && m'.parent[a] == ParentRef(m'.node, m.pos[a])
  {
    assert NodeOK(m, x) && NodeOK(m, a);
    KidIffUp(m, x, a);
  }

  /** Exactly the slot that led to the replaced member is redirected. */
  lemma ReplacedChild(m: Mem, x: Addr, r: Addr, a: Addr, b: nat)
    requires CanReplace(m, x, r) && a in m.pos && a != x && b < 2
    ensures var m' := ReplaceNode(m, x, r);
            (a, b) in m'.child && m'.child[(a, b)] == KidRef(m'.node, m.pos[a], b)
  {
    assert NodeOK(m, x) && NodeOK(m, a);
    var p, s := m.pos[x], m.pos[a];
    if p != Root(p.bin) {
      ParentIsUp(m, x, a);
    } else {
      RootNoKid(p, s);
    }
    if s.e > 0 {
      AddedKid(m, p, r, s, b);
    }
  }

  /** A member other than a root hangs below the member at the position above, and no other. */
  lemma ParentIsUp(m: Mem, x: Addr, a: Addr)
    requires TreeOK(m) && x in m.pos && a in m.pos && m.pos[x] != Root(m.pos[x].bin)
    ensures x in m.parent && (m.parent[x] == a <==> m.pos[a] == Up(m.pos[x]))
  {
    assert NodeOK(m, x) && NodeOK(m, a);
    assert NodeOK(m, m.node[Up(m.pos[x])]);
  }

  lemma ReplacedOldLinks(m: Mem, x: Addr, r: Addr, a: Addr)
    requires CanReplace(m, x, r) && a in m.pos && a != x
    ensures Linked(ReplaceNode(m, x, r), a)
  {
    assert NodeOK(m, a);
    ReplacedParent(m, x, r, a);
    ReplacedChild(m, x, r, a, 0);
    ReplacedChild(m, x, r, a, 1);
  }

  lemma ReplaceNodeOK(m: Mem, x: Addr, r: Addr)
    requires CanReplace(m, x, r)
    ensures TreeOK(ReplaceNode(m, x, r))
  {
    assert NodeOK(m, x);
    var m' := ReplaceNode(m, x, r);
    forall a | a in m'.pos
      ensures NodeOK(m', a)
    {
      ReplacedPlaced(m, x, r, a);
      if a == r {
        ReplacedNewLinks(m, x, r);
      } else {
        ReplacedOldLinks(m, x, r, a);
      }
    }
    forall i | 0 <= i < NTREEBINS
      ensures BinOK(m', i)
    {
      assert BinOK(m, i);
    }
  }
}
