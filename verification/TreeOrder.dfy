/** Where a chunk of a given size can stand in a tree, and why a best-fit search may skip subtrees. */
module TreeOrder {
  import opened Arith
  import opened SizeClass
  import opened BinMap
  import opened Ring
  import opened TreeShape

  /** Position `r` lies in the subtree at `p`. */
  ghost predicate Under(r: Pos, p: Pos)
  {
    r.bin == p.bin && r.e <= p.e && r.q / Pow2(p.e - r.e) == p.q
  }

  /** Every size below `p` is smaller than every size below `r`. */
  ghost predicate Before(p: Pos, r: Pos)
  {
    p.bin == r.bin && p.e <= r.e && p.q / Pow2(r.e - p.e) < r.q
  }

  lemma UnderSelf(p: Pos)
    ensures Under(p, p)
  {
    assert p.q / 1 == p.q;
  }

  /** Splitting off one more bit: the quotient by `2^(d+1)` of `2q + b` is that of `q` by `2^d`. */
  lemma ShiftIn(q: nat, b: nat, d: nat)
    requires b < 2
    ensures (2 * q + b) / Pow2(d + 1) == q / Pow2(d)
  {
    DropBits(2 * q + b, 1, d);
    Halves(q);
    assert Pow2(1) == 2;
  }

  lemma UnderKid(r: Pos, p: Pos, b: nat)
    requires r.e > 0 && b < 2
    ensures Under(r, p) ==> Under(Kid(r, b), p)
    ensures Before(r, p) ==> Before(Kid(r, b), p)
  {
    if r.e <= p.e {
      ShiftIn(r.q, b, p.e - r.e);
    }
  }

  lemma UnderLevel(r: Pos, p: Pos)
    requires r.e == p.e
    ensures Under(r, p) <==> r == p
  {
    assert r.q / 1 == r.q;
  }

  /** A position strictly inside a subtree lies below one of its two kids. */
  lemma UnderSplit(r: Pos, p: Pos)
    requires Under(r, p) && r != p
    ensures p.e > 0 && (Under(r, Kid(p, 0)) || Under(r, Kid(p, 1)))
  {
    if r.e == p.e {
      UnderLevel(r, p);
    } else {
      var d := p.e - 1 - r.e;
      DropBits(r.q, d, 1);
      assert Pow2(1) == 2;
      var k := r.q / Pow2(d);
      assert k / 2 == p.q;
      assert k == 2 * p.q || k == 2 * p.q + 1;
    }
  }

  lemma UnderRoot(s: nat, r: Pos)
    requires Fits(s, r) && r.e <= RootBits(r.bin)
    ensures Under(r, Root(r.bin))
  {
    RootShared(s);
    DropBits(s, r.e, RootBits(r.bin) - r.e);
  }

  /** A size below a subtree fits the subtree's root position. */
  lemma UnderFits(s: nat, r: Pos, p: Pos)
    requires Fits(s, r) && Under(r, p)
    ensures Fits(s, p)
  {
    DropBits(s, r.e, p.e - r.e);
  }

  lemma BeforeSmaller(s: nat, p: Pos, t: nat, r: Pos)
    requires Fits(s, p) && Fits(t, r) && Before(p, r)
    ensures s < t
  {
    DropBits(s, p.e, r.e - p.e);
    if t <= s {
      DivMono(t, s, Pow2(r.e));
    }
  }

  lemma KidsOrdered(p: Pos)
    requires p.e > 0
    ensures Before(Kid(p, 0), Kid(p, 1))
  {
    assert Kid(p, 0).q / 1 == Kid(p, 0).q;
  }

  lemma LowerBinSmaller(s: nat, t: nat)
    requires LargeSize(s) && LargeSize(t) && TreeIndex(s) < TreeIndex(t)
    ensures s < t
  {
    BinsOrdered(t, s);
  }

  /** The position one bit further down that `s` fits. */
  function Below(s: nat, p: Pos): Pos
    requires p.e > 0
  {
    DivNonNegative(s, Pow2(p.e - 1));
    Pos(p.bin, p.e - 1, s / Pow2(p.e - 1))
  }

  lemma BelowFits(s: nat, p: Pos)
    requires Fits(s, p) && p.e > 0
    ensures Fits(s, Below(s, p)) && Up(Below(s, p)) == p
  {
    HalveQuotient(s, p.e - 1);
  }

  /** Every position between a member's own and the root is occupied, by the member's high size bits. */
  lemma {:induction false} AncestorsOccupied(m: Mem, a: Addr, p: Pos, s: nat)
    requires TreeOK(m) && a in m.pos && Fits(s, m.pos[a])
    requires m.pos[a].e <= p.e <= RootBits(p.bin) && Fits(s, p)
    ensures p in m.node
    decreases p.e - m.pos[a].e
  {
    if m.pos[a].e < p.e {
      var below := Below(s, p);
      BelowFits(s, p);
      AncestorsOccupied(m, a, below, s);
      assert NodeOK(m, m.node[below]);
    } else {
      assert NodeOK(m, a);
      SamePlace(s, m.pos[a], p);
    }
  }

  lemma SamePlace(s: nat, p: Pos, r: Pos)
    requires Fits(s, p) && Fits(s, r) && p.e == r.e
    ensures p == r
  {
  }

  /** Nothing stands below an unoccupied position. */
  lemma NoneUnder(m: Mem, p: Pos, a: Addr)
    requires TreeOK(m) && a in m.pos && p !in m.node && p.e <= RootBits(p.bin)
    ensures !Under(m.pos[a], p)
  {
    assert NodeOK(m, a);
    if Under(m.pos[a], p) {
      UnderFits(m.size[a], m.pos[a], p);
      AncestorsOccupied(m, a, p, m.size[a]);
    }
  }

  // --- candidates of a best-fit search ------------------------------------------------------------

  /** The choice `v` is no larger than `a`. */
  ghost predicate Settled(m: Mem, v: Addr, a: Addr)
  {
    v != 0 && v in m.size && a in m.size && m.size[v] <= m.size[a]
  }

  /** `a` stands in the subtree of `t`, or is no smaller than `t`, which is still to be looked at. */
  ghost predicate Pending(m: Mem, t: Addr, a: Addr)
  {
    && t != 0 && t in m.pos && a in m.pos
    && (Under(m.pos[a], m.pos[t]) || (t in m.size && a in m.size && m.size[t] <= m.size[a]))
  }

  /** Every member large enough is settled or still pending. */
  ghost predicate Covered(m: Mem, nb: nat, v: Addr, t: Addr)
  {
    forall a :: a in m.pos && a in m.size && m.size[a] >= nb ==> Settled(m, v, a) || Pending(m, t, a)
  }

  /** The subtree at `t` holds only sizes that are large enough, unless the choice already fits exactly. */
  ghost predicate AllLarge(m: Mem, nb: nat, v: Addr, t: Addr)
  {
    (v != 0 && v in m.size && m.size[v] == nb) ||
    forall a :: t in m.pos && a in m.pos && a in m.size && Under(m.pos[a], m.pos[t]) ==> m.size[a] >= nb
  }

  /** leftmost_child */
  function LeftmostChild(child: map<(Addr, nat), Addr>, t: Addr): Addr
    requires (t, 0) in child && (t, 1) in child
  {
    if child[(t, 0)] != 0 then child[(t, 0)] else child[(t, 1)]
  }

  /** A step of the walk down the leftmost path: what was pending at `t` is settled by `t` or pending below. */
  lemma LeftmostStep(m: Mem, t: Addr, a: Addr)
    requires TreeOK(m) && t in m.pos && a in m.pos && Pending(m, t, a)
    ensures NodeOK(m, t) && NodeOK(m, a)
    ensures m.size[t] <= m.size[a] || Pending(m, LeftmostChild(m.child, t), a)
  {
    assert NodeOK(m, t) && NodeOK(m, a);
    var p, r := m.pos[t], m.pos[a];
    if m.size[t] > m.size[a] {
      if r == p {
        SamePosition(m, a, t);
      }
      UnderSplit(r, p);
      if Kid(p, 0) in m.node {
        var l := m.node[Kid(p, 0)];
        assert NodeOK(m, l);
        if Under(r, Kid(p, 1)) {
          KidsOrdered(p);
          UnderFits(m.size[a], r, Kid(p, 1));
          BeforeSmaller(m.size[l], Kid(p, 0), m.size[a], Kid(p, 1));
        }
      } else {
        NoneUnder(m, Kid(p, 0), a);
        if Kid(p, 1) in m.node {
          assert NodeOK(m, m.node[Kid(p, 1)]);
        } else {
          NoneUnder(m, Kid(p, 1), a);
        }
      }
    }
  }

  /** The next subtree of the leftmost walk lies inside the present one. */
  lemma LeftmostInside(m: Mem, t: Addr)
    requires TreeOK(m) && t in m.pos
    ensures NodeOK(m, t)
    ensures var u := LeftmostChild(m.child, t);
            u != 0 ==> u in m.pos && m.pos[u].e < m.pos[t].e
                       && forall a :: a in m.pos && Under(m.pos[a], m.pos[u]) ==> Under(m.pos[a], m.pos[t])
  {
    assert NodeOK(m, t);
    var u := LeftmostChild(m.child, t);
    if u != 0 {
      assert NodeOK(m, u);
      var p, k := m.pos[t], m.pos[u];
      forall a | a in m.pos && Under(m.pos[a], k)
        ensures Under(m.pos[a], p)
      {
        UnderParent(m.pos[a], p, if m.child[(t, 0)] != 0 then 0 else 1);
      }
    }
  }

  lemma UnderParent(r: Pos, p: Pos, b: nat)
    requires p.e > 0 && b < 2 && Under(r, Kid(p, b))
    ensures Under(r, p)
  {
    DropBits(r.q, p.e - 1 - r.e, 1);
    Halves(p.q);
    assert Pow2(1) == 2;
  }

  // --- the walk along the path of the wanted size -------------------------------------------------

  /** Members of bin `p.bin` large enough are settled, below the walk's position, or pending at the
      deepest right subtree not taken. */
  ghost predicate PathCovered(m: Mem, nb: nat, v: Addr, rst: Addr, p: Pos)
  {
    forall a :: a in m.pos && a in m.size && m.size[a] >= nb && m.pos[a].bin == p.bin ==>
      Settled(m, v, a) || Under(m.pos[a], p) || Pending(m, rst, a)
  }

  /** The deepest right subtree not taken holds only sizes above every size below the walk's position. */
  ghost predicate RightOf(m: Mem, rst: Addr, p: Pos)
  {
    rst != 0 ==> rst in m.pos && Before(p, m.pos[rst])
  }

  /** The subtree remembered after a step from `t` with next bit `b`. */
  function NextRst(m: Mem, t: Addr, b: nat, rst: Addr): Addr
    requires (t, 1) in m.child && (t, b) in m.child
  {
    var rt := m.child[(t, 1)];
    if rt != 0 && rt != m.child[(t, b)] then rt else rst
  }

  lemma RightKid(m: Mem, t: Addr, b: nat)
    requires TreeOK(m) && t in m.pos && b < 2
    ensures NodeOK(m, t)
    ensures var rt := m.child[(t, 1)];
            && (rt != 0 ==> m.pos[t].e > 0 && rt in m.pos && NodeOK(m, rt) && m.pos[rt] == Kid(m.pos[t], 1))
            && (rt != 0 && rt != m.child[(t, b)] ==> b == 0)
            && (rt != 0 && b == 0 ==> rt != m.child[(t, b)])
  {
    assert NodeOK(m, t);
    var p := m.pos[t];
    var rt := m.child[(t, 1)];
    if rt != 0 {
      assert NodeOK(m, rt);
      assert Kid(p, 0) != Kid(p, 1);
    }
  }

  lemma PathStep(m: Mem, nb: nat, v: Addr, rst: Addr, t: Addr, b: nat, a: Addr)
    requires TreeOK(m) && t in m.pos && NodeOK(m, t) && b < 2 && m.pos[t].e > 0
    requires Fits(nb, Kid(m.pos[t], b)) && RightOf(m, rst, m.pos[t])
    requires a in m.pos && a in m.size && m.size[a] >= nb
    requires m.size[t] >= nb ==> Settled(m, v, t)
    requires Settled(m, v, a) || Under(m.pos[a], m.pos[t]) || Pending(m, rst, a)
    ensures Settled(m, v, a) || Under(m.pos[a], Kid(m.pos[t], b)) || Pending(m, NextRst(m, t, b, rst), a)
  {
    assert NodeOK(m, a);
    RightKid(m, t, b);
    var p, r := m.pos[t], m.pos[a];
    var rst' := NextRst(m, t, b, rst);
    if Settled(m, v, a) {
    } else if Under(r, p) {
      if r == p {
        SamePosition(m, a, t);
      } else {
        UnderSplit(r, p);
        if !Under(r, Kid(p, b)) {
          if b == 1 {
            LeftTooSmall(m, nb, p, a);
          } else {
            RightRemembered(m, t, a);
          }
        }
      }
    } else if rst' != rst {
      UnderSelf(Kid(p, 1));
      SmallerThanPending(m, p, rst, rst', a);
    }
  }

  /** When the path turns right, the left subtree holds only sizes that are too small. */
  lemma LeftTooSmall(m: Mem, nb: nat, p: Pos, a: Addr)
    requires a in m.pos && NodeOK(m, a) && p.e > 0
    requires Fits(nb, Kid(p, 1)) && Under(m.pos[a], Kid(p, 0))
    ensures m.size[a] < nb
  {
    KidsOrdered(p);
    UnderFits(m.size[a], m.pos[a], Kid(p, 0));
    BeforeSmaller(m.size[a], Kid(p, 0), nb, Kid(p, 1));
  }

  /** When the path turns left, a member below the right kid makes that kid the remembered subtree. */
  lemma RightRemembered(m: Mem, t: Addr, a: Addr)
    requires TreeOK(m) && t in m.pos && NodeOK(m, t) && m.pos[t].e > 0
    requires a in m.pos && Under(m.pos[a], Kid(m.pos[t], 1))
    ensures m.child[(t, 1)] != 0 && Pending(m, m.child[(t, 1)], a)
  {
    var p := m.pos[t];
    if Kid(p, 1) !in m.node {
      NoneUnder(m, Kid(p, 1), a);
    } else {
      assert NodeOK(m, m.node[Kid(p, 1)]);
    }
  }

  lemma SamePosition(m: Mem, a: Addr, b: Addr)
    requires TreeOK(m) && a in m.pos && b in m.pos && m.pos[a] == m.pos[b]
    ensures a == b
  {
    assert NodeOK(m, a) && NodeOK(m, b);
  }

  /** Once a deeper right subtree is remembered, everything pending at the old one is larger than its root. */
  lemma SmallerThanPending(m: Mem, p: Pos, rst: Addr, rt: Addr, a: Addr)
    requires TreeOK(m) && rst != 0 && rst in m.pos && Before(p, m.pos[rst])
    requires rt != 0 && rt in m.pos && NodeOK(m, rt) && p.e > 0 && m.pos[rt] == Kid(p, 1)
    requires Pending(m, rst, a)
    ensures Pending(m, rt, a)
  {
    assert NodeOK(m, rst) && NodeOK(m, a);
    var r := m.pos[rst];
    UnderSelf(p);
    UnderKid(p, p, 1);
    UnderFits(m.size[rt], m.pos[rt], p);
    BeforeSmaller(m.size[rt], p, m.size[rst], r);
    if Under(m.pos[a], r) {
      UnderFits(m.size[a], m.pos[a], r);
      BeforeSmaller(m.size[rt], p, m.size[a], r);
    }
  }

  lemma RightOfStep(m: Mem, rst: Addr, t: Addr, b: nat)
    requires TreeOK(m) && t in m.pos && NodeOK(m, t) && b < 2 && m.pos[t].e > 0 && RightOf(m, rst, m.pos[t])
    ensures RightOf(m, NextRst(m, t, b, rst), Kid(m.pos[t], b))
  {
    RightKid(m, t, b);
    if NextRst(m, t, b, rst) != rst {
      KidsOrdered(m.pos[t]);
    } else if rst != 0 {
      UnderKid(m.pos[t], m.pos[rst], b);
    }
  }

  /** Everything pending at the remembered subtree when the path ends is large enough. */
  lemma RightAllLarge(m: Mem, nb: nat, p: Pos, v: Addr, rst: Addr)
    requires TreeOK(m) && Fits(nb, p) && RightOf(m, rst, p)
    ensures rst != 0 ==> AllLarge(m, nb, v, rst)
  {
    if rst != 0 {
      forall a | a in m.pos && a in m.size && Under(m.pos[a], m.pos[rst])
        ensures m.size[a] >= nb
      {
        assert NodeOK(m, a);
        UnderFits(m.size[a], m.pos[a], m.pos[rst]);
        BeforeSmaller(nb, p, m.size[a], m.pos[rst]);
      }
    }
  }

  /** When the path ends, coverage of the wanted size's bin extends to all bins above it. */
  lemma PathEnd(m: Mem, nb: nat, v: Addr, rst: Addr, p: Pos)
    requires TreeOK(m) && LargeSize(nb) && p.bin == TreeIndex(nb) && p !in m.node && p.e <= RootBits(p.bin)
    requires PathCovered(m, nb, v, rst, p)
    requires v != 0 ==> v in m.pos && m.pos[v].bin == p.bin
    requires rst != 0 ==> rst in m.pos && m.pos[rst].bin == p.bin
    ensures v != 0 || rst != 0 ==> Covered(m, nb, v, rst)
    ensures v == 0 && rst == 0 ==> forall a :: a in m.pos && a in m.size && m.size[a] >= nb ==> m.pos[a].bin > p.bin
  {
    forall a | a in m.pos && a in m.size && m.size[a] >= nb
      ensures if v != 0 || rst != 0 then Settled(m, v, a) || Pending(m, rst, a) else m.pos[a].bin > p.bin
    {
      assert NodeOK(m, a);
      BinsOrdered(nb, m.size[a]);
      if m.pos[a].bin == p.bin {
        NoneUnder(m, p, a);
      } else if v != 0 {
        assert NodeOK(m, v);
        LowerBinSmaller(m.size[v], m.size[a]);
      } else if rst != 0 {
        assert NodeOK(m, rst);
        LowerBinSmaller(m.size[rst], m.size[a]);
      }
    }
  }

  /** With nothing in the wanted size's bin, the root of the nearest marked bin above covers the rest. */
  lemma NextBinCovers(m: Mem, nb: nat, idx: nat, i: nat)
    requires TreeOK(m) && LargeSize(nb) && idx < NTREEBINS && idx == TreeIndex(nb)
    requires idx < i < NTREEBINS && Marked(m.treemap, i) && (forall j :: idx < j < i ==> !Marked(m.treemap, j))
    requires forall a :: a in m.pos && a in m.size && m.size[a] >= nb ==> m.pos[a].bin > idx
    ensures m.treebins[i] in m.pos && m.treebins[i] != 0
    ensures Covered(m, nb, 0, m.treebins[i]) && AllLarge(m, nb, 0, m.treebins[i])
  {
    assert BinOK(m, i);
    var t := m.treebins[i];
    assert NodeOK(m, t);
    forall a | a in m.pos && a in m.size && m.size[a] >= nb
      ensures Pending(m, t, a)
    {
      BinOfMember(m, a);
      if m.pos[a].bin > i {
        LowerBinSmaller(m.size[t], m.size[a]);
      }
    }
    forall a | a in m.pos && a in m.size && Under(m.pos[a], m.pos[t])
      ensures m.size[a] >= nb
    {
      assert NodeOK(m, a);
      LowerBinSmaller(nb, m.size[a]);
    }
  }

  /** A member's bin is marked, and the member is below its root. */
  lemma BinOfMember(m: Mem, a: Addr)
    requires TreeOK(m) && a in m.pos
    ensures NodeOK(m, a) && Marked(m.treemap, m.pos[a].bin) && Under(m.pos[a], Root(m.pos[a].bin))
  {
    assert NodeOK(m, a);
    var r := m.pos[a];
    UnderRoot(m.size[a], r);
    assert BinOK(m, r.bin);
    if Root(r.bin) !in m.node {
      NoneUnder(m, Root(r.bin), a);
    }
  }

  lemma NoBinAbove(m: Mem, nb: nat, idx: nat)
    requires TreeOK(m) && LargeSize(nb) && idx < NTREEBINS
    requires forall j :: idx < j < NTREEBINS ==> !Marked(m.treemap, j)
    requires forall a :: a in m.pos && a in m.size && m.size[a] >= nb ==> m.pos[a].bin > idx
    ensures Covered(m, nb, 0, 0)
  {
    forall a | a in m.pos && a in m.size && m.size[a] >= nb
      ensures false
    {
      BinOfMember(m, a);
    }
  }

  // --- the steps over all members at once ---------------------------------------------------------

  lemma LeftmostCovers(m: Mem, nb: nat, v: Addr, v': Addr, t: Addr)
    requires TreeOK(m) && t in m.pos && Covered(m, nb, v, t) && AllLarge(m, nb, v, t)
    requires NodeOK(m, t) && (m.size[t] >= nb ==> Settled(m, v', t))
    requires forall a :: Settled(m, v, a) ==> Settled(m, v', a)
    requires v != 0 && v in m.size && m.size[v] == nb ==> v' == v
    ensures var u := LeftmostChild(m.child, t);
            Covered(m, nb, v', u) && (u != 0 ==> AllLarge(m, nb, v', u))
  {
    var u := LeftmostChild(m.child, t);
    LeftmostInside(m, t);
    UnderSelf(m.pos[t]);
    forall a | a in m.pos && a in m.size && m.size[a] >= nb
      ensures Settled(m, v', a) || Pending(m, u, a)
    {
      if !Settled(m, v', a) {
        LeftmostStep(m, t, a);
      }
    }
  }

  /** The next node of the path, or none. */
  lemma PathDown(m: Mem, t: Addr, b: nat)
    requires TreeOK(m) && t in m.pos && NodeOK(m, t) && b < 2 && m.pos[t].e > 0
    ensures var u, k := m.child[(t, b)], Kid(m.pos[t], b);
            if u == 0 then k !in m.node else u in m.pos && m.pos[u] == k && NodeOK(m, u)
  {
    var u, k := m.child[(t, b)], Kid(m.pos[t], b);
    if k in m.node {
      Occupied(m, k);
      assert NodeOK(m, u);
    }
  }

  lemma RootCovered(m: Mem, nb: nat, idx: nat)
    requires TreeOK(m)
    ensures PathCovered(m, nb, 0, 0, Root(idx))
  {
    forall a | a in m.pos && a in m.size && m.size[a] >= nb && m.pos[a].bin == idx
      ensures Under(m.pos[a], Root(idx))
    {
      BinOfMember(m, a);
    }
  }

  lemma PathSteps(m: Mem, nb: nat, v: Addr, v': Addr, rst: Addr, t: Addr, b: nat)
    requires TreeOK(m) && t in m.pos && NodeOK(m, t) && b < 2 && m.pos[t].e > 0
    requires Fits(nb, Kid(m.pos[t], b)) && RightOf(m, rst, m.pos[t])
    requires m.size[t] >= nb ==> Settled(m, v', t)
    requires forall a :: Settled(m, v, a) ==> Settled(m, v', a)
    requires PathCovered(m, nb, v, rst, m.pos[t])
    ensures PathCovered(m, nb, v', NextRst(m, t, b, rst), Kid(m.pos[t], b))
  {
    forall a | a in m.pos && a in m.size && m.size[a] >= nb && m.pos[a].bin == m.pos[t].bin
      ensures Settled(m, v', a) || Under(m.pos[a], Kid(m.pos[t], b)) || Pending(m, NextRst(m, t, b, rst), a)
    {
      PathStep(m, nb, v', rst, t, b, a);
    }
  }

  lemma PathStops(m: Mem, nb: nat, p: Pos, v: Addr, rst: Addr)
    requires TreeOK(m) && p.bin == TreeIndex(nb) && p !in m.node && p.e <= RootBits(p.bin)
    requires Fits(nb, p) && RightOf(m, rst, p) && PathCovered(m, nb, v, rst, p)
    requires v != 0 ==> v in m.pos && m.pos[v].bin == p.bin
    ensures rst != 0 ==> rst in m.pos && AllLarge(m, nb, v, rst)
    ensures v != 0 || rst != 0 ==> Covered(m, nb, v, rst)
    ensures v == 0 && rst == 0 ==> forall a :: a in m.pos && a in m.size && m.size[a] >= nb ==> m.pos[a].bin > p.bin
  {
    RightAllLarge(m, nb, p, v, rst);
    PathEnd(m, nb, v, rst, p);
  }

  /** An exact fit settles everything. */
  lemma ExactCovers(m: Mem, nb: nat, v: Addr)
    requires v != 0 && v in m.pos && v in m.size && m.size[v] == nb
    ensures Covered(m, nb, v, v) && AllLarge(m, nb, v, v)
  {
  }

  lemma EmptyBin(m: Mem, nb: nat, idx: nat)
    requires TreeOK(m) && LargeSize(nb) && idx == TreeIndex(nb) < NTREEBINS && m.treebins[idx] == 0
    ensures forall a :: a in m.pos && a in m.size && m.size[a] >= nb ==> m.pos[a].bin > idx
  {
    assert BinOK(m, idx);
    forall a | a in m.pos && a in m.size && m.size[a] >= nb
      ensures m.pos[a].bin > idx
    {
      BinOfMember(m, a);
      BinsOrdered(nb, m.size[a]);
      if Root(idx) in m.node {
        Occupied(m, Root(idx));
      }
    }
  }

  /** The root of the lowest marked bin covers everything that is held, for a request smaller than any of it. */
  lemma LowestBinCovers(m: Mem, nb: nat, i: nat)
    requires TreeOK(m) && nb < MIN_LARGE_SIZE
    requires i < NTREEBINS && Marked(m.treemap, i) && (forall j :: 0 <= j < i ==> !Marked(m.treemap, j))
    ensures var t := m.treebins[i];
            && t != 0 && t in m.pos && NodeOK(m, t)
            && Covered(m, nb, t, t) && AllLarge(m, nb, t, t)
  {
    assert BinOK(m, i);
    var t := m.treebins[i];
    assert NodeOK(m, t);
    forall a | a in m.pos && a in m.size && m.size[a] >= nb
      ensures Pending(m, t, a)
    {
      BinOfMember(m, a);
      if m.pos[a].bin > i {
        LowerBinSmaller(m.size[t], m.size[a]);
      }
    }
    forall a | a in m.pos && a in m.size
      ensures m.size[a] >= nb
    {
      assert NodeOK(m, a);
    }
  }
}
