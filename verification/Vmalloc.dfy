/** Rounding addresses to a power of two. */
module Alignment {
  import opened Arith

  ghost predicate PowerOfTwo(a: int) { exists k: nat :: a == Pow2(k) }

  predicate Aligned(x: int, a: int)
    requires a > 0
  {
    x % a == 0
  }

  lemma MultipleAligned(q: int, a: int)
    requires a > 0
    ensures Aligned(q * a, a)
  {
    DivUnique(q * a, a, q);
    assert q * a == a * ((q * a) / a) + (q * a) % a;
  }

  lemma AlignedIsMultiple(x: int, a: int) returns (q: int)
    requires a > 0 && Aligned(x, a)
    ensures x == q * a
  {
    q := x / a;
  }

  /** The least multiple of a at or above x. */
  function AlignUp(x: int, a: int): (r: int)
    requires a > 0
    ensures Aligned(r, a) && x <= r < x + a
  {
    MultipleAligned((x + a - 1) / a, a);
    (x + a - 1) / a * a
  }

  /** The greatest multiple of a at or below x. */
  function AlignDown(x: int, a: int): (r: int)
    requires a > 0
    ensures Aligned(r, a) && x - a < r <= x
  {
    MultipleAligned(x / a, a);
    x / a * a
  }

  lemma AlignedApart(x: int, y: int, a: int)
    requires a > 0 && Aligned(x, a) && Aligned(y, a) && x < y
    ensures x + a <= y
  {
    var q := AlignedIsMultiple(x, a);
    var p := AlignedIsMultiple(y, a);
    MultiplesApart(q, p, a);
  }

  lemma MultiplesApart(q: int, p: int, a: int)
    requires a > 0 && q * a < p * a
    ensures q * a + a <= p * a
  {
    if p <= q {
      MulMono(p, q, a);
    } else {
      MulMono(q + 1, p, a);
    }
  }

  lemma AlignUpLeast(x: int, a: int, y: int)
    requires a > 0 && Aligned(y, a) && x <= y
    ensures AlignUp(x, a) <= y
  {
    if y < AlignUp(x, a) {
      AlignedApart(y, AlignUp(x, a), a);
    }
  }

  lemma AlignDownGreatest(x: int, a: int, y: int)
    requires a > 0 && Aligned(y, a) && y <= x
    ensures y <= AlignDown(x, a)
  {
    if AlignDown(x, a) < y {
      AlignedApart(AlignDown(x, a), y, a);
    }
  }

  /** A multiple of the larger of two powers of two is a multiple of the smaller. */
  lemma CoarserAligned(x: int, a: int, b: int)
    requires PowerOfTwo(a) && PowerOfTwo(b) && 0 < a <= b && Aligned(x, b)
    ensures Aligned(x, a)
  {
    var i: nat :| a == Pow2(i);
    var j: nat :| b == Pow2(j);
    if j < i {
      Pow2Mono(j, i);
    }
    if i <= j {
      Pow2Add(i, j - i);
      var q := AlignedIsMultiple(x, b);
      assert x == q * (Pow2(i) * Pow2(j - i)) == (q * Pow2(j - i)) * a;
      MultipleAligned(q * Pow2(j - i), a);
    }
  }
}

/** The sorted list of mapped areas and the search tree over it. */
module VmapAreas {
  import opened Options

  datatype Area = Area(start: int, end: int)

  ghost predicate Sorted(s: seq<Area>)
  {
    && (forall i :: 0 <= i < |s| ==> 0 <= s[i].start < s[i].end)
    && (forall i, j :: 0 <= i < j < |s| ==> s[i].end <= s[j].start)
  }

  ghost predicate Clear(s: seq<Area>, lo: int, hi: int)
  {
    forall i :: 0 <= i < |s| ==> s[i].end <= lo || hi <= s[i].start
  }

  datatype Tree = Nil | Node(left: Tree, va: Area, right: Tree)

  function InOrder(t: Tree): seq<Area>
  {
    match t
    case Nil => []
    case Node(l, va, r) => InOrder(l) + [va] + InOrder(r)
  }

  /** Some search tree has any given list as its in-order walk: what a rebalancing may choose from. */
  ghost function Spine(s: seq<Area>): (t: Tree)
    ensures InOrder(t) == s
  {
    if s == [] then Nil else Node(Nil, s[0], Spine(s[1..]))
  }

  /** A subtree that spans areas[lo..hi] splits at the position of its root. */
  lemma NodeSlice(areas: seq<Area>, lo: nat, hi: nat, t: Tree) returns (k: nat)
    requires t.Node? && lo <= hi <= |areas| && InOrder(t) == areas[lo..hi]
    ensures lo <= k < hi && areas[k] == t.va
    ensures InOrder(t.left) == areas[lo..k] && InOrder(t.right) == areas[k + 1..hi]
  {
    k := lo + |InOrder(t.left)|;
    var s := areas[lo..hi];
    assert s == InOrder(t.left) + [t.va] + InOrder(t.right);
    assert InOrder(t.left) == s[..k - lo] && s[k - lo] == t.va && InOrder(t.right) == s[k - lo + 1..];
    assert s[..k - lo] == areas[lo..k] && s[k - lo + 1..] == areas[k + 1..hi];
  }

  /** The first loop of alloc_vmap_area: the place where the search for a hole starts. */
  method FindFirst(root: Tree, ghost areas: seq<Area>, addr: int) returns (first: Option<Area>, ghost k: nat)
    requires InOrder(root) == areas && Sorted(areas)
    ensures k <= |areas| && forall j :: 0 <= j < k ==> areas[j].end <= addr
    ensures first.None? ==> k == |areas|
    ensures first.Some? ==> k < |areas| && areas[k] == first.value && addr <= first.value.end
  {
    var n := root;
    ghost var lo := 0;
    k := |areas|;
    first := None;
    while n.Node?
      invariant lo <= k <= |areas| && InOrder(n) == areas[lo..k]
      invariant forall j :: 0 <= j < lo ==> areas[j].end <= addr
      invariant first.None? ==> k == |areas|
      invariant first.Some? ==> k < |areas| && areas[k] == first.value && addr <= first.value.end
      decreases n
    {
      var tmp := n.va;
      ghost var m := NodeSlice(areas, lo, k, n);
      if tmp.end >= addr {
        first := Some(tmp);
        k := m;
        if tmp.start <= addr {
          break;
        }
        n := n.left;
      } else {
        lo := m + 1;
        n := n.right;
      }
    }
  }

  /** The descent of __insert_vmap_area for an area that no mapped area overlaps: it never meets the inconsistent case,
      and ends where the list stays sorted. `prev` is the new node's predecessor in the walk. */
  method FindPlace(root: Tree, ghost areas: seq<Area>, va: Area) returns (prev: Option<Area>, ghost k: nat)
    requires InOrder(root) == areas && Sorted(areas)
    requires 0 <= va.start < va.end && Clear(areas, va.start, va.end)
    ensures k <= |areas| && prev == if k == 0 then None else Some(areas[k - 1])
    ensures Sorted(Inserted(areas, k, va))
  {
    var p := root;
    ghost var hi := |areas|;
    k := 0;
    prev := None;
    while p.Node?
      invariant k <= hi <= |areas| && InOrder(p) == areas[k..hi]
      invariant forall j :: 0 <= j < k ==> areas[j].end <= va.start
      invariant forall j :: hi <= j < |areas| ==> va.end <= areas[j].start
      invariant prev == if k == 0 then None else Some(areas[k - 1])
      decreases p
    {
      var tmp := p.va;
      ghost var m := NodeSlice(areas, k, hi, p);
      if va.start < tmp.end {
        hi := m;
        p := p.left;
      } else if va.end > tmp.start {
        k := m + 1;
        prev := Some(tmp);
        p := p.right;
      } else {
        assert false;
      }
    }
    InsertedSorted(areas, k, va);
  }

  ghost function Inserted(areas: seq<Area>, k: nat, va: Area): (s: seq<Area>)
    requires k <= |areas|
    ensures |s| == |areas| + 1 && s[k] == va
  {
    areas[..k] + [va] + areas[k..]
  }

  lemma InsertedSorted(areas: seq<Area>, k: nat, va: Area)
    requires Sorted(areas) && k <= |areas| && 0 <= va.start < va.end
    requires forall j :: 0 <= j < k ==> areas[j].end <= va.start
    requires forall j :: k <= j < |areas| ==> va.end <= areas[j].start
    ensures Sorted(Inserted(areas, k, va))
  {
  }

  /** The position of an area in the list: list links as an index. */
  function IndexOf(s: seq<Area>, a: Area): (k: nat)
    requires a in s
    ensures k < |s| && s[k] == a
  {
    if s[0] == a then 0 else 1 + IndexOf(s[1..], a)
  }

  lemma IndexUnique(s: seq<Area>, k: nat)
    requires Sorted(s) && k < |s|
    ensures IndexOf(s, s[k]) == k
  {
  }
}

/** The kernel virtual address allocator: first fit over the sorted areas, from a cached place. */
module Vmalloc {
  import Arith
  import opened Options
  import opened Alignment
  import opened VmapAreas

  /** Addresses are 32-bit: sums wrap. */
  const SPACE := 0x1_0000_0000

  function Plus(a: int, b: int): int { if a + b < SPACE then a + b else a + b - SPACE }

  // --- holes -----------------------------------------------------------------------------------------

  /** [x, x + size) is an aligned hole inside [vstart, vend). */
  ghost predicate Fits(areas: seq<Area>, size: int, align: int, vstart: int, vend: int, x: int)
    requires align > 0
  {
    Aligned(x, align) && vstart <= x && x + size <= vend && Clear(areas, x, x + size)
  }

  /** Every aligned hole from vstart up to `top` has at most `hole` bytes. */
  ghost predicate HolesBounded(areas: seq<Area>, align: int, vstart: int, top: int, hole: int)
    requires align > 0
  {
    forall x, y {:trigger Clear(areas, x, y)} ::
      vstart <= x < y <= top && Aligned(x, align) && Clear(areas, x, y) ==> y - x <= hole
  }

  /** Every aligned hole that starts below `addr` also ends there and has at most `hole` bytes. */
  ghost predicate Covered(areas: seq<Area>, align: int, vstart: int, addr: int, hole: int)
    requires align > 0
  {
    forall x, y {:trigger Clear(areas, x, y)} ::
      vstart <= x < y && x < addr && Aligned(x, align) && Clear(areas, x, y) ==> y <= addr && y - x <= hole
  }

  ghost predicate NoFitIn(areas: seq<Area>, size: int, align: int, vstart: int, vend: int, lo: int, hi: int)
    requires align > 0
  {
    forall x {:trigger Fits(areas, size, align, vstart, vend, x)} ::
      lo <= x < hi ==> !Fits(areas, size, align, vstart, vend, x)
  }

  lemma CoveredFromStart(areas: seq<Area>, align: int, vstart: int, hole: int)
    requires align > 0
    ensures Covered(areas, align, vstart, AlignUp(vstart, align), hole)
  {
    forall x | vstart <= x < AlignUp(vstart, align) && Aligned(x, align)
      ensures false
    {
      AlignUpLeast(vstart, align, x);
    }
  }

  lemma CoveredFromCache(areas: seq<Area>, k: nat, calign: int, cvstart: int, hole: int, align: int, vstart: int)
    requires k < |areas| && PowerOfTwo(calign) && PowerOfTwo(align) && 0 < calign <= align && cvstart <= vstart
    requires areas[k].start < areas[k].end && HolesBounded(areas, calign, cvstart, areas[k].start, hole)
    ensures Covered(areas, align, vstart, AlignUp(areas[k].end, align), hole)
  {
    var addr := AlignUp(areas[k].end, align);
    forall x, y | vstart <= x < y && x < addr && Aligned(x, align) && Clear(areas, x, y)
      ensures y <= addr && y - x <= hole
    {
      if areas[k].end <= x {
        AlignUpLeast(areas[k].end, align, x);
      } else {
        CoarserAligned(x, calign, align);
      }
    }
  }

  lemma CoveredPastArea(areas: seq<Area>, k: nat, align: int, vstart: int, addr: int, hole: int, hole': int)
    requires k < |areas| && align > 0 && Aligned(addr, align) && Covered(areas, align, vstart, addr, hole)
    requires addr <= AlignUp(areas[k].end, align) && hole <= hole' && areas[k].start - addr <= hole'
    requires areas[k].start < areas[k].end
    ensures Covered(areas, align, vstart, AlignUp(areas[k].end, align), hole')
  {
    var next := AlignUp(areas[k].end, align);
    forall x, y | vstart <= x < y && x < next && Aligned(x, align) && Clear(areas, x, y)
      ensures y <= next && y - x <= hole'
    {
      if areas[k].end <= x {
        AlignUpLeast(areas[k].end, align, x);
      }
    }
  }

  lemma NoFitPastArea(areas: seq<Area>, k: nat, size: int, align: int, vstart: int, vend: int, lo: int, addr: int)
    requires k < |areas| && align > 0 && areas[k].start < addr + size && size > 0
    requires NoFitIn(areas, size, align, vstart, vend, lo, addr)
    ensures NoFitIn(areas, size, align, vstart, vend, lo, AlignUp(areas[k].end, align))
  {
    forall x | addr <= x < AlignUp(areas[k].end, align)
      ensures !Fits(areas, size, align, vstart, vend, x)
    {
      if Fits(areas, size, align, vstart, vend, x) {
        AlignUpLeast(areas[k].end, align, x);
      }
    }
  }

  lemma AlignUpMono(a: int, b: int, align: int)
    requires align > 0 && a <= b
    ensures AlignUp(a, align) <= AlignUp(b, align)
  {
    AlignUpLeast(a, align, AlignUp(b, align));
  }

  /** New areas only cut holes. */
  lemma BoundAfterInsert(areas: seq<Area>, k: nat, va: Area, align: int, vstart: int, top: int, hole: int)
    requires k <= |areas| && align > 0 && HolesBounded(areas, align, vstart, top, hole)
    ensures HolesBounded(Inserted(areas, k, va), align, vstart, top, hole)
  {
    forall x, y | Clear(Inserted(areas, k, va), x, y)
      ensures Clear(areas, x, y)
    {
      ClearOfFewer(areas, k, va, x, y);
    }
  }

  lemma ClearOfFewer(areas: seq<Area>, k: nat, va: Area, x: int, y: int)
    requires k <= |areas|
    ensures Clear(Inserted(areas, k, va), x, y) <==> Clear(areas, x, y) && (va.end <= x || y <= va.start)
  {
    var s := Inserted(areas, k, va);
    if Clear(s, x, y) {
      assert s[k] == va;
      forall i | 0 <= i < |areas|
        ensures areas[i].end <= x || y <= areas[i].start
      {
        assert areas[i] == s[if i < k then i else i + 1];
      }
    }
  }

  function Removed(areas: seq<Area>, k: nat): (s: seq<Area>)
    requires k < |areas|
    ensures |s| == |areas| - 1
  {
    areas[..k] + areas[k + 1..]
  }

  lemma RemovedSorted(areas: seq<Area>, k: nat)
    requires Sorted(areas) && k < |areas|
    ensures Sorted(Removed(areas, k)) && areas[k] !in Removed(areas, k)
    ensures Inserted(Removed(areas, k), k, areas[k]) == areas
    ensures forall a :: a in Removed(areas, k) <==> a in areas && a != areas[k]
  {
    forall a | a in areas && a != areas[k]
      ensures a in Removed(areas, k)
    {
      var i :| 0 <= i < |areas| && areas[i] == a;
      assert Removed(areas, k)[if i < k then i else i - 1] == a;
    }
  }

  lemma RemovedMembers(areas: seq<Area>, k: nat)
    requires Sorted(areas) && k < |areas|
    ensures forall a :: a in Removed(areas, k) <==> a in areas && a != areas[k]
  {
    RemovedSorted(areas, k);
  }

  /** Holes below an area that lies at or below the freed one are as they were. */
  lemma BoundAfterRemove(areas: seq<Area>, k: nat, align: int, vstart: int, top: int, top': int, hole: int)
    requires Sorted(areas) && k < |areas| && align > 0 && HolesBounded(areas, align, vstart, top, hole)
    requires top' <= top && top' <= areas[k].start
    ensures HolesBounded(Removed(areas, k), align, vstart, top', hole)
  {
    RemovedSorted(areas, k);
    forall x, y | vstart <= x < y <= top' && Clear(Removed(areas, k), x, y)
      ensures Clear(areas, x, y)
    {
      ClearOfFewer(Removed(areas, k), k, areas[k], x, y);
    }
  }

  /** The walk stands before area `i` with candidate address `addr`: every area below has been passed, and so has every
      hole, without a fit. */
  ghost predicate WalkAt(areas: seq<Area>, size: int, align: int, vstart: int, vend: int, lo: int, i: int, addr: int,
      hole: int)
    requires align > 0
  {
    && 0 <= i <= |areas| && lo <= addr && Aligned(addr, align)
    && (i < |areas| ==> addr <= AlignUp(areas[i].end, align))
    && (forall j :: 0 <= j < i ==> areas[j].end <= addr)
    && Covered(areas, align, vstart, addr, hole)
    && NoFitIn(areas, size, align, vstart, vend, lo, addr)
  }

  /** The lowest fit at or above `lo`, with every smaller hole accounted for. */
  ghost predicate WalkFound(areas: seq<Area>, size: int, align: int, vstart: int, vend: int, lo: int, addr: int,
      hole: int)
    requires align > 0
  {
    && lo <= addr && Aligned(addr, align) && Clear(areas, addr, addr + size)
    && Covered(areas, align, vstart, addr, hole)
    && NoFitIn(areas, size, align, vstart, vend, lo, addr)
  }

  /** The hole size is what was known before, or that of an aligned hole between lo and top. */
  ghost predicate Seen(areas: seq<Area>, align: int, lo: int, top: int, known: int, hole: int)
    requires align > 0
  {
    hole == known || exists x, y {:trigger Clear(areas, x, y)} ::
      lo <= x < y <= top && Aligned(x, align) && Clear(areas, x, y) && y - x == hole
  }

  lemma StepSees(areas: seq<Area>, size: int, align: int, vstart: int, vend: int, lo: int, i: nat, addr: int,
      known: int, hole: int)
    requires align > 0 && Sorted(areas) && i < |areas| && WalkAt(areas, size, align, vstart, vend, lo, i, addr, hole)
    requires Seen(areas, align, lo, addr, known, hole)
    ensures Seen(areas, align, lo, AlignUp(areas[i].end, align), known, hole)
    ensures addr < areas[i].start ==> Seen(areas, align, lo, AlignUp(areas[i].end, align), known, areas[i].start - addr)
  {
    if addr < areas[i].start {
      assert forall j :: i < j < |areas| ==> areas[i].start < areas[i].end <= areas[j].start;
      assert Clear(areas, addr, areas[i].start);
    }
  }

  lemma WalkStep(areas: seq<Area>, size: int, align: int, vstart: int, vend: int, lo: int, i: nat, addr: int, hole: int,
      hole': int)
    requires align > 0 && size > 0 && Sorted(areas) && i < |areas|
    requires WalkAt(areas, size, align, vstart, vend, lo, i, addr, hole)
    requires areas[i].start < addr + size && hole <= hole' && areas[i].start - addr <= hole'
    ensures WalkAt(areas, size, align, vstart, vend, lo, i + 1, AlignUp(areas[i].end, align), hole')
  {
    CoveredPastArea(areas, i, align, vstart, addr, hole, hole');
    NoFitPastArea(areas, i, size, align, vstart, vend, lo, addr);
    if i + 1 < |areas| {
      AlignUpMono(areas[i].end, areas[i + 1].end, align);
    }
    assert forall j :: 0 <= j < i ==> areas[j].end <= areas[i].start;
  }

  lemma WalkStops(areas: seq<Area>, size: int, align: int, vstart: int, vend: int, lo: int, i: nat, addr: int,
      hole: int)
    requires align > 0 && Sorted(areas) && WalkAt(areas, size, align, vstart, vend, lo, i, addr, hole)
    requires i < |areas| ==> addr + size <= areas[i].start
    ensures WalkFound(areas, size, align, vstart, vend, lo, addr, hole)
  {
    forall j | i < j < |areas|
      ensures addr + size <= areas[j].start
    {
      assert areas[i].end <= areas[j].start;
    }
  }

  lemma NoFitAbove(areas: seq<Area>, size: int, align: int, vstart: int, vend: int, lo: int, addr: int)
    requires align > 0 && NoFitIn(areas, size, align, vstart, vend, lo, addr) && vend < addr + size
    ensures NoFitIn(areas, size, align, vstart, vend, lo, SPACE)
  {
  }

  lemma BoundForLessPermissive(areas: seq<Area>, calign: int, cvstart: int, top: int, hole: int, align: int,
      vstart: int, hole': int)
    requires PowerOfTwo(calign) && PowerOfTwo(align) && 0 < calign <= align && cvstart <= vstart && hole <= hole'
    requires HolesBounded(areas, calign, cvstart, top, hole)
    ensures HolesBounded(areas, align, vstart, top, hole')
  {
    forall x, y | vstart <= x < y <= top && Aligned(x, align) && Clear(areas, x, y)
      ensures y - x <= hole'
    {
      CoarserAligned(x, calign, align);
    }
  }

  lemma RaisedHole(areas: seq<Area>, cache: Option<Area>, hole: int, hole': int, cvstart: int, calign: int)
    requires CacheOk(areas, cache, hole, cvstart, calign) && hole <= hole'
    ensures CacheOk(areas, cache, hole', cvstart, calign)
  {
  }

  lemma BoundBelowFound(areas: seq<Area>, k: nat, va: Area, align: int, vstart: int, hole: int)
    requires k <= |areas| && align > 0 && Covered(areas, align, vstart, va.start, hole)
    ensures HolesBounded(Inserted(areas, k, va), align, vstart, va.start, hole)
  {
    assert HolesBounded(areas, align, vstart, va.start, hole);
    BoundAfterInsert(areas, k, va, align, vstart, va.start, hole);
  }

  /** No hole below the place where the search starts is larger than the cached hole size. */
  lemma NothingLargerBelow(areas: seq<Area>, align: int, vstart: int, vend: int, lo: int, hole: int, s: int, x: int)
    requires align > 0 && Covered(areas, align, vstart, lo, hole) && hole < s && 0 < s && x < lo
    ensures !Fits(areas, s, align, vstart, vend, x)
  {
  }

  ghost predicate HasFit(areas: seq<Area>, size: int, align: int, vstart: int, vend: int)
    requires align > 0
  {
    exists x {:trigger Fits(areas, size, align, vstart, vend, x)} :: Fits(areas, size, align, vstart, vend, x)
  }

  /** What a failed search from `lo` says about all addresses: nothing larger fits; and something of the size itself
      does exactly when it does below `lo`, where only holes of just the cached hole size can. */
  lemma FailureMeans(areas: seq<Area>, size: int, align: int, vstart: int, vend: int, lo: int, hole: int)
    requires align > 0 && 0 < size && vend < SPACE && Covered(areas, align, vstart, lo, hole) && hole <= size
    requires NoFitIn(areas, size, align, vstart, vend, lo, SPACE)
    ensures NothingLarger(areas, size, align, vstart, vend)
    ensures HasFit(areas, size, align, vstart, vend) <==>
      hole == size && !NoFitIn(areas, size, align, vstart, vend, vstart, lo)
  {
    forall s, x | size < s
      ensures !Fits(areas, s, align, vstart, vend, x)
    {
      if x < lo {
        NothingLargerBelow(areas, align, vstart, vend, lo, hole, s, x);
      } else if Fits(areas, s, align, vstart, vend, x) {
        FitsSmaller(areas, align, vstart, vend, size, s, x);
      }
    }
    forall x | Fits(areas, size, align, vstart, vend, x)
      ensures hole == size && vstart <= x < lo
    {
      if x < lo && hole < size {
        NothingLargerBelow(areas, align, vstart, vend, lo, hole, size, x);
      }
    }
  }

  lemma FitsSmaller(areas: seq<Area>, align: int, vstart: int, vend: int, size: int, s: int, x: int)
    requires align > 0 && 0 < size <= s && Fits(areas, s, align, vstart, vend, x)
    ensures Fits(areas, size, align, vstart, vend, x)
  {
  }

  ghost predicate NothingLarger(areas: seq<Area>, size: int, align: int, vstart: int, vend: int)
    requires align > 0
  {
    forall s, x {:trigger Fits(areas, s, align, vstart, vend, x)} :: size < s ==>
        !Fits(areas, s, align, vstart, vend, x)
  }

  ghost predicate EndBy(areas: seq<Area>, top: int)
  {
    forall a :: a in areas ==> a.end <= top
  }

  ghost predicate ListOk(areas: seq<Area>, lazy: set<Area>)
  {
    Sorted(areas) && (forall a :: a in areas ==> a.end < SPACE) && (forall a :: a in lazy ==> a in areas)
  }

  ghost predicate CacheOk(areas: seq<Area>, cache: Option<Area>, hole: int, cvstart: int, calign: int)
  {
    cache.Some? ==>
      && cache.value in areas && PowerOfTwo(calign) && calign > 0 && hole >= 0
      && HolesBounded(areas, calign, cvstart, cache.value.start, hole)
  }

  lemma InsertedMembers(areas: seq<Area>, k: nat, va: Area)
    requires k <= |areas|
    ensures forall a :: a in Inserted(areas, k, va) <==> a in areas || a == va
  {
    var s := Inserted(areas, k, va);
    forall a | a in areas
      ensures a in s
    {
      var i :| 0 <= i < |areas| && areas[i] == a;
      assert s[if i < k then i else i + 1] == a;
    }
  }

  lemma InsertKeepsList(areas: seq<Area>, lazy: set<Area>, k: nat, va: Area)
    requires ListOk(areas, lazy) && k <= |areas| && Sorted(Inserted(areas, k, va)) && va.end < SPACE
    ensures ListOk(Inserted(areas, k, va), lazy)
  {
    InsertedMembers(areas, k, va);
  }

  lemma InsertKeepsCache(areas: seq<Area>, k: nat, va: Area, cache: Option<Area>, hole: int, cvstart: int, calign: int)
    requires k <= |areas| && CacheOk(areas, cache, hole, cvstart, calign)
    ensures CacheOk(Inserted(areas, k, va), cache, hole, cvstart, calign)
  {
    InsertedMembers(areas, k, va);
    if cache.Some? {
      BoundAfterInsert(areas, k, va, calign, cvstart, cache.value.start, hole);
    }
  }

  /** What freeing the area at `k` leaves of the cache: dropped when the area ends below the recorded start, moved to
      the area's predecessor when the area is not above the cached one. */
  ghost function CacheAfterFree(areas: seq<Area>, k: nat, cache: Option<Area>, cvstart: int): Option<Area>
    requires k < |areas|
  {
    if cache.None? || areas[k].end < cvstart then None
    else if areas[k].start > cache.value.start then cache
    else if k == 0 then None else Some(areas[k - 1])
  }

  lemma FreeKeepsCache(areas: seq<Area>, k: nat, cache: Option<Area>, hole: int, cvstart: int, calign: int)
    requires Sorted(areas) && k < |areas| && CacheOk(areas, cache, hole, cvstart, calign)
    ensures CacheOk(Removed(areas, k), CacheAfterFree(areas, k, cache, cvstart), hole, cvstart, calign)
  {
    var next := CacheAfterFree(areas, k, cache, cvstart);
    RemovedSorted(areas, k);
    if next.Some? {
      var c := IndexOf(areas, cache.value);
      if next == cache {
        BoundAfterRemove(areas, k, calign, cvstart, cache.value.start, cache.value.start, hole);
      } else {
        assert areas[k - 1].start < areas[k - 1].end <= areas[k].start;
        BoundAfterRemove(areas, k, calign, cvstart, cache.value.start, next.value.start, hole);
      }
    }
  }

  lemma RemoveKeepsList(areas: seq<Area>, lazy: set<Area>, k: nat)
    requires ListOk(areas, lazy) && k < |areas|
    ensures ListOk(Removed(areas, k), lazy - {areas[k]})
  {
    RemovedSorted(areas, k);
  }

  // --- the allocator -----------------------------------------------------------------------------------

  class VmapAllocator {
    const vmallocStart: int
    const vmallocEnd: int
    var root: Tree
    var areas: seq<Area>
    var cache: Option<Area>
    var hole: int
    var cvstart: int
    var calign: int
    var pcpuHole: int
    var lazy: set<Area>

    /** The list and the tree agree, and the cached hole size bounds every aligned hole below the cached area. */
    ghost predicate Valid()
      reads this
    {
      ListOk(areas, lazy) && InOrder(root) == areas && CacheOk(areas, cache, hole, cvstart, calign)
    }

    constructor (vmallocStart: int, vmallocEnd: int)
      ensures Valid() && areas == [] && cache == None && lazy == {}
      ensures this.vmallocStart == vmallocStart && this.vmallocEnd == vmallocEnd
    {
      this.vmallocStart, this.vmallocEnd := vmallocStart, vmallocEnd;
      root, areas, cache, hole, cvstart, calign, pcpuHole, lazy := Nil, [], None, 0, 0, 1, 0, {};
    }

    /** Nothing mapped is so high that rounding its end up leaves the address space. */
    ghost predicate RoundsInSpace(align: int)
      reads this
    {
      EndBy(areas, SPACE - align)
    }

    ghost predicate GoodRequest(size: int, align: int, vstart: int, vend: int)
      reads this
    {
      && 0 < size < SPACE && PowerOfTwo(align) && 0 < align && 0 <= vstart && vend < SPACE
      && vstart + align <= SPACE && RoundsInSpace(align)
    }

    /** The cached place is used for requests no more permissive than those it was recorded for. */
    ghost predicate UsesCache(size: int, align: int, vstart: int)
      requires align > 0
      reads this
    {
      cache.Some? && hole <= size && cvstart <= vstart && calign <= align && vstart <= AlignUp(cache.value.end, align)
    }

    ghost function ScanStart(size: int, align: int, vstart: int): int
      requires align > 0
      reads this
    {
      if UsesCache(size, align, vstart) then AlignUp(cache.value.end, align) else AlignUp(vstart, align)
    }

    ghost function KnownHole(size: int, align: int, vstart: int): int
      requires align > 0
      reads this
    {
      if UsesCache(size, align, vstart) then hole else 0
    }

    /** rb_insert_color and rb_erase may leave any tree with the list as its walk. */
    method Rebalance()
      modifies `root
      ensures InOrder(root) == areas
    {
      assert InOrder(Spine(areas)) == areas;
      var t :| InOrder(t) == areas;
      root := t;
    }

    /** list_add after the predecessor, and the tree node. */
    method LinkAfter(prev: Option<Area>, va: Area, ghost k: nat)
      requires Sorted(areas) && k <= |areas| && prev == if k == 0 then None else Some(areas[k - 1])
      modifies `root, `areas
      ensures areas == Inserted(old(areas), k, va) && InOrder(root) == areas
    {
      if k > 0 {
        IndexUnique(areas, k - 1);
      }
      var at := if prev.None? then 0 else IndexOf(areas, prev.value) + 1;
      areas := areas[..at] + [va] + areas[at..];
      Rebalance();
    }

    /** __insert_vmap_area. */
    method InsertArea(va: Area) returns (ghost k: nat)
      requires Valid() && 0 <= va.start < va.end < SPACE && Clear(areas, va.start, va.end)
      modifies `root, `areas
      ensures Valid() && k <= |old(areas)| && areas == Inserted(old(areas), k, va)
    {
      var prev;
      prev, k := FindPlace(root, areas, va);
      InsertKeepsList(areas, lazy, k, va);
      InsertKeepsCache(areas, k, va, cache, hole, cvstart, calign);
      LinkAfter(prev, va, k);
    }

    /** The second loop of alloc_vmap_area: from the hole below `start` upward, area by area. The result is the lowest
        fit at or above `lo`; the cached hole size is raised past every hole that was too small. */
    method WalkAreas(start: Area, from: int, size: int, align: int, vend: int, ghost k: nat, ghost vstart: int,
        ghost lo: int)
      returns (r: Option<int>)
      requires Sorted(areas) && k < |areas| && areas[k] == start && vend < SPACE
      requires align > 0 && RoundsInSpace(align) && 0 <= hole <= size && 0 < size < SPACE && 0 <= from
      requires from + size < SPACE && WalkAt(areas, size, align, vstart, vend, lo, k, from, hole)
      modifies `hole
      ensures old(hole) <= hole <= size
      ensures r.Some? ==> r.value + size <= vend && WalkFound(areas, size, align, vstart, vend, lo, r.value, hole)
      ensures r.Some? ==> Seen(areas, align, lo, r.value, old(hole), hole)
      ensures r.None? ==> NoFitIn(areas, size, align, vstart, vend, lo, SPACE)
    {
      var list := areas;
      var first, addr := start, from;
      IndexUnique(list, k);
      var i := IndexOf(list, first);
      while addr + size > first.start && addr + size <= vend
        invariant 0 <= i < |list| && list[i] == first
        invariant old(hole) <= hole <= size && 0 <= addr && addr + size < SPACE
        invariant WalkAt(list, size, align, vstart, vend, lo, i, addr, hole)
        invariant Seen(list, align, lo, addr, old(hole), hole)
        decreases |list| - i
      {
        ghost var was := hole;
        StepSees(list, size, align, vstart, vend, lo, i, addr, old(hole), hole);
        if Plus(addr, hole) < first.start {
          hole := first.start - addr;
        }
        WalkStep(list, size, align, vstart, vend, lo, i, addr, was, hole);
        addr := AlignUp(first.end, align);
        if Plus(addr, size) < addr {
          NoFitAbove(list, size, align, vstart, vend, lo, addr);
          return None;
        }
        i := i + 1;
        if i == |list| {
          break;
        }
        first := list[i];
      }
      if addr + size > vend {
        NoFitAbove(list, size, align, vstart, vend, lo, addr);
        return None;
      }
      WalkStops(list, size, align, vstart, vend, lo, i, addr, hole);
      return Some(addr);
    }

    /** The head of alloc_vmap_area: drop the cache if it does not serve this request, record the request, and choose
        where to start. */
    method ChooseStart(size: int, align: int, vstart: int) returns (addr: int)
      requires Valid() && PowerOfTwo(align) && 0 < align && 0 < size
      modifies `cache, `hole, `cvstart, `calign
      ensures Valid() && cvstart == vstart && calign == align && 0 <= hole <= size
      ensures addr == old(ScanStart(size, align, vstart)) && Covered(areas, align, vstart, addr, hole)
      ensures cache == if old(UsesCache(size, align, vstart)) then old(cache) else None
      ensures hole == if old(UsesCache(size, align, vstart)) then old(hole) else 0
      ensures cache.Some? ==> addr == AlignUp(cache.value.end, align)
    {
      if cache.None? || size < hole || vstart < cvstart || align < calign {
        hole := 0;
        cache := None;
      }
      if cache.Some? {
        var k := IndexOf(areas, cache.value);
        CoveredFromCache(areas, k, calign, cvstart, hole, align, vstart);
        BoundForLessPermissive(areas, calign, cvstart, cache.value.start, hole, align, vstart, hole);
      }
      cvstart := vstart;
      calign := align;
      if cache.Some? {
        addr := AlignUp(cache.value.end, align);
        if addr < vstart {
          hole := 0;
          cache := None;
        }
      }
      if cache.None? {
        addr := AlignUp(vstart, align);
        CoveredFromStart(areas, align, vstart, hole);
      }
    }

    /** The area the walk starts at: the cached one, or the first one reaching the start address. */
    method StartArea(addr: int, size: int, align: int, ghost vstart: int, ghost vend: int)
      returns (first: Option<Area>, ghost k: nat)
      requires Valid() && align > 0 && size > 0 && Aligned(addr, align) && Covered(areas, align, vstart, addr, hole)
      requires cache.Some? ==> addr == AlignUp(cache.value.end, align)
      ensures k <= |areas| && WalkAt(areas, size, align, vstart, vend, addr, k, addr, hole)
      ensures if first.Some? then k < |areas| && areas[k] == first.value else k == |areas|
    {
      if cache.Some? {
        first := cache;
        k := IndexOf(areas, cache.value);
        assert forall j :: 0 <= j < k ==> areas[j].end <= areas[k].start;
      } else {
        first, k := FindFirst(root, areas, addr);
      }
    }

    /** The search of alloc_vmap_area from the chosen start. */
    method Search(addr: int, size: int, align: int, vend: int, ghost vstart: int) returns (r: Option<int>)
      requires Valid() && GoodRequest(size, align, vstart, vend) && 0 <= hole <= size && 0 <= addr < SPACE
      requires Aligned(addr, align)
      requires Covered(areas, align, vstart, addr, hole)
      requires cache.Some? ==> addr == AlignUp(cache.value.end, align)
      modifies `hole
      ensures Valid() && old(hole) <= hole <= size
      ensures r.Some? ==> r.value + size <= vend && WalkFound(areas, size, align, vstart, vend, addr, r.value, hole)
      ensures r.Some? ==> Seen(areas, align, addr, r.value, old(hole), hole)
      ensures r.None? ==> NoFitIn(areas, size, align, vstart, vend, addr, SPACE)
    {
      if Plus(addr, size) < addr {
        NoFitAbove(areas, size, align, vstart, vend, addr, addr);
        return None;
      }
      var first;
      ghost var k;
      first, k := StartArea(addr, size, align, vstart, vend);
      if first.Some? {
        r := WalkAreas(first.value, addr, size, align, vend, k, vstart, addr);
        RaisedHole(areas, cache, old(hole), hole, cvstart, calign);
      } else if addr + size > vend {
        NoFitAbove(areas, size, align, vstart, vend, addr, addr);
        r := None;
      } else {
        WalkStops(areas, size, align, vstart, vend, addr, k, addr, hole);
        r := Some(addr);
      }
    }

    /** One pass of alloc_vmap_area under the lock: the lowest fit at or above the place where the scan starts, or
        nothing exactly when there is none there. A fit that is missed lies below that place and has exactly the cached
        hole size. */
    method TryAlloc(size: int, align: int, vstart: int, vend: int) returns (r: Option<Area>)
      requires Valid() && GoodRequest(size, align, vstart, vend)
      modifies this
      ensures Valid() && lazy == old(lazy) && pcpuHole == old(pcpuHole) && cvstart == vstart && calign == align
      ensures r.Some? ==>
        && r.value.end == r.value.start + size && Fits(old(areas), size, align, vstart, vend, r.value.start)
        && old(ScanStart(size, align, vstart)) <= r.value.start
        && NoFitIn(old(areas), size, align, vstart, vend, old(ScanStart(size, align, vstart)), r.value.start)
        && exists k :: 0 <= k <= |old(areas)| && areas == Inserted(old(areas), k, r.value)
      ensures r.Some? ==>
        && cache == r && Covered(old(areas), align, vstart, r.value.start, hole)
        && Seen(old(areas), align, old(ScanStart(size, align, vstart)), r.value.start,
           old(KnownHole(size, align, vstart)), hole)
      ensures r.None? ==> areas == old(areas) && cache == if old(UsesCache(size, align, vstart)) then old(cache)
          else None
      ensures r.None? ==> NoFitIn(areas, size, align, vstart, vend, old(ScanStart(size, align, vstart)), SPACE)
      ensures r.None? ==> NothingLarger(areas, size, align, vstart, vend)
      ensures r.None? ==> (HasFit(areas, size, align, vstart, vend) <==>
        && old(UsesCache(size, align, vstart)) && old(hole) == size
        && !NoFitIn(areas, size, align, vstart, vend, vstart, old(ScanStart(size, align, vstart))))
    {
      var addr := ChooseStart(size, align, vstart);
      ghost var known := hole;
      var found := Search(addr, size, align, vend, vstart);
      if found.None? {
        FailureMeans(areas, size, align, vstart, vend, addr, known);
        return None;
      }
      var va := Area(found.value, found.value + size);
      ghost var was := areas;
      ghost var k := InsertArea(va);
      BoundBelowFound(was, k, va, align, vstart, hole);
      cache := Some(va);
      return Some(va);
    }

    /** The cache part of __free_vmap_area. */
    method ForgetCached(k: nat)
      requires Sorted(areas) && k < |areas|
      modifies `cache
      ensures cache == CacheAfterFree(areas, k, old(cache), cvstart)
    {
      if cache.Some? {
        if areas[k].end < cvstart {
          cache := None;
        } else if areas[k].start <= cache.value.start {
          cache := if k == 0 then None else Some(areas[k - 1]);
        }
      }
    }

    /** rb_erase and list_del. */
    method Erase(k: nat)
      requires ListOk(areas, lazy) && k < |areas|
      modifies `areas, `root, `lazy
      ensures areas == Removed(old(areas), k) && InOrder(root) == areas
      ensures lazy == old(lazy) - {old(areas)[k]} && ListOk(areas, lazy)
    {
      RemoveKeepsList(areas, lazy, k);
      lazy := lazy - {areas[k]};
      areas := Removed(areas, k);
      Rebalance();
    }

    /** __free_vmap_area. */
    method FreeArea(va: Area)
      requires Valid() && va in areas
      modifies this
      ensures Valid() && lazy == old(lazy) - {va}
      ensures forall a :: a in areas <==> a in old(areas) && a != va
      ensures hole == old(hole) && cvstart == old(cvstart) && calign == old(calign)
      ensures var k := IndexOf(old(areas), va);
        areas == Removed(old(areas), k) && cache == CacheAfterFree(old(areas), k, old(cache), cvstart)
      ensures pcpuHole == if va.end > vmallocStart && va.end <= vmallocEnd && va.end > old(pcpuHole) then va.end
          else old(pcpuHole)
    {
      var k := IndexOf(areas, va);
      FreeKeepsCache(areas, k, cache, hole, cvstart, calign);
      RemovedMembers(areas, k);
      ForgetCached(k);
      Erase(k);
      if va.end > vmallocStart && va.end <= vmallocEnd && va.end > pcpuHole {
        pcpuHole := va.end;
      }
    }

    /** free_vmap_area_noflush: the area stays mapped until the next purge. */
    method FreeLazily(va: Area)
      requires Valid() && va in areas
      modifies `lazy
      ensures Valid() && lazy == old(lazy) + {va}
    {
      lazy := lazy + {va};
    }

    method CollectLazy() returns (valist: seq<Area>)
      requires Valid()
      ensures forall a :: a in valist <==> a in lazy
      ensures forall j, l :: 0 <= j < l < |valist| ==> valist[j] != valist[l]
    {
      valist := [];
      var i := 0;
      while i < |areas|
        invariant 0 <= i <= |areas|
        invariant forall a :: a in valist <==> a in areas[..i] && a in lazy
        invariant forall j, l :: 0 <= j < l < |valist| ==> valist[j] != valist[l]
      {
        assert forall j :: 0 <= j < i ==> areas[j] != areas[i];
        if areas[i] in lazy {
          valist := valist + [areas[i]];
        }
        i := i + 1;
      }
      assert areas[..i] == areas;
    }

    /** The loop body of the purge: one collected area goes, whatever that does to the cache. */
    method FreeCollected(va: Area)
      requires Valid() && va in lazy
      modifies this
      ensures Valid() && lazy == old(lazy) - {va} && forall a :: a in areas <==> a in old(areas) && a != va
    {
      FreeArea(va);
    }

    /** __purge_vmap_area_lazy: collect the lazily freed areas off the list, then free them one by one. */
    method Purge()
      requires Valid()
      modifies this
      ensures Valid() && lazy == {}
      ensures forall a :: a in areas <==> a in old(areas) && a !in old(lazy)
    {
      var valist := CollectLazy();
      var i := 0;
      while i < |valist|
        invariant 0 <= i <= |valist| && Valid() && lazy <= old(lazy)
        invariant forall j :: 0 <= j < i ==> valist[j] !in lazy
        invariant forall j :: i <= j < |valist| ==> valist[j] in lazy
        invariant forall a :: a in areas <==> a in old(areas) && (a in old(lazy) ==> a in lazy)
      {
        FreeCollected(valist[i]);
        i := i + 1;
      }
    }

    /** alloc_vmap_area: try, and on failure purge once and try again. */
    method Alloc(size: int, align: int, vstart: int, vend: int) returns (r: Option<Area>)
      requires Valid() && GoodRequest(size, align, vstart, vend)
      modifies this
      ensures Valid()
      ensures r.Some? ==>
        && r.value in areas && r.value.end == r.value.start + size
        && Aligned(r.value.start, align) && vstart <= r.value.start && r.value.end <= vend
        && (forall a :: a in areas && a != r.value ==> a in old(areas))
        && (forall a :: a in areas && a != r.value ==> a.end <= r.value.start || r.value.end <= a.start)
        && (forall a :: a in old(areas) && a !in old(lazy) ==> a in areas && a != r.value)
      ensures r.None? ==> lazy == {} && NothingLarger(areas, size, align, vstart, vend)
      ensures r.None? ==> forall a :: a in areas <==> a in old(areas) && a !in old(lazy)
    {
      var purged := false;
      while true
        invariant Valid() && GoodRequest(size, align, vstart, vend)
        invariant !purged ==> areas == old(areas) && lazy == old(lazy)
        invariant purged ==> lazy == {} && forall a :: a in areas <==> a in old(areas) && a !in old(lazy)
        decreases if purged then 0 else 1
      {
        ghost var was := areas;
        r := TryAlloc(size, align, vstart, vend);
        if r.Some? {
          PlacedApart(was, areas, r.value);
          return;
        }
        if purged {
          return;
        }
        Purge();
        purged := true;
      }
    }
  }

  lemma PlacedApart(was: seq<Area>, areas: seq<Area>, va: Area)
    requires va.start < va.end && Clear(was, va.start, va.end) && Sorted(was)
    requires exists k :: 0 <= k <= |was| && areas == Inserted(was, k, va)
    ensures va in areas && forall a :: a in areas && a != va ==> a in was && (a.end <= va.start || va.end <= a.start)
    ensures forall a :: a in was ==> a in areas && a != va
  {
    var k :| 0 <= k <= |was| && areas == Inserted(was, k, va);
    InsertedMembers(was, k, va);
    forall a | a in was
      ensures a != va && (a.end <= va.start || va.end <= a.start)
    {
      var i :| 0 <= i < |was| && was[i] == a;
    }
  }

  // --- the exact fit that is missed ----------------------------------------------------------------------

  lemma PageMultiple(q: int)
    ensures Aligned(q * 0x1000, 0x1000) && AlignUp(q * 0x1000, 0x1000) == q * 0x1000
  {
    MultipleAligned(q, 0x1000);
    AlignUpLeast(q * 0x1000, 0x1000, q * 0x1000);
  }

  /** A cache recorded for pages from address 0 serves any request for pages that is not below the known hole size. */
  lemma StartAt(v: VmapAllocator, size: int, x: int)
    requires v.cache.Some? && v.cache.value.end == x && 0 <= x && Aligned(x, 0x1000)
    requires v.hole <= size && v.cvstart == 0 && v.calign == 0x1000
    ensures v.UsesCache(size, 0x1000, 0) && v.ScanStart(size, 0x1000, 0) == x && v.KnownHole(size, 0x1000, 0) == v.hole
  {
    AlignUpLeast(x, 0x1000, x);
  }

  lemma InsertedBefore(areas: seq<Area>, k: nat, va: Area)
    requires k < |areas| && Sorted(Inserted(areas, k, va))
    ensures va.start < areas[k].end
  {
    assert Inserted(areas, k, va)[k + 1] == areas[k];
  }

  lemma InsertedLast(areas: seq<Area>, k: nat, va: Area)
    requires k <= |areas| && Sorted(Inserted(areas, k, va)) && forall a :: a in areas ==> a.end <= va.start
    ensures Inserted(areas, k, va) == areas + [va]
  {
    forall j | k <= j < |areas| && j == k
      ensures va.start < areas[j].end && areas[j] in areas
    {
      InsertedBefore(areas, j, va);
    }
  }

  /** What is free above everything is a fit. */
  lemma AboveFits(areas: seq<Area>, size: int, x: int)
    requires 0 <= x && x + size <= 0x5000 && Aligned(x, 0x1000) && forall a :: a in areas ==> a.end <= x
    ensures Fits(areas, size, 0x1000, 0, 0x5000, x)
  {
    assert forall i :: 0 <= i < |areas| ==> areas[i] in areas;
  }

  /** A request below five pages finds its first fit at x, above everything that is mapped. */
  ghost predicate FitsAbove(v: VmapAllocator, size: int, x: int)
    reads v
  {
    && v.Valid() && 0 < size < SPACE && v.RoundsInSpace(0x1000) && EndBy(v.areas, x)
    && v.ScanStart(size, 0x1000, 0) <= x && Fits(v.areas, size, 0x1000, 0, 0x5000, x)
    && NoFitIn(v.areas, size, 0x1000, 0, 0x5000, v.ScanStart(size, 0x1000, 0), x)
  }

  /** And is mapped there. */
  method MapAbove(v: VmapAllocator, size: int, ghost x: int) returns (r: Option<Area>)
    requires FitsAbove(v, size, x)
    modifies v
    ensures v.Valid() && r == Some(Area(x, x + size)) && v.areas == old(v.areas) + [r.value]
    ensures v.cache == r && v.cvstart == 0 && v.calign == 0x1000
    ensures Covered(old(v.areas), 0x1000, 0, x, v.hole)
    ensures Seen(old(v.areas), 0x1000, old(v.ScanStart(size, 0x1000, 0)), x, old(v.KnownHole(size, 0x1000, 0)), v.hole)
  {
    ghost var was := v.areas;
    PageIsPower();
    r := v.TryAlloc(size, 0x1000, 0, 0x5000);
    assert Fits(was, size, 0x1000, 0, 0x5000, x);
    ghost var k :| 0 <= k <= |was| && v.areas == Inserted(was, k, r.value);
    InsertedLast(was, k, r.value);
  }

  ghost function Pages(n: nat): (s: seq<Area>)
    ensures |s| == n && forall i :: 0 <= i < n ==> s[i] == Area(i * 0x1000, (i + 1) * 0x1000)
    ensures forall a :: a in s ==> a.end <= n * 0x1000
  {
    if n == 0 then [] else Pages(n - 1) + [Area((n - 1) * 0x1000, n * 0x1000)]
  }

  /** n pages are mapped one after the other, and the last one is cached. */
  ghost predicate Mapped(v: VmapAllocator, n: nat)
    reads v
  {
    && v.Valid() && v.areas == Pages(n)
    && if n == 0 then v.cache == None
       else v.cache == Some(Area((n - 1) * 0x1000, n * 0x1000)) && v.hole == 0 && v.cvstart == 0 && v.calign == 0x1000
  }

  method MapPage(v: VmapAllocator, n: nat)
    requires Mapped(v, n) && n < 5
    modifies v
    ensures Mapped(v, n + 1)
  {
    PageMultiple(n);
    AboveFits(v.areas, 0x1000, n * 0x1000);
    ghost var start, known := v.ScanStart(0x1000, 0x1000, 0), v.KnownHole(0x1000, 0x1000, 0);
    assert start == n * 0x1000 && known == 0;
    var r := MapAbove(v, 0x1000, n * 0x1000);
  }

  method MapThree() returns (v: VmapAllocator)
    ensures fresh(v) && Mapped(v, 3)
  {
    v := new VmapAllocator(0, 0x5000);
    MapPage(v, 0);
    MapPage(v, 1);
    MapPage(v, 2);
  }

  /** One page free between mapped ones, below the cached area, and known as the largest hole there. */
  ghost predicate HoleBelow(v: VmapAllocator)
    reads v
  {
    && v.Valid() && v.areas == [Area(0, 0x1000), Area(0x2000, 0x3000), Area(0x3000, 0x5000)]
    && v.cache == Some(Area(0x3000, 0x5000)) && v.hole == 0x1000 && v.cvstart == 0 && v.calign == 0x1000
  }

  /** The middle one of three pages is freed, which moves the cache to the first one. */
  method FreeMiddle(v: VmapAllocator)
    requires Mapped(v, 3)
    modifies v
    ensures v.Valid() && v.areas == [Area(0, 0x1000), Area(0x2000, 0x3000)]
    ensures v.cache == Some(Area(0, 0x1000)) && v.hole == 0 && v.cvstart == 0 && v.calign == 0x1000
  {
    assert v.areas == [Area(0, 0x1000), Area(0x1000, 0x2000), Area(0x2000, 0x3000)];
    IndexUnique(v.areas, 1);
    v.FreeArea(Area(0x1000, 0x2000));
  }

  /** Every hole among the two pages left has one page. */
  lemma OnePageHoles(areas: seq<Area>, x: int, y: int)
    requires areas == [Area(0, 0x1000), Area(0x2000, 0x3000)] && 0x1000 <= x < y <= 0x3000 && Clear(areas, x, y)
    ensures y - x <= 0x1000
  {
    assert areas[1].end <= x || y <= areas[1].start;
  }

  /** A two-page request passes the hole, remembers its size, and is mapped above everything. */
  method MapBehindHole(v: VmapAllocator)
    requires v.Valid() && v.areas == [Area(0, 0x1000), Area(0x2000, 0x3000)]
    requires v.cache == Some(Area(0, 0x1000)) && v.hole == 0 && v.cvstart == 0 && v.calign == 0x1000
    modifies v
    ensures HoleBelow(v)
  {
    ghost var was := v.areas;
    FitsBehindHole(v);
    var r := MapAbove(v, 0x2000, 0x3000);
    HoleAtLeast(was, v.hole);
    HoleAtMost(was, v.hole);
    ThreeLeft(was);
  }

  lemma FitsBehindHole(v: VmapAllocator)
    requires v.Valid() && v.areas == [Area(0, 0x1000), Area(0x2000, 0x3000)]
    requires v.cache == Some(Area(0, 0x1000)) && v.hole == 0 && v.cvstart == 0 && v.calign == 0x1000
    ensures FitsAbove(v, 0x2000, 0x3000) && v.ScanStart(0x2000, 0x1000, 0) == 0x1000
    ensures v.KnownHole(0x2000, 0x1000, 0) == 0
  {
    var areas := v.areas;
    StartAt(v, 0x2000, 0x1000);
    AboveHole(areas);
    NoTwoPages(areas);
    var start := v.ScanStart(0x2000, 0x1000, 0);
    assert NoFitIn(areas, 0x2000, 0x1000, 0, 0x5000, start, 0x3000);
  }

  lemma ThreeLeft(areas: seq<Area>)
    requires areas == [Area(0, 0x1000), Area(0x2000, 0x3000)]
    ensures areas + [Area(0x3000, 0x5000)] == [Area(0, 0x1000), Area(0x2000, 0x3000), Area(0x3000, 0x5000)]
  {
  }

  lemma AboveHole(areas: seq<Area>)
    requires areas == [Area(0, 0x1000), Area(0x2000, 0x3000)]
    ensures Fits(areas, 0x2000, 0x1000, 0, 0x5000, 0x3000) && EndBy(areas, 0x3000) && EndBy(areas, SPACE - 0x1000)
  {
  }

  lemma NoTwoPages(areas: seq<Area>)
    requires areas == [Area(0, 0x1000), Area(0x2000, 0x3000)]
    ensures NoFitIn(areas, 0x2000, 0x1000, 0, 0x5000, 0x1000, 0x3000)
  {
    forall x | 0x1000 <= x < 0x3000
      ensures !Fits(areas, 0x2000, 0x1000, 0, 0x5000, x)
    {
      assert areas[1].start == 0x2000 && areas[1].end == 0x3000;
    }
  }

  lemma HoleAtLeast(areas: seq<Area>, hole: int)
    requires areas == [Area(0, 0x1000), Area(0x2000, 0x3000)] && Covered(areas, 0x1000, 0, 0x3000, hole)
    ensures hole >= 0x1000
  {
    assert Clear(areas, 0x1000, 0x2000);
  }

  lemma HoleAtMost(areas: seq<Area>, hole: int)
    requires areas == [Area(0, 0x1000), Area(0x2000, 0x3000)] && Seen(areas, 0x1000, 0x1000, 0x3000, 0, hole)
    ensures hole <= 0x1000
  {
    if hole != 0 {
      var x, y :| 0x1000 <= x < y <= 0x3000 && Aligned(x, 0x1000) && Clear(areas, x, y) && y - x == hole;
      OnePageHoles(areas, x, y);
    }
  }

  /** The exact fit that the allocator misses: after these calls a one-page hole is free, and a one-page request, whose
      search starts past everything, finds nothing. */
  method ExactFitIsMissed() returns (v: VmapAllocator, r: Option<Area>)
    ensures fresh(v) && v.Valid() && v.areas == [Area(0, 0x1000), Area(0x2000, 0x3000), Area(0x3000, 0x5000)]
    ensures r == None && Fits(v.areas, 0x1000, 0x1000, 0, 0x5000, 0x1000)
  {
    v := MapThree();
    FreeMiddle(v);
    MapBehindHole(v);
    r := RequestPage(v);
  }

  lemma HoleFits(areas: seq<Area>)
    requires areas == [Area(0, 0x1000), Area(0x2000, 0x3000), Area(0x3000, 0x5000)]
    ensures Fits(areas, 0x1000, 0x1000, 0, 0x5000, 0x1000) && EndBy(areas, SPACE - 0x1000)
  {
  }

  method RequestPage(v: VmapAllocator) returns (r: Option<Area>)
    requires HoleBelow(v)
    modifies v
    ensures v.Valid() && v.areas == [Area(0, 0x1000), Area(0x2000, 0x3000), Area(0x3000, 0x5000)]
    ensures r == None && Fits(v.areas, 0x1000, 0x1000, 0, 0x5000, 0x1000)
  {
    PageIsPower();
    StartAt(v, 0x1000, 0x5000);
    HoleFits(v.areas);
    r := v.TryAlloc(0x1000, 0x1000, 0, 0x5000);
  }

  lemma PageIsPower()
    ensures PowerOfTwo(0x1000)
  {
    assert Arith.Pow2(12) == 0x1000;
  }
}
