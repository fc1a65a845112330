/** Congruent areas for the per-cpu allocator: one base address such that every base + offset range is free, searched
    from the top. */
module PercpuAreas {
  import Arith
  import opened Options
  import opened Alignment
  import opened VmapAreas
  import opened Vmalloc

  function Minus(a: int, b: int): int { if a >= b then a - b else a - b + SPACE }

  /** An address that may have gone below 0, as the machine holds it. */
  function Wrap(x: int): int { if x < 0 then x + SPACE else x }

  function Min(a: int, b: int): int { if a <= b then a else b }

  // --- layouts ---------------------------------------------------------------------------------------

  ghost predicate AreaOk(offsets: seq<int>, sizes: seq<int>, align: int, a: nat)
    requires align > 0 && a < |offsets| && a < |sizes|
  {
    0 <= offsets[a] && 0 < sizes[a] && Aligned(offsets[a], align) && Aligned(offsets[a] + sizes[a], align)
  }

  /** What the checks at the head of pcpu_get_vm_areas demand: aligned areas, no two of which overlap. */
  ghost predicate GoodLayout(offsets: seq<int>, sizes: seq<int>, align: int)
  {
    && PowerOfTwo(align) && align > 0 && |offsets| == |sizes| > 0
    && (forall a :: 0 <= a < |offsets| ==> AreaOk(offsets, sizes, align, a))
    && (forall a, b :: 0 <= a < |offsets| && 0 <= b < |offsets| && a != b ==>
          offsets[a] + sizes[a] <= offsets[b] || offsets[b] + sizes[b] <= offsets[a])
  }

  ghost predicate AreaFits(areas: seq<Area>, offsets: seq<int>, sizes: seq<int>, base: int, a: int)
    requires 0 <= a < |offsets| == |sizes|
  {
    Clear(areas, base + offsets[a], base + offsets[a] + sizes[a])
  }

  /** The base puts every area on free addresses. */
  ghost predicate Feasible(areas: seq<Area>, offsets: seq<int>, sizes: seq<int>, align: int, lo: int, base: int)
    requires align > 0 && |offsets| == |sizes|
  {
    lo <= base && Aligned(base, align) && forall a :: 0 <= a < |offsets| ==> AreaFits(areas, offsets, sizes, base, a)
  }

  ghost predicate NoneFeasible(areas: seq<Area>, offsets: seq<int>, sizes: seq<int>, align: int, lo: int, above: int,
      top: int)
    requires align > 0 && |offsets| == |sizes|
  {
    forall b {:trigger Feasible(areas, offsets, sizes, align, lo, b)} ::
      above < b <= top ==> !Feasible(areas, offsets, sizes, align, lo, b)
  }

  /** `last` is the area with the highest offset, and so the one that ends last. */
  method LastArea(offsets: seq<int>, sizes: seq<int>, align: int) returns (last: nat)
    requires GoodLayout(offsets, sizes, align)
    ensures last < |offsets| && forall a :: 0 <= a < |offsets| ==> offsets[a] + sizes[a] <= offsets[last] + sizes[last]
  {
    last := 0;
    for area := 0 to |offsets|
      invariant last < |offsets| && forall a :: 0 <= a < area ==> offsets[a] <= offsets[last]
    {
      if offsets[area] > offsets[last] {
        last := area;
      }
    }
    forall a | 0 <= a < |offsets|
      ensures offsets[a] + sizes[a] <= offsets[last] + sizes[last]
    {
      assert AreaOk(offsets, sizes, align, a) && AreaOk(offsets, sizes, align, last);
    }
  }

  // --- neighbours --------------------------------------------------------------------------------------

  /** `next` and `prev` are the areas on either side of position p in the list. */
  ghost predicate Between(areas: seq<Area>, p: nat, next: Option<Area>, prev: Option<Area>)
  {
    && p <= |areas|
    && next == (if p < |areas| then Some(areas[p]) else None)
    && prev == (if p > 0 then Some(areas[p - 1]) else None)
  }

  /** All areas below position p end at or below `end`, all others above it. */
  ghost predicate Splits(areas: seq<Area>, p: nat, end: int)
  {
    && p <= |areas|
    && (forall j :: 0 <= j < p ==> areas[j].end <= end)
    && (forall j :: p <= j < |areas| ==> end < areas[j].end)
  }

  function PrevOf(areas: seq<Area>, va: Area): Option<Area>
    requires va in areas
  {
    var k := IndexOf(areas, va);
    if k == 0 then None else Some(areas[k - 1])
  }

  function NextOf(areas: seq<Area>, va: Area): Option<Area>
    requires va in areas
  {
    var k := IndexOf(areas, va);
    if k == |areas| - 1 then None else Some(areas[k + 1])
  }

  lemma SplitAt(areas: seq<Area>, m: nat, end: int)
    requires Sorted(areas) && m < |areas| && areas[m].end == end
    ensures Splits(areas, m + 1, end)
  {
    forall j | m < j < |areas|
      ensures end < areas[j].end
    {
      assert areas[m].end <= areas[j].start;
    }
  }

  /** The descent of pvm_find_next_prev: the last node visited is next to the address. */
  method LastVisited(root: Tree, areas: seq<Area>, end: int) returns (va: Option<Area>, ghost p: nat)
    requires InOrder(root) == areas && Sorted(areas)
    ensures va.None? <==> areas == []
    ensures va.Some? ==> Splits(areas, p, end)
    ensures va.Some? ==>
      if end < va.value.end then p < |areas| && va.value == areas[p] else p > 0 && va.value == areas[p - 1]
  {
    var n := root;
    ghost var hi := |areas|;
    va, p := None, 0;
    while n.Node?
      invariant p <= hi <= |areas| && InOrder(n) == areas[p..hi]
      invariant forall j :: 0 <= j < p ==> areas[j].end < end
      invariant forall j :: hi <= j < |areas| ==> end < areas[j].end
      invariant va.None? ==> p == 0 && hi == |areas|
      invariant va.Some? ==>
        if end < va.value.end then hi < |areas| && va.value == areas[hi] else p > 0 && va.value == areas[p - 1]
      decreases n
    {
      va := Some(n.va);
      ghost var m := NodeSlice(areas, p, hi, n);
      if end < n.va.end {
        hi := m;
        n := n.left;
      } else if end > n.va.end {
        p := m + 1;
        n := n.right;
      } else {
        SplitAt(areas, m, end);
        p := m + 1;
        return;
      }
    }
  }

  /** pvm_find_next_prev: the areas around an end address; nothing only when no area is mapped. */
  method FindNextPrev(root: Tree, areas: seq<Area>, end: int)
    returns (found: bool, next: Option<Area>, prev: Option<Area>, ghost p: nat)
    requires InOrder(root) == areas && Sorted(areas)
    ensures found <==> areas != []
    ensures found ==> Between(areas, p, next, prev) && Splits(areas, p, end)
  {
    var va;
    va, p := LastVisited(root, areas, end);
    next, prev := None, None;
    if va.None? {
      return false, next, prev, p;
    }
    if va.value.end > end {
      IndexUnique(areas, p);
      next := va;
      prev := PrevOf(areas, va.value);
    } else {
      IndexUnique(areas, p - 1);
      prev := va;
      next := NextOf(areas, va.value);
    }
    found := true;
  }

  /** The highest aligned end below the area at position p. */
  ghost function EndBelow(areas: seq<Area>, p: nat, align: int, top: int): int
    requires p <= |areas| && align > 0
  {
    if p == |areas| then top else Min(AlignDown(areas[p].start, align), top)
  }

  /** pvm_determine_end, with the two areas moved down to enclose the address. */
  method DetermineEnd(areas: seq<Area>, next0: Option<Area>, prev0: Option<Area>, align: int, vmallocEnd: int,
      ghost p0: nat)
    returns (next: Option<Area>, prev: Option<Area>, addr: int, ghost p: nat)
    requires Sorted(areas) && align > 0 && Between(areas, p0, next0, prev0)
    ensures addr == EndBelow(areas, p0, align, AlignDown(vmallocEnd, align))
    ensures Between(areas, p, next, prev)
    ensures (next.Some? ==> addr < next.value.end) && (prev.Some? ==> prev.value.end <= addr)
  {
    next, prev, p := next0, prev0, p0;
    var top := AlignDown(vmallocEnd, align);
    if next.Some? {
      addr := Min(AlignDown(next.value.start, align), top);
    } else {
      addr := top;
    }
    while prev.Some? && prev.value.end > addr
      invariant Between(areas, p, next, prev) && (next.Some? ==> addr < next.value.end)
      decreases p
    {
      IndexUnique(areas, p - 1);
      next := prev;
      prev := PrevOf(areas, next.value);
      p := p - 1;
    }
  }

  // --- the search --------------------------------------------------------------------------------------

  lemma AlignedSum(x: int, y: int, a: int)
    requires a > 0 && Aligned(x, a) && Aligned(y, a)
    ensures Aligned(x + y, a) && Aligned(x - y, a)
  {
    var q := AlignedIsMultiple(x, a);
    var r := AlignedIsMultiple(y, a);
    assert x + y == (q + r) * a && x - y == (q - r) * a;
    MultipleAligned(q + r, a);
    MultipleAligned(q - r, a);
  }

  lemma EndBelowAligned(areas: seq<Area>, p: nat, align: int, top: int)
    requires p <= |areas| && align > 0 && Aligned(top, align) && 0 <= top && Sorted(areas)
    ensures Aligned(EndBelow(areas, p, align, top), align) && 0 <= EndBelow(areas, p, align, top) <= top
  {
    if p < |areas| {
      AlignDownGreatest(areas[p].start, align, 0);
    }
  }

  /** An area that reaches above the start of the range pushes every feasible base below itself. */
  lemma PushedBelow(areas: seq<Area>, offsets: seq<int>, sizes: seq<int>, align: int, lo: int, hi: int, top: int,
                    p: nat, a: nat, base: int)
    requires GoodLayout(offsets, sizes, align) && a < |offsets| && p < |areas|
    requires NoneFeasible(areas, offsets, sizes, align, lo, base, top)
    requires base + offsets[a] < areas[p].end && base + offsets[a] + sizes[a] <= hi
    ensures NoneFeasible(areas, offsets, sizes, align, lo, EndBelow(areas, p, align, hi) - offsets[a] - sizes[a], top)
  {
    var end := offsets[a] + sizes[a];
    assert AreaOk(offsets, sizes, align, a);
    forall b | EndBelow(areas, p, align, hi) - end < b <= base
      ensures !Feasible(areas, offsets, sizes, align, lo, b)
    {
      if Feasible(areas, offsets, sizes, align, lo, b) {
        assert AreaFits(areas, offsets, sizes, b, a);
        AlignedSum(b, end, align);
        AlignDownGreatest(areas[p].start, align, b + end);
      }
    }
  }

  lemma FitsBetween(areas: seq<Area>, offsets: seq<int>, sizes: seq<int>, base: int, a: nat, p: nat, next: Option<Area>,
      prev: Option<Area>)
    requires Sorted(areas) && a < |offsets| == |sizes| && Between(areas, p, next, prev)
    requires next.Some? ==> base + offsets[a] + sizes[a] <= next.value.start
    requires prev.Some? ==> prev.value.end <= base + offsets[a]
    ensures AreaFits(areas, offsets, sizes, base, a)
  {
    forall j | 0 <= j < |areas|
      ensures areas[j].end <= base + offsets[a] || base + offsets[a] + sizes[a] <= areas[j].start
    {
      if j < p - 1 {
        assert areas[j].end <= areas[p - 1].start;
      } else if j > p {
        assert areas[p].end <= areas[j].start;
      }
    }
  }

  /** The area checked k steps after `term`, counting down around the layout. */
  function Back(term: int, k: int, n: int): int { if k <= term then term - k else term - k + n }

  lemma BackStep(term: int, k: int, n: int)
    requires 0 <= term < n && 0 <= k < n
    ensures (Back(term, k, n) + n - 1) % n == Back(term, if k + 1 < n then k + 1 else 0, n)
    ensures 0 <= Back(term, k, n) < n && (Back(term, k, n) == term <==> k == 0)
  {
    WrapDown(Back(term, k, n), n);
  }

  lemma WrapDown(area: int, n: int)
    requires 0 <= area < n
    ensures (area + n - 1) % n == if area == 0 then n - 1 else area - 1
  {
    if area == 0 {
      Arith.SmallMod(n - 1, n);
    } else {
      Arith.DivUnique(area + n - 1, n, 1);
    }
  }

  /** The state of the scan: the first k areas counted down from `term` fit at `base`, and no higher base is
      feasible. */
  ghost predicate Scan(areas: seq<Area>, offsets: seq<int>, sizes: seq<int>, align: int, lo: int, top: int,
                       base: int, term: int, k: nat)
    requires align > 0 && |offsets| == |sizes|
  {
    && 0 <= term < |offsets| && k < |offsets| && base <= top && Aligned(base, align)
    && (forall j :: 0 <= j < k ==> AreaFits(areas, offsets, sizes, base, Back(term, j, |offsets|)))
    && NoneFeasible(areas, offsets, sizes, align, lo, base, top)
  }

  lemma ScanDone(areas: seq<Area>, offsets: seq<int>, sizes: seq<int>, align: int, lo: int, top: int, base: int,
      term: int, k: nat)
    requires align > 0 && |offsets| == |sizes| && Scan(areas, offsets, sizes, align, lo, top, base, term, k)
    requires k + 1 == |offsets| && AreaFits(areas, offsets, sizes, base, Back(term, k, |offsets|)) && lo <= base
    ensures Feasible(areas, offsets, sizes, align, lo, base)
  {
    forall a | 0 <= a < |offsets|
      ensures AreaFits(areas, offsets, sizes, base, a)
    {
      var j := Back(term, a, |offsets|);
      assert Back(term, j, |offsets|) == a;
    }
  }

  /** Moving the base below the area at position p restarts the round at `a`. */
  lemma ScanMoves(areas: seq<Area>, offsets: seq<int>, sizes: seq<int>, align: int, lo: int, hi: int, top: int,
                  base: int, term: int, k: nat, a: nat, p: nat, addr: int)
    requires GoodLayout(offsets, sizes, align) && Sorted(areas) && a < |offsets| && p < |areas|
    requires Scan(areas, offsets, sizes, align, lo, top, base, term, k)
    requires base + offsets[a] < areas[p].end && base + offsets[a] + sizes[a] <= hi && 0 <= hi && Aligned(hi, align)
    requires addr == EndBelow(areas, p, align, hi) && areas[p].start < base + offsets[a] + sizes[a]
    ensures Scan(areas, offsets, sizes, align, lo, top, addr - offsets[a] - sizes[a], a, 0)
    ensures 0 <= addr <= hi && addr - offsets[a] - sizes[a] < base
  {
    PushedBelow(areas, offsets, sizes, align, lo, hi, top, p, a, base);
    EndBelowAligned(areas, p, align, hi);
    assert AreaOk(offsets, sizes, align, a);
    AlignedSum(addr, offsets[a] + sizes[a], align);
  }

  /** The areas around the end of the range that is being checked. */
  ghost predicate Encloses(areas: seq<Area>, p: nat, next: Option<Area>, prev: Option<Area>, end: int)
  {
    && Between(areas, p, next, prev)
    && (next.Some? ==> end < next.value.end)
    && (prev.Some? ==> prev.value.end <= end)
  }

  lemma SplitsEncloses(areas: seq<Area>, p: nat, next: Option<Area>, prev: Option<Area>, end: int)
    requires Between(areas, p, next, prev) && Splits(areas, p, end)
    ensures Encloses(areas, p, next, prev, end)
  {
  }

  ghost predicate GoodSearch(areas: seq<Area>, offsets: seq<int>, sizes: seq<int>, align: int, last: nat, lo: int,
      hi: int)
  {
    && Sorted(areas) && GoodLayout(offsets, sizes, align) && last < |offsets|
    && (forall a :: 0 <= a < |offsets| ==> offsets[a] + sizes[a] <= offsets[last] + sizes[last])
    && 0 <= lo && Aligned(lo, align) && Aligned(hi, align) && hi < SPACE && lo + offsets[last] + sizes[last] <= hi
  }

  /** The highest base that the hint allows. */
  ghost predicate TopFromHint(areas: seq<Area>, hint: int, align: int, hi: int, topEnd: int)
    requires align > 0
  {
    if areas == [] then topEnd == hi
    else exists p {:trigger Splits(areas, p, hint)} ::
      0 <= p && Splits(areas, p, hint) && topEnd == EndBelow(areas, p, align, hi)
  }

  /** A base as the machine holds it, for the area that ends `end` above it. */
  ghost predicate BaseOk(base: int, tb: int, end: int, lastEnd: int, hi: int)
  {
    base == Wrap(tb) && 0 <= tb + end && tb + lastEnd <= hi && -lastEnd <= tb
  }

  /** The area that is being checked. */
  ghost predicate Checks(offsets: seq<int>, sizes: seq<int>, align: int, last: nat, area: int, start: int, end: int)
    requires align > 0 && last < |offsets| && |offsets| == |sizes|
  {
    && 0 <= area < |offsets| && start == offsets[area] && end == start + sizes[area]
    && 0 <= start < end <= offsets[last] + sizes[last] && Aligned(end, align)
  }

  lemma ChecksArea(areas: seq<Area>, offsets: seq<int>, sizes: seq<int>, align: int, last: nat, lo: int, hi: int,
      area: nat)
    requires align > 0 && GoodSearch(areas, offsets, sizes, align, last, lo, hi) && area < |offsets|
    ensures Checks(offsets, sizes, align, last, area, offsets[area], offsets[area] + sizes[area])
  {
    assert AreaOk(offsets, sizes, align, area);
  }

  /** The sums that the code compares do not wrap in the end. */
  lemma SumsTrue(base: int, tb: int, end: int, lastEnd: int, lo: int, hi: int)
    requires BaseOk(base, tb, end, lastEnd, hi) && 0 < end <= lastEnd && 0 <= lo && lo + lastEnd <= hi < SPACE
    ensures Plus(base, lastEnd) == tb + lastEnd && Plus(lo, lastEnd) == lo + lastEnd && Plus(base, end) == tb + end
  {
  }

  /** The area before and the one before that enclose the place below. */
  lemma StepBack(areas: seq<Area>, p: nat, next: Option<Area>, prev: Option<Area>)
    requires Sorted(areas) && Between(areas, p, next, prev) && prev.Some?
    ensures p > 0 && prev.value in areas && Between(areas, p - 1, prev, PrevOf(areas, prev.value))
  {
    IndexUnique(areas, p - 1);
  }

  /** Both ways of moving the base down: below an area that reaches into the range. */
  method PullDown(areas: seq<Area>, next0: Option<Area>, prev0: Option<Area>, offsets: seq<int>, sizes: seq<int>,
      align: int, vmallocEnd: int, area: nat, end: int, ghost p0: nat, ghost tb: int, ghost last: nat, ghost lo: int,
      ghost top: int, ghost term: int, ghost k: nat)
    returns (next: Option<Area>, prev: Option<Area>, base: int, ghost p: nat, ghost tb': int)
    requires align > 0 && GoodSearch(areas, offsets, sizes, align, last, lo, AlignDown(vmallocEnd, align))
    requires Between(areas, p0, next0, prev0) && next0.Some?
    requires area < |offsets| && end == offsets[area] + sizes[area]
    requires tb + offsets[area] < next0.value.end && next0.value.start < tb + end
    requires tb + offsets[last] + sizes[last] <= AlignDown(vmallocEnd, align)
    requires Scan(areas, offsets, sizes, align, lo, top, tb, term, k)
    ensures tb' < tb && BaseOk(base, tb', end, offsets[last] + sizes[last], AlignDown(vmallocEnd, align))
    ensures Scan(areas, offsets, sizes, align, lo, top, tb', area, 0)
    ensures Encloses(areas, p, next, prev, tb' + end)
  {
    var addr;
    ChecksArea(areas, offsets, sizes, align, last, lo, AlignDown(vmallocEnd, align), area);
    next, prev, addr, p := DetermineEnd(areas, next0, prev0, align, vmallocEnd, p0);
    ScanMoves(areas, offsets, sizes, align, lo, AlignDown(vmallocEnd, align), top, tb, term, k, area, p0, addr);
    base := Minus(addr, end);
    tb' := addr - end;
  }

  /** The start of the scan, when some area is mapped. */
  method StartScan(areas: seq<Area>, next0: Option<Area>, prev0: Option<Area>, offsets: seq<int>, sizes: seq<int>,
      align: int, vmallocEnd: int, last: nat, end: int, ghost p0: nat, ghost lo: int)
    returns (next: Option<Area>, prev: Option<Area>, base: int, ghost p: nat, ghost tb: int)
    requires align > 0 && GoodSearch(areas, offsets, sizes, align, last, lo, AlignDown(vmallocEnd, align))
    requires Between(areas, p0, next0, prev0) && Checks(offsets, sizes, align, last, last, offsets[last], end)
    ensures tb + end == EndBelow(areas, p0, align, AlignDown(vmallocEnd, align))
    ensures BaseOk(base, tb, end, end, AlignDown(vmallocEnd, align))
    ensures Scan(areas, offsets, sizes, align, lo, tb, tb, last, 0)
    ensures Encloses(areas, p, next, prev, tb + end)
  {
    var addr;
    next, prev, addr, p := DetermineEnd(areas, next0, prev0, align, vmallocEnd, p0);
    base := Minus(addr, end);
    tb := addr - end;
    EndBelowAligned(areas, p0, align, AlignDown(vmallocEnd, align));
    AlignedSum(addr, end, align);
  }

  /** The area fits: go on with the previous one, unless that closes the round. */
  method MoveOn(root: Tree, areas: seq<Area>, offsets: seq<int>, sizes: seq<int>, align: int, area0: nat, term: nat,
      base: int, next0: Option<Area>, prev0: Option<Area>, ghost last: nat, ghost lo: int, ghost hi: int,
      ghost top: int, ghost p0: nat, ghost k: nat)
    returns (done: bool, area: nat, next: Option<Area>, prev: Option<Area>, ghost p: nat)
    requires InOrder(root) == areas && areas != []
    requires align > 0 && GoodSearch(areas, offsets, sizes, align, last, lo, hi)
    requires Scan(areas, offsets, sizes, align, lo, top, base, term, k) && area0 == Back(term, k, |offsets|)
    requires area0 < |offsets| && lo <= base && Between(areas, p0, next0, prev0)
    requires base + offsets[last] + sizes[last] <= hi
    requires next0.Some? ==> base + offsets[area0] + sizes[area0] <= next0.value.start
    requires prev0.Some? ==> prev0.value.end <= base + offsets[area0]
    ensures done ==> Feasible(areas, offsets, sizes, align, lo, base)
    ensures !done ==>
      && k + 1 < |offsets| && area < |offsets|
      && Scan(areas, offsets, sizes, align, lo, top, base, term, k + 1) && area == Back(term, k + 1, |offsets|)
      && 0 < offsets[area] + sizes[area] && Encloses(areas, p, next, prev, base + offsets[area] + sizes[area])
  {
    var n := |offsets|;
    next, prev, p := next0, prev0, p0;
    FitsBetween(areas, offsets, sizes, base, area0, p, next, prev);
    BackStep(term, k, n);
    area := (area0 + n - 1) % n;
    if area == term {
      ScanDone(areas, offsets, sizes, align, lo, top, base, term, k);
      return true, area, next, prev, p;
    }
    ChecksArea(areas, offsets, sizes, align, last, lo, hi, area);
    var _, nextNow, prevNow, pNow := FindNextPrev(root, areas, Plus(base, offsets[area] + sizes[area]));
    next, prev, p := nextNow, prevNow, pNow;
    SplitsEncloses(areas, p, next, prev, base + offsets[area] + sizes[area]);
    done := false;
  }

  /** The main loop of pcpu_get_vm_areas. The two consistency checks at its head never fire. The base lives in a
      wrapping word; `tb0` is its true value on entry. Each turn lowers the base, or checks one area more at the same
      base. */
  method ScanDown(root: Tree, areas: seq<Area>, offsets: seq<int>, sizes: seq<int>, align: int, last: nat, lo: int,
      vmallocEnd: int, next0: Option<Area>, prev0: Option<Area>, base0: int, ghost p0: nat, ghost tb0: int)
    returns (r: Option<int>)
    requires InOrder(root) == areas && areas != []
    requires align > 0 && GoodSearch(areas, offsets, sizes, align, last, lo, AlignDown(vmallocEnd, align))
    requires BaseOk(base0, tb0, offsets[last] + sizes[last], offsets[last] + sizes[last], AlignDown(vmallocEnd, align))
    requires Scan(areas, offsets, sizes, align, lo, tb0, tb0, last, 0)
    requires Encloses(areas, p0, next0, prev0, tb0 + offsets[last] + sizes[last])
    ensures r.Some? ==>
      && Feasible(areas, offsets, sizes, align, lo, r.value)
      && r.value + offsets[last] + sizes[last] <= AlignDown(vmallocEnd, align)
      && NoneFeasible(areas, offsets, sizes, align, lo, r.value, tb0)
    ensures r.None? ==> NoneFeasible(areas, offsets, sizes, align, lo, lo - 1, tb0)
  {
    var lastEnd := offsets[last] + sizes[last];
    ghost var hi := AlignDown(vmallocEnd, align);
    var area: nat, term: nat, start, end := last, last, offsets[last], lastEnd;
    var next, prev, base := next0, prev0, base0;
    ghost var p, tb, k := p0, tb0, 0;
    while true
      invariant area < |offsets| && start == offsets[area] && end == start + sizes[area]
      invariant BaseOk(base, tb, end, lastEnd, hi)
      invariant Scan(areas, offsets, sizes, align, lo, tb0, tb, term, k) && area == Back(term, k, |offsets|)
      invariant Encloses(areas, p, next, prev, tb + end)
      decreases tb - lo + lastEnd, |offsets| - k
    {
      ChecksArea(areas, offsets, sizes, align, last, lo, hi, area);
      SumsTrue(base, tb, end, lastEnd, lo, hi);
      assert next.Some? ==> Plus(base, end) < next.value.end;
      assert prev.Some? ==> prev.value.end <= Plus(base, end);
      if Plus(base, lastEnd) < Plus(lo, lastEnd) {
        return None;
      }
      var pull := next.Some? && next.value.start < Plus(base, end);
      if !pull && prev.Some? && prev.value.end > Plus(base, start) {
        StepBack(areas, p, next, prev);
        next := prev;
        prev := PrevOf(areas, next.value);
        p := p - 1;
        pull := true;
      }
      if pull {
        next, prev, base, p, tb :=
          PullDown(areas, next, prev, offsets, sizes, align, vmallocEnd, area, end, p, tb, last, lo, tb0, term, k);
        term, k := area, 0;
      } else {
        var done;
        done, area, next, prev, p :=
          MoveOn(root, areas, offsets, sizes, align, area, term, base, next, prev, last, lo, hi, tb0, p, k);
        if done {
          return Some(base);
        }
        k := k + 1;
        start := offsets[area];
        end := start + sizes[area];
      }
    }
  }

  /** One scan of pcpu_get_vm_areas: the highest feasible base at or below the one the hint starts from, or nothing when
      there is none above the bottom of the range. */
  method FindBase(root: Tree, areas: seq<Area>, hint: int, offsets: seq<int>, sizes: seq<int>, align: int, last: nat,
      lo: int, vmallocEnd: int)
    returns (r: Option<int>, ghost top: int)
    requires InOrder(root) == areas && align > 0
    requires GoodSearch(areas, offsets, sizes, align, last, lo, AlignDown(vmallocEnd, align))
    ensures TopFromHint(areas, hint, align, AlignDown(vmallocEnd, align), top + offsets[last] + sizes[last])
    ensures r.Some? ==>
      && Feasible(areas, offsets, sizes, align, lo, r.value)
      && r.value + offsets[last] + sizes[last] <= AlignDown(vmallocEnd, align)
      && NoneFeasible(areas, offsets, sizes, align, lo, r.value, top)
    ensures r.None? ==> NoneFeasible(areas, offsets, sizes, align, lo, lo - 1, top)
  {
    var lastEnd := offsets[last] + sizes[last];
    ghost var hi := AlignDown(vmallocEnd, align);
    ChecksArea(areas, offsets, sizes, align, last, lo, hi, last);
    var found, next, prev;
    ghost var p;
    found, next, prev, p := FindNextPrev(root, areas, hint);
    if !found {
      top := hi - lastEnd;
      AlignedSum(hi, lastEnd, align);
      return Some(Minus(AlignDown(vmallocEnd, align), lastEnd)), top;
    }
    assert Splits(areas, p, hint);
    var base;
    next, prev, base, p, top := StartScan(areas, next, prev, offsets, sizes, align, vmallocEnd, last, lastEnd, p, lo);
    r := ScanDown(root, areas, offsets, sizes, align, last, lo, vmallocEnd, next, prev, base, p, top);
  }

  // --- the allocation ----------------------------------------------------------------------------------

  function Placed(offsets: seq<int>, sizes: seq<int>, base: int, a: int): Area
    requires 0 <= a < |offsets| && |offsets| == |sizes|
  {
    Area(base + offsets[a], base + offsets[a] + sizes[a])
  }

  /** `now` is `was` with the first n areas of the layout added. */
  ghost predicate Grown(was: seq<Area>, now: seq<Area>, offsets: seq<int>, sizes: seq<int>, base: int, n: int)
    requires n <= |offsets| == |sizes|
  {
    && (forall a :: a in was ==> a in now)
    && (forall j :: 0 <= j < n ==> Placed(offsets, sizes, base, j) in now)
    && (forall a :: a in now ==> a in was || exists j :: 0 <= j < n && a == Placed(offsets, sizes, base, j))
  }

  lemma GrownByOne(was: seq<Area>, mid: seq<Area>, k: nat, offsets: seq<int>, sizes: seq<int>, base: int, n: int)
    requires 0 <= n < |offsets| == |sizes| && k <= |mid| && Grown(was, mid, offsets, sizes, base, n)
    ensures Grown(was, Inserted(mid, k, Placed(offsets, sizes, base, n)), offsets, sizes, base, n + 1)
  {
    InsertedMembers(mid, k, Placed(offsets, sizes, base, n));
  }

  lemma RestStillFits(areas: seq<Area>, k: nat, offsets: seq<int>, sizes: seq<int>, align: int, base: int, i: nat,
      j: nat)
    requires GoodLayout(offsets, sizes, align) && k <= |areas| && i < |offsets| && j < |offsets| && i != j
    requires AreaFits(areas, offsets, sizes, base, j)
    ensures AreaFits(Inserted(areas, k, Placed(offsets, sizes, base, i)), offsets, sizes, base, j)
  {
    var a := Placed(offsets, sizes, base, j);
    ClearOfFewer(areas, k, Placed(offsets, sizes, base, i), a.start, a.end);
  }

  method InsertAll(v: VmapAllocator, offsets: seq<int>, sizes: seq<int>, align: int, base: int)
    requires v.Valid() && GoodLayout(offsets, sizes, align) && Feasible(v.areas, offsets, sizes, align, 0, base)
    requires forall a :: 0 <= a < |offsets| ==> base + offsets[a] + sizes[a] < SPACE
    modifies v`root, v`areas
    ensures v.Valid() && Grown(old(v.areas), v.areas, offsets, sizes, base, |offsets|)
  {
    for i := 0 to |offsets|
      invariant v.Valid() && Grown(old(v.areas), v.areas, offsets, sizes, base, i)
      invariant forall j :: i <= j < |offsets| ==> AreaFits(v.areas, offsets, sizes, base, j)
    {
      ghost var was := v.areas;
      assert AreaOk(offsets, sizes, align, i) && AreaFits(v.areas, offsets, sizes, base, i);
      ghost var k := v.InsertArea(Placed(offsets, sizes, base, i));
      GrownByOne(old(v.areas), was, k, offsets, sizes, base, i);
      forall j | i < j < |offsets|
        ensures AreaFits(v.areas, offsets, sizes, base, j)
      {
        RestStillFits(was, k, offsets, sizes, align, base, i, j);
      }
    }
  }

  /** Every area of the layout lies aligned inside the range, on addresses that were free. */
  ghost predicate GoodPlacement(was: seq<Area>, offsets: seq<int>, sizes: seq<int>, align: int, base: int, bottom: int,
      end: int)
    requires align > 0 && |offsets| == |sizes|
  {
    forall a :: 0 <= a < |offsets| ==>
      && Aligned(base + offsets[a], align) && bottom <= base + offsets[a] && base + offsets[a] + sizes[a] <= end
      && AreaFits(was, offsets, sizes, base, a)
  }

  lemma PlacementGood(was: seq<Area>, offsets: seq<int>, sizes: seq<int>, align: int, last: nat, lo: int, hi: int,
      base: int, bottom: int, end: int)
    requires align > 0 && GoodSearch(was, offsets, sizes, align, last, lo, hi)
    requires Feasible(was, offsets, sizes, align, lo, base)
    requires base + offsets[last] + sizes[last] <= hi <= end && bottom <= lo
    ensures GoodPlacement(was, offsets, sizes, align, base, bottom, end)
  {
    forall a | 0 <= a < |offsets|
      ensures Aligned(base + offsets[a], align) && bottom <= base + offsets[a] && base + offsets[a] + sizes[a] <= end
    {
      assert AreaOk(offsets, sizes, align, a);
      AlignedSum(base, offsets[a], align);
    }
  }

  /** One locked section of pcpu_get_vm_areas. */
  method PlaceOnce(v: VmapAllocator, offsets: seq<int>, sizes: seq<int>, align: int, last: nat, lo: int)
    returns (r: Option<int>, ghost top: int)
    requires v.Valid() && align > 0 && v.vmallocStart <= lo
    requires GoodSearch(v.areas, offsets, sizes, align, last, lo, AlignDown(v.vmallocEnd, align))
    modifies v
    ensures v.Valid() && v.lazy == old(v.lazy)
    ensures TopFromHint(old(v.areas), old(v.pcpuHole), align, AlignDown(v.vmallocEnd, align),
        top + offsets[last] + sizes[last])
    ensures r.Some? ==>
      && Aligned(r.value, align)
      && GoodPlacement(old(v.areas), offsets, sizes, align, r.value, v.vmallocStart, v.vmallocEnd)
      && Grown(old(v.areas), v.areas, offsets, sizes, r.value, |offsets|)
      && NoneFeasible(old(v.areas), offsets, sizes, align, lo, r.value, top)
      && v.pcpuHole == r.value + offsets[last]
    ensures r.None? ==>
      && v.areas == old(v.areas) && v.pcpuHole == old(v.pcpuHole)
      && NoneFeasible(v.areas, offsets, sizes, align, lo, lo - 1, top)
  {
    r, top := FindBase(v.root, v.areas, v.pcpuHole, offsets, sizes, align, last, lo, v.vmallocEnd);
    if r.Some? {
      PlacementGood(v.areas, offsets, sizes, align, last, lo, AlignDown(v.vmallocEnd, align), r.value, v.vmallocStart,
          v.vmallocEnd);
      InsertAll(v, offsets, sizes, align, r.value);
      v.pcpuHole := r.value + offsets[last];
    }
  }

  /** What a scan from the hint decided: the highest feasible base at or below the top it starts from, or none. */
  ghost predicate Decided(r: Option<int>, was: seq<Area>, hint: int, offsets: seq<int>, sizes: seq<int>, align: int,
      last: nat, lo: int, hi: int, top: int)
    requires align > 0 && |offsets| == |sizes| && last < |offsets|
  {
    && TopFromHint(was, hint, align, hi, top + offsets[last] + sizes[last])
    && if r.Some? then NoneFeasible(was, offsets, sizes, align, lo, r.value, top)
       else NoneFeasible(was, offsets, sizes, align, lo, lo - 1, top)
  }

  /** pcpu_get_vm_areas: all areas of the layout at the highest base that the scan from the hint can find, or nothing
      when there is none or the range is too small; a failed scan purges once and scans again. `was` and `hint` are the
      list of areas and the hint when the result was decided. */
  method GetAreas(v: VmapAllocator, offsets: seq<int>, sizes: seq<int>, align: int)
    returns (r: Option<int>, ghost was: seq<Area>, ghost hint: int, ghost last: nat, ghost top: int)
    requires v.Valid() && GoodLayout(offsets, sizes, align)
    requires forall a :: 0 <= a < |offsets| ==> offsets[a] + sizes[a] < SPACE
    requires 0 <= v.vmallocStart && v.vmallocEnd < SPACE && v.vmallocStart + align <= SPACE
    requires AlignUp(v.vmallocStart, align) <= AlignDown(v.vmallocEnd, align)
    modifies v
    ensures v.Valid()
    ensures was == old(v.areas) || forall a :: a in was <==> a in old(v.areas) && a !in old(v.lazy)
    ensures last < |offsets| && forall a :: 0 <= a < |offsets| ==> offsets[a] + sizes[a] <= offsets[last] + sizes[last]
    ensures var lo, hi := AlignUp(v.vmallocStart, align), AlignDown(v.vmallocEnd, align);
      if hi - lo < offsets[last] + sizes[last] then r == None && v.lazy == old(v.lazy)
      else Decided(r, was, hint, offsets, sizes, align, last, lo, hi, top)
    ensures r.Some? ==>
      && Aligned(r.value, align) && GoodPlacement(was, offsets, sizes, align, r.value, v.vmallocStart, v.vmallocEnd)
      && Grown(was, v.areas, offsets, sizes, r.value, |offsets|) && v.pcpuHole == r.value + offsets[last]
    ensures r.None? ==> v.areas == was && v.pcpuHole == hint
  {
    was, hint, top := v.areas, v.pcpuHole, 0;
    var lo, hi := AlignUp(v.vmallocStart, align), AlignDown(v.vmallocEnd, align);
    var l := LastArea(offsets, sizes, align);
    last := l;
    if Minus(hi, lo) < offsets[l] + sizes[l] {
      r := None;
      return;
    }
    var purged := false;
    while true
      invariant v.Valid() && was == v.areas && hint == v.pcpuHole
      invariant !purged ==> was == old(v.areas) && v.lazy == old(v.lazy)
      invariant purged ==> forall a :: a in was <==> a in old(v.areas) && a !in old(v.lazy)
      decreases if purged then 0 else 1
    {
      r, top := PlaceOnce(v, offsets, sizes, align, l, lo);
      if r.Some? || purged {
        return;
      }
      v.Purge();
      was, hint := v.areas, v.pcpuHole;
      purged := true;
    }
  }
}
