/** The word-level macros of the allocator, and the segment each combination of them produces. */
module HeapOps {
  import opened Ring
  import opened SizeClass
  import opened HeapShape

  /** set_inuse_and_pinuse */
  function SetInuseAndPinuse(h: Seg, p: Addr, s: nat): Seg
    requires p + s in h.head
  {
    h.(head := h.head[p := Head(s, true, true)][p + s := h.head[p + s].(pinuse := true)])
  }

  /** set_size_and_pinuse_of_inuse_chunk */
  function SetSizeOfInuse(h: Seg, p: Addr, s: nat): Seg
  {
    h.(head := h.head[p := Head(s, true, true)])
  }

  /** set_size_and_pinuse_of_free_chunk */
  function SetSizeOfFree(h: Seg, p: Addr, s: nat): Seg
  {
    h.(head := h.head[p := Head(s, true, false)], foot := h.foot[p + s := s])
  }

  /** clear_pinuse */
  function ClearPinuse(h: Seg, n: Addr): Seg
    requires n in h.head
  {
    h.(head := h.head[n := h.head[n].(pinuse := false)])
  }

  /** set_free_with_pinuse */
  function SetFreeWithPinuse(h: Seg, p: Addr, s: nat, n: Addr): Seg
    requires n in h.head
  {
    SetSizeOfFree(ClearPinuse(h, n), p, s)
  }

  /** Whatever word is found where no chunk starts. */
  function HeadAt(h: Seg, a: Addr): Head { if a in h.head then h.head[a] else Head(0, false, false) }

  /** set_inuse */
  function SetInuse(h: Seg, p: Addr, s: nat): Seg
    requires p in h.head && s > 0
  {
    h.(head := h.head[p := Head(s, h.head[p].pinuse, true)][p + s := HeadAt(h, p + s).(pinuse := true)])
  }

  /** Forgetting dv when it is consumed. */
  function NoDv(h: Seg): Seg { h.(dv := 0, dvsize := 0) }

  // --- allocation from a free chunk ---------------------------------------------------------------

  ghost predicate IsFree(h: Seg, held: map<Addr, nat>, p: Addr)
  {
    SegOK(h, held) && p in h.chunks && p in h.head && !h.head[p].cinuse
  }

  /** A free chunk is handed out whole. */
  ghost function UseWhole(h: Seg, p: Addr): Seg
    requires p in h.head && End(h, p) in h.head
  {
    SetInuseAndPinuse(if p == h.dv then NoDv(h) else h, p, h.head[p].size)
  }

  lemma UseWholeOK(h: Seg, held: map<Addr, nat>, p: Addr)
    requires IsFree(h, held, p)
    ensures End(h, p) in h.head
    ensures SegOK(UseWhole(h, p), held - {p})
    ensures Live(UseWhole(h, p)) == Live(h)[p := h.head[p].size]
  {
    assert ChunkOK(h, held, p);
    WholeRewrites(h, held, p);
    RewriteOK(h, held, UseWhole(h, p), held - {p}, p, p, End(h, p));
    LiveWhole(h, held, p);
  }

  lemma WholeRewrites(h: Seg, held: map<Addr, nat>, p: Addr)
    requires IsFree(h, held, p) && End(h, p) in h.head
    ensures CanRewrite(h, held, UseWhole(h, p), held - {p}, p, p, End(h, p))
  {
    assert ChunkOK(h, held, p);
    BeforeUnique(h, held, p);
    NotInsideAny(h, held, p);
    WholeChunks(h, held, p);
  }

  lemma WholeChunks(h: Seg, held: map<Addr, nat>, p: Addr)
    requires IsFree(h, held, p) && End(h, p) in h.head
    ensures Rewritten(h, UseWhole(h, p), p, p, End(h, p))
  {
    assert ChunkOK(h, held, p);
    BeforeUnique(h, held, p);
    NotInsideAny(h, held, p);
  }

  /** The allocated chunks gain the one handed out. */
  lemma LiveWhole(h: Seg, held: map<Addr, nat>, p: Addr)
    requires IsFree(h, held, p) && End(h, p) in h.head
    ensures Live(UseWhole(h, p)) == Live(h)[p := h.head[p].size]
  {
    assert ChunkOK(h, held, p);
  }

  /** The recorded predecessor of the boundary where a chunk ends is that chunk. */
  lemma BeforeUnique(h: Seg, held: map<Addr, nat>, p: Addr)
    requires SegOK(h, held) && p in h.chunks
    ensures p in h.head && End(h, p) in h.before && h.before[End(h, p)] == p
  {
    assert ChunkOK(h, held, p);
    var e := End(h, p);
    Bounds(h, held, e);
    var b := h.before[e];
    assert ChunkOK(h, held, b);
  }

  /** A free chunk is split: `nb` bytes are handed out and the rest stays free, as dv or for a bin. */
  ghost function UseSplit(h: Seg, p: Addr, nb: nat, asDv: bool): Seg
    requires p in h.head && nb < h.head[p].size
  {
    var r, rsize := p + nb, h.head[p].size - nb;
    var h1 := SetSizeOfFree(SetSizeOfInuse(h, p, nb), r, rsize);
    var h2 := if asDv then h1.(dv := r, dvsize := rsize) else if p == h.dv then NoDv(h1) else h1;
    h2.(chunks := h.chunks + {r}, before := h.before[End(h, p) := r][r := p])
  }

  lemma UseSplitOK(h: Seg, held: map<Addr, nat>, p: Addr, nb: nat, asDv: bool)
    requires IsFree(h, held, p) && nb % 8 == 0 && nb >= MIN_CHUNK_SIZE && nb + MIN_CHUNK_SIZE <= h.head[p].size
    requires asDv ==> h.dv == 0 || h.dv == p
    ensures var r, rsize := p + nb, h.head[p].size - nb;
            SegOK(UseSplit(h, p, nb, asDv), if asDv then held - {p} else (held - {p})[r := rsize])
    ensures Live(UseSplit(h, p, nb, asDv)) == Live(h)[p := nb]
    ensures p + nb !in h.chunks && p + nb !in held
  {
    assert ChunkOK(h, held, p);
    NoAdjacentFree(h, held, p);
    var e, r := End(h, p), p + nb;
    var rsize := h.head[p].size - nb;
    assert ChunkOK(h, held, e);
    NotInside(h, held, p, r);
    var h' := UseSplit(h, p, nb, asDv);
    var held' := if asDv then held - {p} else (held - {p})[r := rsize];
    SplitRewrites(h, held, p, nb, asDv);
    RewriteOK(h, held, h', held', p, r, e);
    LiveSplit(h, held, p, nb, asDv);
  }

  lemma SplitRewrites(h: Seg, held: map<Addr, nat>, p: Addr, nb: nat, asDv: bool)
    requires IsFree(h, held, p) && nb % 8 == 0 && nb >= MIN_CHUNK_SIZE && nb + MIN_CHUNK_SIZE <= h.head[p].size
    requires asDv ==> h.dv == 0 || h.dv == p
    requires End(h, p) in h.chunks && End(h, p) in h.head && h.head[End(h, p)].cinuse && p + nb !in h.chunks
    requires p + nb !in held
    ensures var r, rsize := p + nb, h.head[p].size - nb;
            var held' := if asDv then held - {p} else (held - {p})[r := rsize];
            CanRewrite(h, held, UseSplit(h, p, nb, asDv), held', p, r, End(h, p))
  {
    assert ChunkOK(h, held, p);
    SplitChunks(h, held, p, nb, asDv);
    SplitBins(h, held, p, nb, asDv);
    SplitPieces(h, held, p, nb, asDv);
  }

  lemma SplitPieces(h: Seg, held: map<Addr, nat>, p: Addr, nb: nat, asDv: bool)
    requires IsFree(h, held, p) && nb % 8 == 0 && nb >= MIN_CHUNK_SIZE && nb + MIN_CHUNK_SIZE <= h.head[p].size
    requires asDv ==> h.dv == 0 || h.dv == p
    requires p + nb !in held
    ensures var r, rsize := p + nb, h.head[p].size - nb;
            var held' := if asDv then held - {p} else (held - {p})[r := rsize];
            var h' := UseSplit(h, p, nb, asDv);
            && PieceOK(h', held', p) && PieceOK(h', held', r) && r % 8 == 0
            && (h'.dv == 0 <==> h'.dvsize == 0) && ((h'.dv == p || h'.dv == r) ==> !h'.head[h'.dv].cinuse)
            && (forall x :: x in held' && (x == p || x == r) ==> !h'.head[x].cinuse)
  {
    assert ChunkOK(h, held, p);
    NotInsideAny(h, held, p);
    BaseAboveNull(h, held);
  }

  lemma SplitChunks(h: Seg, held: map<Addr, nat>, p: Addr, nb: nat, asDv: bool)
    requires IsFree(h, held, p) && nb % 8 == 0 && nb >= MIN_CHUNK_SIZE && nb + MIN_CHUNK_SIZE <= h.head[p].size
    requires End(h, p) in h.chunks && End(h, p) in h.head && h.head[End(h, p)].cinuse && p + nb !in h.chunks
    ensures Rewritten(h, UseSplit(h, p, nb, asDv), p, p + nb, End(h, p))
  {
    assert ChunkOK(h, held, p);
    NotInsideAny(h, held, p);
  }

  lemma SplitBins(h: Seg, held: map<Addr, nat>, p: Addr, nb: nat, asDv: bool)
    requires IsFree(h, held, p) && nb >= MIN_CHUNK_SIZE && nb + MIN_CHUNK_SIZE <= h.head[p].size
    requires asDv ==> h.dv == 0 || h.dv == p
    requires p + nb !in held
    ensures var r, rsize := p + nb, h.head[p].size - nb;
            var held' := if asDv then held - {p} else (held - {p})[r := rsize];
            BinsOutside(h, held, UseSplit(h, p, nb, asDv), held', p, r, End(h, p))
  {
    assert ChunkOK(h, held, p);
    NotInsideAny(h, held, p);
  }

  lemma LiveSplit(h: Seg, held: map<Addr, nat>, p: Addr, nb: nat, asDv: bool)
    requires IsFree(h, held, p) && nb < h.head[p].size && p + nb !in h.chunks
    ensures Live(UseSplit(h, p, nb, asDv)) == Live(h)[p := nb]
  {
  }

  /** No chunk starts, and nothing is binned, strictly inside another chunk. */
  lemma NotInside(h: Seg, held: map<Addr, nat>, p: Addr, r: Addr)
    requires SegOK(h, held) && p in h.chunks && p in h.head && p < r < End(h, p)
    ensures r !in h.chunks && r !in held && r != h.top
  {
    assert ChunkOK(h, held, p);
  }

  lemma NotInsideAny(h: Seg, held: map<Addr, nat>, p: Addr)
    requires SegOK(h, held) && p in h.chunks
    ensures p in h.head
    ensures forall c :: c in h.chunks ==> c <= p || c >= End(h, p)
    ensures forall c :: c in held ==> c <= p || c >= End(h, p)
    ensures h.dv <= p || h.dv >= End(h, p)
  {
    assert ChunkOK(h, held, p);
    BaseAboveNull(h, held);
  }

  lemma BaseAboveNull(h: Seg, held: map<Addr, nat>)
    requires SegOK(h, held)
    ensures h.base > 0 && (forall c :: c in h.chunks ==> c > 0)
  {
    forall c | c in h.chunks
      ensures c > 0
    {
      assert ChunkOK(h, held, c);
    }
  }

  // --- allocation from top, and growth into it ----------------------------------------------------

  /** The chunk of `n` bytes at boundary `a` is in use and top starts behind it. */
  ghost function CutTop(h: Seg, a: Addr, n: nat): Seg
    requires a in h.head
  {
    h.(head := h.head[a := Head(n, h.head[a].pinuse, true)][a + n := Head(Remaining(h, a + n), true, false)],
       top := a + n, topsize := Remaining(h, a + n),
       chunks := (set c | c in h.chunks && c < a) + {a},
       before := h.before[a + n := a])
  }

  function Remaining(h: Seg, a: Addr): nat { if a <= h.limit then h.limit - a else 0 }

  lemma CutTopOK(h: Seg, held: map<Addr, nat>, a: Addr, n: nat)
    requires SegOK(h, held) && IsBound(h, a) && n % 8 == 0 && n >= MIN_CHUNK_SIZE && a + n < h.limit
    requires a == h.top || (a in h.chunks && a in h.head && h.head[a].cinuse && End(h, a) == h.top)
    ensures a in h.head && SegOK(CutTop(h, a, n), held)
    ensures Live(CutTop(h, a, n)) == Live(h)[a := n]
  {
    Bounds(h, held, a);
    CutTopRewrites(h, held, a, n);
    TopRewriteOK(h, held, CutTop(h, a, n), held, a, n);
    LiveCut(h, held, a, n);
  }

  lemma CutTopRewrites(h: Seg, held: map<Addr, nat>, a: Addr, n: nat)
    requires SegOK(h, held) && IsBound(h, a) && n % 8 == 0 && n >= MIN_CHUNK_SIZE && a + n < h.limit
    requires a == h.top || (a in h.chunks && a in h.head && h.head[a].cinuse && End(h, a) == h.top)
    requires a in h.head
    ensures TopRewritten(h, held, CutTop(h, a, n), held, a, n)
  {
    Bounds(h, held, a);
    FreeBelow(h, held, a);
  }

  /** Behind the last chunk, or behind top, nothing is free or binned. */
  lemma FreeBelow(h: Seg, held: map<Addr, nat>, a: Addr)
    requires SegOK(h, held) && IsBound(h, a)
    requires a == h.top || (a in h.chunks && a in h.head && h.head[a].cinuse && End(h, a) == h.top)
    ensures forall c :: c in h.chunks && c != a ==> c < a
    ensures forall c :: c in held ==> c < a
    ensures h.dv < a
  {
    Bounds(h, held, a);
    BaseAboveNull(h, held);
    forall c | c in h.chunks
      ensures c <= a && (c == a ==> a != h.top)
    {
      assert ChunkOK(h, held, c);
    }
  }

  lemma LiveCut(h: Seg, held: map<Addr, nat>, a: Addr, n: nat)
    requires SegOK(h, held) && a in h.head && IsBound(h, a) && n > 0
    requires a == h.top || (a in h.chunks && h.head[a].cinuse && End(h, a) == h.top)
    ensures Live(CutTop(h, a, n)) == Live(h)[a := n]
  {
    FreeBelow(h, held, a);
  }

  // --- freeing ------------------------------------------------------------------------------------

  /** The stretch `[a, e)` consists of the chunk `p`, in use, and free neighbours. */
  ghost predicate Around(h: Seg, a: Addr, p: Addr, e: Addr)
  {
    && a in h.chunks && p in h.chunks && a <= p < e
    && p in h.head && h.head[p].cinuse && a in h.head && h.head[a].pinuse
    && forall c :: c in h.chunks && a <= c < e && c != p && c in h.head ==> !h.head[c].cinuse
  }

  /** The stretch becomes one free chunk, as dv or for a bin. */
  ghost function FreeStretch(h: Seg, a: Addr, e: Addr, asDv: bool): Seg
    requires e in h.head && a < e
  {
    h.(head := h.head[e := h.head[e].(pinuse := false)][a := Head(e - a, true, false)], foot := h.foot[e := e - a],
       dv := if asDv then a else h.dv, dvsize := if asDv then e - a else h.dvsize,
       chunks := (set c | c in h.chunks && (c <= a || c >= e)),
       before := h.before[e := a])
  }

  /** The bins without what lies in the stretch. */
  ghost function Outside(held: map<Addr, nat>, a: Addr, e: Addr): map<Addr, nat>
  {
    map c | c in held && (c < a || c >= e) :: held[c]
  }

  /** The bins after the stretch is freed. */
  ghost function FreedHeld(held: map<Addr, nat>, a: Addr, e: Addr, asDv: bool): map<Addr, nat>
    requires a < e
  {
    if asDv then Outside(held, a, e) else Outside(held, a, e)[a := e - a]
  }

  lemma FreeStretchOK(h: Seg, held: map<Addr, nat>, a: Addr, p: Addr, e: Addr, asDv: bool)
    requires SegOK(h, held) && Around(h, a, p, e)
    requires e in h.chunks && e in h.head && h.head[e].cinuse
    requires asDv <==> a <= h.dv < e
    ensures SegOK(FreeStretch(h, a, e, asDv), FreedHeld(held, a, e, asDv))
    ensures Live(FreeStretch(h, a, e, asDv)) == Live(h) - {p}
  {
    var held' := FreedHeld(held, a, e, asDv);
    StretchChunks(h, held, a, p, e, asDv);
    StretchPieces(h, held, a, p, e, asDv);
    RewriteOK(h, held, FreeStretch(h, a, e, asDv), held', a, a, e);
    LiveStretch(h, held, a, p, e, asDv);
  }

  lemma StretchSize(h: Seg, held: map<Addr, nat>, a: Addr, e: Addr)
    requires SegOK(h, held) && a in h.chunks && IsBound(h, e) && a < e
    ensures e - a >= MIN_CHUNK_SIZE && (e - a) % 8 == 0 && a % 8 == 0
    ensures e in h.head && a in h.head && End(h, a) <= e && a > 0
  {
    assert ChunkOK(h, held, a);
    Bounds(h, held, e);
    BaseAboveNull(h, held);
  }

  lemma StretchChunks(h: Seg, held: map<Addr, nat>, a: Addr, p: Addr, e: Addr, asDv: bool)
    requires SegOK(h, held) && Around(h, a, p, e) && e in h.chunks && e in h.head
    ensures Rewritten(h, FreeStretch(h, a, e, asDv), a, a, e)
  {
    StretchSize(h, held, a, e);
  }

  lemma StretchPieces(h: Seg, held: map<Addr, nat>, a: Addr, p: Addr, e: Addr, asDv: bool)
    requires SegOK(h, held) && Around(h, a, p, e) && e in h.chunks && e in h.head && h.head[e].cinuse
    requires asDv <==> a <= h.dv < e
    requires Rewritten(h, FreeStretch(h, a, e, asDv), a, a, e)
    ensures CanRewrite(h, held, FreeStretch(h, a, e, asDv), FreedHeld(held, a, e, asDv), a, a, e)
  {
    StretchSize(h, held, a, e);
    Bounds(h, held, e);
  }

  lemma LiveStretch(h: Seg, held: map<Addr, nat>, a: Addr, p: Addr, e: Addr, asDv: bool)
    requires SegOK(h, held) && Around(h, a, p, e) && e in h.chunks && e in h.head
    ensures Live(FreeStretch(h, a, e, asDv)) == Live(h) - {p}
  {
    var l := Live(FreeStretch(h, a, e, asDv));
    forall c
      ensures c in l <==> c in Live(h) - {p}
      ensures c in l && c in Live(h) ==> l[c] == Live(h)[c]
    {
    }
  }

  /** Everything from `a` on becomes top. */
  ghost function IntoTop(h: Seg, a: Addr): Seg
  {
    h.(head := h.head[a := Head(Remaining(h, a), true, false)], top := a, topsize := Remaining(h, a),
       dv := if h.dv >= a then 0 else h.dv, dvsize := if h.dv >= a then 0 else h.dvsize,
       chunks := (set c | c in h.chunks && c < a))
  }

  lemma IntoTopOK(h: Seg, held: map<Addr, nat>, a: Addr, p: Addr)
    requires SegOK(h, held) && Around(h, a, p, h.top)
    ensures SegOK(IntoTop(h, a), Outside(held, a, h.top))
    ensures Live(IntoTop(h, a)) == Live(h) - {p}
  {
    StretchSize(h, held, a, h.top);
    forall c | c in held
      ensures c < h.top
    {
      assert ChunkOK(h, held, c);
    }
    TopRewriteOK(h, held, IntoTop(h, a), Outside(held, a, h.top), a, 0);
    LiveIntoTop(h, held, a, p);
  }

  lemma LiveIntoTop(h: Seg, held: map<Addr, nat>, a: Addr, p: Addr)
    requires SegOK(h, held) && Around(h, a, p, h.top)
    ensures Live(IntoTop(h, a)) == Live(h) - {p}
  {
    StretchSize(h, held, a, h.top);
    forall c | c in h.chunks
      ensures c < h.top
    {
      assert ChunkOK(h, held, c);
    }
  }

  // --- resizing in place --------------------------------------------------------------------------

  /** The stretch `[p, e)` becomes the chunk `p`, in use, followed (unless `m == p`) by a chunk at `m` that is
      in use or becomes dv. */
  ghost function Resize(h: Seg, p: Addr, m: Addr, e: Addr, inuse: bool): Seg
    requires p in h.head && e in h.head && p <= m < e
  {
    var last := m == p || inuse;
    var head1 := h.head[p := Head(if m == p then e - p else m - p, h.head[p].pinuse, true)];
    var head2 := if m == p then head1 else head1[m := Head(e - m, true, inuse)];
    h.(head := head2[e := h.head[e].(pinuse := last)],
       foot := if last then h.foot else h.foot[e := e - m],
       dv := if !last then m else if p <= h.dv < e then 0 else h.dv,
       dvsize := if !last then e - m else if p <= h.dv < e then 0 else h.dvsize,
       chunks := (set c | c in h.chunks && (c <= p || c >= e)) + {m},
       before := (if m == p then h.before else h.before[m := p])[e := m])
  }

  ghost predicate CanResize(h: Seg, held: map<Addr, nat>, p: Addr, m: Addr, e: Addr, inuse: bool)
  {
    && SegOK(h, held) && p in h.chunks && IsBound(h, e) && p < e && p in h.head && h.head[p].cinuse
    && p <= m < e && m % 8 == 0 && (m != p ==> p + MIN_CHUNK_SIZE <= m && m + MIN_CHUNK_SIZE <= e)
    && (forall c :: c in h.chunks && p < c < e && c in h.head ==> !h.head[c].cinuse)
    && (m != p && !inuse ==> e in h.chunks && e in h.head && h.head[e].cinuse && (h.dv == 0 || p < h.dv < e))
  }

  lemma ResizeOK(h: Seg, held: map<Addr, nat>, p: Addr, m: Addr, e: Addr, inuse: bool)
    requires CanResize(h, held, p, m, e, inuse)
    ensures e in h.head
    ensures SegOK(Resize(h, p, m, e, inuse), Outside(held, p, e))
    ensures Live(Resize(h, p, m, e, inuse)) ==
            if m == p then Live(h)[p := e - p]
            else if inuse then Live(h)[p := m - p][m := e - m] else Live(h)[p := m - p]
  {
    StretchSize(h, held, p, e);
    ResizeChunks(h, held, p, m, e, inuse);
    ResizePieces(h, held, p, m, e, inuse);
    RewriteOK(h, held, Resize(h, p, m, e, inuse), Outside(held, p, e), p, m, e);
    LiveResize(h, held, p, m, e, inuse);
  }

  lemma ResizeChunks(h: Seg, held: map<Addr, nat>, p: Addr, m: Addr, e: Addr, inuse: bool)
    requires CanResize(h, held, p, m, e, inuse) && e in h.head
    ensures Rewritten(h, Resize(h, p, m, e, inuse), p, m, e)
  {
    StretchSize(h, held, p, e);
  }

  lemma ResizePieces(h: Seg, held: map<Addr, nat>, p: Addr, m: Addr, e: Addr, inuse: bool)
    requires CanResize(h, held, p, m, e, inuse) && e in h.head
    requires Rewritten(h, Resize(h, p, m, e, inuse), p, m, e)
    ensures CanRewrite(h, held, Resize(h, p, m, e, inuse), Outside(held, p, e), p, m, e)
  {
    StretchSize(h, held, p, e);
    assert p != h.dv && p !in held by { assert ChunkOK(h, held, p); }
    assert BinsOutside(h, held, Resize(h, p, m, e, inuse), Outside(held, p, e), p, m, e);
    ResizedHeads(h, held, p, m, e, inuse);
    if m != p && !inuse {
      Bounds(h, held, e);
    }
  }

  lemma AlignedDifference(x: int, y: int)
    requires x % 8 == 0 && y % 8 == 0
    ensures (x - y) % 8 == 0
  {
  }

  lemma ResizedHeads(h: Seg, held: map<Addr, nat>, p: Addr, m: Addr, e: Addr, inuse: bool)
    requires CanResize(h, held, p, m, e, inuse) && e in h.head && p !in held && p != h.dv
    ensures var h', held' := Resize(h, p, m, e, inuse), Outside(held, p, e);
            PieceOK(h', held', p) && PieceOK(h', held', m)
  {
    StretchSize(h, held, p, e);
    AlignedDifference(m, p);
    AlignedDifference(e, m);
    Bounds(h, held, e);
    ResizedFront(h, held, p, m, e, inuse);
    if m != p {
      ResizedBack(h, held, p, m, e, inuse);
    }
  }

  lemma ResizedFront(h: Seg, held: map<Addr, nat>, p: Addr, m: Addr, e: Addr, inuse: bool)
    requires p in h.head && e in h.head && 0 < p <= m < e && p !in held && p != h.dv
    requires e - p >= MIN_CHUNK_SIZE && (e - p) % 8 == 0
    requires m == p || (m - p >= MIN_CHUNK_SIZE && (m - p) % 8 == 0)
    ensures PieceOK(Resize(h, p, m, e, inuse), Outside(held, p, e), p)
  {
  }

  lemma ResizedBack(h: Seg, held: map<Addr, nat>, p: Addr, m: Addr, e: Addr, inuse: bool)
    requires p in h.head && e in h.head && 0 < p < m < e
    requires e - m >= MIN_CHUNK_SIZE && (e - m) % 8 == 0
    ensures PieceOK(Resize(h, p, m, e, inuse), Outside(held, p, e), m)
  {
  }

  lemma LiveResize(h: Seg, held: map<Addr, nat>, p: Addr, m: Addr, e: Addr, inuse: bool)
    requires CanResize(h, held, p, m, e, inuse) && e in h.head
    ensures Live(Resize(h, p, m, e, inuse)) ==
            if m == p then Live(h)[p := e - p]
            else if inuse then Live(h)[p := m - p][m := e - m] else Live(h)[p := m - p]
  {
    StretchSize(h, held, p, e);
  }
}
