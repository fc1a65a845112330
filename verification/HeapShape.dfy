/** Boundary tags: how chunks tile one segment, and what rewriting a stretch of it preserves. */
module HeapShape {
  import opened Ring
  import opened SizeClass

  const MIN_CHUNK_SIZE: nat := 16

  /** The head word: size and the two in-use bits. Sizes are multiples of 8, so the bits never overlap the size. */
  datatype Head = Head(size: nat, pinuse: bool, cinuse: bool)

  /** The words of one segment from `base` to `limit`, the state's pointers into it, and ghost bookkeeping:
      where chunks start below `top`, and which chunk ends at each boundary. */
  datatype Seg = Seg(
    head: map<Addr, Head>, foot: map<Addr, nat>,
    top: Addr, topsize: nat, dv: Addr, dvsize: nat, base: Addr, limit: Addr,
    ghost chunks: set<Addr>, ghost before: map<Addr, Addr>)

  ghost predicate IsBound(h: Seg, b: Addr) { b in h.chunks || b == h.top }

  ghost function End(h: Seg, a: Addr): Addr
    requires a in h.head
  {
    a + h.head[a].size
  }

  /** The chunk before boundary `b` is recorded and ends exactly there. */
  ghost predicate BackOK(h: Seg, b: Addr)
  {
    b == h.base || (b in h.before && h.before[b] in h.chunks && h.before[b] in h.head && End(h, h.before[b]) == b)
  }

  /** do_check_inuse_chunk and do_check_free_chunk: sizes, the next chunk's pinuse bit and foot, no two adjacent
      free chunks, and every free chunk is either dv or in a bin under its own size. */
  ghost predicate ChunkOK(h: Seg, held: map<Addr, nat>, a: Addr)
  {
    && a in h.head
    && h.head[a].size >= MIN_CHUNK_SIZE && h.head[a].size % 8 == 0 && a % 8 == 0
    && h.base <= a && End(h, a) <= h.top && IsBound(h, End(h, a)) && End(h, a) in h.head
    && h.head[End(h, a)].pinuse == h.head[a].cinuse
    && BackOK(h, a)
    && if h.head[a].cinuse then a !in held && a != h.dv
       else
         && h.head[a].pinuse
         && End(h, a) in h.foot && h.foot[End(h, a)] == h.head[a].size
         && if a == h.dv then h.dvsize == h.head[a].size && a !in held
            else a in held && held[a] == h.head[a].size
  }

  ghost predicate TopOK(h: Seg)
  {
    && h.top in h.head && h.head[h.top] == Head(h.topsize, true, false)
    && h.top % 8 == 0 && h.topsize > 0 && h.top + h.topsize == h.limit < WORD
    && BackOK(h, h.top)
  }

  ghost predicate BaseOK(h: Seg)
  {
    && 0 < h.base <= h.top && IsBound(h, h.base) && h.base in h.head && h.head[h.base].pinuse
  }

  ghost predicate DvOK(h: Seg)
  {
    (h.dv == 0 <==> h.dvsize == 0) && (h.dv != 0 ==> h.dv in h.chunks && h.dv in h.head && !h.head[h.dv].cinuse)
  }

  ghost predicate Disjoint(h: Seg)
  {
    forall a, b {:trigger a in h.chunks, b in h.chunks} ::
      a in h.chunks && b in h.chunks && a < b && a in h.head ==> End(h, a) <= b
  }

  ghost predicate SegOK(h: Seg, held: map<Addr, nat>)
  {
    && (forall a {:trigger ChunkOK(h, held, a)} :: a in h.chunks ==> ChunkOK(h, held, a))
    && (forall x {:trigger x in held} :: x in held ==> x in h.chunks && x in h.head && !h.head[x].cinuse)
    && Disjoint(h) && TopOK(h) && BaseOK(h) && DvOK(h)
  }

  /** The allocated chunks, with their sizes. */
  ghost function Live(h: Seg): map<Addr, nat>
  {
    map a | a in h.chunks && a in h.head && h.head[a].cinuse :: h.head[a].size
  }

  /** The free chunks other than top, with their sizes. */
  ghost function Free(h: Seg): map<Addr, nat>
  {
    map a | a in h.chunks && a in h.head && !h.head[a].cinuse :: h.head[a].size
  }

  // --- rewriting the chunks of a stretch ----------------------------------------------------------

  /** `h'` differs from `h` in that the chunks of `[a, e)` are one chunk, or two meeting at `m`. */
  ghost predicate Rewritten(h: Seg, h': Seg, a: Addr, m: Addr, e: Addr)
  {
    && a in h.chunks && IsBound(h, e) && a < e && a <= m < e
    && h'.base == h.base && h'.limit == h.limit && h'.top == h.top && h'.topsize == h.topsize
    && (forall c :: c in h'.chunks <==> c == a || c == m || (c in h.chunks && (c < a || c >= e)))
    && (forall c :: IsBound(h, c) && (c < a || c > e) && c in h.head ==> c in h'.head && h'.head[c] == h.head[c])
    && (forall c :: IsBound(h, c) && (c <= a || c > e) && c in h.foot ==> c in h'.foot && h'.foot[c] == h.foot[c])
    && a in h.head && a in h'.head && m in h'.head && e in h.head && e in h'.head
    && h'.head[a].pinuse == h.head[a].pinuse
    && End(h', a) == (if m == a then e else m) && End(h', m) == e
    && (m != a ==> h'.head[m].pinuse == h'.head[a].cinuse)
    && h'.head[e] == h.head[e].(pinuse := h'.head[m].cinuse)
    && (forall b :: IsBound(h, b) && (b <= a || b > e) && b in h.before ==>
          b in h'.before && h'.before[b] == h.before[b])
    && e in h'.before && h'.before[e] == m && (m != a ==> m in h'.before && h'.before[m] == a)
  }

  /** A chunk of the stretch is well formed by itself. */
  ghost predicate PieceOK(h: Seg, held: map<Addr, nat>, c: Addr)
  {
    && c in h.head && h.head[c].size >= MIN_CHUNK_SIZE && h.head[c].size % 8 == 0
    && if h.head[c].cinuse then c !in held && c != h.dv
       else
         && h.head[c].pinuse
         && End(h, c) in h.foot && h.foot[End(h, c)] == h.head[c].size
         && if c == h.dv then h.dvsize == h.head[c].size && c !in held
            else c in held && held[c] == h.head[c].size
  }

  /** Bins and dv change only inside the stretch. */
  ghost predicate BinsOutside(h: Seg, held: map<Addr, nat>, h': Seg, held': map<Addr, nat>, a: Addr, m: Addr, e: Addr)
  {
    && (forall c :: c < a || c >= e ==> (c in held <==> c in held') && (c in held ==> held'[c] == held[c]))
    && (forall c :: a <= c < e && c in held' ==> c == a || c == m)
    && (h.dv != 0 && (h.dv < a || h.dv >= e) ==> h'.dv == h.dv)
    && (h'.dv == 0 || h'.dv == a || h'.dv == m || (h'.dv == h.dv && h'.dvsize == h.dvsize && (h.dv < a || h.dv >= e)))
  }

  ghost predicate CanRewrite(h: Seg, held: map<Addr, nat>, h': Seg, held': map<Addr, nat>, a: Addr, m: Addr, e: Addr)
  {
    && SegOK(h, held) && Rewritten(h, h', a, m, e) && BinsOutside(h, held, h', held', a, m, e)
    && PieceOK(h', held', a) && PieceOK(h', held', m)
    && (h'.dv == 0 <==> h'.dvsize == 0) && ((h'.dv == a || h'.dv == m) ==> !h'.head[h'.dv].cinuse)
    && (forall x :: x in held' && (x == a || x == m) ==> !h'.head[x].cinuse)
    && (!h'.head[m].cinuse ==> e != h.top && h.head[e].cinuse)
    && m % 8 == 0
  }

  lemma Bounds(h: Seg, held: map<Addr, nat>, a: Addr)
    requires SegOK(h, held) && IsBound(h, a)
    ensures a in h.head && h.base <= a <= h.top && a % 8 == 0 && BackOK(h, a)
    ensures a != h.top ==> a < h.top && End(h, a) <= h.top && End(h, a) > a
  {
    if a != h.top {
      assert ChunkOK(h, held, a);
    }
  }

  lemma StretchBounds(h: Seg, held: map<Addr, nat>, a: Addr, e: Addr, c: Addr)
    requires SegOK(h, held) && a in h.chunks && IsBound(h, e) && a < e
    requires c in h.chunks && (c < a || c >= e)
    ensures c in h.head && (c < a ==> End(h, c) <= a) && e in h.head
  {
    assert ChunkOK(h, held, c);
    Bounds(h, held, e);
  }

  lemma RewrittenBefore(h: Seg, held: map<Addr, nat>, h': Seg, held': map<Addr, nat>, a: Addr, m: Addr, e: Addr,
      c: Addr)
    requires CanRewrite(h, held, h', held', a, m, e) && c in h.chunks && c < a
    ensures ChunkOK(h', held', c)
  {
    assert ChunkOK(h, held, c) && ChunkOK(h, held, a);
    Bounds(h, held, e);
    assert End(h, c) <= a;
    BackOutside(h, held, h', held', a, m, e, c);
  }

  lemma RewrittenAfter(h: Seg, held: map<Addr, nat>, h': Seg, held': map<Addr, nat>, a: Addr, m: Addr, e: Addr, c: Addr)
    requires CanRewrite(h, held, h', held', a, m, e) && c in h.chunks && c >= e
    ensures ChunkOK(h', held', c)
  {
    assert ChunkOK(h, held, c) && ChunkOK(h, held, a);
    Bounds(h, held, e);
    Bounds(h, held, End(h, c));
    if c > e {
      BackOutside(h, held, h', held', a, m, e, c);
    }
  }

  lemma RewrittenOutside(h: Seg, held: map<Addr, nat>, h': Seg, held': map<Addr, nat>, a: Addr, m: Addr, e: Addr,
      c: Addr)
    requires CanRewrite(h, held, h', held', a, m, e) && c in h.chunks && (c < a || c >= e)
    ensures ChunkOK(h', held', c)
  {
    if c < a {
      RewrittenBefore(h, held, h', held', a, m, e, c);
    } else {
      RewrittenAfter(h, held, h', held', a, m, e, c);
    }
  }

  /** Boundaries outside the stretch keep the chunk before them. */
  lemma BackOutside(h: Seg, held: map<Addr, nat>, h': Seg, held': map<Addr, nat>, a: Addr, m: Addr, e: Addr, c: Addr)
    requires CanRewrite(h, held, h', held', a, m, e) && IsBound(h, c) && (c <= a || c > e)
    ensures BackOK(h', c)
  {
    Bounds(h, held, c);
    if c != h.base {
      var b := h.before[c];
      assert ChunkOK(h, held, b) && ChunkOK(h, held, a);
      Bounds(h, held, e);
      if c <= a {
        assert b < a;
      }
      if b == e {
        assert h'.head[e].size == h.head[e].size;
      }
    }
  }

  lemma RewrittenInside(h: Seg, held: map<Addr, nat>, h': Seg, held': map<Addr, nat>, a: Addr, m: Addr, e: Addr)
    requires CanRewrite(h, held, h', held', a, m, e)
    ensures ChunkOK(h', held', a) && ChunkOK(h', held', m)
  {
    assert ChunkOK(h, held, a);
    Bounds(h, held, e);
    BackOutside(h, held, h', held', a, m, e, a);
  }

  lemma RewrittenDisjoint(h: Seg, held: map<Addr, nat>, h': Seg, held': map<Addr, nat>, a: Addr, m: Addr, e: Addr)
    requires CanRewrite(h, held, h', held', a, m, e)
    ensures Disjoint(h')
  {
    assert ChunkOK(h, held, a);
    Bounds(h, held, e);
    forall c, d | c in h'.chunks && d in h'.chunks && c < d && c in h'.head
      ensures End(h', c) <= d
    {
      if c in h.chunks && (c < a || c >= e) {
        StretchBounds(h, held, a, e, c);
        assert ChunkOK(h, held, c);
      }
    }
  }

  /** Rewriting a stretch into well-formed pieces keeps the whole segment well formed. */
  lemma RewriteOK(h: Seg, held: map<Addr, nat>, h': Seg, held': map<Addr, nat>, a: Addr, m: Addr, e: Addr)
    requires CanRewrite(h, held, h', held', a, m, e)
    ensures SegOK(h', held')
  {
    Bounds(h, held, e);
    assert ChunkOK(h, held, a);
    forall c | c in h'.chunks
      ensures ChunkOK(h', held', c)
    {
      if c == a || c == m {
        RewrittenInside(h, held, h', held', a, m, e);
      } else {
        RewrittenOutside(h, held, h', held', a, m, e, c);
      }
    }
    RewrittenDisjoint(h, held, h', held', a, m, e);
    RewrittenRest(h, held, h', held', a, m, e);
  }

  lemma RewrittenRest(h: Seg, held: map<Addr, nat>, h': Seg, held': map<Addr, nat>, a: Addr, m: Addr, e: Addr)
    requires CanRewrite(h, held, h', held', a, m, e)
    ensures TopOK(h') && BaseOK(h') && DvOK(h')
    ensures forall x {:trigger x in held'} :: x in held' ==> x in h'.chunks && x in h'.head && !h'.head[x].cinuse
  {
    Bounds(h, held, e);
    assert ChunkOK(h, held, a);
    TopKept(h, held, h', held', a, m, e);
    Bounds(h, held, h.base);
    if h.dv != 0 {
      assert ChunkOK(h, held, h.dv);
    }
  }

  lemma TopKept(h: Seg, held: map<Addr, nat>, h': Seg, held': map<Addr, nat>, a: Addr, m: Addr, e: Addr)
    requires CanRewrite(h, held, h', held', a, m, e)
    ensures TopOK(h')
  {
    Bounds(h, held, e);
    if e != h.top {
      BackOutside(h, held, h', held', a, m, e, h.top);
    } else {
      assert ChunkOK(h, held, a);
    }
  }

  // --- moving dv into a bin -----------------------------------------------------------------------

  ghost function DvBinned(h: Seg): Seg { h.(dv := 0, dvsize := 0) }

  lemma BinnedDvChunk(h: Seg, held: map<Addr, nat>, c: Addr)
    requires SegOK(h, held) && h.dv != 0 && c in h.chunks
    ensures ChunkOK(DvBinned(h), held[h.dv := h.dvsize], c)
  {
    assert ChunkOK(h, held, c);
    assert BackOK(DvBinned(h), c);
  }

  /** The insertion half of replace_dv: dv becomes an ordinary binned chunk. */
  lemma BinDvOK(h: Seg, held: map<Addr, nat>)
    requires SegOK(h, held) && h.dv != 0
    ensures SegOK(DvBinned(h), held[h.dv := h.dvsize])
  {
    var h', held' := DvBinned(h), held[h.dv := h.dvsize];
    forall c {:trigger ChunkOK(h', held', c)} | c in h'.chunks
      ensures ChunkOK(h', held', c)
    {
      BinnedDvChunk(h, held, c);
    }
    BinnedDvRest(h, held);
    BinnedDvHeld(h, held);
  }

  lemma BinnedDvHeld(h: Seg, held: map<Addr, nat>)
    requires SegOK(h, held) && h.dv != 0
    ensures var h', held' := DvBinned(h), held[h.dv := h.dvsize];
            forall x {:trigger x in held'} :: x in held' ==> x in h'.chunks && x in h'.head && !h'.head[x].cinuse
  {
  }

  lemma BinnedDvRest(h: Seg, held: map<Addr, nat>)
    requires SegOK(h, held) && h.dv != 0
    ensures var h' := DvBinned(h);
            Disjoint(h') && TopOK(h') && BaseOK(h') && DvOK(h')
  {
    var h' := DvBinned(h);
    assert BackOK(h', h.top);
    forall a, b | a in h'.chunks && b in h'.chunks && a < b && a in h'.head
      ensures End(h', a) <= b
    {
      assert End(h, a) <= b;
    }
  }

  // --- rewriting everything from a boundary to the end of the segment -----------------------------

  /** From boundary `a` on, `h'` has a chunk of `n` bytes in use (none if `n` is 0) and then top. */
  ghost predicate TopRewritten(h: Seg, held: map<Addr, nat>, h': Seg, held': map<Addr, nat>, a: Addr, n: nat)
  {
    && IsBound(h, a) && h'.base == h.base && h'.limit == h.limit
    && h'.top == a + n && h'.topsize == h.limit - h'.top && h'.topsize > 0
    && (n == 0 || (n >= MIN_CHUNK_SIZE && n % 8 == 0))
    && (forall c :: c in h'.chunks <==> (n > 0 && c == a) || (c in h.chunks && c < a))
    && (forall c :: IsBound(h, c) && c < a && c in h.head ==> c in h'.head && h'.head[c] == h.head[c])
    && (forall c :: IsBound(h, c) && c <= a && c in h.foot ==> c in h'.foot && h'.foot[c] == h.foot[c])
    && a in h.head && a in h'.head && h'.head[a].pinuse == h.head[a].pinuse
    && (if n == 0 then h.head[a].pinuse else h'.head[a].size == n && h'.head[a].cinuse)
    && h'.top in h'.head && h'.head[h'.top] == Head(h'.topsize, true, false)
    && (forall b :: IsBound(h, b) && b <= a && b in h.before ==> b in h'.before && h'.before[b] == h.before[b])
    && (n > 0 ==> h'.top in h'.before && h'.before[h'.top] == a)
    && (forall c :: c in held' <==> c in held && c < a) && (forall c :: c in held' ==> held'[c] == held[c])
    && h'.dv == (if h.dv >= a then 0 else h.dv) && h'.dvsize == (if h.dv >= a then 0 else h.dvsize)
  }

  lemma TopRewrittenAt(h: Seg, held: map<Addr, nat>, h': Seg, held': map<Addr, nat>, a: Addr, n: nat, c: Addr)
    requires SegOK(h, held) && TopRewritten(h, held, h', held', a, n) && c in h.chunks && c < a
    ensures ChunkOK(h', held', c)
  {
    assert ChunkOK(h, held, c);
    Bounds(h, held, a);
    if a in h.chunks {
      assert End(h, c) <= a;
    }
    TopBack(h, held, h', held', a, n, c);
  }

  lemma TopBack(h: Seg, held: map<Addr, nat>, h': Seg, held': map<Addr, nat>, a: Addr, n: nat, b: Addr)
    requires SegOK(h, held) && TopRewritten(h, held, h', held', a, n) && IsBound(h, b) && b <= a
    ensures BackOK(h', b)
  {
    Bounds(h, held, b);
    if b != h.base {
      assert ChunkOK(h, held, h.before[b]);
    }
  }

  lemma TopRewriteOK(h: Seg, held: map<Addr, nat>, h': Seg, held': map<Addr, nat>, a: Addr, n: nat)
    requires SegOK(h, held) && TopRewritten(h, held, h', held', a, n)
    ensures SegOK(h', held')
  {
    forall c {:trigger ChunkOK(h', held', c)} | c in h'.chunks
      ensures ChunkOK(h', held', c)
    {
      if c < a {
        TopRewrittenAt(h, held, h', held', a, n, c);
      } else {
        TopNewChunk(h, held, h', held', a, n);
      }
    }
    TopDisjoint(h, held, h', held', a, n);
    TopRest(h, held, h', held', a, n);
  }

  lemma TopNewChunk(h: Seg, held: map<Addr, nat>, h': Seg, held': map<Addr, nat>, a: Addr, n: nat)
    requires SegOK(h, held) && TopRewritten(h, held, h', held', a, n) && n > 0
    ensures ChunkOK(h', held', a)
  {
    Bounds(h, held, a);
    TopBack(h, held, h', held', a, n, a);
  }

  lemma TopRest(h: Seg, held: map<Addr, nat>, h': Seg, held': map<Addr, nat>, a: Addr, n: nat)
    requires SegOK(h, held) && TopRewritten(h, held, h', held', a, n)
    ensures TopOK(h') && BaseOK(h') && DvOK(h')
    ensures forall x {:trigger x in held'} :: x in held' ==> x in h'.chunks && x in h'.head && !h'.head[x].cinuse
  {
    Bounds(h, held, a);
    Bounds(h, held, h.base);
    TopBack(h, held, h', held', a, n, a);
  }

  lemma TopDisjoint(h: Seg, held: map<Addr, nat>, h': Seg, held': map<Addr, nat>, a: Addr, n: nat)
    requires SegOK(h, held) && TopRewritten(h, held, h', held', a, n)
    ensures Disjoint(h')
  {
    forall c, d | c in h'.chunks && d in h'.chunks && c < d && c in h'.head
      ensures End(h', c) <= d
    {
      if c < a {
        assert ChunkOK(h, held, c);
        Bounds(h, held, a);
        assert a in h.chunks ==> End(h, c) <= a;
      }
    }
  }

  // --- what the invariant says about the segment --------------------------------------------------

  /** Chunks tile the segment: every address below top lies in exactly one chunk. */
  lemma Tiling(h: Seg, held: map<Addr, nat>, x: Addr)
    requires SegOK(h, held) && h.base <= x < h.top
    ensures exists a :: a in h.chunks && a in h.head && a <= x < End(h, a)
    ensures forall a, b ::
              (a in h.chunks && b in h.chunks && a in h.head && b in h.head && a <= x < End(h, a)
                  && b <= x < End(h, b)) ==> a == b
  {
    var a := Covering(h, held, x, h.top);
  }

  lemma {:induction false} Covering(h: Seg, held: map<Addr, nat>, x: Addr, b: Addr) returns (a: Addr)
    requires SegOK(h, held) && h.base <= x < b && IsBound(h, b)
    ensures a in h.chunks && a in h.head && a <= x < End(h, a)
    decreases b
  {
    Bounds(h, held, b);
    a := h.before[b];
    assert ChunkOK(h, held, a);
    if x < a {
      a := Covering(h, held, x, a);
    }
  }

  /** Coalescing is complete: the chunk after a free chunk is in use and is not top, and the one before it is in use. */
  lemma NoAdjacentFree(h: Seg, held: map<Addr, nat>, a: Addr)
    requires SegOK(h, held) && a in Free(h)
    ensures a in h.head && End(h, a) in h.chunks && End(h, a) in h.head && h.head[End(h, a)].cinuse
    ensures a != h.base ==> a in h.before && h.before[a] in Live(h)
  {
    assert ChunkOK(h, held, a);
    Bounds(h, held, End(h, a));
    if End(h, a) != h.top {
      assert ChunkOK(h, held, End(h, a));
    }
    if a != h.base {
      assert ChunkOK(h, held, h.before[a]);
    }
  }

  lemma NullNotHeld(h: Seg, held: map<Addr, nat>)
    requires SegOK(h, held)
    ensures 0 !in held
  {
    if 0 in held {
      Bounds(h, held, 0);
    }
  }

  /** Every free chunk but top is dv or in the bins under its own size, and nothing else is in the bins. */
  lemma FreeIsBinned(h: Seg, held: map<Addr, nat>)
    requires SegOK(h, held)
    ensures Free(h) == if h.dv == 0 then held else held[h.dv := h.dvsize]
    ensures h.dv !in held
  {
    var f := Free(h);
    var g := if h.dv == 0 then held else held[h.dv := h.dvsize];
    if h.dv != 0 {
      assert ChunkOK(h, held, h.dv);
    }
    forall x | x in f || x in g
      ensures x in f && x in g && f[x] == g[x]
    {
      assert ChunkOK(h, held, x);
    }
    NullNotHeld(h, held);
  }
}
