/** The allocator: malloc, free and in-place realloc over one segment, its bins, dv and top. */
module Heap {
  import opened Ring
  import opened SizeClass
  import opened BinMap
  import opened HeapShape
  import opened HeapOps
  import SmallBins
  import TreeBins

  const CHUNK_OVERHEAD: nat := 4
  const MIN_REQUEST: nat := 11
  const MAX_SMALL_REQUEST: nat := 244
  const MAX_REQUEST: nat := 0xFFFF_FFC0
  const MAX_SIZE_T: nat := 0xFFFF_FFFF

  /** pad_request */
  function PadRequest(bytes: nat): nat { (bytes + CHUNK_OVERHEAD + 7) / 8 * 8 }

  /** The chunk size malloc looks for. */
  function RequestSize(bytes: nat): (nb: nat)
  {
    if bytes <= MAX_SMALL_REQUEST then (if bytes < MIN_REQUEST then MIN_CHUNK_SIZE else PadRequest(bytes))
    else if bytes >= MAX_REQUEST then MAX_SIZE_T
    else PadRequest(bytes)
  }

  lemma RequestRange(bytes: nat)
    requires bytes < WORD
    ensures var nb := RequestSize(bytes);
            && MIN_CHUNK_SIZE <= nb < WORD
            && (bytes <= MAX_SMALL_REQUEST ==> nb < MIN_LARGE_SIZE)
            && (bytes > MAX_SMALL_REQUEST ==> nb >= MIN_LARGE_SIZE)
            && (bytes < MAX_REQUEST ==>
                  nb % 8 == 0 && bytes + CHUNK_OVERHEAD <= nb < bytes + CHUNK_OVERHEAD + MIN_CHUNK_SIZE)
  {
  }

  predicate IsSmall(s: nat) { s / 8 < 32 }

  /** What malloc may hand out for `nb` bytes: a chunk from the bins only if it is the smallest there that is
      large enough; dv for a large request only if no binned chunk fits better; top only if nothing else is
      large enough. */
  ghost predicate GoodChoice(h: Seg, held: map<Addr, nat>, nb: nat, p: Addr)
  {
    if p == h.top then nb < h.topsize && h.dvsize < nb && forall x :: x in held ==> held[x] < nb
    else if p == h.dv then
      && nb <= h.dvsize
      && (nb >= MIN_LARGE_SIZE ==> forall x :: x in held && held[x] >= nb ==> h.dvsize <= held[x])
    else
      && p in held && nb <= held[p]
      && (forall x :: x in held && held[x] >= nb ==> held[p] <= held[x])
      && (nb >= MIN_LARGE_SIZE && h.dvsize >= nb ==> held[p] < h.dvsize)
  }

  /** Nothing in the segment can serve `nb` bytes. */
  ghost predicate Exhausted(h: Seg, held: map<Addr, nat>, nb: nat)
  {
    h.topsize <= nb && h.dvsize < nb && forall x :: x in held ==> held[x] < nb
  }

  class Heap {
    var seg: Seg
    const small: SmallBins.SmallBins
    const trees: TreeBins.TreeBins

    ghost predicate BinsOK()
      reads small, trees
    {
      small.Valid() && trees.Valid() && small.Held().Keys !! trees.Held().Keys
    }

    /** The binned chunks, with their sizes. */
    ghost function Held(): map<Addr, nat>
      reads small, trees
    {
      small.Held() + trees.Held()
    }

    ghost predicate Valid()
      reads this, small, trees
    {
      BinsOK() && SegOK(seg, Held())
    }

    /** A segment that is all top. */
    constructor (base: Addr, limit: Addr)
      requires 0 < base < limit < WORD && base % 8 == 0
      ensures Valid() && fresh(small) && fresh(trees)
      ensures Live(seg) == map[] && Held() == map[] && seg.base == base && seg.limit == limit
    {
      small := new SmallBins.SmallBins();
      trees := new TreeBins.TreeBins();
      seg := Seg(map[base := Head(limit - base, true, false)], map[], base, limit - base, 0, 0, base, limit, {}, map[]);
    }

    lemma HeldParts()
      requires BinsOK()
      ensures small.small.home.Keys == small.Held().Keys && trees.links.owner.Keys == trees.Held().Keys
      ensures forall x :: x in small.Held() ==> IsSmall(small.Held()[x]) && small.small.home[x] == small.Held()[x] / 8
      ensures forall x :: x in trees.Held() ==> LargeSize(trees.Held()[x])
    {
      forall x | x in small.small.home
        ensures small.small.home[x] < 32
      {
        assert SmallBins.HomeOK(small.small, x);
      }
      forall x | x in trees.links.owner
        ensures x in trees.mem.size
      {
        assert TreeBins.HeldOK(trees.mem, trees.links, x);
      }
      TreeBins.HeldLarge(trees.mem, trees.links);
    }

    /** insert_chunk */
    method InsertChunk(p: Addr, s: nat)
      requires BinsOK() && p > 0 && p !in Held() && MIN_CHUNK_SIZE <= s < WORD && s % 8 == 0
      modifies small, trees
      ensures BinsOK() && Held() == old(Held())[p := s]
    {
      HeldParts();
      if IsSmall(s) {
        small.Insert(p, s / 8);
      } else {
        trees.Insert(p, s);
      }
    }

    /** unlink_chunk */
    method UnlinkChunk(p: Addr, s: nat)
      requires BinsOK() && p in Held() && Held()[p] == s
      modifies small, trees
      ensures BinsOK() && Held() == old(Held()) - {p}
    {
      HeldParts();
      if IsSmall(s) {
        small.Unlink(p, s / 8);
      } else {
        trees.Unlink(p);
      }
    }

    /** replace_dv */
    method ReplaceDv(p: Addr, s: nat)
      requires BinsOK()
      requires seg.dvsize != 0 ==>
        && seg.dv > 0 && seg.dv !in Held() && MIN_CHUNK_SIZE <= seg.dvsize < MIN_LARGE_SIZE && seg.dvsize % 8 == 0
      modifies this, small, trees
      ensures BinsOK()
      ensures Held() == if old(seg).dvsize != 0 then old(Held())[old(seg).dv := old(seg).dvsize] else old(Held())
      ensures seg == old(seg).(dv := p, dvsize := s)
    {
      var dvs := seg.dvsize;
      if dvs != 0 {
        InsertChunk(seg.dv, dvs);
      }
      seg := seg.(dvsize := s, dv := p);
    }

    /** The words of a split: `nb` bytes in use at `p`, a free remainder behind. */
    method SplitWords(p: Addr, nb: nat, rsize: nat)
      requires p in seg.head && seg.head[p].size == nb + rsize && rsize > 0 && p != seg.dv
      modifies this`seg
      ensures seg == old(UseSplit(seg, p, nb, false))
    {
      seg := SetSizeOfInuse(seg, p, nb);
      var r := p + nb;
      seg := SetSizeOfFree(seg, r, rsize);
      seg := seg.(chunks := seg.chunks + {r}, before := seg.before[r + rsize := r][r := p]);
    }

    /** The tail shared by malloc's small-bin split, tmalloc_small and tmalloc_large: the binned chunk `p` is
        unlinked and handed out, and a large enough remainder becomes dv or goes to a bin. */
    method UseBinned(p: Addr, nb: nat, rsize: nat, toDv: bool)
      requires Valid() && p in Held() && Held()[p] == nb + rsize && nb >= MIN_CHUNK_SIZE && nb % 8 == 0
      requires toDv ==> seg.dvsize < MIN_LARGE_SIZE
      modifies this, small, trees
      ensures Valid() && seg.base == old(seg).base && seg.limit == old(seg).limit
      ensures p !in old(Live(seg))
      ensures Live(seg) == old(Live(seg))[p := if rsize < MIN_CHUNK_SIZE then nb + rsize else nb]
    {
      BinnedChunk(seg, Held(), p);
      if rsize < MIN_CHUNK_SIZE {
        UseWholeOK(seg, Held(), p);
        UnlinkChunk(p, nb + rsize);
        seg := SetInuseAndPinuse(seg, p, rsize + nb);
      } else if toDv {
        SplitIntoDv(p, nb, rsize);
      } else {
        SplitIntoBin(p, nb, rsize);
      }
    }

    method SplitIntoDv(p: Addr, nb: nat, rsize: nat)
      requires Valid() && p in Held() && Held()[p] == nb + rsize && nb >= MIN_CHUNK_SIZE && nb % 8 == 0
      requires rsize >= MIN_CHUNK_SIZE
      requires seg.dvsize < MIN_LARGE_SIZE
      modifies this, small, trees
      ensures Valid() && seg.base == old(seg).base && seg.limit == old(seg).limit
      ensures Live(seg) == old(Live(seg))[p := nb]
    {
      ghost var h0, held0 := seg, Held();
      BinnedChunk(h0, held0, p);
      DvChunk(h0, held0);
      SplitToDv(h0, held0, p, nb);
      UnlinkChunk(p, nb + rsize);
      SplitWords(p, nb, rsize);
      ReplaceDv(p + nb, rsize);
      DvBinnedWithout(h0, held0, p);
      assert seg == UseSplit(h0, p, nb, true);
    }

    method SplitIntoBin(p: Addr, nb: nat, rsize: nat)
      requires Valid() && p in Held() && Held()[p] == nb + rsize && nb >= MIN_CHUNK_SIZE && nb % 8 == 0
      requires rsize >= MIN_CHUNK_SIZE
      modifies this, small, trees
      ensures Valid() && seg.base == old(seg).base && seg.limit == old(seg).limit
      ensures Live(seg) == old(Live(seg))[p := nb]
    {
      ghost var h0, held0 := seg, Held();
      SplitToBin(h0, held0, p, nb, rsize);
      UnlinkChunk(p, nb + rsize);
      SplitWords(p, nb, rsize);
      InsertChunk(p + nb, rsize);
      assert Held() == (held0 - {p})[p + nb := rsize];
    }

    /** The part of malloc that splits or exhausts dv. */
    method UseDv(nb: nat) returns (p: Addr)
      requires Valid() && MIN_CHUNK_SIZE <= nb <= seg.dvsize && nb % 8 == 0
      modifies this
      ensures Valid() && seg.base == old(seg).base && seg.limit == old(seg).limit
      ensures p == old(seg).dv && p > 0 && p !in old(Live(seg))
      ensures Live(seg) == old(Live(seg))[p := if old(seg).dvsize - nb < MIN_CHUNK_SIZE then old(seg).dvsize else nb]
    {
      ghost var h0 := seg;
      DvUses(h0, Held(), nb);
      var rsize := seg.dvsize - nb;
      p := seg.dv;
      if rsize >= MIN_CHUNK_SIZE {
        DvSplitWords(p, nb, rsize);
      } else {
        DvExhaustedWords(p);
      }
    }

    method DvSplitWords(p: Addr, nb: nat, rsize: nat)
      requires p == seg.dv && p in seg.head && seg.head[p].size == nb + rsize && rsize > 0 && nb > 0
      modifies this`seg
      ensures seg == old(UseSplit(seg, p, nb, true))
    {
      var r := p + nb;
      seg := seg.(dv := r, dvsize := rsize);
      seg := SetSizeOfFree(seg, r, rsize);
      seg := SetSizeOfInuse(seg, p, nb);
      seg := seg.(chunks := seg.chunks + {r}, before := seg.before[r + rsize := r][r := p]);
    }

    method DvExhaustedWords(p: Addr)
      requires p == seg.dv && p in seg.head && seg.head[p].size == seg.dvsize && p + seg.dvsize in seg.head
      modifies this`seg
      ensures seg == old(UseWhole(seg, p))
    {
      var dvs := seg.dvsize;
      seg := seg.(dvsize := 0, dv := 0);
      seg := SetInuseAndPinuse(seg, p, dvs);
    }

    /** The part of malloc that splits top. */
    method UseTop(nb: nat) returns (p: Addr)
      requires Valid() && MIN_CHUNK_SIZE <= nb < seg.topsize && nb % 8 == 0
      modifies this
      ensures Valid() && seg.base == old(seg).base && seg.limit == old(seg).limit
      ensures p == old(seg).top && p > 0 && p !in old(Live(seg))
      ensures Live(seg) == old(Live(seg))[p := nb]
    {
      ghost var h0 := seg;
      CutTopOK(h0, Held(), h0.top, nb);
      FreeBelow(h0, Held(), h0.top);
      var rsize := seg.topsize - nb;
      p := seg.top;
      var r := p + nb;
      seg := seg.(topsize := rsize, top := r);
      seg := seg.(head := seg.head[r := Head(rsize, true, false)]);
      seg := SetSizeOfInuse(seg, p, nb);
      seg := seg.(chunks := seg.chunks + {p}, before := seg.before[r := p]);
      assert seg == CutTop(h0, p, nb);
    }

    /** tmalloc_large; 0 when dv fits no worse than any binned chunk. */
    method TmallocLarge(nb: nat) returns (p: Addr)
      requires Valid() && LargeSize(nb) && nb % 8 == 0
      modifies this, small, trees
      ensures Valid() && seg.base == old(seg).base && seg.limit == old(seg).limit
      ensures p == 0 ==> seg == old(seg) && Held() == old(Held()) && NoBetterInBins(seg, Held(), nb)
      ensures p != 0 ==>
        && p !in old(Live(seg)) && old(GoodChoice(seg, Held(), nb, p)) && Served(old(Live(seg)), Live(seg), p, nb)
    {
      var v, rsize := trees.FindBestFit(nb);
      HeldParts();
      DvChunk(seg, Held());
      p := 0;
      if v != 0 && rsize < TreeBins.Minus(seg.dvsize, nb) {
        BinnedChunk(seg, Held(), v);
        UseBinned(v, nb, rsize, false);
        p := v;
      }
    }

    /** tmalloc_small: a small request that no small bin and not dv can serve. */
    method TmallocSmall(nb: nat) returns (p: Addr)
      requires Valid() && MIN_CHUNK_SIZE <= nb < MIN_LARGE_SIZE && nb % 8 == 0 && trees.mem.treemap != 0
      requires seg.dvsize < nb
      requires forall x :: x in small.Held() ==> small.Held()[x] < nb
      modifies this, small, trees
      ensures Valid() && seg.base == old(seg).base && seg.limit == old(seg).limit
      ensures p > 0 && p !in old(Live(seg)) && old(GoodChoice(seg, Held(), nb, p))
      ensures Served(old(Live(seg)), Live(seg), p, nb)
    {
      var v, rsize := trees.FindSmallest(nb);
      BinnedChunk(seg, Held(), v);
      UseBinned(v, nb, rsize, true);
      p := v;
    }

    /** With no mark from `lo` up to but excluding `i`, no small chunk is at least `8 * lo` and below `8 * i` bytes;
        and every chunk of the trees is larger than any small one. */
    lemma SmallBinsBetween(lo: nat, i: nat)
      requires BinsOK() && lo <= i <= 32 && forall j :: lo <= j < i ==> !Marked(small.small.smallmap, j)
      ensures forall x :: x in Held() && Held()[x] >= 8 * lo ==> Held()[x] >= 8 * i
      ensures forall x :: x in small.Held() && i == 32 ==> small.Held()[x] < 8 * lo
    {
      HeldParts();
      SmallBins.HeldMarked(small.small);
    }

    /** malloc's part for small requests that takes a chunk out of a bin; 0 when it takes none. */
    method MallocSmall(nb: nat) returns (p: Addr)
      requires Valid() && MIN_CHUNK_SIZE <= nb < MIN_LARGE_SIZE && nb % 8 == 0
      modifies this, small, trees
      ensures Valid() && seg.base == old(seg).base && seg.limit == old(seg).limit
      ensures p == 0 ==> seg == old(seg) && Held() == old(Held())
      ensures p == 0 ==> NoBetterInBins(seg, Held(), nb)
      ensures p != 0 ==>
        && p !in old(Live(seg)) && old(GoodChoice(seg, Held(), nb, p)) && Served(old(Live(seg)), Live(seg), p, nb)
    {
      var idx := nb / 8;
      var smallbits := small.small.smallmap >> idx;
      BitsOf(small.small.smallmap, idx);
      p := 0;
      if smallbits & 3 != 0 {
        var i := if !smallbits & 1 == 0 then idx else idx + 1;
        assert i > idx ==> !Marked(small.small.smallmap, idx);
        SmallBinsBetween(idx, i);
        p := TakeSmall(nb, i, false);
      } else if nb > seg.dvsize {
        p := MallocHigher(nb, idx);
      }
    }

    /** With nothing in the two small bins that fit closely: the nearest higher small bin, or the trees. */
    method MallocHigher(nb: nat, idx: nat) returns (p: Addr)
      requires Valid() && MIN_CHUNK_SIZE <= nb < MIN_LARGE_SIZE && nb % 8 == 0 && idx == nb / 8 && seg.dvsize < nb
      requires !Marked(small.small.smallmap, idx) && (idx < 31 ==> !Marked(small.small.smallmap, idx + 1))
      modifies this, small, trees
      ensures Valid() && seg.base == old(seg).base && seg.limit == old(seg).limit
      ensures p == 0 ==> seg == old(seg) && Held() == old(Held()) && NoBetterInBins(seg, Held(), nb)
      ensures p != 0 ==>
        && p !in old(Live(seg)) && old(GoodChoice(seg, Held(), nb, p)) && Served(old(Live(seg)), Live(seg), p, nb)
    {
      var i := NextMarked(small.small.smallmap, idx);
      SmallBinsBetween(idx, i);
      p := 0;
      if i < 32 {
        p := TakeSmall(nb, i, true);
      } else if trees.mem.treemap != 0 {
        p := TmallocSmall(nb);
      } else {
        NoTrees();
      }
    }

    /** The first chunk of the lowest small bin that is large enough is handed out. */
    method TakeSmall(nb: nat, i: nat, toDv: bool) returns (p: Addr)
      requires Valid() && MIN_CHUNK_SIZE <= nb <= 8 * i && nb % 8 == 0 && i < 32 && Marked(small.small.smallmap, i)
      requires toDv ==> seg.dvsize < MIN_LARGE_SIZE
      requires !toDv ==> 8 * i < nb + MIN_CHUNK_SIZE
      requires forall x :: x in Held() && Held()[x] >= nb ==> Held()[x] >= 8 * i
      requires nb < MIN_LARGE_SIZE
      modifies this, small, trees
      ensures Valid() && seg.base == old(seg).base && seg.limit == old(seg).limit
      ensures p > 0 && p !in old(Live(seg)) && old(GoodChoice(seg, Held(), nb, p))
      ensures Served(old(Live(seg)), Live(seg), p, nb)
    {
      p := small.First(i);
      BinnedChunk(seg, Held(), p);
      UseBinned(p, nb, 8 * i - nb, toDv);
    }

    lemma NoTrees()
      requires BinsOK() && trees.mem.treemap == 0
      ensures trees.Held() == map[]
    {
      HeldParts();
      forall x | x in trees.Held()
        ensures false
      {
        assert TreeBins.HeldOK(trees.mem, trees.links, x);
        TreeBins.MarkedWhenHeld(trees.mem, trees.links, x);
        EmptyMap(0);
      }
    }

    /** dlmalloc; the chunk, or 0 when the segment is exhausted and nothing is obtained from the system. */
    method Malloc(bytes: nat) returns (p: Addr)
      requires Valid() && bytes < WORD
      modifies this, small, trees
      ensures Valid() && seg.base == old(seg).base && seg.limit == old(seg).limit
      ensures p == 0 ==> seg == old(seg) && Held() == old(Held()) && Exhausted(seg, Held(), RequestSize(bytes))
      ensures p != 0 ==>
                && p !in old(Live(seg)) && old(GoodChoice(seg, Held(), RequestSize(bytes), p))
                && Served(old(Live(seg)), Live(seg), p, RequestSize(bytes))
    {
      RequestRange(bytes);
      var nb := RequestSize(bytes);
      if bytes >= MAX_REQUEST {
        NothingThatLarge(seg, Held());
        return 0;
      }
      p := MallocFromBins(bytes, nb);
      if p == 0 {
        p := MallocFallback(nb);
      }
    }

    method MallocFromBins(bytes: nat, nb: nat) returns (p: Addr)
      requires Valid() && bytes < MAX_REQUEST && nb == RequestSize(bytes)
      modifies this, small, trees
      ensures Valid() && seg.base == old(seg).base && seg.limit == old(seg).limit
      ensures p == 0 ==> seg == old(seg) && Held() == old(Held()) && NoBetterInBins(seg, Held(), nb)
      ensures p != 0 ==>
        && p !in old(Live(seg)) && old(GoodChoice(seg, Held(), nb, p)) && Served(old(Live(seg)), Live(seg), p, nb)
    {
      RequestRange(bytes);
      p := 0;
      if bytes <= MAX_SMALL_REQUEST {
        p := MallocSmall(nb);
      } else if trees.mem.treemap != 0 {
        p := TmallocLarge(nb);
      } else {
        NoTrees();
        HeldParts();
      }
    }

    /** malloc's last resorts: dv, then top. */
    method MallocFallback(nb: nat) returns (p: Addr)
      requires Valid() && MIN_CHUNK_SIZE <= nb < WORD && nb % 8 == 0 && NoBetterInBins(seg, Held(), nb)
      modifies this
      ensures Valid() && seg.base == old(seg).base && seg.limit == old(seg).limit
      ensures p == 0 ==> seg == old(seg) && Exhausted(seg, Held(), nb)
      ensures p != 0 ==>
        && p !in old(Live(seg)) && old(GoodChoice(seg, Held(), nb, p)) && Served(old(Live(seg)), Live(seg), p, nb)
    {
      FallbackGood(seg, Held(), nb);
      p := 0;
      if nb <= seg.dvsize {
        p := UseDv(nb);
      } else if nb < seg.topsize {
        p := UseTop(nb);
      }
    }

    /** set_free_with_pinuse on the stretch `[p, next)`; `toDv` when the stretch is dv. */
    method FreeWords(p: Addr, psize: nat, next: Addr, toDv: bool)
      requires next in seg.head && next == p + psize && psize > 0 && (toDv ==> p == seg.dv)
      modifies this`seg
      ensures seg == old(FreeStretch(seg, p, next, toDv))
    {
      if toDv {
        seg := seg.(dvsize := psize);
      }
      seg := SetFreeWithPinuse(seg, p, psize, next);
      seg := seg.(chunks := (set c | c in seg.chunks && (c <= p || c >= next)), before := seg.before[next := p]);
    }

    /** The stretch `[p, p + psize)`, whose last chunk was free already, becomes one free chunk. */
    method MergeWords(p: Addr, psize: nat)
      requires p + psize in seg.head && psize > 0 && !seg.head[p + psize].pinuse
      modifies this`seg
      ensures seg == old(FreeStretch(seg, p, p + psize, p == seg.dv))
    {
      seg := SetSizeOfFree(seg, p, psize);
      if p == seg.dv {
        seg := seg.(dvsize := psize);
      }
      seg := seg.(chunks := (set c | c in seg.chunks && (c <= p || c >= p + psize)),
          before := seg.before[p + psize := p]);
    }

    /** The stretch `[p, dv)` joins dv. */
    method JoinDvWords(p: Addr, psize: nat)
      requires psize + seg.dvsize > 0 && p + psize + seg.dvsize in seg.head && !seg.head[p + psize + seg.dvsize].pinuse
      modifies this`seg
      ensures seg == old(FreeStretch(seg, p, p + psize + seg.dvsize, true))
    {
      var dsize := seg.dvsize + psize;
      seg := SetSizeOfFree(seg.(dvsize := dsize, dv := p), p, dsize);
      seg := seg.(chunks := (set c | c in seg.chunks && (c <= p || c >= p + dsize)),
          before := seg.before[p + dsize := p]);
    }

    /** The stretch `[p, top)` joins top. */
    method JoinTopWords(p: Addr, psize: nat)
      requires Remaining(seg, p) == seg.topsize + psize && (seg.dv >= p ==> seg.dv == p)
      requires seg.dv == 0 ==> seg.dvsize == 0 && p > 0
      modifies this`seg
      ensures seg == old(IntoTop(seg, p))
    {
      var tsize := seg.topsize + psize;
      seg := seg.(topsize := tsize, top := p, head := seg.head[p := Head(tsize, true, false)]);
      if p == seg.dv {
        seg := seg.(dv := 0, dvsize := 0);
      }
      seg := seg.(chunks := (set c | c in seg.chunks && c < p));
    }

    /** dlfree and dispose_chunk: the chunk is merged with its free neighbours and put where the result belongs. */
    method Release(p0: Addr)
      requires Valid() && p0 in Live(seg)
      modifies this, small, trees
      ensures Valid() && seg.base == old(seg).base && seg.limit == old(seg).limit
      ensures Live(seg) == old(Live(seg)) - {p0}
    {
      ghost var held0 := Held();
      Surroundings(seg, held0, p0);
      NotBinned(seg, held0, p0);
      var p, psize := p0, seg.head[p0].size;
      var next := p + psize;
      if !seg.head[p].pinuse {
        var prevsize := seg.foot[p];
        var prev := p - prevsize;
        psize := psize + prevsize;
        p := prev;
        if p != seg.dv {
          UnlinkChunk(p, prevsize);
        } else if seg.head[next].pinuse && seg.head[next].cinuse {
          FreedToDv(seg, held0, p0);
          FreeWords(p, psize, next, true);
          return;
        }
      }
      Consolidate(p0, p, psize, next, held0);
    }

    /** The second half of dlfree, with `p` and `psize` covering the chunk before if it was free. */
    method Consolidate(ghost p0: Addr, p: Addr, psize: nat, next: Addr, ghost held0: map<Addr, nat>)
      requires BinsOK() && SegOK(seg, held0) && p0 in Live(seg)
      requires IsSurrounded(seg, held0, p0) && p == Front(seg, p0) && next == End(seg, p0) && psize == next - p
      requires Held() == held0 - {p}
      requires p == seg.dv ==> !seg.head[next].cinuse
      modifies this, small, trees
      ensures Valid() && seg.base == old(seg).base && seg.limit == old(seg).limit
      ensures Live(seg) == old(Live(seg)) - {p0}
    {
      if seg.head[next].cinuse {
        ConsolidateAlone(p0, p, psize, next, held0);
      } else if next == seg.top {
        FreedToTop(seg, held0, p0);
        JoinTopWords(p, psize);
      } else if next == seg.dv {
        FreedIntoDv(seg, held0, p0);
        JoinDvWords(p, psize);
      } else {
        ConsolidateNext(p0, p, psize, next, held0);
      }
    }

    method ConsolidateAlone(ghost p0: Addr, p: Addr, psize: nat, next: Addr, ghost held0: map<Addr, nat>)
      requires BinsOK() && SegOK(seg, held0) && p0 in Live(seg)
      requires IsSurrounded(seg, held0, p0) && p == Front(seg, p0) && next == End(seg, p0) && psize == next - p
      requires Held() == held0 - {p}
      requires p != seg.dv && seg.head[next].cinuse
      modifies this, small, trees
      ensures Valid() && seg.base == old(seg).base && seg.limit == old(seg).limit
      ensures Live(seg) == old(Live(seg)) - {p0}
    {
      FreedAlone(seg, held0, p0);
      FreeWords(p, psize, next, false);
      InsertChunk(p, psize);
    }

    method ConsolidateNext(ghost p0: Addr, p: Addr, psize0: nat, next: Addr, ghost held0: map<Addr, nat>)
      requires BinsOK() && SegOK(seg, held0) && p0 in Live(seg)
      requires IsSurrounded(seg, held0, p0) && p == Front(seg, p0) && next == End(seg, p0) && psize0 == next - p
      requires Held() == held0 - {p}
      requires !seg.head[next].cinuse && next != seg.top && next != seg.dv
      modifies this, small, trees
      ensures Valid() && seg.base == old(seg).base && seg.limit == old(seg).limit
      ensures Live(seg) == old(Live(seg)) - {p0}
    {
      FreedWithNext(seg, held0, p0);
      var nsize := seg.head[next].size;
      var psize := psize0 + nsize;
      ghost var after := FreeStretch(seg, p, p + psize, p == seg.dv);
      UnlinkChunk(next, nsize);
      Merge(p, psize, after);
    }

    /** The stretch becomes one free chunk, in a bin unless it is dv. */
    method Merge(p: Addr, psize: nat, ghost after: Seg)
      requires BinsOK() && p + psize in seg.head && psize > 0 && !seg.head[p + psize].pinuse
      requires p > 0 && p !in Held() && MIN_CHUNK_SIZE <= psize < WORD && psize % 8 == 0
      requires after == FreeStretch(seg, p, p + psize, p == seg.dv)
      requires SegOK(after, if p == seg.dv then Held() else Held()[p := psize])
      modifies this, small, trees
      ensures Valid() && seg == after
    {
      var wasDv := p == seg.dv;
      MergeWords(p, psize);
      if !wasDv {
        InsertChunk(p, psize);
      }
    }

    /** Two set_inuse: the chunk keeps `nb` bytes and the rest of the stretch becomes a chunk in use. */
    method CarveWords(p: Addr, nb: nat, rsize: nat)
      requires p in seg.head && nb > 0 && rsize > 0 && p + nb + rsize in seg.head
      requires (seg.dv < p || seg.dv >= p + nb + rsize)
      modifies this`seg
      ensures seg == old(Resize(seg, p, p + nb, p + nb + rsize, true))
    {
      var r := p + nb;
      seg := SetInuse(seg, p, nb);
      seg := SetInuse(seg, r, rsize);
      seg := seg.(chunks := (set c | c in seg.chunks && (c <= p || c >= r + rsize)) + {r},
                  before := seg.before[r := p][r + rsize := r]);
    }

    /** set_inuse over the whole stretch; dv is forgotten if it was absorbed. */
    method AbsorbWords(p: Addr, newsize: nat, wasDv: bool)
      requires p in seg.head && newsize > 0 && p + newsize in seg.head
      requires if wasDv then p <= seg.dv < p + newsize else seg.dv < p || seg.dv >= p + newsize
      modifies this`seg
      ensures seg == old(Resize(seg, p, p, p + newsize, true))
    {
      seg := SetInuse(seg, p, newsize);
      if wasDv {
        seg := seg.(dvsize := 0, dv := 0);
      }
      seg := seg.(chunks := (set c | c in seg.chunks && (c <= p || c >= p + newsize)) + {p},
                  before := seg.before[p + newsize := p]);
    }

    /** The chunk takes the front of dv, whose rest stays dv. */
    method IntoDvWords(p: Addr, nb: nat, dsize: nat)
      requires p in seg.head && nb > 0 && dsize > 0 && p + nb + dsize in seg.head
      modifies this`seg
      ensures seg == old(Resize(seg, p, p + nb, p + nb + dsize, false))
    {
      var r := p + nb;
      var n := r + dsize;
      seg := SetInuse(seg, p, nb);
      seg := SetSizeOfFree(seg, r, dsize);
      seg := ClearPinuse(seg, n);
      seg := seg.(dvsize := dsize, dv := r);
      seg := seg.(chunks := (set c | c in seg.chunks && (c <= p || c >= n)) + {r},
          before := seg.before[r := p][n := r]);
    }

    /** The chunk takes the front of top. */
    method IntoTopWords(p: Addr, nb: nat, newtopsize: nat)
      requires p in seg.head && nb > 0 && newtopsize == Remaining(seg, p + nb)
      modifies this`seg
      ensures seg == old(CutTop(seg, p, nb))
    {
      var newtop := p + nb;
      seg := SetInuse(seg, p, nb);
      seg := seg.(head := seg.head[newtop := Head(newtopsize, true, false)]);
      seg := seg.(top := newtop, topsize := newtopsize);
      seg := seg.(chunks := (set c | c in seg.chunks && c < p) + {p}, before := seg.before[newtop := p]);
    }

    /** try_realloc_chunk without moving. */
    method TryRealloc(p: Addr, nb: nat) returns (ok: bool)
      requires Valid() && p in Live(seg) && nb >= MIN_CHUNK_SIZE && nb % 8 == 0
      modifies this, small, trees
      ensures Valid() && seg.base == old(seg).base && seg.limit == old(seg).limit
      ensures ok <==> old(HasRoom(seg, p, nb))
      ensures !ok ==> seg == old(seg) && Held() == old(Held())
      ensures ok ==> Served(old(Live(seg)), Live(seg), p, nb)
    {
      Surroundings(seg, Held(), p);
      var oldsize := seg.head[p].size;
      var next := p + oldsize;
      ok := false;
      if oldsize >= nb {
        Shrink(p, nb, oldsize - nb);
        ok := true;
      } else if next == seg.top {
        if oldsize + seg.topsize > nb {
          GrowIntoTop(p, nb);
          ok := true;
        }
      } else if next == seg.dv {
        if oldsize + seg.dvsize >= nb {
          GrowIntoDv(p, nb, oldsize + seg.dvsize - nb);
          ok := true;
        }
      } else if !seg.head[next].cinuse {
        if oldsize + seg.head[next].size >= nb {
          GrowIntoNext(p, nb, next, oldsize + seg.head[next].size - nb);
          ok := true;
        }
      }
    }

    method Shrink(p: Addr, nb: nat, rsize: nat)
      requires Valid() && p in Live(seg) && nb >= MIN_CHUNK_SIZE && nb % 8 == 0 && Live(seg)[p] == nb + rsize
      modifies this, small, trees
      ensures Valid() && seg.base == old(seg).base && seg.limit == old(seg).limit
      ensures Served(old(Live(seg)), Live(seg), p, nb)
    {
      if rsize >= MIN_CHUNK_SIZE {
        Surroundings(seg, Held(), p);
        CarveAndRelease(p, nb, rsize, Held());
      }
    }

    method GrowIntoTop(p: Addr, nb: nat)
      requires Valid() && p in Live(seg) && nb >= MIN_CHUNK_SIZE && nb % 8 == 0
      requires p in seg.head && End(seg, p) == seg.top && seg.head[p].size + seg.topsize > nb
      modifies this
      ensures Valid() && seg.base == old(seg).base && seg.limit == old(seg).limit
      ensures Served(old(Live(seg)), Live(seg), p, nb)
    {
      CutTopOK(seg, Held(), p, nb);
      IntoTopWords(p, nb, seg.head[p].size + seg.topsize - nb);
    }

    method GrowIntoDv(p: Addr, nb: nat, dsize: nat)
      requires Valid() && p in Live(seg) && nb >= MIN_CHUNK_SIZE && nb % 8 == 0
      requires IsSurrounded(seg, Held(), p) && End(seg, p) == seg.dv && seg.dv != seg.top
      requires nb > seg.head[p].size && nb + dsize == seg.head[p].size + seg.dvsize
      modifies this
      ensures Valid() && seg.base == old(seg).base && seg.limit == old(seg).limit
      ensures Served(old(Live(seg)), Live(seg), p, nb)
    {
      if dsize >= MIN_CHUNK_SIZE {
        ShareDv(p, nb, dsize, Held());
      } else {
        AbsorbDv(p, nb + dsize, Held());
      }
    }

    /** The chunk takes the front of dv; the bins stay as they are. */
    method ShareDv(p: Addr, nb: nat, dsize: nat, ghost held: map<Addr, nat>)
      requires SegOK(seg, held) && IsSurrounded(seg, held, p) && End(seg, p) == seg.dv && seg.dv != seg.top
      requires nb % 8 == 0 && nb > seg.head[p].size && dsize >= MIN_CHUNK_SIZE
      requires nb + dsize == seg.head[p].size + seg.dvsize
      modifies this`seg
      ensures SegOK(seg, held) && seg.base == old(seg).base && seg.limit == old(seg).limit
      ensures Live(seg) == old(Live(seg))[p := nb]
    {
      DvIsNext(seg, held, p);
      DvShared(seg, held, p, nb, p + nb + dsize);
      IntoDvWords(p, nb, dsize);
    }

    method AbsorbDv(p: Addr, newsize: nat, ghost held: map<Addr, nat>)
      requires SegOK(seg, held) && IsSurrounded(seg, held, p) && End(seg, p) == seg.dv && seg.dv != seg.top
      requires newsize == seg.head[p].size + seg.dvsize
      modifies this`seg
      ensures SegOK(seg, held) && seg.base == old(seg).base && seg.limit == old(seg).limit
      ensures Live(seg) == old(Live(seg))[p := newsize]
    {
      DvIsNext(seg, held, p);
      Absorbed(seg, held, p, p + newsize);
      AbsorbWords(p, newsize, true);
    }

    method AbsorbNext(p: Addr, newsize: nat, ghost held0: map<Addr, nat>)
      requires BinsOK() && SegOK(seg, held0) && IsSurrounded(seg, held0, p)
      requires End(seg, p) != seg.dv && End(seg, p) != seg.top && !seg.head[End(seg, p)].cinuse
      requires newsize == seg.head[p].size + seg.head[End(seg, p)].size && Held() == held0 - {End(seg, p)}
      modifies this
      ensures Valid() && seg.base == old(seg).base && seg.limit == old(seg).limit
      ensures Live(seg) == old(Live(seg))[p := newsize]
    {
      Absorbed(seg, held0, p, p + newsize);
      AbsorbWords(p, newsize, false);
    }

    method GrowIntoNext(p: Addr, nb: nat, next: Addr, rsize: nat)
      requires Valid() && p in Live(seg) && nb >= MIN_CHUNK_SIZE && nb % 8 == 0
      requires IsSurrounded(seg, Held(), p) && End(seg, p) == next && next != seg.dv && next != seg.top
      requires !seg.head[next].cinuse
      requires nb > seg.head[p].size && nb + rsize == seg.head[p].size + seg.head[next].size
      modifies this, small, trees
      ensures Valid() && seg.base == old(seg).base && seg.limit == old(seg).limit
      ensures Served(old(Live(seg)), Live(seg), p, nb)
    {
      ghost var held0 := Held();
      UnlinkChunk(next, seg.head[next].size);
      if rsize < MIN_CHUNK_SIZE {
        AbsorbNext(p, nb + rsize, held0);
      } else {
        CarveAndRelease(p, nb, rsize, held0);
      }
    }

    method CarveAndRelease(p: Addr, nb: nat, rsize: nat, ghost held0: map<Addr, nat>)
      requires BinsOK() && SegOK(seg, held0) && p in Live(seg) && IsSurrounded(seg, held0, p)
      requires nb >= MIN_CHUNK_SIZE && nb % 8 == 0 && rsize >= MIN_CHUNK_SIZE
      requires if p + nb + rsize == End(seg, p) then Held() == held0
               else
                 && Held() == held0 - {End(seg, p)} && p + nb > End(seg, p) && p + nb + rsize == End(seg, End(seg, p))
                 && End(seg, p) != seg.top && End(seg, p) != seg.dv && !seg.head[End(seg, p)].cinuse
      modifies this, small, trees
      ensures Valid() && seg.base == old(seg).base && seg.limit == old(seg).limit
      ensures Live(seg) == old(Live(seg))[p := nb]
    {
      PutAndDropped(seg, held0, p, nb, p + nb + rsize);
      Carve(p, nb, rsize, held0);
      Release(p + nb);
    }

    method Carve(p: Addr, nb: nat, rsize: nat, ghost held0: map<Addr, nat>)
      requires BinsOK() && SegOK(seg, held0) && p in Live(seg) && IsSurrounded(seg, held0, p)
      requires nb >= MIN_CHUNK_SIZE && nb % 8 == 0 && rsize >= MIN_CHUNK_SIZE
      requires if p + nb + rsize == End(seg, p) then Held() == held0
               else
                 && Held() == held0 - {End(seg, p)} && p + nb > End(seg, p) && p + nb + rsize == End(seg, End(seg, p))
                 && End(seg, p) != seg.top && End(seg, p) != seg.dv && !seg.head[End(seg, p)].cinuse
      modifies this`seg
      ensures Valid() && seg.base == old(seg).base && seg.limit == old(seg).limit
      ensures Live(seg) == old(Live(seg))[p := nb][p + nb := rsize]
    {
      Carved(seg, held0, p, nb, p + nb + rsize);
      CarveWords(p, nb, rsize);
    }
  }

  /** There is room for `nb` bytes in place: in the chunk itself, or together with top or the free chunk after it. */
  ghost predicate HasRoom(h: Seg, p: Addr, nb: nat)
  {
    p in h.head &&
    var n := End(h, p);
    || h.head[p].size >= nb
    || (n == h.top && h.head[p].size + h.topsize > nb)
    || (n != h.top && n in h.head && !h.head[n].cinuse && h.head[p].size + h.head[n].size >= nb)
  }

  /** The free chunk after a chunk in use lies between it and another chunk in use. */
  lemma Absorbable(h: Seg, held: map<Addr, nat>, p: Addr)
    requires SegOK(h, held) && IsSurrounded(h, held, p) && End(h, p) != h.top && !h.head[End(h, p)].cinuse
    ensures var n, e := End(h, p), End(h, End(h, p));
            && e in h.chunks && e in h.head && h.head[e].cinuse && p < n < e
            && n % 8 == 0 && e % 8 == 0 && p % 8 == 0
            && (forall c :: c in h.chunks && p < c < e ==> c == n)
            && Outside(held, p, e) == held - {n}
            && (h.dv < p || h.dv >= e || h.dv == n)
            && (n == h.dv ==> held - {n} == held)
  {
    var n, e := End(h, p), End(h, End(h, p));
    assert ChunkOK(h, held, p) && ChunkOK(h, held, n) && ChunkOK(h, held, e);
    NotInsideAny(h, held, p);
    NotInsideAny(h, held, n);
  }

  lemma PutAndDropped(h: Seg, held: map<Addr, nat>, p: Addr, nb: nat, e: Addr)
    requires SegOK(h, held) && p in Live(h) && nb % 8 == 0 && nb >= MIN_CHUNK_SIZE && p + nb + MIN_CHUNK_SIZE <= e
    requires IsSurrounded(h, held, p)
    requires e == End(h, p)
        || (End(h, p) != h.top && End(h, p) != h.dv && !h.head[End(h, p)].cinuse && e == End(h, End(h, p))
            && p + nb > End(h, p))
    ensures Live(h)[p := nb][p + nb := e - (p + nb)] - {p + nb} == Live(h)[p := nb]
  {
    Carvable(h, held, p, nb, e);
  }

  lemma DvIsNext(h: Seg, held: map<Addr, nat>, p: Addr)
    requires SegOK(h, held) && IsSurrounded(h, held, p) && End(h, p) == h.dv && h.dv != h.top
    ensures !h.head[h.dv].cinuse && h.head[h.dv].size == h.dvsize
  {
    assert ChunkOK(h, held, h.dv);
  }

  /** A chunk in use absorbs the free chunk after it. */
  lemma Absorbed(h: Seg, held: map<Addr, nat>, p: Addr, e: Addr)
    requires SegOK(h, held) && IsSurrounded(h, held, p) && End(h, p) != h.top && !h.head[End(h, p)].cinuse
    requires e == End(h, End(h, p))
    ensures e in h.head && p < e && (if End(h, p) == h.dv then p <= h.dv < e else h.dv < p || h.dv >= e)
    ensures SegOK(Resize(h, p, p, e, true), Outside(held, p, e))
    ensures Live(Resize(h, p, p, e, true)) == Live(h)[p := e - p]
    ensures Outside(held, p, e) == if End(h, p) == h.dv then held else held - {End(h, p)}
  {
    Absorbable(h, held, p);
    ResizeOK(h, held, p, p, e, true);
  }

  /** A chunk in use takes the front of dv. */
  lemma DvShared(h: Seg, held: map<Addr, nat>, p: Addr, nb: nat, e: Addr)
    requires SegOK(h, held) && IsSurrounded(h, held, p) && End(h, p) != h.top && End(h, p) == h.dv
    requires !h.head[End(h, p)].cinuse && e == End(h, End(h, p)) && nb % 8 == 0
    requires nb > h.head[p].size && p + nb + MIN_CHUNK_SIZE <= e
    ensures e in h.head
    ensures SegOK(Resize(h, p, p + nb, e, false), Outside(held, p, e)) && Outside(held, p, e) == held
    ensures Live(Resize(h, p, p + nb, e, false)) == Live(h)[p := nb]
  {
    DvSharable(h, held, p, nb, e);
    ResizeOK(h, held, p, p + nb, e, false);
  }

  lemma DvSharable(h: Seg, held: map<Addr, nat>, p: Addr, nb: nat, e: Addr)
    requires SegOK(h, held) && IsSurrounded(h, held, p) && End(h, p) != h.top && End(h, p) == h.dv
    requires !h.head[End(h, p)].cinuse && e == End(h, End(h, p)) && nb % 8 == 0
    requires nb > h.head[p].size && p + nb + MIN_CHUNK_SIZE <= e
    ensures CanResize(h, held, p, p + nb, e, false) && Outside(held, p, e) == held
  {
    Absorbable(h, held, p);
    assert ChunkOK(h, held, p);
  }

  /** Cutting a chunk in use, or one that absorbs the free chunk after it, in two. */
  lemma Carved(h: Seg, held: map<Addr, nat>, p: Addr, nb: nat, e: Addr)
    requires SegOK(h, held) && p in Live(h) && nb % 8 == 0 && nb >= MIN_CHUNK_SIZE && p + nb + MIN_CHUNK_SIZE <= e
    requires IsSurrounded(h, held, p)
    requires e == End(h, p)
        || (End(h, p) != h.top && End(h, p) != h.dv && !h.head[End(h, p)].cinuse && e == End(h, End(h, p))
            && p + nb > End(h, p))
    ensures e in h.head && (h.dv < p || h.dv >= e)
    ensures SegOK(Resize(h, p, p + nb, e, true), Outside(held, p, e))
    ensures Live(Resize(h, p, p + nb, e, true)) == Live(h)[p := nb][p + nb := e - (p + nb)]
    ensures p + nb !in Live(h)
    ensures Outside(held, p, e) == if e == End(h, p) then held else held - {End(h, p)}
  {
    Carvable(h, held, p, nb, e);
    ResizeOK(h, held, p, p + nb, e, true);
  }

  lemma Carvable(h: Seg, held: map<Addr, nat>, p: Addr, nb: nat, e: Addr)
    requires SegOK(h, held) && p in Live(h) && nb % 8 == 0 && nb >= MIN_CHUNK_SIZE && p + nb + MIN_CHUNK_SIZE <= e
    requires IsSurrounded(h, held, p)
    requires e == End(h, p)
        || (End(h, p) != h.top && End(h, p) != h.dv && !h.head[End(h, p)].cinuse && e == End(h, End(h, p))
            && p + nb > End(h, p))
    ensures CanResize(h, held, p, p + nb, e, true)
    ensures e in h.head && (h.dv < p || h.dv >= e) && p + nb !in Live(h)
    ensures Outside(held, p, e) == if e == End(h, p) then held else held - {End(h, p)}
  {
    if e == End(h, p) {
      CarvableAlone(h, held, p, nb);
    } else {
      CarvableNext(h, held, p, nb, e);
    }
  }

  lemma CarvableAlone(h: Seg, held: map<Addr, nat>, p: Addr, nb: nat)
    requires SegOK(h, held) && IsSurrounded(h, held, p) && nb % 8 == 0 && nb >= MIN_CHUNK_SIZE
    requires p + nb + MIN_CHUNK_SIZE <= End(h, p)
    ensures CanResize(h, held, p, p + nb, End(h, p), true) && Outside(held, p, End(h, p)) == held
    ensures (h.dv < p || h.dv >= End(h, p)) && p + nb !in Live(h)
  {
    assert ChunkOK(h, held, p);
    NotInsideAny(h, held, p);
  }

  lemma CarvableNext(h: Seg, held: map<Addr, nat>, p: Addr, nb: nat, e: Addr)
    requires SegOK(h, held) && IsSurrounded(h, held, p) && nb % 8 == 0 && nb >= MIN_CHUNK_SIZE
    requires End(h, p) != h.top && End(h, p) != h.dv && !h.head[End(h, p)].cinuse && e == End(h, End(h, p))
    requires End(h, p) < p + nb <= e - MIN_CHUNK_SIZE
    ensures CanResize(h, held, p, p + nb, e, true) && Outside(held, p, e) == held - {End(h, p)}
    ensures e in h.head && (h.dv < p || h.dv >= e) && p + nb !in Live(h)
  {
    Absorbable(h, held, p);
    assert ChunkOK(h, held, p);
  }

  // --- what surrounds a chunk that is freed -------------------------------------------------------

  /** Where the freed stretch begins: at the chunk, or at the free chunk before it. */
  ghost function Front(h: Seg, p: Addr): Addr
    requires p in h.head
  {
    if h.head[p].pinuse || p !in h.before then p else h.before[p]
  }

  /** Where it ends, when the chunk after is not top. */
  ghost function Back(h: Seg, p: Addr): Addr
    requires p in h.head && End(h, p) in h.head
  {
    var n := End(h, p);
    if h.head[n].cinuse || n == h.top then n else End(h, n)
  }

  ghost predicate IsSurrounded(h: Seg, held: map<Addr, nat>, p: Addr)
  {
    && p in h.chunks && p in h.head && h.head[p].cinuse && End(h, p) in h.head && IsBound(h, End(h, p))
    && p !in held && p != h.dv && p > 0
    && var f, n := Front(h, p), End(h, p);
       && f in h.chunks && f in h.head && f <= p && f > 0 && h.head[f].pinuse
       && (f != p ==> !h.head[f].cinuse && End(h, f) == p && p in h.foot && h.foot[p] == h.head[f].size
                      && !h.head[p].pinuse && if f == h.dv then f !in held else f in held && held[f] == h.head[f].size)
       && (f == p ==> h.head[p].pinuse)
       && h.head[n].pinuse
       && (n != h.top ==> n in h.chunks)
       && (n != h.top && !h.head[n].cinuse ==>
             && End(h, n) in h.chunks && End(h, n) in h.head && h.head[End(h, n)].cinuse && !h.head[End(h, n)].pinuse
             && (if n == h.dv then n !in held && h.dvsize == h.head[n].size
                 else n in held && held[n] == h.head[n].size))
  }

  lemma Surroundings(h: Seg, held: map<Addr, nat>, p: Addr)
    requires SegOK(h, held) && p in Live(h)
    ensures IsSurrounded(h, held, p)
  {
    assert ChunkOK(h, held, p);
    BaseAboveNull(h, held);
    var n := End(h, p);
    if !h.head[p].pinuse {
      assert ChunkOK(h, held, h.before[p]);
    }
    if n != h.top && !h.head[n].cinuse {
      assert ChunkOK(h, held, n);
      NoAdjacentFree(h, held, n);
    }
  }

  /** The chunk before is dv and the one after is in use: dv grows. */
  lemma FreedToDv(h: Seg, held: map<Addr, nat>, p: Addr)
    requires SegOK(h, held) && p in Live(h) && IsSurrounded(h, held, p)
    requires Front(h, p) == h.dv && h.head[End(h, p)].cinuse
    ensures var f, n := Front(h, p), End(h, p);
            && n in h.head && f < n
            && SegOK(FreeStretch(h, f, n, true), FreedHeld(held, f, n, true)) && FreedHeld(held, f, n, true) == held
            && Live(FreeStretch(h, f, n, true)) == Live(h) - {p}
  {
    var f, n := Front(h, p), End(h, p);
    SurroundedStretch(h, held, p, n);
    NotTopWhenUsed(h, held, n);
    FreeStretchOK(h, held, f, p, n, true);
    assert held - {f} == held;
  }

  lemma NotTopWhenUsed(h: Seg, held: map<Addr, nat>, n: Addr)
    requires SegOK(h, held) && n in h.head && h.head[n].cinuse
    ensures n != h.top
  {
  }

  /** The chunk after is top: the stretch joins it. */
  lemma FreedToTop(h: Seg, held: map<Addr, nat>, p: Addr)
    requires SegOK(h, held) && p in Live(h) && IsSurrounded(h, held, p) && End(h, p) == h.top
    ensures var f := Front(h, p);
            SegOK(IntoTop(h, f), held - {f}) && Live(IntoTop(h, f)) == Live(h) - {p} && Remaining(h, f) ==
                h.topsize + (End(h, p) - f)
    ensures h.dv >= Front(h, p) ==> h.dv == Front(h, p)
  {
    var f := Front(h, p);
    SurroundedStretch(h, held, p, h.top);
    IntoTopOK(h, held, f, p);
    Bounds(h, held, f);
    DvInStretch(h, held, p, h.top);
  }

  /** Inside the stretch dv can only be a free neighbour. */
  lemma DvInStretch(h: Seg, held: map<Addr, nat>, p: Addr, e: Addr)
    requires SegOK(h, held) && IsSurrounded(h, held, p)
    requires forall c :: c in h.chunks && Front(h, p) <= c < e ==> c == Front(h, p) || c == p || c == End(h, p)
    ensures Front(h, p) <= h.dv < e ==> h.dv == Front(h, p) || h.dv == End(h, p)
    ensures e == h.top && h.dv >= Front(h, p) ==> h.dv < e
  {
    if h.dv != 0 {
      assert ChunkOK(h, held, h.dv);
    }
  }

  /** The chunk after is dv: dv grows downwards. */
  lemma FreedIntoDv(h: Seg, held: map<Addr, nat>, p: Addr)
    requires SegOK(h, held) && p in Live(h) && IsSurrounded(h, held, p) && End(h, p) != h.top && End(h, p) == h.dv
    requires !h.head[End(h, p)].cinuse
    ensures var f, e := Front(h, p), End(h, End(h, p));
            && e in h.head && f < e && e - f == h.dvsize + (End(h, p) - f) && !h.head[e].pinuse
            && SegOK(FreeStretch(h, f, e, true), FreedHeld(held, f, e, true))
            && FreedHeld(held, f, e, true) == held - {f}
            && Live(FreeStretch(h, f, e, true)) == Live(h) - {p}
  {
    var f, n, e := Front(h, p), End(h, p), End(h, End(h, p));
    SurroundedStretch(h, held, p, e);
    FreeStretchOK(h, held, f, p, e, true);
    assert held - {f} - {n} == held - {f};
  }

  /** The chunk after is an ordinary free chunk: it leaves its bin and is absorbed. */
  lemma FreedWithNext(h: Seg, held: map<Addr, nat>, p: Addr)
    requires SegOK(h, held) && p in Live(h) && IsSurrounded(h, held, p) && End(h, p) != h.top && End(h, p) != h.dv
    requires !h.head[End(h, p)].cinuse
    ensures var f, n, e := Front(h, p), End(h, p), End(h, End(h, p));
            && e in h.head && f < e && n != f && n in held && held[n] == h.head[n].size && e == n + h.head[n].size
            && !h.head[e].pinuse
            && Outside(held, f, e) == held - {f} - {n}
            && SegOK(FreeStretch(h, f, e, f == h.dv), FreedHeld(held, f, e, f == h.dv))
            && Live(FreeStretch(h, f, e, f == h.dv)) == Live(h) - {p}
            && f !in held - {f} - {n} && MIN_CHUNK_SIZE <= e - f < WORD && (e - f) % 8 == 0 && f > 0
  {
    var f, e := Front(h, p), End(h, End(h, p));
    SurroundedStretch(h, held, p, e);
    DvIsFront(h, held, p, e);
    FreeStretchOK(h, held, f, p, e, f == h.dv);
    StretchBinnable(h, held, f, e);
  }

  lemma DvIsFront(h: Seg, held: map<Addr, nat>, p: Addr, e: Addr)
    requires SegOK(h, held) && IsSurrounded(h, held, p) && End(h, p) != h.dv && e > Front(h, p)
    requires forall c :: c in h.chunks && Front(h, p) <= c < e ==> c == Front(h, p) || c == p || c == End(h, p)
    ensures Front(h, p) <= h.dv < e <==> Front(h, p) == h.dv
  {
    DvInStretch(h, held, p, e);
  }

  lemma StretchBinnable(h: Seg, held: map<Addr, nat>, a: Addr, e: Addr)
    requires SegOK(h, held) && a in h.chunks && IsBound(h, e) && a < e
    ensures MIN_CHUNK_SIZE <= e - a < WORD && (e - a) % 8 == 0 && a > 0
  {
    StretchSize(h, held, a, e);
    Bounds(h, held, e);
  }

  /** The chunk after is in use: the stretch becomes a binned chunk of its own. */
  lemma FreedAlone(h: Seg, held: map<Addr, nat>, p: Addr)
    requires SegOK(h, held) && p in Live(h) && IsSurrounded(h, held, p) && h.head[End(h, p)].cinuse
    requires Front(h, p) != h.dv
    ensures var f, n := Front(h, p), End(h, p);
            && n in h.head && f < n
            && SegOK(FreeStretch(h, f, n, false), FreedHeld(held, f, n, false))
            && Live(FreeStretch(h, f, n, false)) == Live(h) - {p}
            && Outside(held, f, n) == held - {f}
            && MIN_CHUNK_SIZE <= n - f < WORD && (n - f) % 8 == 0 && f > 0
  {
    var f, n := Front(h, p), End(h, p);
    SurroundedStretch(h, held, p, n);
    NotTopWhenUsed(h, held, n);
    DvInStretch(h, held, p, n);
    FreeStretchOK(h, held, f, p, n, false);
    StretchBinnable(h, held, f, n);
  }

  lemma NotBinned(h: Seg, held: map<Addr, nat>, p: Addr)
    requires IsSurrounded(h, held, p)
    ensures Front(h, p) !in held ==> held - {Front(h, p)} == held
  {
  }

  lemma SurroundedStretch(h: Seg, held: map<Addr, nat>, p: Addr, e: Addr)
    requires SegOK(h, held) && IsSurrounded(h, held, p)
    requires e == End(h, p) || (End(h, p) != h.top && !h.head[End(h, p)].cinuse && e == End(h, End(h, p)))
    ensures Around(h, Front(h, p), p, e)
    ensures forall c :: c in h.chunks && Front(h, p) <= c < e ==> c == Front(h, p) || c == p || c == End(h, p)
    ensures Outside(held, Front(h, p), e) == if e == End(h, p) then held - {Front(h, p)}
        else held - {Front(h, p)} - {End(h, p)}
  {
    var f, n := Front(h, p), End(h, p);
    assert ChunkOK(h, held, p);
    NotInsideAny(h, held, p);
    NotInsideAny(h, held, f);
    if e != n {
      assert ChunkOK(h, held, n);
      NotInsideAny(h, held, n);
    }
    forall c | c in h.chunks && f <= c < e
      ensures c == f || c == p || (c == n && e != n)
    {
      assert ChunkOK(h, held, c);
    }
  }

  lemma NothingThatLarge(h: Seg, held: map<Addr, nat>)
    requires SegOK(h, held)
    ensures Exhausted(h, held, MAX_SIZE_T)
  {
    DvBelowLimit(h, held);
    forall x | x in held
      ensures held[x] < MAX_SIZE_T
    {
      BinnedChunk(h, held, x);
      assert ChunkOK(h, held, x);
    }
  }

  lemma DvBelowLimit(h: Seg, held: map<Addr, nat>)
    requires SegOK(h, held)
    ensures h.dvsize < MAX_SIZE_T
  {
    if h.dv != 0 {
      assert ChunkOK(h, held, h.dv);
    }
  }

  lemma BitsOf(m: bv32, i: nat)
    requires i < 32
    ensures (m >> i) & 3 != 0 <==> Marked(m, i) || (i < 31 && Marked(m, i + 1))
    ensures !(m >> i) & 1 == if Marked(m, i) then 0 else 1
  {
    if i < 31 {
      LowBits(m, i);
    } else {
      LastBits(m);
    }
    LowBitInverted(m, i);
  }

  /** The bins hold nothing malloc should prefer to dv, and nothing at all if dv is too small. */
  ghost predicate NoBetterInBins(h: Seg, held: map<Addr, nat>, nb: nat)
  {
    forall x :: x in held && held[x] >= nb ==> nb <= h.dvsize && (nb >= MIN_LARGE_SIZE ==> h.dvsize <= held[x])
  }

  lemma FallbackGood(h: Seg, held: map<Addr, nat>, nb: nat)
    requires SegOK(h, held) && NoBetterInBins(h, held, nb) && nb > 0
    ensures nb <= h.dvsize ==> GoodChoice(h, held, nb, h.dv)
    ensures h.dvsize < nb < h.topsize ==> GoodChoice(h, held, nb, h.top)
    ensures h.dvsize < nb && h.topsize <= nb ==> Exhausted(h, held, nb)
  {
    if h.dv != 0 {
      assert ChunkOK(h, held, h.dv);
    }
  }

  /** One chunk of the requested size, with less than a minimal chunk to spare, joins the allocated ones. */
  ghost predicate Served(live: map<Addr, nat>, live': map<Addr, nat>, p: Addr, nb: nat)
  {
    p in live' && nb <= live'[p] < nb + MIN_CHUNK_SIZE && live' == live[p := live'[p]]
  }

  lemma BinnedChunk(h: Seg, held: map<Addr, nat>, p: Addr)
    requires SegOK(h, held) && p in held
    ensures IsFree(h, held, p) && p != h.dv && p != h.top && p > 0 && h.head[p].size == held[p] && End(h, p) in h.head
    ensures held[p] < WORD && held[p] % 8 == 0 && p !in Live(h)
  {
    assert ChunkOK(h, held, p);
  }

  lemma DvChunk(h: Seg, held: map<Addr, nat>)
    requires SegOK(h, held)
    ensures h.dvsize != 0 ==>
              && IsFree(h, held, h.dv) && h.dv > 0 && h.dv !in held && h.dvsize == h.head[h.dv].size
              && MIN_CHUNK_SIZE <= h.dvsize < WORD && h.dvsize % 8 == 0 && h.dv !in Live(h) && End(h, h.dv) in h.head
  {
    if h.dvsize != 0 {
      assert ChunkOK(h, held, h.dv);
    }
  }

  /** Handing out dv, whole or split, leaves the bins as they are. */
  lemma DvUses(h: Seg, held: map<Addr, nat>, nb: nat)
    requires SegOK(h, held) && MIN_CHUNK_SIZE <= nb <= h.dvsize && nb % 8 == 0
    ensures h.dv > 0 && h.dv !in Live(h) && h.dv in h.head && h.head[h.dv].size == h.dvsize && End(h, h.dv) in h.head
    ensures nb + MIN_CHUNK_SIZE <= h.dvsize ==>
              SegOK(UseSplit(h, h.dv, nb, true), held) && Live(UseSplit(h, h.dv, nb, true)) == Live(h)[h.dv := nb]
    ensures SegOK(UseWhole(h, h.dv), held) && Live(UseWhole(h, h.dv)) == Live(h)[h.dv := h.dvsize]
  {
    DvChunk(h, held);
    assert held - {h.dv} == held;
    UseWholeOK(h, held, h.dv);
    if nb + MIN_CHUNK_SIZE <= h.dvsize {
      UseSplitOK(h, held, h.dv, nb, true);
    }
  }

  ghost function WithDvBinned(h: Seg, held: map<Addr, nat>): map<Addr, nat>
  {
    if h.dvsize != 0 then held[h.dv := h.dvsize] else held
  }

  /** The facts for splitting a binned chunk whose remainder goes to a bin. */
  lemma SplitToBin(h: Seg, held: map<Addr, nat>, p: Addr, nb: nat, rsize: nat)
    requires SegOK(h, held) && p in held && held[p] == nb + rsize && nb >= MIN_CHUNK_SIZE && nb % 8 == 0
    requires rsize >= MIN_CHUNK_SIZE
    ensures p in h.head && h.head[p].size == nb + rsize && p != h.dv && p > 0 && p + nb !in held && rsize % 8 == 0
    ensures rsize < WORD
    ensures SegOK(UseSplit(h, p, nb, false), (held - {p})[p + nb := rsize])
    ensures Live(UseSplit(h, p, nb, false)) == Live(h)[p := nb]
  {
    BinnedChunk(h, held, p);
    UseSplitOK(h, held, p, nb, false);
    AlignedDifference(nb + rsize, nb);
  }

  /** Splitting a binned chunk with the remainder as the new dv: as if dv had been binned first. */
  lemma SplitToDv(h: Seg, held: map<Addr, nat>, p: Addr, nb: nat)
    requires SegOK(h, held) && p in held && nb % 8 == 0 && nb >= MIN_CHUNK_SIZE
    requires p in h.head && nb + MIN_CHUNK_SIZE <= h.head[p].size
    ensures SegOK(UseSplit(h, p, nb, true), WithDvBinned(h, held) - {p})
    ensures Live(UseSplit(h, p, nb, true)) == Live(h)[p := nb]
    ensures p + nb !in held
  {
    BinnedChunk(h, held, p);
    NotInside(h, held, p, p + nb);
    if h.dv != 0 {
      BinDvOK(h, held);
      StillFree(h, held, p);
      UseSplitOK(DvBinned(h), held[h.dv := h.dvsize], p, nb, true);
      SplitForgetsDv(h, p, nb);
    } else {
      UseSplitOK(h, held, p, nb, true);
    }
  }

  lemma StillFree(h: Seg, held: map<Addr, nat>, p: Addr)
    requires SegOK(h, held) && IsFree(h, held, p) && h.dv != 0
    requires SegOK(DvBinned(h), held[h.dv := h.dvsize])
    ensures IsFree(DvBinned(h), held[h.dv := h.dvsize], p)
    ensures Live(DvBinned(h)) == Live(h)
  {
  }

  lemma SplitForgetsDv(h: Seg, p: Addr, nb: nat)
    requires p in h.head && nb < h.head[p].size
    ensures UseSplit(DvBinned(h), p, nb, true) == UseSplit(h, p, nb, true)
  {
  }

  lemma DvBinnedWithout(h: Seg, held: map<Addr, nat>, p: Addr)
    requires p != h.dv
    ensures WithDvBinned(h, held) - {p} == if h.dvsize != 0 then (held - {p})[h.dv := h.dvsize] else held - {p}
  {
  }
}
