/** Whole runs of the allocator, as a client sees them. */
module HeapRuns {
  import opened Ring
  import opened SizeClass
  import opened HeapShape
  import H = Heap

  /** What a client may do next: allocate, free one of its blocks, or resize one in place. */
  datatype Op = Alloc(bytes: nat) | Drop(which: nat) | Regrow(which: nat, bytes: nat)

  /** A block the client holds: the chunk and the size it asked for last. */
  datatype Block = Block(chunk: Addr, bytes: nat)

  /** The blocks are exactly the allocated chunks, each large enough, all distinct. */
  ghost predicate Accounted(h: Seg, blocks: seq<Block>)
  {
    && (forall i :: 0 <= i < |blocks| ==>
          blocks[i].chunk in Live(h) && blocks[i].bytes < H.MAX_REQUEST
              && H.RequestSize(blocks[i].bytes) <= Live(h)[blocks[i].chunk])
    && (forall i, j :: 0 <= i < j < |blocks| ==> blocks[i].chunk != blocks[j].chunk)
    && (forall a :: a in Live(h) ==> exists i :: 0 <= i < |blocks| && blocks[i].chunk == a)
  }

  /** Distinct blocks never share an address. */
  lemma BlocksDisjoint(h: Seg, held: map<Addr, nat>, blocks: seq<Block>, i: nat, j: nat)
    requires SegOK(h, held) && Accounted(h, blocks) && i < |blocks| && j < |blocks| && i != j
    ensures var a, b := blocks[i].chunk, blocks[j].chunk;
            a + Live(h)[a] <= b || b + Live(h)[b] <= a
    ensures h.base <= blocks[i].chunk && blocks[i].chunk + Live(h)[blocks[i].chunk] <= h.top
  {
    var a, b := blocks[i].chunk, blocks[j].chunk;
    assert ChunkOK(h, held, a) && ChunkOK(h, held, b);
    assert i < j ==> a != b;
  }

  lemma AccountedAlloc(h: Seg, h': Seg, blocks: seq<Block>, p: Addr, bytes: nat)
    requires Accounted(h, blocks) && p !in Live(h) && bytes < H.MAX_REQUEST
    requires H.Served(Live(h), Live(h'), p, H.RequestSize(bytes))
    ensures Accounted(h', blocks + [Block(p, bytes)])
  {
    var blocks' := blocks + [Block(p, bytes)];
    forall a | a in Live(h')
      ensures exists i :: 0 <= i < |blocks'| && blocks'[i].chunk == a
    {
      if a == p {
        assert blocks'[|blocks|].chunk == a;
      } else {
        var i :| 0 <= i < |blocks| && blocks[i].chunk == a;
        assert blocks'[i].chunk == a;
      }
    }
  }

  lemma AccountedDrop(h: Seg, h': Seg, blocks: seq<Block>, k: nat)
    requires Accounted(h, blocks) && k < |blocks| && Live(h') == Live(h) - {blocks[k].chunk}
    ensures Accounted(h', blocks[..k] + blocks[k + 1..])
  {
    var blocks' := blocks[..k] + blocks[k + 1..];
    assert forall i :: 0 <= i < |blocks'| ==> blocks'[i] == blocks[if i < k then i else i + 1];
    forall a | a in Live(h')
      ensures exists i :: 0 <= i < |blocks'| && blocks'[i].chunk == a
    {
      var i :| 0 <= i < |blocks| && blocks[i].chunk == a;
      assert blocks'[if i < k then i else i - 1].chunk == a;
    }
  }

  lemma AccountedRegrow(h: Seg, h': Seg, blocks: seq<Block>, k: nat, bytes: nat)
    requires Accounted(h, blocks) && k < |blocks| && bytes < H.MAX_REQUEST
    requires H.Served(Live(h), Live(h'), blocks[k].chunk, H.RequestSize(bytes))
    ensures Accounted(h', blocks[k := Block(blocks[k].chunk, bytes)])
  {
    var blocks' := blocks[k := Block(blocks[k].chunk, bytes)];
    forall a | a in Live(h')
      ensures exists i :: 0 <= i < |blocks'| && blocks'[i].chunk == a
    {
      var i :| 0 <= i < |blocks| && blocks[i].chunk == a;
      assert blocks'[i].chunk == a;
    }
    forall i, j | 0 <= i < j < |blocks'|
      ensures blocks'[i].chunk != blocks'[j].chunk
    {
      assert blocks[i].chunk != blocks[j].chunk;
    }
  }

  // --- runs --------------------------------------------------------------------------------------------

  /** The heap and the client's blocks between two requests. */
  datatype Moment = Moment(seg: Seg, held: map<Addr, nat>, blocks: seq<Block>)

  ghost predicate Good(m: Moment)
  {
    SegOK(m.seg, m.held) && Accounted(m.seg, m.blocks)
  }

  /** A block more, at the chunk malloc should choose. */
  ghost predicate Allocates(m: Moment, bytes: nat, p: Addr, m': Moment)
  {
    && m'.blocks == m.blocks + [Block(p, bytes)] && p !in Live(m.seg)
    && H.GoodChoice(m.seg, m.held, H.RequestSize(bytes), p)
    && H.Served(Live(m.seg), Live(m'.seg), p, H.RequestSize(bytes))
  }

  ghost predicate Drops(m: Moment, k: nat, m': Moment)
    requires k < |m.blocks|
  {
    m'.blocks == m.blocks[..k] + m.blocks[k + 1..] && Live(m'.seg) == Live(m.seg) - {m.blocks[k].chunk}
  }

  ghost predicate Regrows(m: Moment, k: nat, bytes: nat, m': Moment)
    requires k < |m.blocks|
  {
    && m'.blocks == m.blocks[k := Block(m.blocks[k].chunk, bytes)]
    && H.Served(Live(m.seg), Live(m'.seg), m.blocks[k].chunk, H.RequestSize(bytes))
  }

  /** What a request does: it is refused, with nothing changed, only when nothing can serve it; otherwise the client
      gets what it asked for and every other block keeps its place and its size. */
  ghost predicate Answers(m: Moment, op: Op, m': Moment)
  {
    match op
    case Alloc(bytes) =>
      if bytes >= H.MAX_REQUEST || H.Exhausted(m.seg, m.held, H.RequestSize(bytes)) then m' == m
      else exists p :: Allocates(m, bytes, p, m')
    case Drop(k) => if k >= |m.blocks| then m' == m else Drops(m, k, m')
    case Regrow(k, bytes) =>
      if k >= |m.blocks| || bytes >= H.MAX_REQUEST || !H.HasRoom(m.seg, m.blocks[k].chunk, H.RequestSize(bytes))
      then m' == m
      else Regrows(m, k, bytes, m')
  }

  /** After the first `n` requests: every one so far was answered, and every moment is a good one. */
  ghost predicate Traced(trace: seq<Moment>, ops: seq<Op>, n: nat)
  {
    && n <= |ops| && |trace| == n + 1
    && (forall k :: 0 <= k <= n ==> Good(trace[k]))
    && (forall k :: 0 <= k < n ==> Answers(trace[k], ops[k], trace[k + 1]))
  }

  lemma TracedOn(trace: seq<Moment>, ops: seq<Op>, n: nat, m: Moment)
    requires Traced(trace, ops, n) && n < |ops| && Good(m) && Answers(trace[n], ops[n], m)
    ensures Traced(trace + [m], ops, n + 1)
  {
    var trace' := trace + [m];
    forall k | 0 <= k < n + 1
      ensures Answers(trace'[k], ops[k], trace'[k + 1])
    {
      assert k < n ==> Answers(trace[k], ops[k], trace[k + 1]);
    }
  }

  /** Any sequence of requests: every one is answered, the heap stays well formed after each, and the client's blocks
      are always exactly what is allocated. */
  method Run(heap: H.Heap, ops: seq<Op>) returns (blocks: seq<Block>, ghost trace: seq<Moment>)
    requires heap.Valid() && Live(heap.seg) == map[]
    modifies heap, heap.small, heap.trees
    ensures heap.Valid() && Traced(trace, ops, |ops|)
    ensures trace[0] == Moment(old(heap.seg), old(heap.Held()), [])
    ensures trace[|ops|] == Moment(heap.seg, heap.Held(), blocks)
  {
    blocks := [];
    trace := [Moment(heap.seg, heap.Held(), blocks)];
    for n := 0 to |ops|
      invariant heap.Valid() && Traced(trace, ops, n)
      invariant trace[0] == Moment(old(heap.seg), old(heap.Held()), [])
      invariant trace[n] == Moment(heap.seg, heap.Held(), blocks)
    {
      blocks := Step(heap, blocks, ops[n]);
      TracedOn(trace, ops, n, Moment(heap.seg, heap.Held(), blocks));
      trace := trace + [Moment(heap.seg, heap.Held(), blocks)];
    }
  }

  method Step(heap: H.Heap, blocks: seq<Block>, op: Op) returns (blocks': seq<Block>)
    requires heap.Valid() && Accounted(heap.seg, blocks)
    modifies heap, heap.small, heap.trees
    ensures heap.Valid() && Good(Moment(heap.seg, heap.Held(), blocks'))
    ensures Answers(Moment(old(heap.seg), old(heap.Held()), blocks), op, Moment(heap.seg, heap.Held(), blocks'))
  {
    ghost var m := Moment(heap.seg, heap.Held(), blocks);
    blocks' := blocks;
    match op
    case Alloc(bytes) =>
      if bytes < H.MAX_REQUEST {
        var p := heap.Malloc(bytes);
        if p != 0 {
          AccountedAlloc(m.seg, heap.seg, blocks, p, bytes);
          blocks' := blocks + [Block(p, bytes)];
          assert Allocates(m, bytes, p, Moment(heap.seg, heap.Held(), blocks'));
        }
      }
    case Drop(k) =>
      if k < |blocks| {
        heap.Release(blocks[k].chunk);
        AccountedDrop(m.seg, heap.seg, blocks, k);
        blocks' := blocks[..k] + blocks[k + 1..];
        assert Drops(m, k, Moment(heap.seg, heap.Held(), blocks'));
      }
    case Regrow(k, bytes) =>
      if k < |blocks| && bytes < H.MAX_REQUEST {
        H.RequestRange(bytes);
        var ok := heap.TryRealloc(blocks[k].chunk, H.RequestSize(bytes));
        if ok {
          AccountedRegrow(m.seg, heap.seg, blocks, k, bytes);
          blocks' := blocks[k := Block(blocks[k].chunk, bytes)];
          assert Regrows(m, k, bytes, Moment(heap.seg, heap.Held(), blocks'));
        }
      }
  }
}
