/** The kernel log: records of varying length in a byte ring, each found from the one before it. */
module LogRing {
  import opened LogRecord

  // --- the layout -------------------------------------------------------------------------------------

  /** Where the bytes of record k are: at its index, or at the start of the buffer when its index holds the marker. */
  ghost function Place(pos: seq<nat>, wrapAt: int, k: nat): nat
    requires k < |pos|
  {
    if k == wrapAt then 0 else pos[k]
  }

  ghost predicate RecordsHeld(buf: seq<Byte>, live: seq<Record>, pos: seq<nat>, wrapAt: int)
    requires |pos| == |live| + 1
  {
    forall k :: 0 <= k < |live| ==>
      Holds(buf, Place(pos, wrapAt, k), live[k]) && pos[k + 1] == Place(pos, wrapAt, k) + Size(live[k])
  }

  /** A header of length 0: the reader goes on at the start of the buffer. */
  ghost predicate Marker(buf: seq<Byte>, at: nat)
  {
    at + HEADER <= |buf| && forall i :: at <= i < at + HEADER ==> buf[i] == 0
  }

  /** Indices grow from record to record, except across the marker. */
  ghost predicate Ordered(pos: seq<nat>, wrapAt: int)
  {
    forall i, j :: 0 <= i < j < |pos| && (j <= wrapAt || wrapAt < i) ==> pos[i] < pos[j]
  }

  /** The live records with their indices; the last index is where the next record goes. `wrapAt` is the record whose
      index holds the marker, -1 if none. */
  ghost predicate RingOk(buf: seq<Byte>, live: seq<Record>, pos: seq<nat>, wrapAt: int)
  {
    && |pos| == |live| + 1 && -1 <= wrapAt < |live|
    && RecordsHeld(buf, live, pos, wrapAt)
    && Ordered(pos, wrapAt)
    && pos[|live|] + HEADER <= |buf|
    && (wrapAt >= 0 ==> Marker(buf, pos[wrapAt]) && pos[|live|] <= pos[0])
  }

  lemma DropOldest(buf: seq<Byte>, live: seq<Record>, pos: seq<nat>, wrapAt: int)
    requires RingOk(buf, live, pos, wrapAt) && live != []
    ensures RingOk(buf, live[1..], pos[1..], if wrapAt >= 0 then wrapAt - 1 else -1)
  {
    var w := if wrapAt >= 0 then wrapAt - 1 else -1;
    forall k | 0 <= k < |live| - 1
      ensures Holds(buf, Place(pos[1..], w, k), live[1..][k])
      ensures pos[1..][k + 1] == Place(pos[1..], w, k) + Size(live[1..][k])
    {
      assert Place(pos[1..], w, k) == Place(pos, wrapAt, k + 1);
      assert live[1..][k] == live[k + 1] && pos[1..][k + 1] == pos[k + 2];
    }
  }

  // --- writing ----------------------------------------------------------------------------------------

  /** `now` differs from `was` only in [lo, hi). */
  ghost predicate SameOutside(was: seq<Byte>, now: seq<Byte>, lo: nat, hi: nat)
  {
    |now| == |was| && forall i :: 0 <= i < |was| && !(lo <= i < hi) ==> now[i] == was[i]
  }

  lemma HoldsFrame(was: seq<Byte>, now: seq<Byte>, lo: nat, hi: nat, at: nat, r: Record)
    requires SameOutside(was, now, lo, hi) && Holds(was, at, r) && (at + Size(r) <= lo || hi <= at)
    ensures Holds(now, at, r)
  {
    assert now[at..at + Size(r)] == was[at..at + Size(r)];
  }

  /** [lo, hi) holds no byte of a live record or of the marker. */
  ghost predicate Unused(live: seq<Record>, pos: seq<nat>, wrapAt: int, lo: nat, hi: nat)
    requires |pos| == |live| + 1
  {
    && (forall k :: 0 <= k < |live| ==> pos[k + 1] <= lo || hi <= Place(pos, wrapAt, k))
    && (0 <= wrapAt < |live| ==> hi <= pos[wrapAt] || pos[wrapAt] + HEADER <= lo)
  }

  lemma WriteUnused(was: seq<Byte>, now: seq<Byte>, live: seq<Record>, pos: seq<nat>, wrapAt: int, lo: nat, hi: nat)
    requires RingOk(was, live, pos, wrapAt) && Unused(live, pos, wrapAt, lo, hi) && SameOutside(was, now, lo, hi)
    ensures RingOk(now, live, pos, wrapAt)
  {
    forall k | 0 <= k < |live|
      ensures Holds(now, Place(pos, wrapAt, k), live[k])
    {
      HoldsFrame(was, now, lo, hi, Place(pos, wrapAt, k), live[k]);
    }
  }

  /** Room for `size` bytes at the next index: up to the oldest record, or with a header to spare up to the end. */
  ghost predicate RoomAhead(len: nat, live: seq<Record>, pos: seq<nat>, wrapAt: int, size: nat)
    requires |pos| == |live| + 1
  {
    if wrapAt >= 0 then pos[|live|] + size <= pos[0] else pos[|live|] + size + HEADER <= len
  }

  lemma AheadUnused(buf: seq<Byte>, live: seq<Record>, pos: seq<nat>, wrapAt: int, size: nat)
    requires RingOk(buf, live, pos, wrapAt) && RoomAhead(|buf|, live, pos, wrapAt, size)
    ensures Unused(live, pos, wrapAt, pos[|live|], pos[|live|] + size)
  {
    forall k | 0 <= k < |live|
      ensures pos[k + 1] <= pos[|live|] || pos[|live|] + size <= Place(pos, wrapAt, k)
    {
      if k < wrapAt {
        assert pos[0] <= pos[k];
      } else {
        assert pos[k + 1] <= pos[|live|];
      }
    }
  }

  /** Appending a record where there is room. */
  lemma AppendAhead(was: seq<Byte>, now: seq<Byte>, live: seq<Record>, pos: seq<nat>, wrapAt: int, r: Record)
    requires RingOk(was, live, pos, wrapAt) && RoomAhead(|was|, live, pos, wrapAt, Size(r))
    requires SameOutside(was, now, pos[|live|], pos[|live|] + Size(r)) && Holds(now, pos[|live|], r)
    ensures RingOk(now, live + [r], pos + [pos[|live|] + Size(r)], wrapAt)
  {
    AheadUnused(was, live, pos, wrapAt, Size(r));
    WriteUnused(was, now, live, pos, wrapAt, pos[|live|], pos[|live|] + Size(r));
    AppendKeepsRing(now, live, pos, wrapAt, r, pos[|live|] + Size(r));
    if wrapAt >= 0 {
      assert pos[0] <= pos[wrapAt];
    }
  }

  /** The shape of a ring with one record more, whose bytes end at `end`. */
  lemma AppendKeepsRing(buf: seq<Byte>, live: seq<Record>, pos: seq<nat>, wrapAt: int, r: Record, end: nat)
    requires |pos| == |live| + 1 && -1 <= wrapAt < |live| && RecordsHeld(buf, live, pos, wrapAt) && Ordered(pos, wrapAt)
    requires Holds(buf, pos[|live|], r) && end == pos[|live|] + Size(r)
    ensures RecordsHeld(buf, live + [r], pos + [end], wrapAt) && Ordered(pos + [end], wrapAt)
  {
    var live', pos' := live + [r], pos + [end];
    forall k | 0 <= k < |live'|
      ensures Holds(buf, Place(pos', wrapAt, k), live'[k]) && pos'[k + 1] == Place(pos', wrapAt, k) + Size(live'[k])
    {
      if k < |live| {
        assert Place(pos', wrapAt, k) == Place(pos, wrapAt, k);
      }
    }
  }

  /** Wrapping: a marker at the next index and the record at the start of the buffer. Needs the record to end below the
      oldest one, or below the marker when there is none. */
  lemma AppendWrapped(was: seq<Byte>, mid: seq<Byte>, now: seq<Byte>, live: seq<Record>, pos: seq<nat>, r: Record)
    requires RingOk(was, live, pos, -1) && Size(r) <= pos[0]
    requires SameOutside(was, mid, pos[|live|], pos[|live|] + HEADER) && Marker(mid, pos[|live|])
    requires SameOutside(mid, now, 0, Size(r)) && Holds(now, 0, r)
    ensures RingOk(now, live + [r], pos + [Size(r)], |live|)
  {
    WrapUnused(was, live, pos, Size(r));
    WriteUnused(was, mid, live, pos, -1, pos[|live|], pos[|live|] + HEADER);
    WriteUnused(mid, now, live, pos, -1, 0, Size(r));
    WrapKeepsRing(now, live, pos, r);
    assert pos[0] <= pos[|live|];
  }

  lemma WrapUnused(buf: seq<Byte>, live: seq<Record>, pos: seq<nat>, size: nat)
    requires RingOk(buf, live, pos, -1) && size <= pos[0]
    ensures Unused(live, pos, -1, pos[|live|], pos[|live|] + HEADER) && Unused(live, pos, -1, 0, size)
  {
    forall k | 0 <= k < |live|
      ensures pos[k + 1] <= pos[|live|] && pos[0] <= Place(pos, -1, k)
    {
    }
  }

  lemma WrapKeepsRing(buf: seq<Byte>, live: seq<Record>, pos: seq<nat>, r: Record)
    requires |pos| == |live| + 1 && RecordsHeld(buf, live, pos, -1) && Ordered(pos, -1) && Holds(buf, 0, r)
    ensures RecordsHeld(buf, live + [r], pos + [Size(r)], |live|) && Ordered(pos + [Size(r)], |live|)
  {
    var live', pos' := live + [r], pos + [Size(r)];
    forall k | 0 <= k < |live'|
      ensures Holds(buf, Place(pos', |live|, k), live'[k]) && pos'[k + 1] == Place(pos', |live|, k) + Size(live'[k])
    {
      if k < |live| {
        assert Place(pos', |live|, k) == Place(pos, -1, k);
      }
    }
  }

  /** The space that the code sees between the next index and the oldest record. */
  function FreeSpace(len: nat, first: nat, next: nat): int
  {
    if next > first then (if len - next > first then len - next else first) else first - next
  }

  /** The code's test tells the two shapes of a non-empty ring apart. */
  lemma ShapeFromIndices(buf: seq<Byte>, live: seq<Record>, pos: seq<nat>, wrapAt: int)
    requires RingOk(buf, live, pos, wrapAt) && live != []
    ensures pos[|live|] > pos[0] <==> wrapAt == -1
  {
    if wrapAt == -1 {
      assert pos[0] < pos[|live|];
    }
  }

  lemma EnoughSpace(buf: seq<Byte>, live: seq<Record>, pos: seq<nat>, wrapAt: int, size: nat)
    requires RingOk(buf, live, pos, wrapAt) && 2 * size + HEADER <= |buf|
    requires live != [] ==> FreeSpace(|buf|, pos[0], pos[|live|]) > size + HEADER
    ensures pos[|live|] + size + HEADER >= |buf| ==> wrapAt == -1 && size <= pos[0]
    ensures pos[|live|] + size + HEADER < |buf| ==> RoomAhead(|buf|, live, pos, wrapAt, size)
  {
    if live != [] {
      ShapeFromIndices(buf, live, pos, wrapAt);
      if wrapAt >= 0 {
        assert pos[0] <= pos[wrapAt];
      }
    }
  }

  lemma TwoBytesZero(s: seq<Byte>)
    requires |s| == 2
    ensures FromLittleEndian(s) == 0 <==> s[0] == 0 && s[1] == 0
  {
    assert s[1..] == [s[1]] && s[1..][1..] == [];
    assert FromLittleEndian(s[1..]) == s[1] + 256 * FromLittleEndian(s[1..][1..]);
  }

  /** A store that has emptied the ring and must wrap puts the marker at the first index and the record at the start of
      the buffer. The marker is still there for the reader exactly when the record covers none of its two length bytes
      with anything but 0; and a record of at most half the buffer covers none at all. */
  lemma EmptiedWrap(was: seq<Byte>, mid: seq<Byte>, now: seq<Byte>, at: nat, r: Record)
    requires SameOutside(was, mid, at, at + HEADER) && Marker(mid, at)
    requires SameOutside(mid, now, 0, Size(r)) && Holds(now, 0, r) && at + Size(r) + HEADER >= |was|
    ensures at + HEADER <= |now|
    ensures LengthAt(now, at) == 0 <==> forall i :: at + 8 <= i < at + 10 && i < Size(r) ==> Encode(r)[i] == 0
    ensures 2 * Size(r) + HEADER <= |was| ==> Size(r) <= at && LengthAt(now, at) == 0
  {
    var e := Encode(r);
    TwoBytesZero(now[at + 8..at + 10]);
    forall i | at + 8 <= i < at + 10
      ensures now[i] == if i < Size(r) then e[i] else 0
    {
      if i < Size(r) {
        assert now[0..0 + Size(r)][i] == now[i];
      }
    }
  }

  /** Bytes [a, b) of the record at `at` are in place. */
  ghost predicate Done(buf: seq<Byte>, at: nat, e: seq<Byte>, a: nat, b: nat)
    requires at + |e| <= |buf| && b <= |e|
  {
    forall i :: a <= i < b ==> buf[at + i] == e[i]
  }

  lemma StillDone(was: seq<Byte>, now: seq<Byte>, lo: nat, hi: nat, at: nat, e: seq<Byte>, a: nat, b: nat)
    requires at + |e| <= |was| && b <= |e| && SameOutside(was, now, lo, hi) && Done(was, at, e, a, b)
    requires at + b <= lo || hi <= at + a
    ensures Done(now, at, e, a, b)
  {
  }

  lemma NowDone(now: seq<Byte>, at: nat, e: seq<Byte>, a: nat, b: nat)
    requires at + |e| <= |now| && a <= b <= |e| && now[at + a..at + b] == e[a..b]
    ensures Done(now, at, e, a, b)
  {
    forall i | a <= i < b
      ensures now[at + i] == e[i]
    {
      assert now[at + a..at + b][i - a] == now[at + i] && e[a..b][i - a] == e[i];
    }
  }

  lemma NowDoneJoin(buf: seq<Byte>, at: nat, e: seq<Byte>, a: nat, b: nat, c: nat)
    requires at + |e| <= |buf| && a <= b <= c <= |e| && Done(buf, at, e, a, b) && Done(buf, at, e, b, c)
    ensures Done(buf, at, e, a, c)
  {
  }

  lemma DoneHolds(buf: seq<Byte>, at: nat, r: Record)
    requires LogRecord.Fits(r) && at + Size(r) <= |buf| && Done(buf, at, Encode(r), 0, Size(r))
    ensures Holds(buf, at, r)
  {
    var e := Encode(r);
    forall i | 0 <= i < |e|
      ensures buf[at..at + Size(r)][i] == e[i]
    {
      assert buf[at + i] == e[i];
    }
    assert buf[at..at + Size(r)] == e;
  }

  /** Where each field is in the encoding. */
  lemma EncodeSlices(r: Record)
    requires r.flags < 32 && r.level < 8
    ensures Encode(r)[0..8] == LittleEndian(r.ts, 8) && Encode(r)[8..10] == LittleEndian(Size(r), 2)
    ensures Encode(r)[10..12] == LittleEndian(|r.text|, 2) && Encode(r)[12..14] == LittleEndian(|r.dict|, 2)
    ensures Encode(r)[14..15] == [r.facility] && Encode(r)[15..16] == [FlagByte(r.flags, r.level)]
    ensures Encode(r)[HEADER..HEADER + |r.text|] == r.text
    ensures Encode(r)[HEADER + |r.text|..Unpadded(r)] == r.dict
    ensures Encode(r)[Unpadded(r)..Size(r)] == Zeros(PadLength(Unpadded(r)))
  {
    EncodeParts(r);
    HeaderParts(r);
    HeaderSlice(r, 0, 8);
    HeaderSlice(r, 8, 10);
    HeaderSlice(r, 10, 12);
    HeaderSlice(r, 12, 14);
    HeaderSlice(r, 14, 15);
    HeaderSlice(r, 15, 16);
  }

  lemma HeaderSlice(r: Record, i: nat, j: nat)
    requires r.flags < 32 && r.level < 8 && i <= j <= HEADER
    ensures Encode(r)[i..j] == Header(r)[i..j]
  {
    EncodeParts(r);
    assert Encode(r)[..HEADER][i..j] == Encode(r)[i..j];
  }

  // --- changing a flag in place -------------------------------------------------------------------------

  lemma FlagInEncoding(r: Record, flags: nat)
    requires r.flags < 32 && r.level < 8 && flags < 32
    ensures Encode(r.(flags := flags)) == Encode(r)[15 := FlagByte(flags, r.level)]
  {
    var h, h' := Header(r), Header(r.(flags := flags));
    assert h' == h[15 := FlagByte(flags, r.level)];
    assert Encode(r) == h + (r.text + r.dict + Zeros(PadLength(Unpadded(r))));
    assert Encode(r.(flags := flags)) == h' + (r.text + r.dict + Zeros(PadLength(Unpadded(r))));
  }

  lemma HoldsNewFlags(was: seq<Byte>, now: seq<Byte>, at: nat, r: Record, flags: nat)
    requires Holds(was, at, r) && SameOutside(was, now, at + 15, at + 16) && flags < 32
    requires now[at + 15] == FlagByte(flags, r.level)
    ensures Holds(now, at, r.(flags := flags)) && Size(r.(flags := flags)) == Size(r)
  {
    FlagInEncoding(r, flags);
    var part, old', e' := now[at..at + Size(r)], was[at..at + Size(r)], Encode(r)[15 := FlagByte(flags, r.level)];
    forall i | 0 <= i < Size(r)
      ensures part[i] == e'[i]
    {
      assert old'[i] == was[at + i];
    }
    assert part == e';
  }

  lemma RecordsApart(buf: seq<Byte>, live: seq<Record>, pos: seq<nat>, wrapAt: int, k: nat, i: nat)
    requires RingOk(buf, live, pos, wrapAt) && k < |live| && i < |live| && i != k
    ensures pos[i + 1] <= Place(pos, wrapAt, k) || pos[k + 1] <= Place(pos, wrapAt, i)
  {
    assert wrapAt >= 0 ==> pos[0] <= pos[wrapAt];
    if i < wrapAt <= k {
      assert pos[k + 1] <= pos[|live|] && pos[0] <= pos[i];
    } else if k < wrapAt <= i {
      assert pos[i + 1] <= pos[|live|] && pos[0] <= pos[k];
    }
  }

  lemma MarkerApart(buf: seq<Byte>, live: seq<Record>, pos: seq<nat>, wrapAt: int, k: nat)
    requires RingOk(buf, live, pos, wrapAt) && k < |live| && wrapAt >= 0
    ensures pos[k + 1] <= pos[wrapAt]
  {
    assert pos[0] <= pos[wrapAt];
    if k < wrapAt {
    } else {
      assert pos[k + 1] <= pos[|live|];
    }
  }

  /** Rewriting the flags of one record leaves a ring with that record changed. */
  lemma RingNewFlags(was: seq<Byte>, now: seq<Byte>, live: seq<Record>, pos: seq<nat>, wrapAt: int, k: nat, flags: nat)
    requires RingOk(was, live, pos, wrapAt) && k < |live| && flags < 32
    requires var at := Place(pos, wrapAt, k);
      SameOutside(was, now, at + 15, at + 16) && at + 15 < |now| && now[at + 15] == FlagByte(flags, live[k].level)
    ensures RingOk(now, live[k := live[k].(flags := flags)], pos, wrapAt)
  {
    var at := Place(pos, wrapAt, k);
    HoldsNewFlags(was, now, at, live[k], flags);
    forall i | 0 <= i < |live| && i != k
      ensures Holds(now, Place(pos, wrapAt, i), live[i])
    {
      RecordsApart(was, live, pos, wrapAt, k, i);
      HoldsFrame(was, now, at + 15, at + 16, Place(pos, wrapAt, i), live[i]);
    }
    if wrapAt >= 0 {
      MarkerApart(was, live, pos, wrapAt, k);
    }
  }

  // --- the log ------------------------------------------------------------------------------------------

  class Log {
    const buf: array<Byte>
    var firstSeq: nat
    var firstIdx: nat
    var nextSeq: nat
    var nextIdx: nat
    ghost var live: seq<Record>
    ghost var pos: seq<nat>
    ghost var wrapAt: int

    ghost predicate Valid()
      reads this, buf
    {
      && RingOk(buf[..], live, pos, wrapAt)
      && nextSeq == firstSeq + |live| && firstIdx == pos[0] && nextIdx == pos[|live|]
    }

    constructor (length: nat)
      requires length >= HEADER
      ensures Valid() && fresh(buf) && buf.Length == length && live == [] && firstSeq == 0
    {
      buf := new Byte[length];
      firstSeq, firstIdx, nextSeq, nextIdx := 0, 0, 0, 0;
      live, pos, wrapAt := [], [0], -1;
    }

    /** A reader's cursor: the record it names, or the next one to be stored. */
    ghost predicate Names(n: nat, idx: nat)
      reads this
    {
      firstSeq <= n <= nextSeq && n - firstSeq < |pos| && idx == pos[n - firstSeq]
    }

    /** memcpy or memset of `bytes` into the buffer. */
    method Poke(at: nat, bytes: seq<Byte>)
      requires at + |bytes| <= buf.Length
      modifies buf
      ensures SameOutside(old(buf[..]), buf[..], at, at + |bytes|)
      ensures buf[at..at + |bytes|] == bytes
    {
      var i := 0;
      while i < |bytes|
        invariant 0 <= i <= |bytes|
        invariant forall j :: 0 <= j < buf.Length ==> buf[j] == if at <= j < at + i then bytes[j - at] else old(buf[j])
      {
        buf[at + i] := bytes[i];
        i := i + 1;
      }
    }

    /** Poke the part [a, b) of an encoded record, keeping the parts [c, d) and [f, g) already in place. */
    method PokePart(at: nat, bytes: seq<Byte>, ghost e: seq<Byte>, a: nat, ghost b: nat, ghost c: nat, ghost d: nat,
        ghost f: nat, ghost g: nat)
      requires at + |e| <= buf.Length && a <= b <= |e| && bytes == e[a..b]
      requires c <= d <= |e| && (d <= a || b <= c) && Done(buf[..], at, e, c, d)
      requires f <= g <= |e| && (g <= a || b <= f) && Done(buf[..], at, e, f, g)
      modifies buf
      ensures SameOutside(old(buf[..]), buf[..], at, at + |e|)
      ensures Done(buf[..], at, e, a, b) && Done(buf[..], at, e, c, d) && Done(buf[..], at, e, f, g)
    {
      Poke(at + a, bytes);
      StillDone(old(buf[..]), buf[..], at + a, at + b, at, e, c, d);
      StillDone(old(buf[..]), buf[..], at + a, at + b, at, e, f, g);
      assert buf[..][at + a..at + b] == buf[at + a..at + b];
      NowDone(buf[..], at, e, a, b);
    }

    /** Writing one message: text and dictionary, then the fields, the padding, and the length last. */
    method Fill(at: nat, r: Record)
      requires LogRecord.Fits(r) && at + Size(r) <= buf.Length
      modifies buf
      ensures SameOutside(old(buf[..]), buf[..], at, at + Size(r)) && Holds(buf[..], at, r)
    {
      ghost var e := Encode(r);
      EncodeSlices(r);
      var t, d := HEADER + |r.text|, HEADER + |r.text| + |r.dict|;
      PokePart(at, r.text, e, HEADER, t, 0, 0, 0, 0);
      PokePart(at, LittleEndian(|r.text|, 2), e, 10, 12, HEADER, t, 0, 0);
      PokePart(at, r.dict, e, t, d, HEADER, t, 10, 12);
      NowDoneJoin(buf[..], at, e, HEADER, t, d);
      PokePart(at, LittleEndian(|r.dict|, 2), e, 12, 14, HEADER, d, 10, 12);
      NowDoneJoin(buf[..], at, e, 10, 12, 14);
      PokePart(at, [r.facility], e, 14, 15, HEADER, d, 10, 14);
      NowDoneJoin(buf[..], at, e, 10, 14, 15);
      PokePart(at, [FlagByte(r.flags, r.level)], e, 15, 16, HEADER, d, 10, 15);
      NowDoneJoin(buf[..], at, e, 10, 15, 16);
      NowDoneJoin(buf[..], at, e, 10, 16, d);
      PokePart(at, LittleEndian(r.ts, 8), e, 0, 8, 10, d, 0, 0);
      PokePart(at, Zeros(PadLength(Unpadded(r))), e, d, Size(r), 10, d, 0, 8);
      NowDoneJoin(buf[..], at, e, 10, d, Size(r));
      PokePart(at, LittleEndian(Size(r), 2), e, 8, 10, 10, Size(r), 0, 8);
      NowDoneJoin(buf[..], at, e, 0, 8, 10);
      NowDoneJoin(buf[..], at, e, 0, 10, Size(r));
      DoneHolds(buf[..], at, r);
    }

    /** log_next: the index after the record at `idx`. */
    method NextIndex(idx: nat, ghost k: nat) returns (next: nat)
      requires Valid() && k < |live| && idx == pos[k]
      ensures next == pos[k + 1]
    {
      KnownLength(k);
      if FromLittleEndian(buf[idx + 8..idx + 10]) == 0 {
        next := FromLittleEndian(buf[8..10]);
      } else {
        next := idx + FromLittleEndian(buf[idx + 8..idx + 10]);
      }
    }

    /** log_from_idx: where the record at `idx` is. */
    method FromIndex(idx: nat, ghost k: nat) returns (at: nat)
      requires Valid() && k < |live| && idx == pos[k]
      ensures at == Place(pos, wrapAt, k)
    {
      KnownLength(k);
      at := if FromLittleEndian(buf[idx + 8..idx + 10]) == 0 then 0 else idx;
    }

    /** The length field at an index is 0 exactly at the marker, and the record's size where the record is. */
    lemma KnownLength(k: nat)
      requires Valid() && k < |live|
      ensures pos[k] + HEADER <= buf.Length && Place(pos, wrapAt, k) + HEADER <= buf.Length
      ensures LengthAt(buf[..], pos[k]) == 0 <==> k == wrapAt
      ensures LengthAt(buf[..], Place(pos, wrapAt, k)) == Size(live[k]) > 0
      ensures buf[..][pos[k] + 8..pos[k] + 10] == buf[pos[k] + 8..pos[k] + 10] && buf[..][8..10] == buf[8..10]
    {
      ReadBack(buf[..], Place(pos, wrapAt, k), live[k]);
      if k == wrapAt {
        ZeroLength(buf[..], pos[k]);
      }
    }

    /** One turn of the loop that makes room: the oldest record goes. */
    method DropFirst()
      requires Valid() && live != []
      modifies this
      ensures Valid() && live == old(live)[1..] && pos == old(pos)[1..]
      ensures firstSeq == old(firstSeq) + 1 && nextSeq == old(nextSeq) && nextIdx == old(nextIdx)
    {
      DropOldest(buf[..], live, pos, wrapAt);
      firstIdx := NextIndex(firstIdx, 0);
      firstSeq := firstSeq + 1;
      live, pos, wrapAt := live[1..], pos[1..], if wrapAt >= 0 then wrapAt - 1 else -1;
    }

    /** Drop the oldest records until a record of `size` and a header fit in one piece, or none is left. */
    method MakeRoom(size: nat) returns (ghost dropped: nat)
      requires Valid()
      modifies this
      ensures Valid() && dropped <= |old(live)| && live == old(live)[dropped..] && pos == old(pos)[dropped..]
      ensures firstSeq == old(firstSeq) + dropped && nextSeq == old(nextSeq) && nextIdx == old(nextIdx)
      ensures live != [] ==> FreeSpace(buf.Length, pos[0], nextIdx) > size + HEADER
      ensures forall e :: 0 <= e < dropped ==> FreeSpace(buf.Length, old(pos)[e], nextIdx) <= size + HEADER
    {
      dropped := 0;
      while firstSeq < nextSeq
        invariant Valid() && dropped <= |old(live)| && live == old(live)[dropped..] && pos == old(pos)[dropped..]
        invariant firstSeq == old(firstSeq) + dropped && nextSeq == old(nextSeq) && nextIdx == old(nextIdx)
        invariant forall e :: 0 <= e < dropped ==> FreeSpace(buf.Length, old(pos)[e], nextIdx) <= size + HEADER
        decreases nextSeq - firstSeq
      {
        var free := FreeSpace(buf.Length, firstIdx, nextIdx);
        if free > size + HEADER {
          break;
        }
        DropFirst();
        dropped := dropped + 1;
      }
    }

    method WriteWrapped(r: Record)
      requires RingOk(buf[..], live, pos, -1) && nextIdx == pos[|live|] && LogRecord.Fits(r) && Size(r) <= pos[0]
      modifies buf
      ensures RingOk(buf[..], live + [r], pos + [Size(r)], |live|)
    {
      ghost var was := buf[..];
      assert pos[0] <= pos[|live|];
      Poke(nextIdx, Zeros(HEADER));
      ghost var mid := buf[..];
      MarkerWritten(mid, nextIdx);
      Fill(0, r);
      AppendWrapped(was, mid, buf[..], live, pos, r);
    }

    method WriteAhead(r: Record)
      requires RingOk(buf[..], live, pos, wrapAt) && nextIdx == pos[|live|] && LogRecord.Fits(r)
      requires RoomAhead(buf.Length, live, pos, wrapAt, Size(r)) && nextIdx + Size(r) <= buf.Length
      modifies buf
      ensures RingOk(buf[..], live + [r], pos + [nextIdx + Size(r)], wrapAt)
    {
      ghost var was := buf[..];
      Fill(nextIdx, r);
      AppendAhead(was, buf[..], live, pos, wrapAt, r);
    }

    method Advance(r: Record, at: nat, ghost w: int)
      requires RingOk(buf[..], live + [r], pos + [at + Size(r)], w)
      requires |pos| == |live| + 1 && nextSeq == firstSeq + |live| && firstIdx == pos[0]
      modifies `nextIdx, `nextSeq, `live, `pos, `wrapAt
      ensures Valid() && live == old(live) + [r] && pos == old(pos) + [nextIdx] && nextSeq == old(nextSeq) + 1
    {
      nextIdx := at + Size(r);
      nextSeq := nextSeq + 1;
      live, pos, wrapAt := live + [r], pos + [nextIdx], w;
    }

    method PutWrapped(r: Record)
      requires Valid() && wrapAt == -1 && LogRecord.Fits(r) && Size(r) <= pos[0]
      modifies this, buf
      ensures Valid() && live == old(live) + [r] && pos == old(pos) + [nextIdx]
      ensures firstSeq == old(firstSeq) && nextSeq == old(nextSeq) + 1
    {
      WriteWrapped(r);
      Advance(r, 0, |live|);
    }

    method PutAhead(r: Record)
      requires Valid() && LogRecord.Fits(r) && RoomAhead(buf.Length, live, pos, wrapAt, Size(r))
      requires nextIdx + Size(r) <= buf.Length
      modifies this, buf
      ensures Valid() && live == old(live) + [r] && pos == old(pos) + [nextIdx]
      ensures firstSeq == old(firstSeq) && nextSeq == old(nextSeq) + 1
    {
      WriteAhead(r);
      Advance(r, nextIdx, wrapAt);
    }

    /** Write the record at the next index, after a marker and at the start when it would not fit before the end. */
    method PutRecord(r: Record)
      requires Valid() && LogRecord.Fits(r) && 2 * Size(r) + HEADER <= buf.Length
      requires live != [] ==> FreeSpace(buf.Length, firstIdx, nextIdx) > Size(r) + HEADER
      modifies this, buf
      ensures Valid() && live == old(live) + [r] && pos == old(pos) + [nextIdx]
      ensures firstSeq == old(firstSeq) && nextSeq == old(nextSeq) + 1
    {
      EnoughSpace(buf[..], live, pos, wrapAt, Size(r));
      if nextIdx + Size(r) + HEADER >= buf.Length {
        PutWrapped(r);
      } else {
        PutAhead(r);
      }
    }

    /** log_store. */
    method Store(facility: Byte, level: nat, flags: nat, ts: nat, clock: nat, dict: seq<Byte>, text: seq<Byte>)
      returns (ghost dropped: nat, ghost r: Record)
      requires Valid() && ts < Range(8) && clock < Range(8)
      requires Size(Record(0, 0, 0, 0, text, dict)) < 0x10000
      requires 2 * Size(Record(0, 0, 0, 0, text, dict)) + HEADER <= buf.Length
      modifies this, buf
      ensures r == Record(if ts > 0 then ts else clock, facility, flags % 32, level % 8, text, dict)
      ensures Valid() && dropped <= |old(live)| && live == old(live)[dropped..] + [r]
      ensures pos == old(pos)[dropped..] + [nextIdx]
      ensures firstSeq == old(firstSeq) + dropped && nextSeq == old(nextSeq) + 1
      ensures forall e :: 0 <= e < dropped ==> FreeSpace(buf.Length, old(pos)[e], old(nextIdx)) <= Size(r) + HEADER
      ensures dropped < |old(live)| ==> FreeSpace(buf.Length, old(pos)[dropped], old(nextIdx)) > Size(r) + HEADER
      ensures forall n, idx :: old(Names(n, idx)) && firstSeq <= n ==> Names(n, idx)
    {
      var record := Record(if ts > 0 then ts else clock, facility, flags % 32, level % 8, text, dict);
      r := record;
      dropped := MakeRoom(Size(record));
      PutRecord(record);
    }

    lemma FlagsFit(k: nat)
      requires Valid() && k < |live|
      ensures live[k].flags < 32
    {
      assert Holds(buf[..], Place(pos, wrapAt, k), live[k]);
    }

    /** The record at an index. */
    method Read(idx: nat, ghost k: nat) returns (r: Record)
      requires Valid() && k < |live| && idx == pos[k]
      ensures r == live[k]
    {
      var at := FromIndex(idx, k);
      ReadBack(buf[..], at, live[k]);
      r := RecordAt(buf[..], at);
    }

    /** Rewrite the flags of the record at an index. */
    method SetFlags(idx: nat, flags: nat, ghost k: nat)
      requires Valid() && k < |live| && idx == pos[k] && flags < 32
      modifies buf, `live
      ensures Valid() && live == old(live)[k := old(live)[k].(flags := flags)]
    {
      var at := FromIndex(idx, k);
      FixedHeld(buf[..], at, live[k]);
      ghost var was := buf[..];
      FlagByteParts(live[k].flags, live[k].level);
      Poke(at + 15, [FlagByte(flags, buf[at + 15] / 32)]);
      assert buf[at + 15..at + 16][0] == buf[at + 15];
      RingNewFlags(was, buf[..], live, pos, wrapAt, k, flags);
      live := live[k := live[k].(flags := flags)];
    }

    /** Walking log_next from the first index reads exactly the live records, intact, and ends at the next index. */
    method Walk() returns (records: seq<Record>, idx: nat)
      requires Valid()
      ensures records == live && idx == nextIdx && |records| == nextSeq - firstSeq
    {
      records, idx := [], firstIdx;
      var n := firstSeq;
      while n < nextSeq
        invariant firstSeq <= n <= nextSeq && idx == pos[n - firstSeq] && records == live[..n - firstSeq]
      {
        ghost var k := n - firstSeq;
        var r := Read(idx, k);
        records := records + [r];
        idx := NextIndex(idx, k);
        n := n + 1;
      }
    }
  }

  lemma MarkerWritten(buf: seq<Byte>, at: nat)
    requires at + HEADER <= |buf| && buf[at..at + HEADER] == Zeros(HEADER)
    ensures Marker(buf, at)
  {
    forall i | at <= i < at + HEADER
      ensures buf[i] == 0
    {
      assert buf[at..at + HEADER][i - at] == buf[i];
    }
  }

  lemma FlagByteParts(flags: nat, level: nat)
    requires flags < 32 && level < 8
    ensures FlagByte(flags, level) / 32 == level && FlagByte(flags, level) % 32 == flags
  {
  }

  lemma ZeroLength(buf: seq<Byte>, at: nat)
    requires Marker(buf, at)
    ensures LengthAt(buf, at) == 0
  {
    assert buf[at + 8..at + 10] == [0, 0];
    assert FromLittleEndian([0 as Byte, 0]) == 0 + 256 * FromLittleEndian([0 as Byte, 0][1..]);
    assert [0 as Byte, 0][1..] == [0];
    assert FromLittleEndian([0]) == 0 + 256 * FromLittleEndian([0 as Byte][1..]);
  }
}
