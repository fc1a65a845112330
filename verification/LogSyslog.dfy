/** The syslog reader: renders records one after the other and may stop in the middle of one. */
module LogSyslog {
  import opened LogRecord
  import opened LogRing
  import LogConsole
  import LogText

  /** What a record reads as, given the flags of the record before it. */
  type Render = (Record, nat) -> seq<Byte>

  ghost function LastFlags(records: seq<Record>): nat
  {
    if records == [] then 0 else records[|records| - 1].flags
  }

  /** What the records read as, one after the other, from a fresh start. */
  ghost function Stream(records: seq<Record>, render: Render): seq<Byte>
  {
    if records == [] then []
    else
      var before := records[..|records| - 1];
      Stream(before, render) + render(records[|records| - 1], LastFlags(before))
  }

  lemma StreamNext(records: seq<Record>, r: Record, render: Render)
    ensures Stream(records + [r], render) == Stream(records, render) + render(r, LastFlags(records))
    ensures LastFlags(records + [r]) == r.flags
  {
    assert (records + [r])[..|records|] == records;
  }

  ghost predicate Begins(part: seq<Byte>, whole: seq<Byte>)
  {
    part <= whole
  }

  lemma {:induction false} StreamGrows(records: seq<Record>, more: seq<Record>, render: Render)
    ensures Begins(Stream(records, render), Stream(records + more, render))
  {
    if more == [] {
      assert records + more == records;
    } else {
      var m := more[..|more| - 1];
      StreamGrows(records, m, render);
      StreamNext(records + m, more[|more| - 1], render);
      assert records + more == records + m + [more[|more| - 1]];
    }
  }

  /** The records between two sequence numbers, of live ones that start at `first`. */
  ghost function Between(live: seq<Record>, first: nat, from: nat, to: nat): seq<Record>
    requires first <= from <= to <= first + |live|
  {
    live[from - first..to - first]
  }

  lemma JoinBetween(live: seq<Record>, first: nat, a: nat, b: nat, c: nat)
    requires first <= a <= b <= c <= first + |live|
    ensures Between(live, first, a, a) == []
    ensures Between(live, first, a, b) + Between(live, first, b, c) == Between(live, first, a, c)
  {
  }

  lemma PartIsPrefix(sent: seq<Byte>, seen: seq<Record>, rest: seq<Record>, r: Record, partial: nat, render: Render)
    requires rest != [] && r == rest[0] && partial <= |render(r, LastFlags(seen))|
    requires sent == Stream(seen, render) + render(r, LastFlags(seen))[..partial]
    ensures Begins(sent, Stream(seen + rest, render))
  {
    StreamNext(seen, r, render);
    StreamGrows(seen + [r], rest[1..], render);
    assert seen + rest == (seen + [r]) + rest[1..];
    LessIsPrefix(Stream(seen, render), render(r, LastFlags(seen)), partial, Stream(seen + rest, render));
  }

  lemma SentBegins(sent: seq<Byte>, seen: seq<Record>, rest: seq<Record>, partial: nat, render: Render)
    requires rest == [] ==> sent == Stream(seen, render)
    requires rest != [] ==>
      && partial <= |render(rest[0], LastFlags(seen))|
      && sent == Stream(seen, render) + render(rest[0], LastFlags(seen))[..partial]
    ensures Begins(sent, Stream(seen + rest, render))
  {
    if rest == [] {
      StreamGrows(seen, rest, render);
    } else {
      PartIsPrefix(sent, seen, rest, rest[0], partial, render);
    }
  }

  lemma LessIsPrefix<T>(a: seq<T>, text: seq<T>, p: nat, whole: seq<T>)
    requires p <= |text| && a + text <= whole
    ensures a + text[..p] <= whole
  {
    assert a + text[..p] == (a + text)[..|a| + p];
  }

  lemma JoinLeft<T>(a: seq<T>, b: seq<T>, c: seq<T>)
    ensures (a + b) + c == a + (b + c)
  {
  }

  lemma RestJoins<T>(sent: seq<T>, stream: seq<T>, text: seq<T>, p: nat)
    requires p <= |text| && sent == stream + text[..p]
    ensures sent + text[p..] == stream + text
  {
    assert text == text[..p] + text[p..];
  }

  lemma PartJoins<T>(sent: seq<T>, stream: seq<T>, text: seq<T>, p: nat, n: nat)
    requires p + n <= |text| && sent == stream + text[..p]
    ensures sent + text[p..p + n] == stream + text[..p + n]
  {
    assert text[..p + n] == text[..p] + text[p..p + n];
  }

  class Syslog {
    const log: Log
    const render: Render
    var seqNo: nat
    var idx: nat
    var prev: nat
    var partial: nat
    /** Since the start of the stream, or since records were last lost: the records read to their end, and the bytes
        handed out. */
    ghost var seen: seq<Record>
    ghost var sent: seq<Byte>

    ghost predicate Lost()
      reads this, log
    {
      seqNo < log.firstSeq
    }

    /** The record under the cursor. */
    ghost function Current(): Record
      requires log.Valid() && log.firstSeq <= seqNo < log.nextSeq
      reads this, log, log.buf
    {
      log.live[seqNo - log.firstSeq]
    }

    /** The bytes handed out are the records seen and the first `partial` bytes of a text. */
    ghost predicate At(text: seq<Byte>)
      reads this
    {
      partial <= |text| && sent == Stream(seen, render) + text[..partial]
    }

    /** The bytes handed out are the records seen and the first `partial` bytes of the current one. */
    ghost predicate InStream()
      requires log.Valid() && log.firstSeq <= seqNo <= log.nextSeq
      reads this, log, log.buf
    {
      if seqNo == log.nextSeq then partial == 0 && sent == Stream(seen, render) else At(render(Current(), prev))
    }

    /** Every byte handed out so far is in its place: what the reader has sent begins what all records seen and still to
        be read spell together. */
    lemma SentIsPrefix()
      requires Valid() && !Lost()
      ensures Begins(sent, Stream(seen + log.live[seqNo - log.firstSeq..], render))
    {
      var rest := log.live[seqNo - log.firstSeq..];
      assert seqNo < log.nextSeq ==> rest[0] == Current();
      SentBegins(sent, seen, rest, partial, render);
    }

    /** A conditional rather than a conjunction: the methods then prove it as a whole. */
    ghost predicate Valid()
      reads this, log, log.buf
    {
      if log.Valid() && (!Lost() ==> log.Names(seqNo, idx) && InStream() && prev == LastFlags(seen)) then true
          else false
    }

    /** Some bytes of the record under the cursor are still to be handed out. */
    ghost predicate Due()
      requires Valid() && !Lost()
      reads this, log, log.buf
    {
      seqNo < log.nextSeq && partial < |render(Current(), prev)|
    }

    constructor (log: Log, render: Render)
      requires log.Valid()
      ensures Valid() && this.log == log && this.render == render && sent == [] && seqNo == log.firstSeq
    {
      this.log, this.render := log, render;
      seqNo, idx, prev, partial, seen, sent := log.firstSeq, log.firstIdx, 0, 0, [], [];
    }

    /** From a cursor and its history to the present ones, `out` was handed out, and the records between were read. */
    ghost predicate Went(from: nat, sent0: seq<Byte>, seen0: seq<Record>, out: seq<Byte>)
      reads this, log
    {
      && log.firstSeq <= from <= seqNo <= log.firstSeq + |log.live|
      && sent == sent0 + out && seen == seen0 + Between(log.live, log.firstSeq, from, seqNo)
    }

    lemma Stayed()
      requires log.firstSeq <= seqNo <= log.firstSeq + |log.live|
      ensures Went(seqNo, sent, seen, [])
    {
      JoinBetween(log.live, log.firstSeq, seqNo, seqNo, seqNo);
    }

    lemma HandedOut(sent0: seq<Byte>, out: seq<Byte>)
      requires log.firstSeq <= seqNo <= log.firstSeq + |log.live| && sent == sent0 + out
      ensures Went(seqNo, sent0, seen, out)
    {
      JoinBetween(log.live, log.firstSeq, seqNo, seqNo, seqNo);
    }

    lemma WentOn(from: nat, sent0: seq<Byte>, seen0: seq<Record>, out: seq<Byte>,
                 mid: nat, sent1: seq<Byte>, seen1: seq<Record>, piece: seq<Byte>)
      requires log.firstSeq <= from <= mid && Went(mid, sent1, seen1, piece)
      requires sent1 == sent0 + out && seen1 == seen0 + Between(log.live, log.firstSeq, from, mid)
      ensures Went(from, sent0, seen0, out + piece)
    {
      JoinBetween(log.live, log.firstSeq, from, mid, seqNo);
      JoinLeft(sent0, out, piece);
      JoinLeft(seen0, Between(log.live, log.firstSeq, from, mid), Between(log.live, log.firstSeq, mid, seqNo));
    }

    /** Records are gone: start a new stream at the first one. */
    method CatchUp()
      requires Valid()
      modifies this
      ensures Valid() && !Lost()
      ensures !old(Lost()) ==> Due() == old(Due()) && seqNo == old(seqNo) && seen == old(seen) && sent == old(sent)
      ensures old(Lost()) ==> seqNo == log.firstSeq && partial == 0 && seen == [] && sent == []
    {
      if seqNo < log.firstSeq {
        seqNo, idx, prev, partial, seen, sent := log.firstSeq, log.firstIdx, 0, 0, [], [];
      }
    }

    lemma SteppedOn(from: nat, sent0: seq<Byte>, seen0: seq<Record>, out: seq<Byte>, r: Record)
      requires log.firstSeq <= from < log.firstSeq + |log.live| && r == log.live[from - log.firstSeq]
      requires seqNo == from + 1 && sent == sent0 + out && seen == seen0 + [r]
      ensures Went(from, sent0, seen0, out)
    {
      assert Between(log.live, log.firstSeq, from, seqNo) == [r];
    }

    /** The cursor moves behind the record under it, whose last bytes are `out`. */
    method StepOver(r: Record, ghost out: seq<Byte>)
      requires Valid() && !Lost() && seqNo < log.nextSeq && r == Current()
      modifies this
      ensures log.Valid() && seqNo == old(seqNo) + 1 && log.Names(seqNo, idx) && prev == r.flags && partial == 0
      ensures seen == old(seen) + [r] && sent == old(sent) + out
    {
      idx := log.NextIndex(idx, seqNo - log.firstSeq);
      seqNo, prev, partial := seqNo + 1, r.flags, 0;
      seen, sent := seen + [r], sent + out;
    }

    /** The rest of the record under the cursor, whose text is `text`. */
    method TakeRest(r: Record, text: seq<Byte>) returns (out: seq<Byte>)
      requires Valid() && !Lost() && seqNo < log.nextSeq && r == Current() && text == render(r, prev)
      modifies this
      ensures Valid() && !Lost() && out == text[old(partial)..] && Went(old(seqNo), old(sent), old(seen), out)
      ensures seqNo == old(seqNo) + 1
    {
      out := text[partial..];
      StreamNext(seen, r, render);
      RestJoins(sent, Stream(seen, render), text, partial);
      StepOver(r, out);
      SteppedOn(old(seqNo), old(sent), old(seen), out, r);
      FreshInStream();
    }

    /** At the start of a record nothing of it has been handed out. */
    lemma FreshInStream()
      requires log.Valid() && log.firstSeq <= seqNo <= log.nextSeq && partial == 0 && sent == Stream(seen, render)
      ensures InStream()
    {
      if seqNo < log.nextSeq {
        assert render(Current(), prev)[..0] == [];
      }
    }

    /** The next `size` bytes of the record under the cursor. */
    method TakePart(text: seq<Byte>, size: nat) returns (out: seq<Byte>)
      requires Valid() && !Lost() && seqNo < log.nextSeq && text == render(Current(), prev) && partial + size <= |text|
      modifies `partial, `sent
      ensures Valid() && out == text[old(partial)..old(partial) + size] && sent == old(sent) + out
    {
      out := text[partial..partial + size];
      PartJoins(sent, Stream(seen, render), text, partial, size);
      partial := partial + size;
      sent := sent + out;
    }

    /** One turn of the loop: hand out the rest of the current record if it fits, its beginning if nothing has been
        handed out yet, nothing otherwise. */
    method Take(size: nat, first: bool) returns (out: seq<Byte>)
      requires Valid() && !Lost() && seqNo < log.nextSeq && size > 0
      modifies this
      ensures Valid() && !Lost() && |out| <= size && Went(old(seqNo), old(sent), old(seen), out)
      ensures first && old(Due()) ==> out != []
    {
      var r := log.Read(idx, seqNo - log.firstSeq);
      var text := render(r, prev);
      Stayed();
      if |text| - partial <= size {
        out := TakeRest(r, text);
      } else if first {
        out := TakePart(text, size);
        HandedOut(old(sent), out);
      } else {
        out := [];
      }
    }

    /** The loop of syslog_print, from a cursor whose records are there. */
    method Fill(size: nat) returns (out: seq<Byte>)
      requires Valid() && !Lost()
      modifies this
      ensures Valid() && !Lost() && |out| <= size && Went(old(seqNo), old(sent), old(seen), out)
      ensures size > 0 && old(Due()) ==> out != []
    {
      if size > 0 && seqNo != log.nextSeq {
        out := Take(size, true);
        ghost var mid, sent1, seen1 := seqNo, sent, seen;
        var more := FillOn(size - |out|, out == []);
        WentOn(old(seqNo), old(sent), old(seen), out, mid, sent1, seen1, more);
        out := out + more;
      } else {
        Stayed();
        out := [];
      }
    }

    /** One more turn, on top of what has been handed out since `from`. */
    method TakeMore(left: nat, ghost from: nat, ghost sent0: seq<Byte>, ghost seen0: seq<Record>, ghost out: seq<Byte>)
      returns (piece: seq<Byte>)
      requires Valid() && !Lost() && left > 0 && seqNo < log.nextSeq && Went(from, sent0, seen0, out)
      modifies this
      ensures Valid() && !Lost() && |piece| <= left && Went(from, sent0, seen0, out + piece)
    {
      ghost var mid, sent1, seen1 := seqNo, sent, seen;
      piece := Take(left, false);
      WentOn(from, sent0, seen0, out, mid, sent1, seen1, piece);
    }

    /** The turns after the first; a turn that hands out nothing ends the loop. */
    method FillOn(size: nat, over: bool) returns (out: seq<Byte>)
      requires Valid() && !Lost()
      modifies this
      ensures Valid() && !Lost() && |out| <= size && Went(old(seqNo), old(sent), old(seen), out)
    {
      out := [];
      var left, stop := size, over;
      ghost var from, sent0, seen0 := seqNo, sent, seen;
      Stayed();
      while left > 0 && !stop && seqNo != log.nextSeq
        invariant Valid() && !Lost() && 0 <= left && |out| + left == size && Went(from, sent0, seen0, out)
        decreases left, if stop then 0 else 1
      {
        var piece := TakeMore(left, from, sent0, seen0, out);
        stop := piece == [];
        out := out + piece;
        left := left - |piece|;
      }
    }

    /** syslog_print into a user buffer of `size` bytes: whatever the sizes of the reads, the bytes handed out go on
        where the last read stopped. After a loss they start a new stream. */
    method Print(size: nat) returns (out: seq<Byte>)
      requires Valid()
      modifies this
      ensures Valid() && |out| <= size
      ensures !old(Lost()) ==>
        !Lost() && Went(old(seqNo), old(sent), old(seen), out)
      ensures old(Lost()) && size > 0 ==> !Lost() && sent == out
      ensures size > 0 && !old(Lost()) && old(Due()) ==> out != []
    {
      if size == 0 {
        out := [];
        if !Lost() {
          Stayed();
        }
      } else {
        CatchUp();
        out := Fill(size);
      }
    }
  }

  /** The size of the reader's text buffer: LOG_LINE_MAX + PREFIX_MAX. */
  const TEXT_ROOM := 1024

  /** Records read as msg_print_text prints them behind a syslog prefix. */
  ghost predicate RendersText(render: Render, time: bool)
  {
    forall r, prev {:trigger LogText.Rendered(r, prev, true, time, TEXT_ROOM)} ::
      render(r, prev) == LogText.Rendered(r, prev, true, time, TEXT_ROOM)
  }

  /** The reader of the log renders with msg_print_text, behind a syslog prefix. */
  method Open(log: Log, time: bool) returns (s: Syslog)
    requires log.Valid()
    ensures s.Valid() && fresh(s) && s.log == log && s.sent == [] && s.seqNo == log.firstSeq
    ensures RendersText(s.render, time)
  {
    s := new Syslog(log, (r, prev) => LogText.Rendered(r, prev, true, time, TEXT_ROOM));
  }

  /** A store between two reads, however many records it drops, leaves the reader valid: it is where it was, or knows
      that it lost records. */
  method StoreBetweenReads(s: Syslog, facility: Byte, level: nat, flags: nat, ts: nat, clock: nat, dict: seq<Byte>,
      text: seq<Byte>)
    requires s.Valid() && ts < Range(8) && clock < Range(8)
    requires Size(Record(0, 0, 0, 0, text, dict)) < 0x10000
    requires 2 * Size(Record(0, 0, 0, 0, text, dict)) + HEADER <= s.log.buf.Length
    modifies s.log, s.log.buf
    ensures s.Valid()
    ensures !s.Lost() ==> s.sent == old(s.sent) && s.seen == old(s.seen) && s.partial == old(s.partial)
  {
    ghost var dropped, r := s.log.Store(facility, level, flags, ts, clock, dict, text);
    if !s.Lost() {
      ghost var k := s.seqNo - s.log.firstSeq;
      if s.seqNo < old(s.log.nextSeq) {
        assert s.log.live[k] == old(s.Current());
      } else {
        s.FreshInStream();
      }
    }
  }

  /** Clearing a mark changes nothing that this reader renders. */
  lemma MarkUnread(s: Syslog, r: Record, prev: nat, time: bool)
    requires RendersText(s.render, time)
    ensures s.render(LogConsole.Unmuted(r), prev) == s.render(r, prev)
  {
    if LogConsole.Muted(r) {
      LogText.MarkInvisible(r, prev, true, time, TEXT_ROOM, r.flags - 1, prev);
    }
  }

  /** A round of the console: the same records in the same places, some without their mark. */
  method ShowNext(c: LogConsole.Console)
    requires c.Valid()
    modifies c, c.log, c.log.buf
    ensures c.log.Valid() && c.log.firstSeq == old(c.log.firstSeq) && c.log.nextSeq == old(c.log.nextSeq)
    ensures c.log.pos == old(c.log.pos)
    ensures |c.log.live| == |old(c.log.live)|
    ensures forall i :: 0 <= i < |c.log.live| ==>
      c.log.live[i] == old(c.log.live)[i] || c.log.live[i] == LogConsole.Unmuted(old(c.log.live)[i])
  {
    var shown, before;
    ghost var k;
    shown, before, k := c.Next();
  }

  /** A round of the console between two reads, which clears marks in the buffer, leaves a reader that may be in the
      middle of a record where it is. */
  method ShowBetweenReads(s: Syslog, c: LogConsole.Console, ghost time: bool)
    requires s.Valid() && c.Valid() && c.log == s.log
    requires RendersText(s.render, time)
    modifies c, s.log, s.log.buf
    ensures s.Valid() && s.Lost() == old(s.Lost())
    ensures s.seqNo == old(s.seqNo) && s.sent == old(s.sent) && s.seen == old(s.seen) && s.partial == old(s.partial)
  {
    ghost var reading := !s.Lost() && s.seqNo < s.log.nextSeq;
    ghost var r := if reading then s.Current() else Record(0, 0, 0, 0, [], []);
    ShowNext(c);
    if reading {
      StillReads(s, r, time);
    }
  }

  /** A reader whose record is the same up to its mark is where it was. */
  lemma StillReads(s: Syslog, r: Record, time: bool)
    requires RendersText(s.render, time)
    requires s.log.Valid() && !s.Lost() && s.seqNo < s.log.nextSeq
    requires s.log.Names(s.seqNo, s.idx) && s.prev == LastFlags(s.seen) && s.At(s.render(r, s.prev))
    requires s.Current() == r || s.Current() == LogConsole.Unmuted(r)
    ensures s.Valid()
  {
    MarkUnread(s, r, s.prev, time);
  }
}
