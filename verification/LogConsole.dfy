/** The console's reader of the kernel log. */
module LogConsole {
  import opened Options
  import opened LogRecord
  import opened LogRing

  /** Already shown on the console when it was received. */
  predicate Muted(r: Record) { r.flags % 2 == 1 }

  function Unmuted(r: Record): Record { if Muted(r) then r.(flags := r.flags - 1) else r }

  /** The records with the marks of those in [from, to) cleared. */
  ghost function Swept(live: seq<Record>, from: nat, to: nat): seq<Record>
  {
    seq(|live|, i requires 0 <= i < |live| => if from <= i < to then Unmuted(live[i]) else live[i])
  }

  lemma SweptStep(live: seq<Record>, from: nat, to: nat)
    requires from <= to < |live|
    ensures Swept(live, from, to)[to] == live[to]
    ensures Swept(live, from, to)[to := Unmuted(live[to])] == Swept(live, from, to + 1)
    ensures !Muted(live[to]) ==> Swept(live, from, to) == Swept(live, from, to + 1)
  {
  }

  lemma SweptNone(live: seq<Record>, from: nat)
    ensures Swept(live, from, from) == live
  {
  }

  /** The flags of the record before position j, as the console saw them on its way from `from`. */
  ghost function FlagsBefore(live: seq<Record>, from: nat, j: nat, prev: nat): nat
    requires j <= |live|
  {
    if j > from then Unmuted(live[j - 1]).flags else prev
  }

  ghost predicate AllMuted(live: seq<Record>, from: nat, to: nat)
    requires to <= |live|
  {
    forall i :: from <= i < to ==> Muted(live[i])
  }

  lemma AllMutedStep(live: seq<Record>, from: nat, to: nat)
    requires to < |live| && AllMuted(live, from, to)
    ensures Muted(live[to]) ==> AllMuted(live, from, to + 1)
  {
  }

  class Console {
    const log: Log
    var seqNo: nat
    var idx: nat
    var prev: nat

    /** The cursor names a record, unless the records it was at are gone. */
    ghost predicate Valid()
      reads this, log, log.buf
    {
      log.Valid() && (seqNo < log.firstSeq || log.Names(seqNo, idx))
    }

    constructor (log: Log)
      requires log.Valid()
      ensures Valid() && this.log == log && seqNo == log.firstSeq && prev == 0
    {
      this.log := log;
      seqNo, idx, prev := log.firstSeq, log.firstIdx, 0;
    }

    /** Where the next look at the log starts. */
    ghost function From(): nat
      requires Valid()
      reads this, log, log.buf
    {
      if seqNo < log.firstSeq then 0 else seqNo - log.firstSeq
    }

    /** The flags the next rendering starts from; none when records were lost. */
    ghost function Before(): nat
      reads this, log
    {
      if seqNo < log.firstSeq then 0 else prev
    }

    /** Move past the record under the cursor; a muted one loses its mark. */
    method Pass(r: Record)
      requires Valid() && log.firstSeq <= seqNo < log.nextSeq && r == log.live[seqNo - log.firstSeq] && r.flags < 32
      modifies this, log, log.buf
      ensures Valid() && log.firstSeq == old(log.firstSeq) && log.nextSeq == old(log.nextSeq) && log.pos == old(log.pos)
      ensures seqNo == old(seqNo) + 1 && prev == Unmuted(r).flags
      ensures log.live == old(log.live)[old(seqNo) - log.firstSeq := Unmuted(r)]
    {
      ghost var k := seqNo - log.firstSeq;
      var next := log.NextIndex(idx, k);
      if Muted(r) {
        log.SetFlags(idx, r.flags - 1, k);
      }
      idx, seqNo, prev := next, seqNo + 1, Unmuted(r).flags;
    }

    /** Mid-way through a round: the cursor has passed the live records from position `from` up to k, all of them muted
        and now unmarked. `was` and `pos` are the records and indices when the round began. */
    ghost predicate Sweeping(was: seq<Record>, first: nat, pos: seq<nat>, from: nat, k: nat, prev0: nat)
      reads this, log, log.buf
    {
      && Valid() && log.firstSeq == first && log.nextSeq == first + |was| && log.pos == pos
      && from <= k <= |was| && seqNo == first + k && log.live == Swept(was, from, k)
      && prev == FlagsBefore(was, from, k, prev0)
    }

    /** Read the record under the cursor and move past it. */
    method Step(ghost was: seq<Record>, ghost first: nat, ghost pos: seq<nat>, ghost from: nat, ghost k: nat,
        ghost prev0: nat)
      returns (r: Record)
      requires Sweeping(was, first, pos, from, k, prev0) && k < |was|
      modifies this, log, log.buf
      ensures Sweeping(was, first, pos, from, k + 1, prev0) && r == was[k]
    {
      SweptStep(was, from, k);
      r := log.Read(idx, k);
      log.FlagsFit(k);
      Pass(r);
    }

    method CatchUp()
      requires Valid()
      modifies this
      ensures Valid() && log.firstSeq <= seqNo && seqNo - log.firstSeq == old(From())
      ensures prev == old(Before())
    {
      if seqNo < log.firstSeq {
        seqNo, idx, prev := log.firstSeq, log.firstIdx, 0;
      }
    }

    /** One round of console_unlock: pass over muted records, clearing their mark, and take the next one to show, with
        the flags of the record before it. */
    method Next() returns (shown: Option<Record>, before: nat, ghost k: nat)
      requires Valid()
      modifies this, log, log.buf
      ensures Sweeping(old(log.live), old(log.firstSeq), old(log.pos), old(From()), k, old(Before()))
      ensures shown.None? ==> k == |old(log.live)| && AllMuted(old(log.live), old(From()), k)
      ensures shown.Some? ==>
        && old(From()) < k && AllMuted(old(log.live), old(From()), k - 1)
        && shown.value == old(log.live)[k - 1] && !Muted(shown.value)
        && before == FlagsBefore(old(log.live), old(From()), k - 1, old(Before()))
    {
      CatchUp();
      SweptNone(log.live, seqNo - log.firstSeq);
      shown, before, k := Sweep(log.live, log.firstSeq, log.pos, seqNo - log.firstSeq, prev);
    }

    method Sweep(ghost was: seq<Record>, ghost first: nat, ghost pos: seq<nat>, ghost from: nat, ghost prev0: nat)
      returns (shown: Option<Record>, before: nat, ghost k: nat)
      requires Sweeping(was, first, pos, from, from, prev0)
      modifies this, log, log.buf
      ensures Sweeping(was, first, pos, from, k, prev0)
      ensures shown.None? ==> k == |was| && AllMuted(was, from, k)
      ensures shown.Some? ==>
        && from < k && AllMuted(was, from, k - 1) && shown.value == was[k - 1] && !Muted(shown.value)
        && before == FlagsBefore(was, from, k - 1, prev0)
    {
      before := prev;
      k := from;
      while seqNo != log.nextSeq
        invariant Sweeping(was, first, pos, from, k, prev0) && AllMuted(was, from, k)
        decreases |was| - k
      {
        before := prev;
        AllMutedStep(was, from, k);
        var r := Step(was, first, pos, from, k, prev0);
        k := k + 1;
        if !Muted(r) {
          return Some(r), before, k;
        }
      }
      shown := None;
    }
  }
}
