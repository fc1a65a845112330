/** The word of a recursive or errorcheck mutex: lock state in bits 0-1, counter in 2-12, shared bit 13, type in
    14-15, owner in 16-31. */
module MutexWord {

  /** The kernel's thread ids fit the 16-bit owner field; those of live threads are not 0. */
  datatype Tid = Tid(id: bv16)

  predicate Live(t: Tid) { t.id != 0 }


  function LockState(w: bv32): bv32 { w & 3 }
  function Counter(w: bv32): bv32 { (w >> 2) & 0x7ff }
  function TypeBits(w: bv32): bv32 { w & 0xe000 }
  function OwnerField(w: bv32): bv32 { (w >> 16) & 0xffff }
  function OwnerBits(t: Tid): bv32 { (t.id as bv32) << 16 }
  predicate OwnedBy(w: bv32, t: Tid) { OwnerField(w) == t.id as bv32 }
  predicate WillOverflow(w: bv32) { w & 0x1ffc == 0x1ffc }
  predicate CounterIsZero(w: bv32) { w & 0x1ffc == 0 }
  function FlipContention(w: bv32): bv32 { w ^ 3 }
  function Taken(t: Tid, mtype: bv32, st: bv32): bv32 { OwnerBits(t) | mtype | st }

  /** Same owner, counter and type: all that the atomic operations of other threads leave alone in a held word. */
  ghost predicate SameHold(v: bv32, w: bv32)
  {
    OwnerField(v) == OwnerField(w) && Counter(v) == Counter(w) && TypeBits(v) == TypeBits(w)
  }

  ghost predicate GoodType(mtype: bv32)
  {
    TypeBits(mtype) == mtype && (mtype & 0xc000 == 0x4000 || mtype & 0xc000 == 0x8000)
  }

  lemma FreshWord(t: Tid, mtype: bv32, st: bv32)
    requires GoodType(mtype) && (st == 1 || st == 2)
    ensures OwnedBy(Taken(t, mtype, st), t) && Counter(Taken(t, mtype, st)) == 0
    ensures LockState(Taken(t, mtype, st)) == st && TypeBits(Taken(t, mtype, st)) == mtype
    ensures Taken(t, mtype, st) != mtype
  {
  }

  lemma SameId(a: bv16, b: bv16)
    requires a as bv32 == b as bv32
    ensures a == b
  {
  }

  lemma FreeWord(mtype: bv32)
    requires GoodType(mtype)
    ensures OwnerField(mtype) == 0 && Counter(mtype) == 0 && LockState(mtype) == 0 && TypeBits(mtype) == mtype
  {
  }

  lemma AddOneBits(w: bv32)
    requires w & 0x1ffc != 0x1ffc
    ensures ((w + 4) >> 2) & 0x7ff == ((w >> 2) & 0x7ff) + 1 && ((w >> 2) & 0x7ff) < 0x7ff
    ensures ((w + 4) >> 16) & 0xffff == (w >> 16) & 0xffff && (w + 4) & 0xe000 == w & 0xe000 && (w + 4) & 3 == w & 3
    ensures (w + 4) & 0x1ffc != 0
  {
  }

  lemma SubtractOneBits(w: bv32)
    requires w & 0x1ffc != 0
    ensures (w >> 2) & 0x7ff == (((w - 4) >> 2) & 0x7ff) + 1 && (((w - 4) >> 2) & 0x7ff) < 0x7ff
    ensures ((w - 4) >> 16) & 0xffff == (w >> 16) & 0xffff && (w - 4) & 0xe000 == w & 0xe000 && (w - 4) & 3 == w & 3
  {
  }

  /** The increment stays inside its 11 bits: nothing else in the word moves. */
  lemma IncrementStaysInField(w: bv32)
    requires !WillOverflow(w)
    ensures Counter(w + 4) == Counter(w) + 1 && Counter(w) < 0x7ff
    ensures OwnerField(w + 4) == OwnerField(w)
    ensures TypeBits(w + 4) == TypeBits(w) && LockState(w + 4) == LockState(w)
  {
    AddOneBits(w);
  }

  lemma DecrementStaysInField(w: bv32)
    requires !CounterIsZero(w)
    ensures Counter(w) == Counter(w - 4) + 1 && Counter(w - 4) < 0x7ff
    ensures OwnerField(w - 4) == OwnerField(w)
    ensures TypeBits(w - 4) == TypeBits(w) && LockState(w - 4) == LockState(w)
  {
    SubtractOneBits(w);
  }

  lemma CountStep(a: bv32, b: bv32)
    requires b < 0x800 && a == b + 1
    ensures a as nat == b as nat + 1
  {
  }

  lemma FlipChangesStateOnly(w: bv32)
    requires LockState(w) == 1
    ensures SameHold(FlipContention(w), w) && LockState(FlipContention(w)) == 2
  {
  }

  lemma CounterTests(w: bv32)
    ensures WillOverflow(w) <==> Counter(w) == 0x7ff
    ensures CounterIsZero(w) <==> Counter(w) == 0
  {
  }

  lemma SameHoldTests(v: bv32, w: bv32)
    requires SameHold(v, w)
    ensures WillOverflow(v) == WillOverflow(w) && CounterIsZero(v) == CounterIsZero(w)
  {
    CounterTests(v);
    CounterTests(w);
  }
}

/** Recursive and errorcheck mutexes as a protocol of atomic steps on one word, taken by any number of threads in any
    order. A thread may call unlock at any time, owner or not. */
module RecursiveMutex {
  import opened MutexWord

  datatype Ret = Ok | EDEADLK | EAGAIN | EPERM | EBUSY

  /** Where a thread is in the code, with the value of the word it last loaded where the code still needs it. */
  datatype Pc =
    | Idle(ret: Ret)      // outside; `ret` is what the last call returned
    | IncCas(mv: bv32)    // owner entering again: compare-and-swap the incremented word
    | IncReload
    | TryCas              // trylock's only compare-and-swap
    | FastCas             // lock saw a free word: first attempt, uncontended
    | Reload              // lock loop: about to reload
    | SlowCas             // lock loop saw a free word: take it as contended
    | FlipCas(mv: bv32)   // lock loop saw state 1: flip it to 2
    | Wait(mv: bv32)      // lock loop: about to call futex wait expecting mv
    | Asleep
    | DecCas(mv: bv32)    // owner leaving an inner level
    | DecReload
    | SwapFree            // owner leaving the outer level
    | Waking              // the freed word was contended: about to call futex wake

  /** `mtype` is the type and shared bits; `depth` counts, for each thread, acquisitions not yet released. */
  datatype State = State(word: bv32, mtype: bv32, pc: map<Tid, Pc>, depth: map<Tid, bv32>)

  datatype Action =
    | LockCall | TryCall | UnlockCall | Cas | Load | FutexWait | Interrupt | Swap | WakeOne(sleeper: Tid) | WakeNone

  // --- the code between two atomic operations --------------------------------------------------------

  /** The start of _recursive_increment. */
  function Reenter(mv: bv32): (pc: Pc)
    ensures pc.IncCas? || pc.Idle?
  {
    if mv & 0xc000 == 0x8000 then Idle(EDEADLK) else if WillOverflow(mv) then Idle(EAGAIN) else IncCas(mv)
  }

  predicate LoopPc(pc: Pc) { pc.Reload? || pc.SlowCas? || pc.FlipCas? || pc.Wait? }

  /** The head of the lock loop, on the value just loaded. */
  function Decide(mv: bv32, mtype: bv32): (pc: Pc)
    ensures LoopPc(pc) && !pc.Reload?
  {
    if mv == mtype then SlowCas else if LockState(mv) == 1 then FlipCas(mv) else Wait(mv)
  }

  function LockEntry(t: Tid, mv: bv32): (pc: Pc)
    ensures !pc.Asleep?
  {
    if OwnedBy(mv, t) then Reenter(mv) else if mv == TypeBits(mv) then FastCas else Decide(mv, TypeBits(mv))
  }

  function TryEntry(t: Tid, mv: bv32): (pc: Pc)
    ensures !pc.Asleep?
  {
    if OwnedBy(mv, t) then Reenter(mv) else TryCas
  }

  function UnlockEntry(t: Tid, mv: bv32): (pc: Pc)
    ensures !pc.Asleep?
  {
    if !OwnedBy(mv, t) then Idle(EPERM) else if !CounterIsZero(mv) then DecCas(mv) else SwapFree
  }

  // --- steps ------------------------------------------------------------------------------------------

  ghost predicate Domains(s: State) { s.depth.Keys == s.pc.Keys && forall t :: t in s.pc ==> Live(t) }

  /** What a step of `t` may touch outside the word. */
  ghost predicate TouchesOnly(s: State, t: Tid, s': State)
  {
    s'.mtype == s.mtype && s'.pc.Keys == s.pc.Keys && s'.depth.Keys == s.depth.Keys &&
    forall u :: u in s.depth && u != t ==> s'.depth[u] == s.depth[u]
  }

  ghost predicate OthersStay(s: State, t: Tid, s': State)
  {
    forall u :: u in s.pc && u != t ==> u in s'.pc && s'.pc[u] == s.pc[u]
  }

  function At(s: State, t: Tid, pc: Pc): (s': State)
    requires t in s.pc
    ensures TouchesOnly(s, t, s') && s'.depth == s.depth && s'.word == s.word && s'.pc[t] == pc
    ensures OthersStay(s, t, s')
  {
    assert s.pc[t := pc].Keys == s.pc.Keys;
    s.(pc := s.pc[t := pc])
  }

  function SetDepth(s: State, t: Tid, depth: bv32): (s': State)
    requires t in s.depth
    ensures TouchesOnly(s, t, s') && s'.depth[t] == depth && s'.pc == s.pc && s'.word == s.word
  {
    assert s.depth[t := depth].Keys == s.depth.Keys;
    s.(depth := s.depth[t := depth])
  }

  /** A compare-and-swap: the word expected, the word to store, the depth its thread then has, and where it goes on. */
  datatype Attempt = Attempt(expected: bv32, next: bv32, depth: bv32, won: Pc, lost: Pc)

  predicate AtCas(pc: Pc)
  {
    pc.IncCas? || pc.TryCas? || pc.FastCas? || pc.SlowCas? || pc.FlipCas? || pc.DecCas?
  }

  function AttemptOf(pc: Pc, t: Tid, mtype: bv32, depth: bv32): (c: Attempt)
    requires AtCas(pc)
    ensures !c.won.Asleep? && !c.lost.Asleep?
  {
    match pc
    case IncCas(mv) => Attempt(mv, mv + 4, depth + 1, Idle(Ok), IncReload)
    case TryCas => Attempt(mtype, Taken(t, mtype, 1), depth + 1, Idle(Ok), Idle(EBUSY))
    case FastCas => Attempt(mtype, Taken(t, mtype, 1), depth + 1, Idle(Ok), Reload)
    case SlowCas => Attempt(mtype, Taken(t, mtype, 2), depth + 1, Idle(Ok), Reload)
    case FlipCas(mv) => Attempt(mv, FlipContention(mv), depth, Wait(FlipContention(mv)), Reload)
    case DecCas(mv) => Attempt(mv, mv - 4, depth - 1, Idle(Ok), DecReload)
  }

  /** On success the word, the depth of `t` and its place change together. */
  function CompareAndSwap(s: State, t: Tid, c: Attempt): (s': State)
    requires t in s.pc && t in s.depth
    ensures TouchesOnly(s, t, s')
    ensures s.word == c.expected ==> s'.word == c.next && s'.depth[t] == c.depth && s'.pc[t] == c.won
    ensures s.word != c.expected ==> s'.word == s.word && s'.depth == s.depth && s'.pc[t] == c.lost
    ensures OthersStay(s, t, s')
  {
    if s.word == c.expected
    then SetDepth(At(s, t, c.won), t, c.depth).(word := c.next)
    else At(s, t, c.lost)
  }

  predicate AtLoad(pc: Pc) { pc.IncReload? || pc.DecReload? || pc.Reload? }

  function Loaded(pc: Pc, w: bv32, mtype: bv32): (r: Pc)
    requires AtLoad(pc)
    ensures !r.Asleep?
  {
    match pc
    case IncReload => IncCas(w)
    case DecReload => DecCas(w)
    case Reload => Decide(w, mtype)
  }

  ghost predicate Sleeps(s: State, t: Tid) { t in s.pc && s.pc[t].Asleep? }

  /** One atomic step of thread `t`. */
  ghost predicate Step(s: State, t: Tid, a: Action, s': State)
  {
    t in s.pc && t in s.depth &&
    match a
    case LockCall => s.pc[t].Idle? && s' == At(s, t, LockEntry(t, s.word))
    case TryCall => s.pc[t].Idle? && s' == At(s, t, TryEntry(t, s.word))
    case UnlockCall => s.pc[t].Idle? && s' == At(s, t, UnlockEntry(t, s.word))
    case Cas => AtCas(s.pc[t]) && s' == CompareAndSwap(s, t, AttemptOf(s.pc[t], t, s.mtype, s.depth[t]))
    case Load => AtLoad(s.pc[t]) && s' == At(s, t, Loaded(s.pc[t], s.word, s.mtype))
    case FutexWait => s.pc[t].Wait? && s' == At(s, t, if s.word == s.pc[t].mv then Asleep else Reload)
    case Interrupt => s.pc[t].Asleep? && s' == At(s, t, Reload)
    case Swap =>
      s.pc[t].SwapFree? &&
      s' == SetDepth(At(s, t, if LockState(s.word) == 2 then Waking else Idle(Ok)), t, 0).(word := s.mtype)
    case WakeOne(u) => s.pc[t].Waking? && Sleeps(s, u) && s' == At(At(s, t, Idle(Ok)), u, Reload)
    case WakeNone => s.pc[t].Waking? && (forall u :: !Sleeps(s, u)) && s' == At(s, t, Idle(Ok))
  }

  ghost predicate Next(s: State, s': State)
  {
    exists t: Tid, a :: Step(s, t, a, s')
  }

  ghost predicate Init(s: State)
  {
    && GoodType(s.mtype) && s.word == s.mtype && Domains(s)
    && (forall t :: t in s.pc ==> s.pc[t].Idle?)
    && (forall t :: t in s.depth ==> s.depth[t] == 0)
  }

  // --- the invariant ----------------------------------------------------------------------------------

  /** The depth that the word spells for a thread. */
  ghost function Spelled(w: bv32, t: Tid): bv32 { if OwnedBy(w, t) then Counter(w) + 1 else 0 }

  ghost predicate IsErrorCheck(mtype: bv32) { mtype & 0xc000 == 0x8000 }

  ghost predicate WordOk(w: bv32, mtype: bv32)
  {
    && GoodType(mtype) && TypeBits(w) == mtype
    && (w == mtype || LockState(w) == 1 || LockState(w) == 2)
    && (IsErrorCheck(mtype) ==> Counter(w) == 0)
  }

  ghost predicate WordDecodes(s: State)
  {
    && Domains(s) && WordOk(s.word, s.mtype)
    && (forall t :: t in s.depth ==> s.depth[t] == Spelled(s.word, t))
    && (s.word != s.mtype ==> exists t :: t in s.depth && OwnedBy(s.word, t))
  }

  /** What a thread's place in the code says about the word it is about to change. */
  ghost predicate PcFits(w: bv32, mtype: bv32, t: Tid, pc: Pc)
  {
    match pc
    case IncCas(mv) => OwnedBy(w, t) && SameHold(mv, w) && !WillOverflow(mv) && !IsErrorCheck(mtype)
    case IncReload => OwnedBy(w, t) && !WillOverflow(w) && !IsErrorCheck(mtype)
    case DecCas(mv) => OwnedBy(w, t) && SameHold(mv, w) && !CounterIsZero(mv)
    case DecReload => OwnedBy(w, t) && !CounterIsZero(w)
    case SwapFree => OwnedBy(w, t) && CounterIsZero(w)
    case FlipCas(mv) => LockState(mv) == 1
    case Wait(mv) => LockState(mv) == 2
    case _ => true
  }

  ghost predicate PcsFit(s: State)
  {
    forall t :: t in s.pc ==> PcFits(s.word, s.mtype, t, s.pc[t])
  }

  ghost predicate InLockLoop(s: State, t: Tid)
  {
    t in s.pc && LoopPc(s.pc[t])
  }

  ghost predicate Wakes(s: State, t: Tid) { t in s.pc && s.pc[t].Waking? }

  /** While a thread sleeps, the word is contended, or an unlocker has yet to wake somebody, or an awake thread is in
      the lock loop, where it takes a free word as contended and flips a held one before it sleeps. */
  ghost predicate NoLostWakeup(s: State)
  {
    (exists t :: Sleeps(s, t)) ==>
      LockState(s.word) == 2 || (exists t :: Wakes(s, t)) || (exists t :: InLockLoop(s, t))
  }

  ghost predicate Inv(s: State)
  {
    WordDecodes(s) && PcsFit(s) && NoLostWakeup(s)
  }

  // --- what one step does to the word ------------------------------------------------------------------

  ghost predicate Takes(w: bv32, mtype: bv32, t: Tid, w': bv32)
  {
    w == mtype && (w' == Taken(t, mtype, 1) || w' == Taken(t, mtype, 2))
  }

  ghost predicate Enters(w: bv32, mtype: bv32, t: Tid, w': bv32)
  {
    OwnedBy(w, t) && !WillOverflow(w) && !IsErrorCheck(mtype) && w' == w + 4
  }

  ghost predicate Leaves(w: bv32, t: Tid, w': bv32)
  {
    OwnedBy(w, t) && !CounterIsZero(w) && w' == w - 4
  }

  ghost predicate Frees(w: bv32, mtype: bv32, t: Tid, w': bv32)
  {
    OwnedBy(w, t) && CounterIsZero(w) && w' == mtype
  }

  ghost predicate Flips(w: bv32, w': bv32)
  {
    LockState(w) == 1 && w' == FlipContention(w)
  }

  lemma OneOwner(w: bv32, t: Tid, u: Tid)
    requires OwnedBy(w, t) && OwnedBy(w, u)
    ensures t == u
  {
    SameId(t.id, u.id);
  }

  lemma FreeSpellsNone(mtype: bv32, u: Tid)
    requires GoodType(mtype) && Live(u)
    ensures Spelled(mtype, u) == 0 && WordOk(mtype, mtype)
  {
  }

  lemma OuterLevelSpellsOne(w: bv32, t: Tid)
    requires OwnedBy(w, t) && CounterIsZero(w)
    ensures Spelled(w, t) == 1
  {
    CounterTests(w);
  }

  lemma TakeKeepsWordOk(w: bv32, mtype: bv32, t: Tid, w': bv32)
    requires WordOk(w, mtype) && Takes(w, mtype, t, w')
    ensures WordOk(w', mtype) && w' != mtype
  {
    FreshWord(t, mtype, 1);
    FreshWord(t, mtype, 2);
  }

  lemma TakeSpellsOne(w: bv32, mtype: bv32, t: Tid, w': bv32)
    requires WordOk(w, mtype) && Takes(w, mtype, t, w')
    ensures OwnedBy(w', t) && Spelled(w', t) == 1
  {
    FreshWord(t, mtype, 1);
    FreshWord(t, mtype, 2);
  }

  lemma EnterKeepsWordOk(w: bv32, mtype: bv32, t: Tid, w': bv32)
    requires Live(t) && WordOk(w, mtype) && Enters(w, mtype, t, w')
    ensures WordOk(w', mtype)
  {
    OwnedIsNotFree(w, mtype, t);
    IncrementStaysInField(w);
  }

  lemma EnterSpellsOneMore(w: bv32, mtype: bv32, t: Tid, w': bv32)
    requires Enters(w, mtype, t, w')
    ensures Spelled(w', t) == Spelled(w, t) + 1 && OwnerField(w') == OwnerField(w) && LockState(w') == LockState(w)
  {
    IncrementStaysInField(w);
  }

  lemma LeaveKeepsWordOk(w: bv32, mtype: bv32, t: Tid, w': bv32)
    requires Live(t) && WordOk(w, mtype) && Leaves(w, t, w')
    ensures WordOk(w', mtype)
  {
    OwnedIsNotFree(w, mtype, t);
    DecrementStaysInField(w);
  }

  lemma LeaveSpellsOneLess(w: bv32, t: Tid, w': bv32)
    requires Leaves(w, t, w')
    ensures Spelled(w, t) == Spelled(w', t) + 1 && OwnerField(w') == OwnerField(w) && LockState(w') == LockState(w)
  {
    DecrementStaysInField(w);
  }

  lemma FlipKeepsWordOk(w: bv32, mtype: bv32, w': bv32)
    requires WordOk(w, mtype) && Flips(w, w')
    ensures WordOk(w', mtype) && SameHold(w', w) && LockState(w') == 2
  {
    FlipChangesStateOnly(w);
  }

  lemma OwnedIsNotFree(w: bv32, mtype: bv32, t: Tid)
    requires GoodType(mtype) && OwnedBy(w, t) && Live(t)
    ensures w != mtype
  {
  }

  lemma LockedIsNotFree(w: bv32, mtype: bv32)
    requires GoodType(mtype) && LockState(w) != 0
    ensures w != mtype
  {
  }

  ghost predicate WordStep(w: bv32, mtype: bv32, t: Tid, w': bv32)
  {
    w' == w || Takes(w, mtype, t, w') || Enters(w, mtype, t, w') || Leaves(w, t, w') || Frees(w, mtype, t, w')
        || Flips(w, w')
  }

  lemma WordStepKeepsWordOk(w: bv32, mtype: bv32, t: Tid, w': bv32)
    requires Live(t) && WordOk(w, mtype) && WordStep(w, mtype, t, w')
    ensures WordOk(w', mtype)
  {
    if w' == w {
    } else if Takes(w, mtype, t, w') {
      TakeKeepsWordOk(w, mtype, t, w');
    } else if Enters(w, mtype, t, w') {
      EnterKeepsWordOk(w, mtype, t, w');
    } else if Leaves(w, t, w') {
      LeaveKeepsWordOk(w, mtype, t, w');
    } else if Frees(w, mtype, t, w') {
      FreeSpellsNone(mtype, t);
    } else {
      FlipKeepsWordOk(w, mtype, w');
    }
  }

  /** A step of one thread leaves what the word says of every other thread as it was. */
  lemma WordStepOfOther(w: bv32, mtype: bv32, t: Tid, u: Tid, w': bv32)
    requires WordOk(w, mtype) && WordStep(w, mtype, t, w') && u != t && Live(t) && Live(u)
    ensures OwnedBy(w', u) == OwnedBy(w, u) && (OwnedBy(w, u) ==> SameHold(w', w))
  {
    if w' == w {
    } else if Flips(w, w') {
      FlipKeepsWordOk(w, mtype, w');
    } else if Takes(w, mtype, t, w') {
      FreeSpellsNone(mtype, u);
      TakeSpellsOne(w, mtype, t, w');
      NotOwnedBy(w', t, u);
    } else if Frees(w, mtype, t, w') {
      FreeSpellsNone(mtype, u);
      NotOwnedBy(w, t, u);
    } else if Enters(w, mtype, t, w') {
      EnterSpellsOneMore(w, mtype, t, w');
      NotOwnedBy(w, t, u);
    } else {
      LeaveSpellsOneLess(w, t, w');
      NotOwnedBy(w, t, u);
    }
  }

  lemma NotOwnedBy(w: bv32, t: Tid, u: Tid)
    requires OwnedBy(w, t) && t != u
    ensures !OwnedBy(w, u)
  {
    if OwnedBy(w, u) {
      OneOwner(w, t, u);
    }
  }

  lemma StepTouchesOnly(s: State, t: Tid, a: Action, s': State)
    requires Domains(s) && Step(s, t, a, s')
    ensures TouchesOnly(s, t, s')
  {
  }

  lemma AttemptOnHeld(w: bv32, mtype: bv32, t: Tid, pc: Pc, depth: bv32)
    requires (pc.IncCas? || pc.DecCas?) && PcFits(w, mtype, t, pc) && pc.mv == w
    ensures WordStep(w, mtype, t, AttemptOf(pc, t, mtype, depth).next)
  {
    if pc.IncCas? {
      assert Enters(w, mtype, t, pc.mv + 4);
    } else {
      assert Leaves(w, t, pc.mv - 4);
    }
  }

  lemma AttemptOnFree(w: bv32, mtype: bv32, t: Tid, pc: Pc, depth: bv32)
    requires (pc.TryCas? || pc.FastCas? || pc.SlowCas?) && w == mtype
    ensures WordStep(w, mtype, t, AttemptOf(pc, t, mtype, depth).next)
  {
    assert Takes(w, mtype, t, AttemptOf(pc, t, mtype, depth).next);
  }

  lemma AttemptToFlip(w: bv32, mtype: bv32, t: Tid, pc: Pc, depth: bv32)
    requires pc.FlipCas? && PcFits(w, mtype, t, pc) && pc.mv == w
    ensures WordStep(w, mtype, t, AttemptOf(pc, t, mtype, depth).next)
  {
    assert Flips(w, FlipContention(pc.mv));
  }

  /** A compare-and-swap that succeeds from a place that fits the word is one of the changes above. */
  lemma AttemptChangesWord(w: bv32, mtype: bv32, t: Tid, pc: Pc, depth: bv32)
    requires AtCas(pc) && PcFits(w, mtype, t, pc) && AttemptOf(pc, t, mtype, depth).expected == w
    ensures WordStep(w, mtype, t, AttemptOf(pc, t, mtype, depth).next)
  {
    if pc.IncCas? || pc.DecCas? {
      AttemptOnHeld(w, mtype, t, pc, depth);
    } else if pc.FlipCas? {
      AttemptToFlip(w, mtype, t, pc, depth);
    } else {
      AttemptOnFree(w, mtype, t, pc, depth);
    }
  }

  /** The step of a thread whose place fits the word is one of five changes of the word, or none. */
  lemma StepChangesWord(s: State, t: Tid, a: Action, s': State)
    requires WordDecodes(s) && Step(s, t, a, s') && PcFits(s.word, s.mtype, t, s.pc[t])
    ensures WordStep(s.word, s.mtype, t, s'.word)
  {
    if a.Cas? {
      if s.word == AttemptOf(s.pc[t], t, s.mtype, s.depth[t]).expected {
        AttemptChangesWord(s.word, s.mtype, t, s.pc[t], s.depth[t]);
      }
    }
  }

  // --- depths -------------------------------------------------------------------------------------------

  ghost predicate SpellsDepth(c: Attempt, t: Tid) { c.depth == Spelled(c.next, t) }

  lemma EnterAttemptSpells(w: bv32, mtype: bv32, t: Tid, pc: Pc)
    requires pc.IncCas? && PcFits(w, mtype, t, pc) && pc.mv == w
    ensures SpellsDepth(AttemptOf(pc, t, mtype, Spelled(w, t)), t)
  {
    EnterSpellsOneMore(w, mtype, t, w + 4);
  }

  lemma LeaveAttemptSpells(w: bv32, mtype: bv32, t: Tid, pc: Pc)
    requires pc.DecCas? && PcFits(w, mtype, t, pc) && pc.mv == w
    ensures SpellsDepth(AttemptOf(pc, t, mtype, Spelled(w, t)), t)
  {
    LeaveSpellsOneLess(w, t, w - 4);
  }

  lemma FlipAttemptSpells(w: bv32, mtype: bv32, t: Tid, pc: Pc)
    requires WordOk(w, mtype) && pc.FlipCas? && PcFits(w, mtype, t, pc) && pc.mv == w
    ensures SpellsDepth(AttemptOf(pc, t, mtype, Spelled(w, t)), t)
  {
    FlipKeepsWordOk(w, mtype, FlipContention(w));
  }

  lemma TakeAttemptSpells(mtype: bv32, t: Tid, pc: Pc)
    requires Live(t) && GoodType(mtype) && (pc.TryCas? || pc.FastCas? || pc.SlowCas?)
    ensures SpellsDepth(AttemptOf(pc, t, mtype, Spelled(mtype, t)), t)
  {
    FreeSpellsNone(mtype, t);
    TakeSpellsOne(mtype, mtype, t, AttemptOf(pc, t, mtype, Spelled(mtype, t)).next);
  }

  lemma AttemptSpells(w: bv32, mtype: bv32, t: Tid, pc: Pc, depth: bv32)
    requires Live(t) && WordOk(w, mtype) && AtCas(pc) && PcFits(w, mtype, t, pc)
    requires depth == Spelled(w, t) && AttemptOf(pc, t, mtype, depth).expected == w
    ensures SpellsDepth(AttemptOf(pc, t, mtype, depth), t)
  {
    if pc.IncCas? {
      EnterAttemptSpells(w, mtype, t, pc);
    } else if pc.DecCas? {
      LeaveAttemptSpells(w, mtype, t, pc);
    } else if pc.FlipCas? {
      FlipAttemptSpells(w, mtype, t, pc);
    } else {
      TakeAttemptSpells(mtype, t, pc);
    }
  }

  lemma CasKeepsActorDepth(s: State, t: Tid, s': State)
    requires WordDecodes(s) && Step(s, t, Cas, s') && PcFits(s.word, s.mtype, t, s.pc[t])
    ensures t in s'.depth && s'.depth[t] == Spelled(s'.word, t)
  {
    if s.word == AttemptOf(s.pc[t], t, s.mtype, s.depth[t]).expected {
      AttemptSpells(s.word, s.mtype, t, s.pc[t], s.depth[t]);
    }
  }

  lemma OtherStepsKeepWord(s: State, t: Tid, a: Action, s': State)
    requires Step(s, t, a, s') && !a.Cas? && !a.Swap?
    ensures s'.word == s.word && s'.depth == s.depth
  {
  }

  lemma StepKeepsActorDepth(s: State, t: Tid, a: Action, s': State)
    requires WordDecodes(s) && Step(s, t, a, s') && PcFits(s.word, s.mtype, t, s.pc[t])
    ensures t in s'.depth && s'.depth[t] == Spelled(s'.word, t)
  {
    if a.Swap? {
      FreeSpellsNone(s.mtype, t);
    } else if a.Cas? {
      CasKeepsActorDepth(s, t, s');
    } else {
      OtherStepsKeepWord(s, t, a, s');
    }
  }

  lemma WordStepKeepsOwner(w: bv32, mtype: bv32, t: Tid, w': bv32)
    requires WordOk(w, mtype) && WordStep(w, mtype, t, w') && w' != mtype && w' != w
    ensures OwnedBy(w', t) || (w != mtype && OwnerField(w') == OwnerField(w))
  {
    if Takes(w, mtype, t, w') {
      TakeSpellsOne(w, mtype, t, w');
    } else if Enters(w, mtype, t, w') {
      EnterSpellsOneMore(w, mtype, t, w');
    } else if Leaves(w, t, w') {
      LeaveSpellsOneLess(w, t, w');
    } else {
      LockedIsNotFree(w, mtype);
      FlipKeepsWordOk(w, mtype, w');
    }
  }

  lemma StepKeepsOwnerKnown(s: State, t: Tid, a: Action, s': State)
    requires WordDecodes(s) && Step(s, t, a, s') && PcFits(s.word, s.mtype, t, s.pc[t]) && s'.word != s.mtype
    ensures exists u :: u in s'.depth && OwnedBy(s'.word, u)
  {
    StepTouchesOnly(s, t, a, s');
    StepChangesWord(s, t, a, s');
    if s'.word != s.word {
      WordStepKeepsOwner(s.word, s.mtype, t, s'.word);
    }
    if OwnedBy(s'.word, t) {
      assert t in s'.depth;
    } else {
      var u :| u in s.depth && OwnedBy(s.word, u);
      assert u in s'.depth && OwnedBy(s'.word, u);
    }
  }

  /** Every step keeps the word the exact account of who holds the lock and how deep. */
  lemma StepKeepsDecoding(s: State, t: Tid, a: Action, s': State)
    requires WordDecodes(s) && Step(s, t, a, s') && PcFits(s.word, s.mtype, t, s.pc[t])
    ensures WordDecodes(s')
  {
    StepTouchesOnly(s, t, a, s');
    StepChangesWord(s, t, a, s');
    WordStepKeepsWordOk(s.word, s.mtype, t, s'.word);
    StepKeepsActorDepth(s, t, a, s');
    forall u | u in s'.depth
      ensures s'.depth[u] == Spelled(s'.word, u)
    {
      if u != t {
        WordStepOfOther(s.word, s.mtype, t, u, s'.word);
      }
    }
    if s'.word != s'.mtype {
      StepKeepsOwnerKnown(s, t, a, s');
    }
  }

  // --- places -------------------------------------------------------------------------------------------

  lemma FitsAfterOther(w: bv32, mtype: bv32, t: Tid, u: Tid, w': bv32, pc: Pc)
    requires WordOk(w, mtype) && WordStep(w, mtype, t, w') && u != t && Live(t) && Live(u)
    requires PcFits(w, mtype, u, pc)
    ensures PcFits(w', mtype, u, pc)
  {
    WordStepOfOther(w, mtype, t, u, w');
    if OwnedBy(w, u) {
      SameHoldTests(w', w);
    }
  }

  lemma TypeOfWord(w: bv32, mtype: bv32)
    requires TypeBits(w) == mtype
    ensures w & 0xc000 == mtype & 0xc000
  {
  }

  lemma ReenterFits(w: bv32, mtype: bv32, t: Tid)
    requires WordOk(w, mtype) && OwnedBy(w, t)
    ensures PcFits(w, mtype, t, Reenter(w))
  {
    TypeOfWord(w, mtype);
  }

  lemma LockEntryFits(w: bv32, mtype: bv32, t: Tid)
    requires WordOk(w, mtype)
    ensures PcFits(w, mtype, t, LockEntry(t, w))
  {
    if OwnedBy(w, t) {
      ReenterFits(w, mtype, t);
    } else {
      ReloadFits(w, mtype, t);
    }
  }

  lemma TryEntryFits(w: bv32, mtype: bv32, t: Tid)
    requires WordOk(w, mtype)
    ensures PcFits(w, mtype, t, TryEntry(t, w))
  {
    if OwnedBy(w, t) {
      ReenterFits(w, mtype, t);
    }
  }

  lemma UnlockEntryFits(w: bv32, mtype: bv32, t: Tid)
    ensures PcFits(w, mtype, t, UnlockEntry(t, w))
  {
  }

  lemma ReloadFits(w: bv32, mtype: bv32, t: Tid)
    requires WordOk(w, mtype)
    ensures PcFits(w, mtype, t, Decide(w, mtype))
  {
  }

  lemma LostFits(w: bv32, mtype: bv32, t: Tid, pc: Pc, depth: bv32)
    requires AtCas(pc) && PcFits(w, mtype, t, pc)
    ensures PcFits(w, mtype, t, AttemptOf(pc, t, mtype, depth).lost)
  {
    if pc.IncCas? || pc.DecCas? {
      SameHoldTests(pc.mv, w);
    }
  }

  lemma WonFits(w: bv32, mtype: bv32, t: Tid, pc: Pc, depth: bv32, w': bv32)
    requires AtCas(pc) && PcFits(w, mtype, t, pc)
    ensures PcFits(w', mtype, t, AttemptOf(pc, t, mtype, depth).won)
  {
    if pc.FlipCas? {
      FlipChangesStateOnly(pc.mv);
    }
  }

  lemma CasKeepsActorPlace(s: State, t: Tid, s': State)
    requires WordDecodes(s) && Step(s, t, Cas, s') && PcFits(s.word, s.mtype, t, s.pc[t])
    ensures t in s'.pc && PcFits(s'.word, s'.mtype, t, s'.pc[t])
  {
    if s.word == AttemptOf(s.pc[t], t, s.mtype, s.depth[t]).expected {
      WonFits(s.word, s.mtype, t, s.pc[t], s.depth[t], s'.word);
    } else {
      LostFits(s.word, s.mtype, t, s.pc[t], s.depth[t]);
    }
  }

  lemma CallKeepsActorPlace(s: State, t: Tid, a: Action, s': State)
    requires WordDecodes(s) && Step(s, t, a, s') && (a.LockCall? || a.TryCall? || a.UnlockCall?)
    ensures t in s'.pc && PcFits(s'.word, s'.mtype, t, s'.pc[t])
  {
    LockEntryFits(s.word, s.mtype, t);
    TryEntryFits(s.word, s.mtype, t);
    UnlockEntryFits(s.word, s.mtype, t);
  }

  lemma LoadedFits(w: bv32, mtype: bv32, t: Tid, pc: Pc)
    requires WordOk(w, mtype) && AtLoad(pc) && PcFits(w, mtype, t, pc)
    ensures PcFits(w, mtype, t, Loaded(pc, w, mtype))
  {
    if pc.Reload? {
      ReloadFits(w, mtype, t);
    }
  }

  lemma LoadKeepsActorPlace(s: State, t: Tid, s': State)
    requires WordDecodes(s) && Step(s, t, Load, s') && PcFits(s.word, s.mtype, t, s.pc[t])
    ensures t in s'.pc && PcFits(s'.word, s'.mtype, t, s'.pc[t])
  {
    LoadedFits(s.word, s.mtype, t, s.pc[t]);
  }

  lemma StepKeepsActorPlace(s: State, t: Tid, a: Action, s': State)
    requires WordDecodes(s) && Step(s, t, a, s') && PcFits(s.word, s.mtype, t, s.pc[t])
    ensures t in s'.pc && PcFits(s'.word, s'.mtype, t, s'.pc[t])
  {
    if a.Cas? {
      CasKeepsActorPlace(s, t, s');
    } else if a.Load? {
      LoadKeepsActorPlace(s, t, s');
    } else if a.LockCall? || a.TryCall? || a.UnlockCall? {
      CallKeepsActorPlace(s, t, a, s');
    } else {
      RestEndsUnbound(s, t, a, s');
      UnboundFits(s'.word, s'.mtype, t, s'.pc[t]);
    }
  }

  /** Places that say nothing about the word. */
  predicate Unbound(pc: Pc) { pc.Asleep? || pc.Reload? || pc.Idle? || pc.Waking? }

  lemma RestEndsUnbound(s: State, t: Tid, a: Action, s': State)
    requires Step(s, t, a, s') && !a.Cas? && !a.Load? && !a.LockCall? && !a.TryCall? && !a.UnlockCall?
    ensures t in s'.pc && Unbound(s'.pc[t])
  {
  }

  lemma UnboundFits(w: bv32, mtype: bv32, t: Tid, pc: Pc)
    requires Unbound(pc)
    ensures PcFits(w, mtype, t, pc)
  {
  }

  lemma StepKeepsPlaces(s: State, t: Tid, a: Action, s': State)
    requires WordDecodes(s) && PcsFit(s) && Step(s, t, a, s')
    ensures PcsFit(s')
  {
    StepTouchesOnly(s, t, a, s');
    StepChangesWord(s, t, a, s');
    StepKeepsActorPlace(s, t, a, s');
    forall u | u in s'.pc
      ensures PcFits(s'.word, s'.mtype, u, s'.pc[u])
    {
      if u != t && s'.pc[u] == s.pc[u] {
        FitsAfterOther(s.word, s.mtype, t, u, s'.word, s.pc[u]);
      }
    }
  }

  // --- wakeups ------------------------------------------------------------------------------------------

  lemma AttemptKeepsContended(w: bv32, mtype: bv32, t: Tid, pc: Pc, depth: bv32)
    requires WordOk(w, mtype) && AtCas(pc) && PcFits(w, mtype, t, pc) && LockState(w) == 2
    requires AttemptOf(pc, t, mtype, depth).expected == w
    ensures LockState(AttemptOf(pc, t, mtype, depth).next) == 2
  {
    if pc.IncCas? {
      EnterSpellsOneMore(w, mtype, t, w + 4);
    } else if pc.DecCas? {
      LeaveSpellsOneLess(w, t, w - 4);
    } else {
      FreeWord(mtype);
    }
  }

  lemma StepKeepsContended(s: State, t: Tid, a: Action, s': State)
    requires WordDecodes(s) && PcsFit(s) && Step(s, t, a, s') && LockState(s.word) == 2
    ensures LockState(s'.word) == 2 || Wakes(s', t)
  {
    if a.Cas? {
      if s.word == AttemptOf(s.pc[t], t, s.mtype, s.depth[t]).expected {
        AttemptKeepsContended(s.word, s.mtype, t, s.pc[t], s.depth[t]);
      }
    } else if !a.Swap? {
      OtherStepsKeepWord(s, t, a, s');
    }
  }

  lemma SlowCasContends(s: State, t: Tid, s': State)
    requires GoodType(s.mtype) && t in s.pc && s.pc[t].SlowCas? && Step(s, t, Cas, s')
    ensures InLockLoop(s', t) || LockState(s'.word) == 2
  {
    FreshWord(t, s.mtype, 2);
  }

  lemma LoopStep(s: State, t: Tid, a: Action, s': State)
    requires WordDecodes(s) && PcsFit(s) && InLockLoop(s, t) && Step(s, t, a, s')
    ensures InLockLoop(s', t) || LockState(s'.word) == 2
  {
    if s.pc[t].SlowCas? {
      SlowCasContends(s, t, s');
    } else if s.pc[t].Wait? {
      WaitContends(s, t, a, s');
    } else {
      LoadLoops(s, t, a, s');
    }
  }

  lemma WaitContends(s: State, t: Tid, a: Action, s': State)
    requires WordDecodes(s) && PcsFit(s) && t in s.pc && s.pc[t].Wait? && InLockLoop(s, t) && Step(s, t, a, s')
    ensures InLockLoop(s', t) || LockState(s'.word) == 2
  {
  }

  lemma LoadLoops(s: State, t: Tid, a: Action, s': State)
    requires t in s.pc && (s.pc[t].Reload? || s.pc[t].FlipCas?) && Step(s, t, a, s')
    ensures InLockLoop(s', t)
  {
    assert if s.pc[t].Reload? then a.Load? else a.Cas?;
  }

  lemma OnlyWakeMovesOthers(s: State, t: Tid, a: Action, s': State)
    requires Step(s, t, a, s') && !a.WakeOne?
    ensures OthersStay(s, t, s')
  {
  }

  /** A step changes the place of its own thread and, when it wakes somebody, of one sleeper. */
  lemma OtherStaysOrWakes(s: State, t: Tid, a: Action, s': State, u: Tid)
    requires Step(s, t, a, s') && u != t && u in s.pc
    ensures u in s'.pc && (s'.pc[u] == s.pc[u] || (s.pc[u].Asleep? && s'.pc[u].Reload?))
  {
    if !a.WakeOne? {
      OnlyWakeMovesOthers(s, t, a, s');
    }
  }

  lemma NewSleeper(s: State, t: Tid, a: Action, s': State)
    requires WordDecodes(s) && PcsFit(s) && Step(s, t, a, s') && Sleeps(s', t)
    ensures LockState(s'.word) == 2
  {
    OnlyWaitSleeps(s, t, a, s');
  }

  lemma OnlyWaitSleeps(s: State, t: Tid, a: Action, s': State)
    requires Step(s, t, a, s') && Sleeps(s', t)
    ensures a.FutexWait?
  {
  }

  lemma StepKeepsWakeups(s: State, t: Tid, a: Action, s': State)
    requires Inv(s) && Step(s, t, a, s')
    ensures NoLostWakeup(s')
  {
    StepTouchesOnly(s, t, a, s');
    if v :| Sleeps(s', v) {
      if v == t {
        NewSleeper(s, t, a, s');
      } else {
        OtherStaysOrWakes(s, t, a, s', v);
        assert Sleeps(s, v);
        if LockState(s.word) == 2 {
          StepKeepsContended(s, t, a, s');
        } else if u :| Wakes(s, u) {
          StillWaking(s, t, a, s', u, v);
        } else {
          var u :| InLockLoop(s, u);
          if u == t {
            LoopStep(s, t, a, s');
          } else {
            OtherStaysOrWakes(s, t, a, s', u);
            assert InLockLoop(s', u);
          }
        }
      }
    }
  }

  lemma StillWaking(s: State, t: Tid, a: Action, s': State, u: Tid, v: Tid)
    requires Step(s, t, a, s') && Wakes(s, u) && Sleeps(s, v)
    ensures (exists x :: Wakes(s', x)) || (exists x :: InLockLoop(s', x))
  {
    if u != t {
      OtherStaysOrWakes(s, t, a, s', u);
      assert Wakes(s', u);
    } else if a.WakeOne? {
      assert InLockLoop(s', a.sleeper);
    }
  }

  // --- runs -----------------------------------------------------------------------------------------------

  lemma InitInv(s: State)
    requires Init(s)
    ensures Inv(s)
  {
    forall t | t in s.depth
      ensures s.depth[t] == Spelled(s.word, t)
    {
      FreeSpellsNone(s.mtype, t);
    }
    WordOfInit(s.mtype);
  }

  lemma WordOfInit(mtype: bv32)
    requires GoodType(mtype)
    ensures WordOk(mtype, mtype)
  {
    FreeWord(mtype);
  }

  /** Every step of every thread keeps the invariant. */
  lemma NextKeepsInv(s: State, s': State)
    requires Inv(s) && Next(s, s')
    ensures Inv(s') && s'.mtype == s.mtype
  {
    var t: Tid, a :| Step(s, t, a, s');
    StepTouchesOnly(s, t, a, s');
    StepKeepsDecoding(s, t, a, s');
    StepKeepsPlaces(s, t, a, s');
    StepKeepsWakeups(s, t, a, s');
  }

  ghost predicate IsRun(run: seq<State>)
  {
    |run| > 0 && Init(run[0]) && forall i :: 0 <= i < |run| - 1 ==> Next(run[i], run[i + 1])
  }

  /** In every state of every interleaving the word decodes to the one holder and its depth, keeps its type and shared
      bits, and no sleeper is stranded. */
  lemma {:induction false} RunsSafe(run: seq<State>, i: nat)
    requires IsRun(run) && i < |run|
    ensures Inv(run[i]) && run[i].mtype == run[0].mtype
  {
    if i == 0 {
      InitInv(run[0]);
    } else {
      RunsSafe(run, i - 1);
      assert Next(run[i - 1], run[i - 1 + 1]);
      NextKeepsInv(run[i - 1], run[i]);
    }
  }

  // --- what the threads see -----------------------------------------------------------------------------

  lemma SpelledZero(w: bv32, t: Tid)
    ensures Spelled(w, t) == 0 <==> !OwnedBy(w, t)
    ensures Spelled(w, t) == 0x800 <==> OwnedBy(w, t) && WillOverflow(w)
    ensures Spelled(w, t) <= 0x800
  {
    CounterTests(w);
  }

  /** One holder at most; the word is free exactly when every depth is 0; no depth passes 2048, nor 1 on errorcheck. */
  lemma HolderIsUnique(s: State, t: Tid, u: Tid)
    requires Inv(s) && t in s.depth && u in s.depth && s.depth[t] != 0 && s.depth[u] != 0
    ensures t == u && s.depth[t] <= 0x800 && (IsErrorCheck(s.mtype) ==> s.depth[t] == 1) && s.word != s.mtype
  {
    SpelledZero(s.word, t);
    SpelledZero(s.word, u);
    OneOwner(s.word, t, u);
    OwnedIsNotFree(s.word, s.mtype, t);
  }

  lemma FreeIffAllZero(s: State)
    requires Inv(s)
    ensures s.word == s.mtype <==> forall t :: t in s.depth ==> s.depth[t] == 0
  {
    if s.word == s.mtype {
      forall t | t in s.depth
        ensures s.depth[t] == 0
      {
        FreeSpellsNone(s.mtype, t);
      }
    } else {
      var t :| t in s.depth && OwnedBy(s.word, t);
      SpelledZero(s.word, t);
    }
  }

  /** What the first load of a call decides: a re-entering lock or trylock is refused exactly by an errorcheck mutex, or
      at depth 2048; unlock is refused exactly to a thread of depth 0. */
  lemma CallsTell(s: State, t: Tid, a: Action, s': State)
    requires Inv(s) && Step(s, t, a, s')
    ensures a.LockCall? || a.TryCall? ==>
      && (s'.pc[t] == Idle(EDEADLK) <==> IsErrorCheck(s.mtype) && s.depth[t] != 0)
      && (s'.pc[t] == Idle(EAGAIN) <==> !IsErrorCheck(s.mtype) && s.depth[t] == 0x800)
    ensures a.UnlockCall? ==> (s'.pc[t] == Idle(EPERM) <==> s.depth[t] == 0)
  {
    if a.LockCall? {
      LockTells(s, t, s');
    } else if a.TryCall? {
      TryTells(s, t, s');
    } else if a.UnlockCall? {
      UnlockTells(s, t, s');
    }
  }

  lemma LockTells(s: State, t: Tid, s': State)
    requires Inv(s) && Step(s, t, LockCall, s')
    ensures s'.pc[t] == Idle(EDEADLK) <==> IsErrorCheck(s.mtype) && s.depth[t] != 0
    ensures s'.pc[t] == Idle(EAGAIN) <==> !IsErrorCheck(s.mtype) && s.depth[t] == 0x800
  {
    SpelledZero(s.word, t);
    TypeOfWord(s.word, s.mtype);
  }

  lemma TryTells(s: State, t: Tid, s': State)
    requires Inv(s) && Step(s, t, TryCall, s')
    ensures s'.pc[t] == Idle(EDEADLK) <==> IsErrorCheck(s.mtype) && s.depth[t] != 0
    ensures s'.pc[t] == Idle(EAGAIN) <==> !IsErrorCheck(s.mtype) && s.depth[t] == 0x800
  {
    SpelledZero(s.word, t);
    TypeOfWord(s.word, s.mtype);
  }

  lemma UnlockTells(s: State, t: Tid, s': State)
    requires Inv(s) && Step(s, t, UnlockCall, s')
    ensures s'.pc[t] == Idle(EPERM) <==> s.depth[t] == 0
  {
    SpelledZero(s.word, t);
    TypeOfWord(s.word, s.mtype);
  }

  /** trylock reports EBUSY only while some other thread holds the lock. */
  lemma BusyMeansHeld(s: State, t: Tid, s': State)
    requires Inv(s) && s.pc.Keys == s.depth.Keys && Step(s, t, Cas, s') && s.pc[t] == TryCas && s'.pc[t] == Idle(EBUSY)
    ensures exists u :: u in s.depth && s.depth[u] != 0
  {
    assert s.word != s.mtype;
    FreeIffAllZero(s);
  }

  // --- refinement of a reentrant lock ---------------------------------------------------------------------

  ghost predicate OneApart(a: bv32, b: bv32) { a as nat == b as nat + 1 || b as nat == a as nat + 1 }

  /** What an ideal reentrant lock may do: nothing, or one level in or out by a thread while all others are out. */
  ghost predicate ReentrantStep(d: map<Tid, bv32>, d': map<Tid, bv32>, t: Tid)
  {
    d.Keys == d'.Keys &&
    (d' == d ||
     (&& t in d
      && (forall u :: u in d && u != t ==> d[u] == 0 && d'[u] == 0)
      && OneApart(d'[t], d[t])))
  }

  lemma SwapLeavesLastLevel(s: State, t: Tid, s': State)
    requires Inv(s) && Step(s, t, Swap, s')
    ensures s.depth[t] == 1 && s'.depth[t] == 0
  {
    OuterLevelSpellsOne(s.word, t);
  }

  ghost predicate NextTo(a: bv32, b: bv32) { a <= 0x800 && b <= 0x800 && (a == b + 1 || b == a + 1) }

  ghost predicate ByOne(a: bv32, b: bv32) { a == b || a == b + 1 || b == a + 1 }

  lemma AttemptMovesByOne(pc: Pc, t: Tid, mtype: bv32, depth: bv32)
    requires AtCas(pc)
    ensures ByOne(AttemptOf(pc, t, mtype, depth).depth, depth)
  {
  }

  lemma CasMovesByOne(s: State, t: Tid, s': State)
    requires Step(s, t, Cas, s')
    ensures t in s'.depth && ByOne(s'.depth[t], s.depth[t])
  {
    AttemptMovesByOne(s.pc[t], t, s.mtype, s.depth[t]);
  }

  lemma DepthMovesByOne(s: State, t: Tid, a: Action, s': State)
    requires Inv(s) && Inv(s') && Step(s, t, a, s') && s'.depth[t] != s.depth[t]
    ensures NextTo(s'.depth[t], s.depth[t])
  {
    DepthBounded(s, t);
    DepthBounded(s', t);
    if a.Swap? {
      SwapLeavesLastLevel(s, t, s');
    } else if a.Cas? {
      CasMovesByOne(s, t, s');
    } else {
      OtherStepsKeepWord(s, t, a, s');
    }
  }

  lemma CountMove(a: bv32, b: bv32)
    requires NextTo(a, b)
    ensures OneApart(a, b)
  {
    if a == b + 1 {
      CountStep(a, b);
    } else {
      CountStep(b, a);
    }
  }

  lemma DepthBounded(s: State, t: Tid)
    requires WordDecodes(s) && t in s.depth
    ensures s.depth[t] <= 0x800
  {
    SpelledZero(s.word, t);
  }

  lemma OthersOut(s: State, t: Tid, u: Tid)
    requires Inv(s) && t in s.depth && u in s.depth && u != t && s.depth[t] != 0
    ensures s.depth[u] == 0
  {
    if s.depth[u] != 0 {
      HolderIsUnique(s, t, u);
    }
  }

  lemma MoverIsAlone(s: State, t: Tid, a: Action, s': State, u: Tid)
    requires Inv(s) && Inv(s') && Step(s, t, a, s') && s'.depth[t] != s.depth[t] && u in s.depth && u != t
    ensures u in s'.depth && s.depth[u] == 0 && s'.depth[u] == 0
  {
    StepTouchesOnly(s, t, a, s');
    if s.depth[t] != 0 {
      OthersOut(s, t, u);
    } else {
      OthersOut(s', t, u);
    }
  }

  lemma DepthMovesByOneLevel(s: State, t: Tid, a: Action, s': State)
    requires Inv(s) && Inv(s') && Step(s, t, a, s') && s'.depth[t] != s.depth[t]
    ensures OneApart(s'.depth[t], s.depth[t])
  {
    DepthMovesByOne(s, t, a, s');
    CountMove(s'.depth[t], s.depth[t]);
  }

  lemma SameDepths(s: State, t: Tid, a: Action, s': State)
    requires Domains(s) && Step(s, t, a, s') && s'.depth[t] == s.depth[t]
    ensures s'.depth == s.depth
  {
    StepTouchesOnly(s, t, a, s');
  }

  /** Every step of the protocol is a step of the ideal reentrant lock. */
  lemma RefinesReentrantLock(s: State, t: Tid, a: Action, s': State)
    requires Inv(s) && Step(s, t, a, s')
    ensures ReentrantStep(s.depth, s'.depth, t)
  {
    StepTouchesOnly(s, t, a, s');
    assert Next(s, s');
    NextKeepsInv(s, s');
    if s'.depth[t] == s.depth[t] {
      SameDepths(s, t, a, s');
    } else {
      DepthMovesByOneLevel(s, t, a, s');
      forall u | u in s.depth && u != t
        ensures s.depth[u] == 0 && s'.depth[u] == 0
      {
        MoverIsAlone(s, t, a, s', u);
      }
    }
  }

  // --- nobody is stranded ---------------------------------------------------------------------------------

  /** Steps that a thread in the lock loop still needs to take a free lock. */
  ghost function Distance(pc: Pc): nat
  {
    if pc.SlowCas? then 1 else if pc.Reload? then 2 else 3
  }

  ghost predicate StepsOf(run: seq<State>)
  {
    forall i :: 0 <= i < |run| - 1 ==> Next(run[i], run[i + 1])
  }

  lemma LoopAdvances(s: State, u: Tid) returns (s': State)
    requires Inv(s) && s.word == s.mtype && InLockLoop(s, u)
    ensures Next(s, s') && u in s'.depth
    ensures s'.depth[u] != 0 || (s'.word == s'.mtype && InLockLoop(s', u) && Distance(s'.pc[u]) < Distance(s.pc[u]))
  {
    FreeWord(s.mtype);
    assert u in s.depth;
    if s.pc[u].SlowCas? {
      s' := CompareAndSwap(s, u, AttemptOf(SlowCas, u, s.mtype, s.depth[u]));
      assert Step(s, u, Cas, s');
      StepKeepsActorDepth(s, u, Cas, s');
      TakeSpellsOne(s.word, s.mtype, u, s'.word);
    } else if s.pc[u].Reload? {
      s' := At(s, u, SlowCas);
      assert Step(s, u, Load, s');
    } else if s.pc[u].Wait? {
      s' := At(s, u, Reload);
      assert Step(s, u, FutexWait, s');
    } else {
      s' := CompareAndSwap(s, u, AttemptOf(s.pc[u], u, s.mtype, s.depth[u]));
      assert Step(s, u, Cas, s');
    }
  }

  /** The run of at least two states from s by single steps that ends with u holding the lock. */
  ghost predicate RunTakes(s: State, u: Tid, run: seq<State>)
  {
    1 < |run| && run[0] == s && StepsOf(run) && Holds(run[|run| - 1], u)
  }

  ghost predicate Holds(s: State, u: Tid) { u in s.depth && s.depth[u] != 0 }

  lemma ConsRun(s: State, u: Tid, s': State, rest: seq<State>)
    requires Next(s, s') && RunTakes(s', u, rest)
    ensures RunTakes(s, u, [s] + rest)
  {
  }

  lemma PairRun(s: State, u: Tid, s': State)
    requires Next(s, s') && Holds(s', u)
    ensures RunTakes(s, u, [s, s'])
  {
  }

  /** A thread in the lock loop takes a free lock by its own steps. */
  lemma {:induction false} LooperTakes(s: State, u: Tid) returns (run: seq<State>)
    requires Inv(s) && s.word == s.mtype && InLockLoop(s, u)
    ensures RunTakes(s, u, run) && |run| <= Distance(s.pc[u]) + 1
    decreases Distance(s.pc[u])
  {
    var s' := LoopAdvances(s, u);
    if Holds(s', u) {
      PairRun(s, u, s');
      run := [s, s'];
    } else {
      NextKeepsInv(s, s');
      var rest := LooperTakes(s', u);
      ConsRun(s, u, s', rest);
      run := [s] + rest;
    }
  }

  lemma WakeStep(s: State, w: Tid, u: Tid) returns (s': State)
    requires Inv(s) && s.word == s.mtype && Wakes(s, w) && Sleeps(s, u)
    ensures Next(s, s') && Inv(s') && s'.word == s'.mtype && InLockLoop(s', u)
  {
    s' := At(At(s, w, Idle(Ok)), u, Reload);
    assert Step(s, w, WakeOne(u), s');
    NextKeepsInv(s, s');
  }

  /** Whenever the lock is free and a thread sleeps, at most four steps, enabled one after the other, end with some
      thread holding the lock: a pending wake, then steps of a thread that is awake. */
  lemma FreeLockIsTaken(s: State) returns (run: seq<State>, u: Tid)
    requires Inv(s) && s.word == s.mtype && exists v :: Sleeps(s, v)
    ensures RunTakes(s, u, run) && |run| <= 5
  {
    FreeWord(s.mtype);
    if w :| InLockLoop(s, w) {
      u := w;
      run := LooperTakes(s, u);
    } else {
      var w :| Wakes(s, w);
      u :| Sleeps(s, u);
      var s' := WakeStep(s, w, u);
      var rest := LooperTakes(s', u);
      ConsRun(s, u, s', rest);
      run := [s] + rest;
    }
  }
}
