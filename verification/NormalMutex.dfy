/** The normal (non-recursive) mutex as a protocol of atomic steps on one word, taken by any number of threads
    in any order. Only a holder unlocks; lock, timed lock and trylock may be called at any time. */
module NormalMutex {

  type Tid = nat

  /** Where a thread is in the code. `timed` says whether the call has a deadline. */
  datatype Pc =
    | Idle
    | Trying(timed: bool)    // about to compare-and-swap 0 to 1
    | Swapping(timed: bool)  // about to swap in 2
    | Waiting(timed: bool)   // saw a held lock; about to time out or to call futex wait
    | Asleep(timed: bool)    // in the futex queue
    | Holding
    | Storing                // unlocking: the decrement did not see 1; about to store 0
    | Waking                 // about to call futex wake

  /** The word, the process-shared bit it always carries, and the threads. */
  datatype State = State(word: bv32, shared: bv32, pc: map<Tid, Pc>)

  datatype Action =
    | Call(timed: bool)      // enter lock or timedlock
    | CompareAndSwap
    | TryLock
    | Swap
    | GiveUp                 // deadline passed
    | FutexWait
    | Interrupt              // spurious wakeup, signal or expired futex timeout
    | Decrement
    | Store
    | WakeOne(sleeper: Tid)
    | WakeNone

  function Unlocked(s: State): bv32 { s.shared | 0 }
  function Uncontended(s: State): bv32 { s.shared | 1 }
  function Contended(s: State): bv32 { s.shared | 2 }

  function At(s: State, t: Tid, pc: Pc): State { s.(pc := s.pc[t := pc]) }

  ghost predicate Sleeps(s: State, t: Tid) { t in s.pc && s.pc[t].Asleep? }

  /** One atomic step of thread `t`. */
  ghost predicate Step(s: State, t: Tid, a: Action, s': State)
  {
    t in s.pc &&
    match a
    case Call(timed) => s.pc[t].Idle? && s' == At(s, t, Trying(timed))
    case CompareAndSwap =>
      s.pc[t].Trying? &&
      s' == (if s.word == Unlocked(s) then At(s, t, Holding).(word := Uncontended(s))
          else At(s, t, Swapping(s.pc[t].timed)))
    case TryLock =>
      s.pc[t].Idle? &&
      s' == (if s.word == Unlocked(s) then At(s, t, Holding).(word := Uncontended(s)) else s)
    case Swap =>
      s.pc[t].Swapping? &&
      s' == At(s, t, if s.word == Unlocked(s) then Holding else Waiting(s.pc[t].timed)).(word := Contended(s))
    case GiveUp => s.pc[t].Waiting? && s.pc[t].timed && s' == At(s, t, Idle)
    case FutexWait =>
      s.pc[t].Waiting? &&
      s' == At(s, t, if s.word == Contended(s) then Asleep(s.pc[t].timed) else Swapping(s.pc[t].timed))
    case Interrupt => s.pc[t].Asleep? && s' == At(s, t, Swapping(s.pc[t].timed))
    case Decrement =>
      s.pc[t].Holding? &&
      s' == At(s, t, if s.word == Uncontended(s) then Idle else Storing).(word := s.word - 1)
    case Store => s.pc[t].Storing? && s' == At(s, t, Waking).(word := s.shared)
    case WakeOne(u) => s.pc[t].Waking? && Sleeps(s, u) && s' == At(At(s, t, Idle), u, Swapping(s.pc[u].timed))
    case WakeNone => s.pc[t].Waking? && (forall u :: !Sleeps(s, u)) && s' == At(s, t, Idle)
  }

  ghost predicate Next(s: State, s': State)
  {
    exists t: Tid, a :: Step(s, t, a, s')
  }

  /** pthread_mutex_init for the normal type: the shared bit and nothing else. */
  ghost predicate Init(s: State)
  {
    (s.shared == 0 || s.shared == 0x2000) && s.word == s.shared && forall t :: t in s.pc ==> s.pc[t].Idle?
  }

  // --- the invariant --------------------------------------------------------------------------------

  ghost predicate Owns(s: State, t: Tid) { t in s.pc && (s.pc[t].Holding? || s.pc[t].Storing?) }

  ghost predicate InUnlock(s: State, t: Tid) { t in s.pc && (s.pc[t].Storing? || s.pc[t].Waking?) }

  ghost predicate AboutToSwap(s: State, t: Tid) { t in s.pc && s.pc[t].Swapping? }

  ghost predicate MutualExclusion(s: State)
  {
    forall t, u :: Owns(s, t) && Owns(s, u) ==> t == u
  }

  /** The word carries the shared bit and one of the three states, and is 0 exactly when nobody owns the lock. */
  ghost predicate WordTellsOwner(s: State)
  {
    && (s.shared == 0 || s.shared == 0x2000)
    && (s.word == Unlocked(s) || s.word == Uncontended(s) || s.word == Contended(s))
    && (s.word == Unlocked(s) <==> forall t :: !Owns(s, t))
  }

  /** While a thread sleeps, the word is contended, or an unlocker has yet to wake somebody, or an awake thread is
      about to swap in the contended state. */
  ghost predicate NoLostWakeup(s: State)
  {
    (exists t :: Sleeps(s, t)) ==>
      s.word == Contended(s) || (exists t :: InUnlock(s, t)) || (exists t :: AboutToSwap(s, t))
  }

  ghost predicate Inv(s: State)
  {
    MutualExclusion(s) && WordTellsOwner(s) && NoLostWakeup(s)
  }

  lemma Words(s: State)
    requires s.shared == 0 || s.shared == 0x2000
    ensures Unlocked(s) == s.shared && Uncontended(s) == s.shared + 1 && Contended(s) == s.shared + 2
    ensures Unlocked(s) != Uncontended(s) && Unlocked(s) != Contended(s) && Uncontended(s) != Contended(s)
    ensures Uncontended(s) - 1 == Unlocked(s) && Contended(s) - 1 == Uncontended(s)
  {
  }

  lemma OwnersAfter(s: State, t: Tid, a: Action, s': State)
    requires Inv(s) && Step(s, t, a, s')
    ensures forall u :: u != t ==> (Owns(s', u) <==> Owns(s, u))
    ensures s'.shared == s.shared
  {
  }

  lemma StepKeepsOwner(s: State, t: Tid, a: Action, s': State)
    requires Inv(s) && Step(s, t, a, s')
    ensures MutualExclusion(s') && WordTellsOwner(s')
  {
    Words(s);
    OwnersAfter(s, t, a, s');
    if Owns(s, t) {
      assert forall u :: u != t ==> !Owns(s', u);
    }
    if s.word == Unlocked(s) {
      assert forall u :: !Owns(s, u);
    }
    if s'.word == Unlocked(s') {
      assert forall u :: !Owns(s', u);
    } else {
      SomeOwner(s, t, a, s');
    }
  }

  /** An owner's own step frees the word or leaves it an owner; a step on a free word that sets it makes an owner. */
  lemma ActorOwns(s: State, t: Tid, a: Action, s': State)
    requires Inv(s) && Step(s, t, a, s') && s'.word != Unlocked(s')
    requires Owns(s, t) || s.word == Unlocked(s)
    ensures Owns(s', t)
  {
    Words(s);
    if Owns(s, t) {
      assert a.Decrement? || a.Store?;
    } else {
      assert a.CompareAndSwap? || a.TryLock? || a.Swap?;
    }
  }

  lemma SomeOwner(s: State, t: Tid, a: Action, s': State)
    requires Inv(s) && Step(s, t, a, s') && s'.word != Unlocked(s')
    ensures exists u :: Owns(s', u)
  {
    if Owns(s, t) || s.word == Unlocked(s) {
      ActorOwns(s, t, a, s');
    } else {
      OwnersAfter(s, t, a, s');
      var u :| Owns(s, u);
      assert Owns(s', u);
    }
  }

  lemma StepKeepsWakeups(s: State, t: Tid, a: Action, s': State)
    requires Inv(s) && Step(s, t, a, s')
    ensures NoLostWakeup(s')
  {
    Words(s);
    if v :| Sleeps(s', v) {
      if !Sleeps(s, v) {
        assert s'.word == Contended(s');
      } else if s.word == Contended(s) {
        if s'.word != Contended(s') {
          assert InUnlock(s', t);
        }
      } else if u :| InUnlock(s, u) {
        if u != t {
          assert InUnlock(s', u);
        } else if a.Store? {
          assert InUnlock(s', t);
        } else {
          assert a.WakeOne?;
          assert AboutToSwap(s', a.sleeper);
        }
      } else {
        var u :| AboutToSwap(s, u);
        if u != t {
          assert AboutToSwap(s', u);
        } else {
          assert s'.word == Contended(s');
        }
      }
    }
  }

  lemma InitInv(s: State)
    requires Init(s)
    ensures Inv(s)
  {
    Words(s);
  }

  /** Every step of every thread keeps the invariant. */
  lemma NextKeepsInv(s: State, s': State)
    requires Inv(s) && Next(s, s')
    ensures Inv(s')
  {
    var t: Tid, a :| Step(s, t, a, s');
    StepKeepsOwner(s, t, a, s');
    StepKeepsWakeups(s, t, a, s');
  }

  // --- runs -----------------------------------------------------------------------------------------

  ghost predicate IsRun(run: seq<State>)
  {
    |run| > 0 && Init(run[0]) && forall i :: 0 <= i < |run| - 1 ==> Next(run[i], run[i + 1])
  }

  /** In every state of every interleaving: at most one owner, a truthful word, and no lost wakeup. */
  lemma {:induction false} RunsSafe(run: seq<State>, i: nat)
    requires IsRun(run) && i < |run|
    ensures Inv(run[i])
  {
    if i == 0 {
      InitInv(run[0]);
    } else {
      RunsSafe(run, i - 1);
      assert Next(run[i - 1], run[i - 1 + 1]);
      NextKeepsInv(run[i - 1], run[i]);
    }
  }

  // --- refinement of an abstract lock ----------------------------------------------------------------

  ghost function Owners(s: State): set<Tid> { set t | t in s.pc && Owns(s, t) }

  /** What an ideal lock may do: nothing, hand a free lock to one thread, or take it back. */
  ghost predicate LockStep(o: set<Tid>, o': set<Tid>)
  {
    || o' == o
    || (o == {} && exists t :: o' == {t})
    || ((exists t :: o == {t}) && o' == {})
  }

  /** Every step of the futex protocol is a step of the ideal lock. */
  lemma RefinesLock(s: State, s': State)
    requires Inv(s) && Next(s, s')
    ensures LockStep(Owners(s), Owners(s'))
  {
    var t: Tid, a :| Step(s, t, a, s');
    OwnersAfter(s, t, a, s');
    StepKeepsOwner(s, t, a, s');
    Words(s);
    forall u: Tid
      ensures u in Owners(s') <==> Owns(s', u)
      ensures u in Owners(s) <==> Owns(s, u)
    {
    }
    if Owns(s, t) && !Owns(s', t) {
      assert Owners(s) == {t};
      assert Owners(s') == {};
    } else if !Owns(s, t) && Owns(s', t) {
      assert Owners(s) == {};
      assert Owners(s') == {t};
    } else {
      assert Owners(s') == Owners(s);
    }
  }

  // --- nobody is stranded ------------------------------------------------------------------------------

  /** When the lock is free and a thread sleeps, one or two steps that are enabled now hand the lock to a thread:
      a pending wake followed by the woken thread's swap, or the swap of a thread that is awake already. */
  lemma FreeLockIsTaken(s: State) returns (s1: State, s2: State, u: Tid)
    requires Inv(s) && s.word == Unlocked(s) && exists t :: Sleeps(s, t)
    ensures (s1 == s || Next(s, s1)) && Next(s1, s2) && Owns(s2, u)
  {
    Words(s);
    if w :| AboutToSwap(s, w) {
      u, s1 := w, s;
    } else {
      var w :| InUnlock(s, w);
      assert !Owns(s, w);
      u :| Sleeps(s, u);
      s1 := At(At(s, w, Idle), u, Swapping(s.pc[u].timed));
      assert Step(s, w, WakeOne(u), s1);
    }
    s2 := At(s1, u, Holding).(word := Contended(s1));
    assert Step(s1, u, Swap, s2);
  }

  /** Any number of steps of threads other than t. */
  ghost predicate OthersRun(run: seq<State>, t: Tid)
  {
    |run| > 0 && forall i :: 0 <= i < |run| - 1 ==> OtherStep(run[i], t, run[i + 1])
  }

  ghost predicate OtherStep(s: State, t: Tid, s': State)
  {
    exists u: Tid, a :: u != t && Step(s, u, a, s')
  }

  function Last(run: seq<State>): State
    requires |run| > 0
  {
    run[|run| - 1]
  }

  lemma OtherLeaves(s: State, t: Tid, s': State)
    requires OtherStep(s, t, s') && InUnlock(s, t)
    ensures t in s'.pc && s'.pc[t] == s.pc[t] && s'.shared == s.shared
  {
    var u: Tid, a :| u != t && Step(s, u, a, s');
    StepLeaves(s, u, a, s', t);
  }

  /** A step moves its own thread and, when it wakes somebody, a sleeper. */
  lemma StepLeaves(s: State, u: Tid, a: Action, s': State, t: Tid)
    requires Step(s, u, a, s') && u != t && t in s.pc && !s.pc[t].Asleep?
    ensures t in s'.pc && s'.pc[t] == s.pc[t] && s'.shared == s.shared
  {
    match a
    case WakeOne(v) =>
      assert s' == At(At(s, u, Idle), v, Swapping(s.pc[v].timed)) && v != t;
    case _ =>
  }

  /** Nobody else moves a thread that is in the middle of an unlock. */
  lemma {:induction false} OthersLeave(run: seq<State>, t: Tid, i: nat)
    requires OthersRun(run, t) && InUnlock(run[0], t) && i < |run|
    ensures t in run[i].pc && run[i].pc[t] == run[0].pc[t] && run[i].shared == run[0].shared
  {
    if i > 0 {
      OthersLeave(run, t, i - 1);
      assert OtherStep(run[i - 1], t, run[i - 1 + 1]);
      OtherLeaves(run[i - 1], t, run[i]);
    }
  }

  function Stored(s: State, t: Tid): State { At(s, t, Waking).(word := s.shared) }

  function Woken(s: State, t: Tid, u: Tid): State
    requires u in s.pc && s.pc[u].Asleep?
  {
    At(At(s, t, Idle), u, Swapping(s.pc[u].timed))
  }

  /** The release of a contended lock leaves the lock held until the store, which is enabled whatever others have done
      since. */
  lemma ContendedUnlockStores(s: State, t: Tid, run: seq<State>)
    requires Inv(s) && t in s.pc && s.pc[t].Holding? && s.word == Contended(s)
    requires OthersRun(run, t) && Step(s, t, Decrement, run[0])
    ensures run[0].word == Uncontended(run[0]) && Owns(Last(run), t)
    ensures Step(Last(run), t, Store, Stored(Last(run), t)) && Stored(Last(run), t).word == Unlocked(Last(run))
  {
    Words(s);
    OthersLeave(run, t, |run| - 1);
  }

  /** And from the store it reaches the wake call, whatever others do in between: the call takes any one sleeper out of
      the queue and makes it swap, and does nothing only when nobody sleeps. */
  lemma ContendedUnlockWakes(s: State, t: Tid, run: seq<State>, after: seq<State>)
    requires Inv(s) && t in s.pc && s.pc[t].Holding? && s.word == Contended(s)
    requires OthersRun(run, t) && Step(s, t, Decrement, run[0])
    requires OthersRun(after, t) && Step(Last(run), t, Store, after[0])
    ensures t in Last(after).pc && Last(after).pc[t] == Waking
    ensures forall u :: Sleeps(Last(after), u) ==>
      && Step(Last(after), t, WakeOne(u), Woken(Last(after), t, u)) && AboutToSwap(Woken(Last(after), t, u), u)
      && !Sleeps(Woken(Last(after), t, u), u)
    ensures (forall u :: !Sleeps(Last(after), u)) <==> Step(Last(after), t, WakeNone, At(Last(after), t, Idle))
  {
    ContendedUnlockStores(s, t, run);
    OthersLeave(after, t, |after| - 1);
  }
}
