/**
 The hybrid latch as a system of threads.

 A thread holds at most one guard.  Taking the inner lock, reading the version word,
 writing it and releasing the lock are separate steps; between any two of them other
 threads may step.  A guard is dropped in the order of the code: the version is stored
 first, the inner lock is released after.  Memory is sequentially consistent.
 */
module Latch {
  import opened VersionWord

  /** Where a thread is.  The data value in a phase is what the guarded data was when the snapshot was taken. */
  datatype Phase =
    | Idle
    | Optimistic(snap: Word, seen: int)
    | LockedX                                  // has the lock, has not read the word
    | LoadedX(current: Word)                   // has read it, has not stored it
    | UpgradeX(snap: Word, seen: int)          // has the lock, has not compared and exchanged
    | Inside(word: Word)                       // exclusive guard
    | Leaving                                  // has stored the new version, has not released the lock
    | LockedS                                  // has the lock shared, has not read the word
    | UpgradeS(snap: Word, seen: int)          // has the lock shared, has not compared
    | Shared(word: Word, seen: int)            // shared guard
    | Panicked

  datatype State = State(
    word: Word,
    writer: set<nat>,
    readers: set<nat>,
    data: int,
    completed: nat,
    threads: map<nat, Phase>)

  datatype Action =
    | TakeSnapshot(tid: nat) | Validate(tid: nat) | DropOptimistic(tid: nat)
    | LockX(tid: nat) | LoadX(tid: nat) | StoreX(tid: nat)
    | LockForX(tid: nat) | CasX(tid: nat)
    | Write(tid: nat, value: int) | ExitX(tid: nat) | UnlockX(tid: nat)
    | LockS(tid: nat) | LoadS(tid: nat) | LockForS(tid: nat) | CheckS(tid: nat) | UnlockS(tid: nat)

  function PhaseOf(s: State, tid: nat): Phase
  {
    if tid in s.threads then s.threads[tid] else Idle
  }

  predicate HoldsX(p: Phase)
  {
    p.LockedX? || p.LoadedX? || p.UpgradeX? || p.Inside? || p.Leaving?
  }

  predicate HoldsS(p: Phase)
  {
    p.LockedS? || p.UpgradeS? || p.Shared?
  }

  predicate Enabled(s: State, a: Action)
  {
    var p := PhaseOf(s, a.tid);
    match a
    case TakeSnapshot(_) => p.Idle?
    case Validate(_) => p.Optimistic?
    case DropOptimistic(_) => p.Optimistic?
    case LockX(_) => p.Idle? && s.writer == {} && s.readers == {}
    case LoadX(_) => p.LockedX?
    case StoreX(_) => p.LoadedX?
    case LockForX(_) => p.Optimistic? && s.writer == {} && s.readers == {}
    case CasX(_) => p.UpgradeX?
    case Write(_, _) => p.Inside?
    case ExitX(_) => p.Inside?
    case UnlockX(_) => p.Leaving?
    case LockS(_) => p.Idle? && s.writer == {}
    case LoadS(_) => p.LockedS?
    case LockForS(_) => p.Optimistic? && s.writer == {}
    case CheckS(_) => p.UpgradeS?
    case UnlockS(_) => p.Shared?
  }

  function Put(s: State, tid: nat, p: Phase): State
  {
    s.(threads := s.threads[tid := p])
  }

  /** The thread unwinds: it drops the lock it holds and never steps again. */
  function Panic(s: State, tid: nat): State
  {
    Put(s, tid, Panicked).(writer := s.writer - {tid}, readers := s.readers - {tid})
  }

  function Do(s: State, a: Action): State
    requires Enabled(s, a)
  {
    var tid := a.tid;
    var p := PhaseOf(s, tid);
    match a
    case TakeSnapshot(_) => if IsExclusive(s.word) then s else Put(s, tid, Optimistic(s.word, s.data))
    case Validate(_) => s
    case DropOptimistic(_) => Put(s, tid, Idle)
    case LockX(_) => Put(s, tid, LockedX).(writer := {tid})
    case LoadX(_) => Put(s, tid, LoadedX(s.word))
    case StoreX(_) =>
      if !CanAdvance(p.current) then Panic(s, tid)
      else Put(s, tid, Inside(Enter(p.current))).(word := Enter(p.current))
    case LockForX(_) => Put(s, tid, UpgradeX(p.snap, p.seen)).(writer := {tid})
    case CasX(_) =>
      if !CanAdvance(p.snap) then Panic(s, tid)
      else if s.word == p.snap then Put(s, tid, Inside(Enter(p.snap))).(word := Enter(p.snap))
      else Put(s, tid, Idle).(writer := {})
    case Write(_, value) => s.(data := value)
    case ExitX(_) =>
      var next := Exit(p.word);
      if next.Overflow? then Panic(s, tid)
      else Put(s, tid, Leaving).(word := next.word, completed := s.completed + 1)
    case UnlockX(_) => Put(s, tid, Idle).(writer := {})
    case LockS(_) => Put(s, tid, LockedS).(readers := s.readers + {tid})
    case LoadS(_) => Put(s, tid, Shared(s.word, s.data))
    case LockForS(_) => Put(s, tid, UpgradeS(p.snap, p.seen)).(readers := s.readers + {tid})
    case CheckS(_) =>
      if s.word == p.snap then Put(s, tid, Shared(p.snap, p.seen))
      else Put(s, tid, Idle).(readers := s.readers - {tid})
    case UnlockS(_) => Put(s, tid, Idle).(readers := s.readers - {tid})
  }

  /** The answer of a validation: it succeeds iff the word still equals the snapshot. */
  predicate Validates(s: State, tid: nat)
    requires PhaseOf(s, tid).Optimistic?
  {
    s.word == PhaseOf(s, tid).snap
  }

  // ----- the invariant -----

  /** Somebody is in an exclusive section. */
  ghost predicate Busy(s: State)
  {
    exists tid :: PhaseOf(s, tid).Inside?
  }

  /** A snapshot is an even word not beyond the live one, and still says what the data is while they are equal. */
  ghost predicate SnapOk(s: State, snap: Word, seen: int)
  {
    !IsExclusive(snap) && snap <= s.word && (snap == s.word ==> s.data == seen)
  }

  ghost predicate PhaseOk(s: State, p: Phase)
  {
    match p
    case Optimistic(snap, seen) => SnapOk(s, snap, seen)
    case UpgradeX(snap, seen) => SnapOk(s, snap, seen) && !IsExclusive(s.word)
    case UpgradeS(snap, seen) => SnapOk(s, snap, seen) && !IsExclusive(s.word)
    case LockedX => !IsExclusive(s.word)
    case LoadedX(current) => current == s.word && !IsExclusive(s.word)
    case Inside(word) => word == s.word && IsExclusive(word) && CanAdvance(Base(word))
    case Leaving => !IsExclusive(s.word)
    case LockedS => !IsExclusive(s.word)
    case Shared(word, seen) => word == s.word && !IsExclusive(word) && s.data == seen
    case _ => true
  }

  ghost predicate LatchInv(s: State)
  {
    && s.word == 2 * s.completed + (if Busy(s) then 1 else 0)
    && (forall tid :: tid in s.writer <==> HoldsX(PhaseOf(s, tid)))
    && (forall tid :: tid in s.readers <==> HoldsS(PhaseOf(s, tid)))
    && (forall a, b :: a in s.writer && b in s.writer ==> a == b)
    && (s.writer == {} || s.readers == {})
    && (forall tid :: PhaseOk(s, PhaseOf(s, tid)))
  }

  ghost predicate Init(s: State)
  {
    s.word == 0 && s.writer == {} && s.readers == {} && s.completed == 0 && s.threads == map[]
  }

  lemma InitOk(s: State)
    requires Init(s)
    ensures LatchInv(s)
  {
  }

  lemma OthersStay(s: State, a: Action)
    requires Enabled(s, a)
    ensures forall x :: x != a.tid ==> PhaseOf(Do(s, a), x) == PhaseOf(s, x)
  {
  }

  lemma LocksOk(s: State, a: Action)
    requires LatchInv(s) && Enabled(s, a)
    ensures var s' := Do(s, a);
      && (forall tid :: tid in s'.writer <==> HoldsX(PhaseOf(s', tid)))
      && (forall tid :: tid in s'.readers <==> HoldsS(PhaseOf(s', tid)))
      && (forall a, b :: a in s'.writer && b in s'.writer ==> a == b)
      && (s'.writer == {} || s'.readers == {})
  {
    hide PhaseOk, Busy, IsExclusive, Enter, Exit;
    OthersStay(s, a);
  }

  /** A thread's own step leaves it in a sound phase. */
  lemma OwnPhaseOk(s: State, a: Action)
    requires LatchInv(s) && Enabled(s, a)
    ensures PhaseOk(Do(s, a), PhaseOf(Do(s, a), a.tid))
  {
    hide Busy;
    assert PhaseOk(s, PhaseOf(s, a.tid));
    WriterMeansEven(s);
  }

  /** While nobody is inside, the word is even. */
  lemma WriterMeansEven(s: State)
    requires LatchInv(s)
    ensures s.writer == {} ==> !IsExclusive(s.word)
    ensures forall tid :: PhaseOf(s, tid).Inside? ==> tid in s.writer
  {
    if s.writer == {} {
      assert forall tid :: !HoldsX(PhaseOf(s, tid));
      assert !Busy(s);
    }
  }

  /** A step leaves every other thread in a sound phase. */
  lemma OtherPhaseOk(s: State, a: Action, x: nat)
    requires LatchInv(s) && Enabled(s, a) && x != a.tid
    ensures PhaseOk(Do(s, a), PhaseOf(Do(s, a), x))
  {
    hide Busy;
    OthersStay(s, a);
    assert PhaseOk(s, PhaseOf(s, x)) && PhaseOk(s, PhaseOf(s, a.tid));
    assert a.tid in s.writer <==> HoldsX(PhaseOf(s, a.tid));
    assert x in s.writer <==> HoldsX(PhaseOf(s, x));
    assert x in s.readers <==> HoldsS(PhaseOf(s, x));
  }

  /** Every step of every thread keeps the invariant. */
  lemma StepOk(s: State, a: Action)
    requires LatchInv(s) && Enabled(s, a)
    ensures LatchInv(Do(s, a))
  {
    hide PhaseOk, Do, Busy;
    LocksOk(s, a);
    OwnPhaseOk(s, a);
    forall x
      ensures PhaseOk(Do(s, a), PhaseOf(Do(s, a), x))
    {
      if x != a.tid {
        OtherPhaseOk(s, a, x);
      }
    }
    BusyAfter(s, a);
  }

  lemma BusyAfter(s: State, a: Action)
    requires LatchInv(s) && Enabled(s, a)
    ensures Busy(Do(s, a)) <==> IsExclusive(Do(s, a).word)
    ensures Do(s, a).word == 2 * Do(s, a).completed + (if Busy(Do(s, a)) then 1 else 0)
  {
    var s' := Do(s, a);
    var tid := a.tid;
    assert forall x :: x != tid ==> PhaseOf(s', x) == PhaseOf(s, x);
    assert PhaseOk(s, PhaseOf(s, tid));
    if PhaseOf(s', tid).Inside? {
      assert Busy(s');
    }
  }

  // ----- what the invariant means for one step -----

  /** Leaving an exclusive section never overflows. */
  lemma ExitNeverOverflows(s: State, tid: nat)
    requires LatchInv(s) && PhaseOf(s, tid).Inside?
    ensures Exit(PhaseOf(s, tid).word).Value? && Exit(PhaseOf(s, tid).word).word == s.word + 1
  {
    assert PhaseOk(s, PhaseOf(s, tid));
  }

  /** The entry check fails exactly when all the versions are used up. */
  lemma PanicMeansExhausted(s: State, a: Action)
    requires LatchInv(s) && Enabled(s, a) && !PhaseOf(s, a.tid).Panicked?
    ensures PhaseOf(Do(s, a), a.tid).Panicked? <==>
      (a.StoreX? || (a.CasX? && PhaseOf(s, a.tid).snap == s.word)) && s.completed == 0x7fff_ffff_ffff_ffff
  {
    hide Busy;
    assert PhaseOk(s, PhaseOf(s, a.tid));
    if a.ExitX? {
      ExitNeverOverflows(s, a.tid);
    }
    NotBusy(s);
  }

  lemma NotBusy(s: State)
    requires LatchInv(s)
    ensures !IsExclusive(s.word) ==> s.word == 2 * s.completed
  {
  }

  /** Two threads are never both inside, and nobody is inside while somebody reads under the lock. */
  lemma Exclusion(s: State, a: nat, b: nat)
    requires LatchInv(s) && PhaseOf(s, a).Inside? && a != b
    ensures !PhaseOf(s, b).Inside? && !PhaseOf(s, b).Shared?
  {
    assert a in s.writer && HoldsX(PhaseOf(s, a));
    assert b in s.writer <==> HoldsX(PhaseOf(s, b));
    assert b in s.readers <==> HoldsS(PhaseOf(s, b));
  }

  /** A shared guard's version is the live word, and the data is what it was when the guard was made. */
  lemma SharedIsFrozen(s: State, tid: nat)
    requires LatchInv(s) && PhaseOf(s, tid).Shared?
    ensures PhaseOf(s, tid).word == s.word && PhaseOf(s, tid).seen == s.data && s.writer == {}
  {
    assert PhaseOk(s, PhaseOf(s, tid));
    assert tid in s.readers;
  }

  // ----- runs -----

  ghost predicate IsRun(states: seq<State>, actions: seq<Action>)
  {
    && |states| == |actions| + 1 && Init(states[0])
    && (forall i :: 0 <= i < |actions| ==> Enabled(states[i], actions[i]) && states[i + 1] == Do(states[i], actions[i]))
  }

  lemma {:induction false} RunOk(states: seq<State>, actions: seq<Action>, n: nat)
    requires IsRun(states, actions) && n < |states|
    ensures LatchInv(states[n])
    decreases n
  {
    hide LatchInv, Enabled, Do, Init;
    if n == 0 {
      InitOk(states[0]);
    } else {
      RunOk(states, actions, n - 1);
      StepOk(states[n - 1], actions[n - 1]);
    }
  }

  /** In every state of every run the word counts the completed sections. */
  lemma WordCounts(states: seq<State>, actions: seq<Action>, n: nat)
    requires IsRun(states, actions) && n < |states|
    ensures states[n].word == 2 * states[n].completed + (if Busy(states[n]) then 1 else 0)
  {
    hide IsRun, Busy;
    RunOk(states, actions, n);
  }

  /** The word never goes back; a step that starts a section from `v` leaves `v` behind for good. */
  lemma WordGrows(s: State, a: Action)
    requires LatchInv(s) && Enabled(s, a)
    ensures s.word <= Do(s, a).word
    ensures s.word == Do(s, a).word && !IsExclusive(s.word) ==> Do(s, a).data == s.data
  {
    hide Busy;
    assert PhaseOk(s, PhaseOf(s, a.tid));
  }

  lemma {:induction false} WordMonotone(states: seq<State>, actions: seq<Action>, i: nat, j: nat)
    requires IsRun(states, actions) && i <= j < |states|
    ensures states[i].word <= states[j].word
    decreases j
  {
    hide LatchInv, Enabled, Do, Init;
    if i < j {
      WordMonotone(states, actions, i, j - 1);
      RunOk(states, actions, j - 1);
      WordGrows(states[j - 1], actions[j - 1]);
    }
  }

  /** Between two moments with the same even word, nobody was inside and the data did not change. */
  lemma {:induction false} QuietBetween(states: seq<State>, actions: seq<Action>, i: nat, k: nat, j: nat)
    requires IsRun(states, actions) && i <= k <= j < |states| && states[i].word == states[j].word
    requires !IsExclusive(states[i].word)
    ensures states[k].word == states[i].word && states[k].data == states[i].data
    ensures states[k].completed == states[i].completed && !Busy(states[k])
    decreases k
  {
    hide Enabled, Do, Init, PhaseOk;
    WordMonotone(states, actions, i, k);
    WordMonotone(states, actions, k, j);
    RunOk(states, actions, i);
    RunOk(states, actions, k);
    if i < k {
      QuietBetween(states, actions, i, k - 1, j);
      RunOk(states, actions, k - 1);
      WordGrows(states[k - 1], actions[k - 1]);
    }
  }

  /** The step upgrades a snapshot of `v` to an exclusive guard. */
  predicate UpgradesX(s: State, a: Action, v: Word)
  {
    a.CasX? && PhaseOf(s, a.tid).UpgradeX? && PhaseOf(s, a.tid).snap == v && CanAdvance(v) && s.word == v
  }

  /** The step upgrades a snapshot of `v` to a shared guard. */
  predicate UpgradesS(s: State, a: Action, v: Word)
  {
    a.CheckS? && PhaseOf(s, a.tid).UpgradeS? && PhaseOf(s, a.tid).snap == v && s.word == v
  }

  /** At most one exclusive upgrade from a snapshot value succeeds in a run, and none of either kind after it. */
  lemma UpgradeOnce(states: seq<State>, actions: seq<Action>, i: nat, j: nat, v: Word)
    requires IsRun(states, actions) && i < j < |actions| && UpgradesX(states[i], actions[i], v)
    ensures !UpgradesX(states[j], actions[j], v) && !UpgradesS(states[j], actions[j], v)
    ensures states[j].word > v
  {
    hide Init;
    RunOk(states, actions, i);
    assert PhaseOk(states[i], PhaseOf(states[i], actions[i].tid));
    assert states[i + 1].word == v + 1;
    WordMonotone(states, actions, i + 1, j);
  }
}
