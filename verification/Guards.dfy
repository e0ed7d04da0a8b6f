/**
 What the guards of the latch mean over whole runs: when a snapshot still holds, when it can
 be upgraded, who may lock, and what the guarded data is.
 */
module Guards {
  import opened VersionWord
  import opened Latch

  // ----- snapshots -----

  /** The thread still has the snapshot of word `w` with data `d`, alone or under a lock it took to upgrade it. */
  predicate HasSnap(p: Phase, w: Word, d: int)
  {
    (p.Optimistic? || p.UpgradeX? || p.UpgradeS?) && p.snap == w && p.seen == d
  }

  /** Thread `tid` took a snapshot in step `i` and has it up to state `n`. */
  ghost predicate KeptSince(states: seq<State>, actions: seq<Action>, i: nat, n: nat, tid: nat)
    requires IsRun(states, actions) && i < n < |states|
  {
    && actions[i] == TakeSnapshot(tid)
    && (forall k :: i < k <= n ==> HasSnap(PhaseOf(states[k], tid), states[i].word, states[i].data))
  }

  /** Every snapshot goes back to the step that took it. */
  lemma {:induction false} SnapOrigin(states: seq<State>, actions: seq<Action>, n: nat, tid: nat) returns (i: nat)
    requires IsRun(states, actions) && n < |states|
    requires var p := PhaseOf(states[n], tid); p.Optimistic? || p.UpgradeX? || p.UpgradeS?
    ensures i < n && KeptSince(states, actions, i, n, tid)
    decreases n
  {
    if n > 0 {
      var s, a := states[n - 1], actions[n - 1];
      OthersStay(s, a);
      var p := PhaseOf(s, tid);
      if p.Optimistic? || p.UpgradeX? || p.UpgradeS? {
        i := SnapOrigin(states, actions, n - 1, tid);
      } else {
        i := n - 1;
      }
    }
  }

  /** Since step `i` nobody has been in an exclusive section. */
  ghost predicate QuietSince(states: seq<State>, i: nat, n: nat)
    requires i <= n < |states|
  {
    forall k :: i <= k <= n ==>
      !Busy(states[k]) && states[k].data == states[i].data && states[k].completed == states[i].completed
  }

  /** The word is the one of the snapshot if and only if nobody has been inside since. */
  lemma SnapHolds(states: seq<State>, actions: seq<Action>, i: nat, n: nat, tid: nat)
    requires IsRun(states, actions) && i < n < |states| && KeptSince(states, actions, i, n, tid)
    ensures states[n].word == states[i].word <==> QuietSince(states, i, n)
    ensures states[n].word == states[i].word <==> !Busy(states[n]) && states[n].completed == states[i].completed
  {
    hide Enabled, Do, Init, Busy;
    RunOk(states, actions, i);
    RunOk(states, actions, i + 1);
    RunOk(states, actions, n);
    EvenSnap(states, actions, i, tid);
    if states[n].word == states[i].word {
      forall k | i <= k <= n
        ensures !Busy(states[k]) && states[k].data == states[i].data && states[k].completed == states[i].completed
      {
        QuietBetween(states, actions, i, k, n);
      }
    }
  }

  lemma EvenSnap(states: seq<State>, actions: seq<Action>, i: nat, tid: nat)
    requires IsRun(states, actions) && i + 1 < |states| && actions[i] == TakeSnapshot(tid)
    requires HasSnap(PhaseOf(states[i + 1], tid), states[i].word, states[i].data)
    ensures !IsExclusive(states[i].word) && !Busy(states[i]) && states[i].word == 2 * states[i].completed
  {
    hide Busy;
    RunOk(states, actions, i);
    RunOk(states, actions, i + 1);
    assert PhaseOk(states[i + 1], PhaseOf(states[i + 1], tid));
    NotBusy(states[i]);
  }

  /** A validation succeeds if and only if nobody has been in an exclusive section since the snapshot. */
  lemma ValidateIff(states: seq<State>, actions: seq<Action>, n: nat, tid: nat) returns (i: nat)
    requires IsRun(states, actions) && n < |states| && PhaseOf(states[n], tid).Optimistic?
    ensures i < n && KeptSince(states, actions, i, n, tid)
    ensures Validates(states[n], tid) <==> QuietSince(states, i, n)
    ensures Validates(states[n], tid) <==> !Busy(states[n]) && states[n].completed == states[i].completed
  {
    hide Enabled, Do, Init, Busy, QuietSince;
    i := SnapOrigin(states, actions, n, tid);
    SnapHolds(states, actions, i, n, tid);
  }

  /** An upgrade to a shared guard succeeds under the same condition, and is the guard of that snapshot. */
  lemma UpgradeSharedIff(states: seq<State>, actions: seq<Action>, n: nat) returns (i: nat)
    requires IsRun(states, actions) && n < |actions| && actions[n].CheckS?
    ensures i < n && KeptSince(states, actions, i, n, actions[n].tid)
    ensures var p := PhaseOf(states[n + 1], actions[n].tid);
      && (QuietSince(states, i, n) ==> p == Shared(states[i].word, states[i].data))
      && (!QuietSince(states, i, n) ==> p == Idle && actions[n].tid !in states[n + 1].readers)
  {
    hide Init, Busy, QuietSince;
    i := SnapOrigin(states, actions, n, actions[n].tid);
    SnapHolds(states, actions, i, n, actions[n].tid);
  }

  /** An upgrade to an exclusive guard succeeds under the same condition, unless the versions are used up. */
  lemma UpgradeExclusiveIff(states: seq<State>, actions: seq<Action>, n: nat) returns (i: nat)
    requires IsRun(states, actions) && n < |actions| && actions[n].CasX?
    ensures i < n && KeptSince(states, actions, i, n, actions[n].tid)
    ensures var p := PhaseOf(states[n + 1], actions[n].tid);
      && (p.Inside? <==> QuietSince(states, i, n) && CanAdvance(states[i].word))
      && (!QuietSince(states, i, n) && CanAdvance(states[i].word) ==> p == Idle && states[n + 1].writer == {})
      && (!CanAdvance(states[i].word) ==> p == Panicked)
  {
    hide Init, Busy, QuietSince;
    i := SnapOrigin(states, actions, n, actions[n].tid);
    SnapHolds(states, actions, i, n, actions[n].tid);
  }

  // ----- guards -----

  /** What a thread has after a step of its own. */
  lemma GuardMeans(s: State, a: Action)
    requires LatchInv(s) && Enabled(s, a)
    ensures var p, s' := PhaseOf(Do(s, a), a.tid), Do(s, a);
      && (a.TakeSnapshot? ==> p == if Busy(s) then Idle else Optimistic(s.word, s.data))
      && (a.StoreX? && s.completed < 0x7fff_ffff_ffff_ffff ==> p.Inside? && Busy(s'))
      && (a.LoadS? ==> p == Shared(s.word, s.data))
      && (a.ExitX? ==> !Busy(s') && s'.completed == s.completed + 1)
      && (a.DropOptimistic? || a.UnlockX? || a.UnlockS? ==> p.Idle? && a.tid !in s'.writer && a.tid !in s'.readers)
  {
    var tid := a.tid;
    assert PhaseOk(s, PhaseOf(s, tid));
    StepOk(s, a);
    if PhaseOf(Do(s, a), tid).Inside? {
      assert Busy(Do(s, a));
    }
    if a.TakeSnapshot? {
      WriterMeansEven(s);
      assert PhaseOf(s, tid).Idle?;
    }
    if a.ExitX? {
      ExitNeverOverflows(s, tid);
      NoOtherInside(s, tid);
      OthersStay(s, a);
    }
  }

  lemma NoOtherInside(s: State, tid: nat)
    requires LatchInv(s) && PhaseOf(s, tid).Inside?
    ensures forall x :: x != tid ==> !PhaseOf(s, x).Inside?
  {
    forall x | x != tid
      ensures !PhaseOf(s, x).Inside?
    {
      Exclusion(s, tid, x);
    }
  }

  /** The lock is granted exactly if no other thread is in the way. */
  lemma LockGranted(s: State, tid: nat)
    requires LatchInv(s)
    ensures Enabled(s, LockX(tid)) <==>
      PhaseOf(s, tid).Idle? && forall x :: !HoldsX(PhaseOf(s, x)) && !HoldsS(PhaseOf(s, x))
    ensures Enabled(s, LockS(tid)) <==> PhaseOf(s, tid).Idle? && forall x :: !HoldsX(PhaseOf(s, x))
    ensures Enabled(s, LockForX(tid)) <==>
      PhaseOf(s, tid).Optimistic? && forall x :: !HoldsX(PhaseOf(s, x)) && !HoldsS(PhaseOf(s, x))
    ensures Enabled(s, LockForS(tid)) <==> PhaseOf(s, tid).Optimistic? && forall x :: !HoldsX(PhaseOf(s, x))
  {
    hide PhaseOk, Busy;
    assert s.writer == {} <==> forall x :: x !in s.writer;
    assert s.readers == {} <==> forall x :: x !in s.readers;
  }

  /** The step with which a thread that holds something goes on towards letting it go. */
  function GoesOn(p: Phase, tid: nat): Action
    requires HoldsX(p) || HoldsS(p)
  {
    match p
    case LockedX => LoadX(tid)
    case LoadedX(_) => StoreX(tid)
    case UpgradeX(_, _) => CasX(tid)
    case Inside(_) => ExitX(tid)
    case Leaving => UnlockX(tid)
    case LockedS => LoadS(tid)
    case UpgradeS(_, _) => CheckS(tid)
    case Shared(_, _) => UnlockS(tid)
  }

  function StepsLeft(p: Phase): nat
  {
    match p
    case LockedX => 5
    case LoadedX(_) => 4
    case UpgradeX(_, _) => 4
    case Inside(_) => 3
    case Leaving => 2
    case LockedS => 3
    case UpgradeS(_, _) => 3
    case Shared(_, _) => 2
    case _ => 0
  }

  /** Nobody waits for ever on a thread that goes on: whoever holds the lock can always take a step, and lets go
      after at most five of its own, whatever the others do. */
  lemma HolderGoesOn(s: State, tid: nat)
    requires LatchInv(s) && (HoldsX(PhaseOf(s, tid)) || HoldsS(PhaseOf(s, tid)))
    ensures var a := GoesOn(PhaseOf(s, tid), tid);
      && a.tid == tid && Enabled(s, a) && StepsLeft(PhaseOf(Do(s, a), tid)) < StepsLeft(PhaseOf(s, tid)) <= 5
  {
    hide PhaseOk, Busy;
  }

  // ----- what the run has done -----

  /** The data after some actions: the value of the last write. */
  function LastWritten(initial: int, actions: seq<Action>): int
  {
    if |actions| == 0 then initial
    else if actions[|actions| - 1].Write? then actions[|actions| - 1].value
    else LastWritten(initial, actions[..|actions| - 1])
  }

  /** How many exclusive guards were dropped. */
  function Dropped(actions: seq<Action>): nat
  {
    if |actions| == 0 then 0 else Dropped(actions[..|actions| - 1]) + if actions[|actions| - 1].ExitX? then 1 else 0
  }

  lemma StepData(s: State, a: Action)
    requires LatchInv(s) && Enabled(s, a)
    ensures Do(s, a).data == if a.Write? then a.value else s.data
    ensures Do(s, a).completed == s.completed + if a.ExitX? then 1 else 0
  {
    hide Busy;
    if a.ExitX? {
      ExitNeverOverflows(s, a.tid);
    }
  }

  /** In every state of every run the data is what was written last, and the word counts the exclusive guards
      dropped. */
  lemma {:induction false} EveryData(states: seq<State>, actions: seq<Action>, n: nat)
    requires IsRun(states, actions) && n < |states|
    ensures states[n].data == LastWritten(states[0].data, actions[..n])
    ensures states[n].word == 2 * Dropped(actions[..n]) + (if Busy(states[n]) then 1 else 0)
    ensures states[n].completed == Dropped(actions[..n])
    decreases n
  {
    hide LatchInv, Enabled, Do, Busy;
    WordCounts(states, actions, n);
    if n > 0 {
      EveryData(states, actions, n - 1);
      RunOk(states, actions, n - 1);
      assert actions[..n][..n - 1] == actions[..n - 1];
      StepData(states[n - 1], actions[n - 1]);
    }
  }
}
