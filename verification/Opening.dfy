/**
 What the steps of the store mean for its callers: the log they append to and flush, the
 pages they write, and the state in which a crashed store comes up again.
 */
module Opening {
  import opened Recovery

  // ----- recovery runs to its end -----

  predicate Recovering(phase: Phase)
  {
    !Working(phase)
  }

  /** The step that recovery takes next. */
  function Next(s: State): Action
    requires Recovering(s.phase)
  {
    match s.phase
    case Down => StartRecovery
    case Replaying(_, _) => ReplayNext
    case Replayed => SyncReplayed
    case ReplaySynced => WriteNewHeader
    case NewHeaderOut => SyncNewHeader
    case NewHeaderSynced => ResetAfterRecovery
  }

  /** How many steps recovery still takes at most. */
  function Ahead(s: State): nat
  {
    match s.phase
    case Down => 6 + |s.hist|
    case Replaying(_, i) => if i <= |s.hist| then 5 + |s.hist| - i else 5
    case Replayed => 4
    case ReplaySynced => 3
    case NewHeaderOut => 2
    case NewHeaderSynced => 1
    case _ => 0
  }

  /** Every step of recovery is possible, brings the end closer and leaves the log as it is. */
  lemma NextOk(s: State)
    requires ProtocolInv(s) && Recovering(s.phase)
    ensures Enabled(s, Next(s)) && ProtocolInv(Do(s, Next(s))) && Ahead(Do(s, Next(s))) < Ahead(s)
    ensures Do(s, Next(s)).hist == s.hist && Do(s, Next(s)).flushed == s.flushed
  {
    hide PagesOk, Covers, CoversAll, ReplayedTo, Increasing;
    StepOk(s, Next(s));
  }

  /** The state in which recovery ends. */
  ghost function Recovered(s: State): State
    requires ProtocolInv(s)
    decreases Ahead(s)
  {
    if Recovering(s.phase) then
      NextOk(s);
      Recovered(Do(s, Next(s)))
    else s
  }

  /** The pages that a store opens with hold every flushed record. */
  ghost predicate Opened(s: State)
    requires Sized(s)
  {
    forall page :: At(s.seen, page) == Last(s.hist, s.flushed, page)
  }

  lemma CoveredIsOpened(s: State)
    requires ProtocolInv(s) && CoversAll(s.seen, s.hist, s.flushed)
    ensures Opened(s)
  {
    forall page
      ensures At(s.seen, page) == Last(s.hist, s.flushed, page)
    {
      LastIs(s.hist, s.flushed, page);
      assert Genuine(s.hist, s.flushed, page, At(s.seen, page));
    }
  }

  /** A store does not open before every flushed record is in its pages. */
  lemma OpensFull(s: State)
    requires ProtocolInv(s) && Recovering(s.phase) && !Recovering(Do(s, Next(s)).phase)
    ensures Enabled(s, Next(s)) && ProtocolInv(Do(s, Next(s))) && Opened(Do(s, Next(s)))
  {
    hide PagesOk, Covers, Increasing;
    NextOk(s);
    var s' := Do(s, Next(s));
    DiskBehind(s);
    if s.phase.Down? {
      CoversMore(s.disk, s.seen, s.hist, s.base, 0);
    } else if s.phase.Replaying? {
      LastReplay(s);
    } else {
      MaxCovers(s);
      CoversMore(s.disk, s.seen, s.hist, s.flushed, 0);
    }
    CoveredIsOpened(s');
  }

  lemma LastReplay(s: State)
    requires ProtocolInv(s) && s.phase.Replaying? && !Do(s, ReplayNext).phase.Replaying?
    ensures CoversAll(Do(s, ReplayNext).seen, s.hist, s.flushed)
  {
    hide PagesOk, Covers, At, Genuine, ReplayedTo, CoversAll;
    var i, k := s.phase.i, s.phase.k;
    var rec := s.hist[i];
    var t := if rec.lsn <= k || At(s.seen, rec.page) >= rec.lsn then s else WritePage(s, rec.page, rec.lsn);
    ReplayCovers(s, t, k, i);
    ReplayEnds(t, k);
  }

  /** Recovery ends, whatever it finds, with the store open and every flushed record in its pages and no other. */
  lemma {:induction false} RecoveryEnds(s: State)
    requires ProtocolInv(s) && Recovering(s.phase)
    ensures var e := Recovered(s);
      && e.phase.Running? && ProtocolInv(e) && e.hist == s.hist && e.flushed == s.flushed && Opened(e)
    decreases Ahead(s)
  {
    hide ProtocolInv, Do, Enabled;
    NextOk(s);
    var s' := Do(s, Next(s));
    if Recovering(s'.phase) {
      RecoveryEnds(s');
    } else {
      OpensFull(s);
      NextRuns(s);
    }
  }

  lemma NextRuns(s: State)
    requires ProtocolInv(s) && Recovering(s.phase) && Enabled(s, Next(s))
    ensures !Recovering(Do(s, Next(s)).phase) ==> Do(s, Next(s)).phase.Running?
  {
  }

  /** Recovery has found, or will find, a record that the header does not cover. */
  predicate FindsNews(s: State)
    requires Sized(s)
  {
    match s.phase
    case Down => MaxLsn(s.hist, s.flushed) > s.ckptSeen && s.base < s.flushed
    case Replaying(k, _) => MaxLsn(s.hist, s.flushed) > k && s.base < s.flushed
    case Replayed => true
    case ReplaySynced => true
    case NewHeaderOut => true
    case NewHeaderSynced => true
    case _ => false
  }

  /** The log is empty, and pages and header are durable and up to date with it. */
  ghost predicate Checkpointed(s: State)
    requires Sized(s)
  {
    && s.base == s.flushed && s.ckpt == s.ckptSeen == MaxLsn(s.hist, s.flushed)
    && forall page :: At(s.disk, page) == Last(s.hist, s.flushed, page)
  }

  /** A recovery that finds a record the header does not cover ends with a checkpoint. */
  lemma {:induction false} RecoveryCheckpoints(s: State)
    requires ProtocolInv(s) && Recovering(s.phase) && FindsNews(s)
    ensures Sized(Recovered(s)) && Checkpointed(Recovered(s))
    decreases Ahead(s)
  {
    hide ProtocolInv, Do, Enabled, Checkpointed;
    NextOk(s);
    NewsStay(s);
    if s.phase.NewHeaderSynced? {
      InvSized(Do(s, Next(s)));
      ResetCheckpoints(s);
    } else {
      RecoveryCheckpoints(Do(s, Next(s)));
    }
  }

  lemma NewsStay(s: State)
    requires ProtocolInv(s) && Recovering(s.phase) && FindsNews(s) && Enabled(s, Next(s)) && ProtocolInv(Do(s, Next(s)))
    ensures !s.phase.NewHeaderSynced? ==> Recovering(Do(s, Next(s)).phase) && FindsNews(Do(s, Next(s)))
    ensures s.phase.NewHeaderSynced? ==> Recovered(Do(s, Next(s))) == Do(s, Next(s))
  {
    hide PagesOk, Covers, CoversAll, ReplayedTo, Increasing;
  }

  lemma ResetCheckpoints(s: State)
    requires ProtocolInv(s) && s.phase.NewHeaderSynced?
    ensures Checkpointed(Do(s, ResetAfterRecovery))
  {
    MaxCovers(s);
    forall page
      ensures At(s.disk, page) == Last(s.hist, s.flushed, page)
    {
      LastIs(s.hist, s.flushed, page);
      assert Genuine(s.hist, s.flushed, page, At(s.disk, page));
    }
  }

  /** The state in which the store comes up after a crash in state `s`. */
  ghost function ComesUp(s: State, crash: Action): State
  {
    if Enabled(s, crash) && ProtocolInv(Do(s, crash)) then Recovered(Do(s, crash)) else s
  }

  /** In every state of every run: if the store crashes here, it comes up with exactly the records that were flushed. */
  lemma EveryOpening(states: seq<State>, actions: seq<Action>, n: nat, crash: Action)
    requires IsRun(states, actions) && n < |states| && (crash.Kill? || crash.PowerLoss?)
    ensures var s, e := states[n], ComesUp(states[n], crash);
      && Sized(s) && e.phase.Running? && ProtocolInv(e) && Opened(e)
      && e.hist == s.hist[..s.flushed] && e.flushed == s.flushed
  {
    hide IsRun, ProtocolInv;
    RunOk(states, actions, n);
    InvSized(states[n]);
    StepOk(states[n], crash);
    RecoveryEnds(Do(states[n], crash));
  }

  /** The version of a page that the rest of recovery leads to. */
  function Rest(s: State, page: nat): nat
    requires Sized(s)
  {
    match s.phase
    case Down => Reopened(s, page)
    case Replaying(k, i) => if i <= s.flushed then Replay(s.hist, i, s.flushed, k, page, At(s.seen, page)) else 0
    case _ => At(s.seen, page)
  }

  /** Every step of recovery works towards the same versions, in a state that satisfies the invariant or not: what
      `Reopened` says of a page is where the steps bring it. */
  lemma RestKept(s: State, page: nat)
    requires Recovering(s.phase) && Enabled(s, Next(s))
    ensures Rest(Do(s, Next(s)), page) == Rest(s, page)
  {
    if s.phase.Replaying? {
      var i, k := s.phase.i, s.phase.k;
      var v := At(Do(s, ReplayNext).seen, page);
      assert Replay(s.hist, i, s.flushed, k, page, At(s.seen, page)) == Replay(s.hist, i + 1, s.flushed, k, page, v);
      assert i + 1 == s.flushed ==> Replay(s.hist, i + 1, s.flushed, k, page, v) == v;
    }
  }

  // ----- the log -----

  /** The log as its users see it: the records that are safe, and those that a crash takes. */
  datatype LogView = LogView(kept: seq<Rec>, waiting: seq<Rec>)

  /** What an action means for the log: appending, flushing up to a record or altogether, and crashing. */
  function LogMeans(x: LogView, a: Action): LogView
  {
    match a
    case Append(page, lsn) => x.(waiting := x.waiting + [Rec(lsn, page)])
    case FlushLog(n) =>
      var all := x.kept + x.waiting;
      if n <= |all| then LogView(all[..n], all[n..]) else x
    case StartCheckpoint => LogView(x.kept + x.waiting, [])
    case ResetLog => LogView(x.kept + x.waiting, [])
    case Kill => x.(waiting := [])
    case PowerLoss => x.(waiting := [])
    case _ => x
  }

  function LogOf(actions: seq<Action>): LogView
  {
    if |actions| == 0 then LogView([], []) else LogMeans(LogOf(actions[..|actions| - 1]), actions[|actions| - 1])
  }

  ghost predicate ShowsLog(s: State, x: LogView)
  {
    Sized(s) && s.hist[..s.flushed] == x.kept && s.hist[s.flushed..] == x.waiting
  }

  lemma StepLogs(s: State, a: Action, x: LogView)
    requires Enabled(s, a) && ShowsLog(s, x)
    ensures ShowsLog(Do(s, a), LogMeans(x, a))
  {
    assert x.kept + x.waiting == s.hist;
  }

  /** In every state of every run the log holds what the actions have appended, flushed as far as they say. */
  lemma {:induction false} EveryLog(states: seq<State>, actions: seq<Action>, n: nat)
    requires IsRun(states, actions) && n < |states|
    ensures ShowsLog(states[n], LogOf(actions[..n]))
    decreases n
  {
    hide Enabled, Do, LogMeans;
    if n > 0 {
      EveryLog(states, actions, n - 1);
      assert actions[..n][..n - 1] == actions[..n - 1];
      StepLogs(states[n - 1], actions[n - 1], LogOf(actions[..n - 1]));
    }
  }

  // ----- the file -----

  /** Writing a page back brings the file up to the page in memory, and only that page. */
  lemma WriteReaches(s: State, a: Action)
    requires Enabled(s, a) && (a.Evict? || a.WriteDirty?)
    ensures At(Do(s, a).seen, a.page) == Current(s, a.page) > At(s.seen, a.page) && Do(s, a).disk == s.disk
    ensures forall page :: page != a.page ==> At(Do(s, a).seen, page) == At(s.seen, page)
    ensures (a.page, Current(s, a.page)) in Do(s, a).unsynced
  {
  }

  /** Syncing makes everything written durable, header and pages. */
  lemma SyncReaches(s: State, a: Action)
    requires Enabled(s, a)
    requires a.SyncHeader? || a.SyncReplayed? || a.SyncNewHeader? || (a.FinishFlush? && s.phase.wrote)
    ensures Do(s, a).disk == Do(s, a).seen == s.seen && Do(s, a).unsynced == {}
    ensures Do(s, a).ckpt == Do(s, a).ckptSeen == s.ckptSeen
  {
  }

  /** What the system writes back on its own reaches the disk. */
  lemma WritebackReaches(s: State, a: Action)
    requires Enabled(s, a)
    ensures a.WritebackPage? ==> At(Do(s, a).disk, a.page) == a.lsn > At(s.disk, a.page)
    ensures a.WritebackHeader? ==> Do(s, a).ckpt == s.ckptSeen
  {
  }

  /** The page flush of a checkpoint goes on until it is done: if every record is flushed, there is a page to write
      or nothing left to write. */
  lemma FlushGoesOn(s: State)
    requires ProtocolInv(s) && s.phase.Flushing? && s.flushed == |s.hist|
    ensures Enabled(s, FinishFlush) || exists page :: Enabled(s, WriteDirty(page))
  {
    if !Clean(s, s.phase.c) {
      var i :| 0 <= i < |s.hist| && s.hist[i].lsn <= s.phase.c && At(s.seen, s.hist[i].page) < s.hist[i].lsn;
      LastIs(s.hist, |s.hist|, s.hist[i].page);
      assert Enabled(s, WriteDirty(s.hist[i].page));
    }
  }

  /** A killed process loses the records that were not flushed, a power loss also what was not durable in the file. */
  lemma CrashLoses(s: State, a: Action)
    requires Enabled(s, a) && (a.Kill? || a.PowerLoss?)
    ensures var s' := Do(s, a);
      && s'.phase.Down? && s'.disk == s.disk && s'.ckpt == s.ckpt && s'.base == s.base
      && (forall page :: Current(s', page) == Last(s.hist, s.flushed, page))
      && (a.Kill? ==> s'.seen == s.seen && s'.ckptSeen == s.ckptSeen && s'.unsynced == s.unsynced)
      && (a.PowerLoss? ==> s'.seen == s.disk && s'.ckptSeen == s.ckpt && s'.unsynced == {})
  {
    var s' := Do(s, a);
    forall page
      ensures Current(s', page) == Last(s.hist, s.flushed, page)
    {
      assert s'.hist[..s.flushed] == s.hist[..s.flushed];
      LastSame(s.hist, s'.hist, s.flushed, page);
    }
  }

  /** A checkpoint flushes the log and notes an LSN that none of its records exceeds and one has, if there is any. */
  lemma CheckpointBegins(s: State)
    requires ProtocolInv(s) && Enabled(s, StartCheckpoint)
    ensures var s' := Do(s, StartCheckpoint);
      && s'.phase.Flushing? && !s'.phase.wrote && s'.hist == s.hist && s'.flushed == |s.hist|
      && (forall i :: 0 <= i < |s.hist| ==> s.hist[i].lsn <= s'.phase.c)
      && (|s.hist| > 0 ==> exists i :: 0 <= i < |s.hist| && s.hist[i].lsn == s'.phase.c)
  {
    MaxIs(s.hist, |s.hist|);
  }

  /** When a checkpoint or a recovery resets the log, the log is empty and the durable pages are those in memory. */
  lemma CheckpointEnds(s: State, a: Action)
    requires ProtocolInv(s) && Enabled(s, a) && (a.ResetLog? || (a.ResetAfterRecovery? && s.flushed == |s.hist|))
    requires Careful(s, a)
    ensures var s' := Do(s, a);
      && s'.phase.Running? && s'.base == s'.flushed == |s'.hist|
      && forall page :: At(s'.disk, page) == Current(s', page)
  {
    var s' := Do(s, a);
    StepOk(s, a);
    forall page
      ensures At(s'.disk, page) == Current(s', page)
    {
      LastIs(s'.hist, |s'.hist|, page);
      assert Genuine(s'.hist, s'.flushed, page, At(s'.disk, page));
    }
  }
}
