/**
 Checkpoint and recovery as a protocol that may crash after any step.

 A page's content is the log record it was last brought up to, so a page is its record's
 number (its LSN), 0 if it was never written.  The file has a durable content and a visible
 one; they differ in what was written since the last fsync, and the operating system may
 make any such write durable at any time.  A killed process loses its memory, a power loss
 loses what is not durable as well.  Log flushes and log truncation are durable at once.
 Mutations go on during a checkpoint; only recovery has the store to itself.
 */
module Recovery {

  datatype Rec = Rec(lsn: nat, page: nat)

  datatype Phase =
    | Running
    | Flushing(c: nat, wrote: bool)      // checkpoint: log flushed up to c, writing dirty pages
    | PagesDone(c: nat)                  // checkpoint: page flush returned
    | HeaderOut(c: nat)                  // checkpoint: header with c written, not synced
    | HeaderSynced(c: nat)               // checkpoint: header synced, log not reset
    | Down
    | Replaying(k: nat, i: nat)          // recovery: records up to i replayed, skipping those up to k
    | Replayed
    | ReplaySynced
    | NewHeaderOut
    | NewHeaderSynced

  datatype State = State(
    hist: seq<Rec>,                      // every record appended and not lost
    base: nat,                           // records before this one were truncated from the log
    flushed: nat,                        // records before this one are durable in the log, or truncated
    disk: map<nat, nat>,                 // durable pages
    seen: map<nat, nat>,                 // visible pages
    unsynced: set<(nat, nat)>,           // page writes since the last fsync
    ckpt: nat,                           // durable checkpoint LSN
    ckptSeen: nat,                       // visible checkpoint LSN
    phase: Phase)

  datatype Action =
    | Append(page: nat, lsn: nat)
    | FlushLog(n: nat)
    | Evict(page: nat)
    | StartCheckpoint | WriteDirty(page: nat) | FinishFlush | WriteHeader | SyncHeader | ResetLog
    | StartRecovery | ReplayNext | SyncReplayed | WriteNewHeader | SyncNewHeader | ResetAfterRecovery
    | WritebackPage(page: nat, lsn: nat) | WritebackHeader
    | Kill | PowerLoss

  function At(pages: map<nat, nat>, page: nat): nat
  {
    if page in pages then pages[page] else 0
  }

  /** The last record of a page among the first `n`, 0 if there is none. */
  function Last(hist: seq<Rec>, n: nat, page: nat): nat
    requires n <= |hist|
  {
    if n == 0 then 0 else if hist[n - 1].page == page then hist[n - 1].lsn else Last(hist, n - 1, page)
  }

  function MaxLsn(hist: seq<Rec>, n: nat): nat
    requires n <= |hist|
  {
    if n == 0 then 0 else hist[n - 1].lsn
  }

  /** What the page is in memory. */
  function Current(s: State, page: nat): nat
  {
    Last(s.hist, |s.hist|, page)
  }

  predicate Sized(s: State)
  {
    s.base <= s.flushed <= |s.hist|
  }

  /** Mutations run: outside recovery, also during a checkpoint. */
  predicate Working(phase: Phase)
  {
    phase.Running? || phase.Flushing? || phase.PagesDone? || phase.HeaderOut? || phase.HeaderSynced?
  }

  /** The page is newer in memory than in the file, and its last record is flushed. */
  predicate MayWrite(s: State, page: nat)
    requires Sized(s)
  {
    At(s.seen, page) < Current(s, page) && Current(s, page) == Last(s.hist, s.flushed, page)
  }

  /** No page with a change up to LSN `c` is newer in memory than in the file. */
  ghost predicate Clean(s: State, c: nat)
  {
    forall i :: 0 <= i < |s.hist| && s.hist[i].lsn <= c ==> At(s.seen, s.hist[i].page) >= s.hist[i].lsn
  }

  ghost predicate Enabled(s: State, a: Action)
  {
    && Sized(s)
    && match a
       case Append(_, lsn) => Working(s.phase) && lsn > MaxLsn(s.hist, |s.hist|) && lsn > s.ckptSeen
       case FlushLog(n) => Working(s.phase) && s.flushed <= n <= |s.hist|
       case Evict(page) => Working(s.phase) && MayWrite(s, page)
       case StartCheckpoint => s.phase.Running?
       case WriteDirty(page) => s.phase.Flushing? && MayWrite(s, page)
       case FinishFlush => s.phase.Flushing? && Clean(s, s.phase.c)
       case WriteHeader => s.phase.PagesDone?
       case SyncHeader => s.phase.HeaderOut?
       case ResetLog => s.phase.HeaderSynced?
       case StartRecovery => s.phase.Down?
       case ReplayNext => s.phase.Replaying? && s.phase.i < s.flushed
       case SyncReplayed => s.phase.Replayed?
       case WriteNewHeader => s.phase.ReplaySynced?
       case SyncNewHeader => s.phase.NewHeaderOut?
       case ResetAfterRecovery => s.phase.NewHeaderSynced?
       case WritebackPage(page, lsn) => (page, lsn) in s.unsynced && lsn > At(s.disk, page)
       case WritebackHeader => true
       case Kill => true
       case PowerLoss => true
  }

  function Fsync(s: State): State
  {
    s.(disk := s.seen, unsynced := {}, ckpt := s.ckptSeen)
  }

  function WritePage(s: State, page: nat, lsn: nat): State
  {
    s.(seen := s.seen[page := lsn], unsynced := s.unsynced + {(page, lsn)})
  }

  /** Recovery has replayed everything: with nothing newer than the checkpoint it is finished, else it starts a new
      one. */
  function AfterReplay(s: State, k: nat): Phase
    requires Sized(s)
  {
    if MaxLsn(s.hist, s.flushed) > k && s.base < s.flushed then Replayed else Running
  }

  ghost function Do(s: State, a: Action): State
    requires Enabled(s, a)
  {
    match a
    case Append(page, lsn) => s.(hist := s.hist + [Rec(lsn, page)])
    case FlushLog(n) => s.(flushed := n)
    case Evict(page) => WritePage(s, page, Current(s, page))
    case StartCheckpoint => s.(flushed := |s.hist|, phase := Flushing(MaxLsn(s.hist, |s.hist|), false))
    case WriteDirty(page) => WritePage(s, page, Current(s, page)).(phase := Flushing(s.phase.c, true))
    case FinishFlush => (if s.phase.wrote then Fsync(s) else s).(phase := PagesDone(s.phase.c))
    case WriteHeader => s.(ckptSeen := s.phase.c, phase := HeaderOut(s.phase.c))
    case SyncHeader => Fsync(s).(phase := HeaderSynced(s.phase.c))
    case ResetLog => s.(base := |s.hist|, flushed := |s.hist|, phase := Running)
    case StartRecovery => s.(phase := if s.base == s.flushed then Running else Replaying(s.ckptSeen, s.base))
    case ReplayNext =>
      var rec := s.hist[s.phase.i];
      var t := if rec.lsn <= s.phase.k || At(s.seen, rec.page) >= rec.lsn then s else WritePage(s, rec.page, rec.lsn);
      t.(phase := if s.phase.i + 1 < s.flushed then Replaying(s.phase.k, s.phase.i + 1) else AfterReplay(s, s.phase.k))
    case SyncReplayed => Fsync(s).(phase := ReplaySynced)
    case WriteNewHeader => s.(ckptSeen := MaxLsn(s.hist, s.flushed), phase := NewHeaderOut)
    case SyncNewHeader => Fsync(s).(phase := NewHeaderSynced)
    case ResetAfterRecovery => s.(base := s.flushed, phase := Running)
    case WritebackPage(page, lsn) => s.(disk := s.disk[page := lsn])
    case WritebackHeader => s.(ckpt := s.ckptSeen)
    case Kill => s.(hist := s.hist[..s.flushed], phase := Down)
    case PowerLoss => s.(hist := s.hist[..s.flushed], seen := s.disk, unsynced := {}, ckptSeen := s.ckpt, phase := Down)
  }

  // ----- what recovery rebuilds -----

  /** The version of a page after replaying records `i` to `n` on top of version `v`. */
  function Replay(hist: seq<Rec>, i: nat, n: nat, k: nat, page: nat, v: nat): nat
    requires i <= n <= |hist|
    decreases n - i
  {
    if i == n then v
    else
      var rec := hist[i];
      var v' := if rec.page == page && rec.lsn > k && v < rec.lsn then rec.lsn else v;
      Replay(hist, i + 1, n, k, page, v')
  }

  /** The version recovery finds for a page if the process opens the store in state `s`. */
  function Reopened(s: State, page: nat): nat
    requires Sized(s)
  {
    Replay(s.hist, s.base, s.flushed, s.ckptSeen, page, At(s.seen, page))
  }

  /** Opening the store in state `s` brings back exactly the flushed mutations. */
  ghost predicate RecoversAll(s: State)
    requires Sized(s)
  {
    forall page :: Reopened(s, page) == Last(s.hist, s.flushed, page)
  }

  // ----- the invariant -----

  ghost predicate Increasing(hist: seq<Rec>)
  {
    && (forall i :: 0 <= i < |hist| ==> hist[i].lsn > 0)
    && (forall i, j :: 0 <= i < j < |hist| ==> hist[i].lsn < hist[j].lsn)
  }

  /** `v` is 0 or a record of the page among the first `n`. */
  ghost predicate Genuine(hist: seq<Rec>, n: nat, page: nat, v: nat)
    requires n <= |hist|
  {
    v == 0 || exists i :: 0 <= i < n && hist[i] == Rec(v, page)
  }

  /** The pages whose last record among the first `n` is up to LSN `k` hold it. */
  ghost predicate Covers(pages: map<nat, nat>, hist: seq<Rec>, n: nat, k: nat)
    requires n <= |hist|
  {
    forall page :: Last(hist, n, page) <= k ==> At(pages, page) >= Last(hist, n, page)
  }

  /** The pages hold all of the first `n` records. */
  ghost predicate CoversAll(pages: map<nat, nat>, hist: seq<Rec>, n: nat)
    requires n <= |hist|
  {
    forall page :: At(pages, page) >= Last(hist, n, page)
  }

  ghost predicate PagesOk(s: State)
    requires Sized(s)
  {
    && (forall page :: Genuine(s.hist, s.flushed, page, At(s.disk, page)))
    && (forall page :: Genuine(s.hist, s.flushed, page, At(s.seen, page)))
    && (forall page, lsn :: (page, lsn) in s.unsynced ==>
          Genuine(s.hist, s.flushed, page, lsn) && lsn <= At(s.seen, page))
    && (forall page :: At(s.disk, page) <= At(s.seen, page))
    && (s.unsynced == {} ==> forall page :: At(s.disk, page) == At(s.seen, page))
  }

  /** Every page holds its last record among the first `i`, or a later one will be replayed. */
  ghost predicate ReplayedTo(s: State, k: nat, i: nat)
    requires i <= s.flushed <= |s.hist|
  {
    forall page ::
      || At(s.seen, page) >= Last(s.hist, i, page)
      || (Last(s.hist, s.flushed, page) > k && Last(s.hist, s.flushed, page) > Last(s.hist, i, page))
  }

  ghost predicate PhaseOk(s: State)
    requires Sized(s)
  {
    match s.phase
    case Running => true
    case Flushing(c, _) => s.ckptSeen <= c <= MaxLsn(s.hist, s.flushed)
    case PagesDone(c) => s.ckptSeen <= c <= MaxLsn(s.hist, s.flushed) && Covers(s.seen, s.hist, s.flushed, c)
    case HeaderOut(c) => s.ckptSeen == c
    case HeaderSynced(c) => s.ckpt == s.ckptSeen == c
    case Down => true
    case Replaying(k, i) => k == s.ckptSeen && s.base <= i < s.flushed && ReplayedTo(s, k, i)
    case Replayed => CoversAll(s.seen, s.hist, s.flushed)
    case ReplaySynced => CoversAll(s.disk, s.hist, s.flushed)
    case NewHeaderOut => s.ckptSeen == MaxLsn(s.hist, s.flushed)
    case NewHeaderSynced => s.ckpt == s.ckptSeen == MaxLsn(s.hist, s.flushed)
  }

  /** Nothing the visible header lets recovery skip is missing from the durable pages. */
  ghost predicate ProtocolInv(s: State)
  {
    && Sized(s) && Increasing(s.hist) && PagesOk(s) && s.ckpt <= s.ckptSeen <= MaxLsn(s.hist, s.flushed)
    && Covers(s.disk, s.hist, s.flushed, s.ckptSeen)
    && CoversAll(s.disk, s.hist, s.base)
    && (forall i :: s.flushed <= i < |s.hist| ==> s.hist[i].lsn > s.ckptSeen)
    && PhaseOk(s)
  }

  ghost predicate Init(s: State)
  {
    s == State([], 0, 0, map[], map[], {}, 0, 0, Running)
  }

  // ----- recovery from an invariant state -----

  lemma {:induction false} LastIs(hist: seq<Rec>, n: nat, page: nat)
    requires Increasing(hist) && n <= |hist|
    ensures Genuine(hist, n, page, Last(hist, n, page))
    ensures forall i :: 0 <= i < n && hist[i].page == page ==> hist[i].lsn <= Last(hist, n, page)
    decreases n
  {
    if n > 0 {
      LastIs(hist, n - 1, page);
      if hist[n - 1].page != page {
        assert Genuine(hist, n - 1, page, Last(hist, n - 1, page));
      } else {
        assert hist[n - 1] == Rec(hist[n - 1].lsn, page);
      }
    }
  }

  /** Replaying ends at the last record if the start was that version, or the record is among those replayed. */
  lemma {:induction false} ReplayReaches(hist: seq<Rec>, i: nat, n: nat, k: nat, page: nat, v: nat)
    requires Increasing(hist) && i <= n <= |hist| && v <= Last(hist, n, page)
    requires
      || v == Last(hist, n, page)
      || (Last(hist, n, page) > k && exists j :: i <= j < n && hist[j] == Rec(Last(hist, n, page), page))
    ensures Replay(hist, i, n, k, page, v) == Last(hist, n, page)
    decreases n - i
  {
    LastIs(hist, n, page);
    if i < n {
      var rec := hist[i];
      var v' := if rec.page == page && rec.lsn > k && v < rec.lsn then rec.lsn else v;
      if v' != Last(hist, n, page) {
        var j :| i <= j < n && hist[j] == Rec(Last(hist, n, page), page);
        assert j != i;
      }
      ReplayReaches(hist, i + 1, n, k, page, v');
    }
  }

  /** In every state that satisfies the invariant, opening the store brings back exactly the flushed mutations. */
  lemma InvRecovers(s: State)
    requires ProtocolInv(s)
    ensures RecoversAll(s)
  {
    forall page
      ensures Reopened(s, page) == Last(s.hist, s.flushed, page)
    {
      PageRecovers(s, page);
    }
  }

  lemma InvSized(s: State)
    requires ProtocolInv(s)
    ensures Sized(s)
  {
  }

  lemma PageRecovers(s: State, page: nat)
    requires ProtocolInv(s)
    ensures Reopened(s, page) == Last(s.hist, s.flushed, page)
  {
    hide PhaseOk;
    LastIs(s.hist, s.flushed, page);
    LastGrows(s.hist, s.base, s.flushed, page);
    assert At(s.disk, page) >= Last(s.hist, s.base, page);
    ReplayReaches(s.hist, s.base, s.flushed, s.ckptSeen, page, At(s.seen, page));
  }

  /** The last record of a page among more records is the same, or one of those that came on. */
  lemma {:induction false} LastGrows(hist: seq<Rec>, n: nat, n': nat, page: nat)
    requires Increasing(hist) && n <= n' <= |hist|
    ensures Last(hist, n', page) >= Last(hist, n, page)
    ensures
      || Last(hist, n', page) == Last(hist, n, page)
      || exists j :: n <= j < n' && hist[j] == Rec(Last(hist, n', page), page)
    decreases n'
  {
    if n < n' {
      LastGrows(hist, n, n' - 1, page);
      LastIs(hist, n, page);
      if hist[n' - 1].page == page {
        assert hist[n' - 1] == Rec(Last(hist, n', page), page);
      } else if Last(hist, n', page) != Last(hist, n, page) {
        var j :| n <= j < n' - 1 && hist[j] == Rec(Last(hist, n' - 1, page), page);
      }
    }
  }

  /** Records behind the first `n` do not matter to them. */
  lemma {:induction false} LastSame(hist: seq<Rec>, hist': seq<Rec>, n: nat, page: nat)
    requires n <= |hist| && n <= |hist'| && hist[..n] == hist'[..n]
    ensures Last(hist, n, page) == Last(hist', n, page)
    decreases n
  {
    if n > 0 {
      assert hist[n - 1] == hist[..n][n - 1] == hist'[n - 1];
      assert hist[..n - 1] == hist[..n][..n - 1] == hist'[..n - 1];
      LastSame(hist, hist', n - 1, page);
    }
  }

  // ----- every careful step keeps the invariant -----

  /** The conditions the checkpoint needs and the code does not ensure: when the new header is written, the durable
      pages hold every record it lets recovery skip; when the log is reset, they hold every record there is. */
  ghost predicate Careful(s: State, a: Action)
    requires Sized(s)
  {
    && (a.WriteHeader? ==> s.phase.PagesDone? && Covers(s.disk, s.hist, s.flushed, s.phase.c))
    && (a.ResetLog? ==> CoversAll(s.disk, s.hist, |s.hist|))
  }

  lemma LongerGenuine(hist: seq<Rec>, n: nat, hist': seq<Rec>, n': nat, page: nat, v: nat)
    requires n <= |hist| && n' <= |hist'| && n <= n' && hist[..n] == hist'[..n] && Genuine(hist, n, page, v)
    ensures Genuine(hist', n', page, v)
  {
    if v != 0 {
      var i :| 0 <= i < n && hist[i] == Rec(v, page);
      assert hist'[i] == hist[..n][i];
    }
  }

  /** With more records flushed, or others appended, the pages are still genuine. */
  lemma PagesStayOk(s: State, s': State)
    requires Sized(s) && PagesOk(s) && Sized(s') && s.flushed <= s'.flushed
    requires s.hist[..s.flushed] == s'.hist[..s.flushed]
    requires s'.disk == s.disk && s'.seen == s.seen && s'.unsynced == s.unsynced
    ensures PagesOk(s')
  {
    forall page, v | Genuine(s.hist, s.flushed, page, v)
      ensures Genuine(s'.hist, s'.flushed, page, v)
    {
      LongerGenuine(s.hist, s.flushed, s'.hist, s'.flushed, page, v);
    }
  }

  /** With more records flushed that the header does not let recovery skip, the pages cover what they covered. */
  lemma CoversKept(pages: map<nat, nat>, hist: seq<Rec>, n: nat, hist': seq<Rec>, n': nat, k: nat)
    requires n <= |hist| && n <= n' <= |hist'| && hist[..n] == hist'[..n] && Increasing(hist')
    requires Covers(pages, hist, n, k)
    requires forall i :: n <= i < n' ==> hist'[i].lsn > k
    ensures Covers(pages, hist', n', k)
  {
    forall page | Last(hist', n', page) <= k
      ensures At(pages, page) >= Last(hist', n', page)
    {
      LastGrows(hist', n, n', page);
      LastSame(hist, hist', n, page);
    }
  }

  lemma AllKept(pages: map<nat, nat>, hist: seq<Rec>, hist': seq<Rec>, n: nat)
    requires n <= |hist| && n <= |hist'| && hist[..n] == hist'[..n] && CoversAll(pages, hist, n)
    ensures CoversAll(pages, hist', n)
  {
    forall page
      ensures At(pages, page) >= Last(hist', n, page)
    {
      LastSame(hist, hist', n, page);
    }
  }

  /** Appending and flushing records change nothing on disk. */
  lemma LogOk(s: State, s': State)
    requires ProtocolInv(s) && Working(s.phase) && Sized(s') && Increasing(s'.hist) && |s.hist| <= |s'.hist|
    requires s' == s.(hist := s'.hist, flushed := s'.flushed, phase := s'.phase) && s.flushed <= s'.flushed
    requires s.hist == s'.hist[..|s.hist|] && forall i :: |s.hist| <= i < |s'.hist| ==> s'.hist[i].lsn > s.ckptSeen
    requires s'.phase == s.phase || (s'.phase.Flushing? && s.ckptSeen <= s'.phase.c <= MaxLsn(s'.hist, s'.flushed))
    ensures ProtocolInv(s')
  {
    hide PagesOk, At;
    var n, n' := s.flushed, s'.flushed;
    assert s'.hist[..n] == s.hist[..n] && s'.hist[..s.base] == s.hist[..s.base];
    PagesStayOk(s, s');
    forall i | n <= i < |s'.hist|
      ensures s'.hist[i].lsn > s.ckptSeen
    {
      if i < |s.hist| {
        assert s'.hist[i] == s.hist[i];
      }
    }
    MaxGrows(s.hist, n, s'.hist, n');
    CoversKept(s.disk, s.hist, n, s'.hist, n', s.ckptSeen);
    AllKept(s.disk, s.hist, s'.hist, s.base);
    if s'.phase.PagesDone? {
      MaxIs(s'.hist, n);
      assert n > 0 ==> s'.hist[n - 1] == s.hist[n - 1];
      CoversKept(s.seen, s.hist, n, s'.hist, n', s.phase.c);
    }
  }

  lemma MaxGrows(hist: seq<Rec>, n: nat, hist': seq<Rec>, n': nat)
    requires n <= |hist| && n <= n' <= |hist'| && hist[..n] == hist'[..n] && Increasing(hist')
    ensures MaxLsn(hist, n) == MaxLsn(hist', n) <= MaxLsn(hist', n')
  {
    if n > 0 {
      assert hist[n - 1] == hist[..n][n - 1] == hist'[n - 1];
    }
  }

  lemma AppendOk(s: State, a: Action)
    requires ProtocolInv(s) && Enabled(s, a) && a.Append?
    ensures ProtocolInv(Do(s, a))
  {
    hide PagesOk, Covers, CoversAll, PhaseOk;
    LogOk(s, Do(s, a));
  }

  lemma FlushOk(s: State, a: Action)
    requires ProtocolInv(s) && Enabled(s, a) && (a.FlushLog? || a.StartCheckpoint?)
    ensures ProtocolInv(Do(s, a))
  {
    hide PagesOk, Covers, CoversAll, PhaseOk;
    MaxGrows(s.hist, s.flushed, s.hist, |s.hist|);
    LogOk(s, Do(s, a));
  }

  lemma CrashOk(s: State, a: Action)
    requires ProtocolInv(s) && Enabled(s, a) && (a.Kill? || a.PowerLoss?)
    ensures ProtocolInv(Do(s, a))
  {
    hide PagesOk, Genuine, Covers, CoversAll;
    var s' := Do(s, a);
    assert s'.hist[..s.flushed] == s.hist[..s.flushed] && s'.hist[..s.base] == s.hist[..s.base];
    if a.Kill? {
      PagesStayOk(s, s');
    } else {
      LostOk(s, s');
    }
    CoversLess(s.disk, s.hist, s'.hist, s.flushed, s.ckptSeen, s'.ckptSeen);
    AllKept(s.disk, s.hist, s'.hist, s.base);
  }

  lemma LostOk(s: State, s': State)
    requires Sized(s) && PagesOk(s) && Sized(s') && s.flushed == s'.flushed
    requires s.hist[..s.flushed] == s'.hist[..s.flushed]
    requires s'.disk == s.disk && s'.seen == s.disk && s'.unsynced == {}
    ensures PagesOk(s')
  {
    hide Genuine;
    forall page
      ensures Genuine(s'.hist, s'.flushed, page, At(s.disk, page))
    {
      LongerGenuine(s.hist, s.flushed, s'.hist, s'.flushed, page, At(s.disk, page));
    }
  }

  lemma CoversLess(pages: map<nat, nat>, hist: seq<Rec>, hist': seq<Rec>, n: nat, k: nat, k': nat)
    requires n <= |hist| && n <= |hist'| && hist[..n] == hist'[..n] && k' <= k && Covers(pages, hist, n, k)
    ensures Covers(pages, hist', n, k')
  {
    forall page | Last(hist', n, page) <= k'
      ensures At(pages, page) >= Last(hist', n, page)
    {
      LastSame(hist, hist', n, page);
    }
  }

  /** Writing a newer genuine version of a page. */
  lemma WriteOk(s: State, page: nat, lsn: nat)
    requires Sized(s) && PagesOk(s) && Genuine(s.hist, s.flushed, page, lsn) && At(s.seen, page) < lsn
    ensures PagesOk(WritePage(s, page, lsn))
    ensures forall p :: At(s.seen, p) <= At(WritePage(s, page, lsn).seen, p)
  {
    var s' := WritePage(s, page, lsn);
    assert forall p :: At(s'.seen, p) == if p == page then lsn else At(s.seen, p);
    assert (page, lsn) in s'.unsynced;
  }

  lemma EvictOk(s: State, a: Action)
    requires ProtocolInv(s) && Enabled(s, a) && (a.Evict? || a.WriteDirty?)
    ensures ProtocolInv(Do(s, a))
  {
    hide PagesOk, Covers, CoversAll, Genuine, At;
    LastIs(s.hist, s.flushed, a.page);
    WriteOk(s, a.page, Current(s, a.page));
    SamePages(WritePage(s, a.page, Current(s, a.page)), Do(s, a));
    if s.phase.PagesDone? {
      CoversMore(s.seen, Do(s, a).seen, s.hist, s.flushed, s.phase.c);
    }
  }

  lemma FsyncOk(s: State)
    requires Sized(s) && PagesOk(s)
    ensures PagesOk(Fsync(s))
  {
  }

  lemma CoversMore(pages: map<nat, nat>, pages': map<nat, nat>, hist: seq<Rec>, n: nat, k: nat)
    requires n <= |hist| && forall page :: At(pages, page) <= At(pages', page)
    ensures Covers(pages, hist, n, k) ==> Covers(pages', hist, n, k)
    ensures CoversAll(pages, hist, n) ==> CoversAll(pages', hist, n)
  {
    assert forall page :: At(pages, page) <= At(pages', page);
    if Covers(pages, hist, n, k) {
      forall page | Last(hist, n, page) <= k
        ensures At(pages', page) >= Last(hist, n, page)
      {
        assert At(pages, page) <= At(pages', page);
      }
    }
    if CoversAll(pages, hist, n) {
      forall page
        ensures At(pages', page) >= Last(hist, n, page)
      {
        assert At(pages, page) <= At(pages', page);
      }
    }
  }

  lemma SyncOk(s: State, a: Action)
    requires ProtocolInv(s) && Enabled(s, a) && (a.SyncHeader? || a.SyncReplayed? || a.SyncNewHeader?)
    ensures ProtocolInv(Do(s, a))
  {
    hide PagesOk, Covers, CoversAll;
    FsyncOk(s);
    PagesStayOk(Fsync(s), Do(s, a));
    DiskBehind(s);
    CoversMore(s.disk, s.seen, s.hist, s.flushed, s.ckptSeen);
    CoversMore(s.disk, s.seen, s.hist, s.base, s.ckptSeen);
  }

  lemma DiskBehind(s: State)
    requires Sized(s) && PagesOk(s)
    ensures forall page :: At(s.disk, page) <= At(s.seen, page)
  {
  }

  lemma FinishOk(s: State)
    requires ProtocolInv(s) && Enabled(s, FinishFlush)
    ensures ProtocolInv(Do(s, FinishFlush))
  {
    hide PagesOk, Covers, CoversAll, Clean;
    FsyncOk(s);
    var t := if s.phase.wrote then Fsync(s) else s;
    PagesStayOk(t, Do(s, FinishFlush));
    DiskBehind(s);
    CoversMore(s.disk, s.seen, s.hist, s.flushed, s.ckptSeen);
    CoversMore(s.disk, s.seen, s.hist, s.base, s.ckptSeen);
    CleanCovers(s, s.phase.c);
  }

  lemma CleanCovers(s: State, c: nat)
    requires Sized(s) && Increasing(s.hist) && Clean(s, c)
    ensures Covers(s.seen, s.hist, s.flushed, c)
  {
    forall page | Last(s.hist, s.flushed, page) <= c
      ensures At(s.seen, page) >= Last(s.hist, s.flushed, page)
    {
      LastIs(s.hist, s.flushed, page);
    }
  }

  lemma HeaderOk(s: State, a: Action)
    requires ProtocolInv(s) && Enabled(s, a) && (a.WriteHeader? || a.WriteNewHeader?) && Careful(s, a)
    ensures ProtocolInv(Do(s, a))
  {
    hide PagesOk, Genuine, At;
    MaxIs(s.hist, s.flushed);
    PagesStayOk(s, Do(s, a));
  }

  /** A header write keeps the invariant if and only if it is careful. */
  lemma CarefulIff(s: State)
    requires ProtocolInv(s) && Enabled(s, WriteHeader)
    ensures ProtocolInv(Do(s, WriteHeader)) <==> Careful(s, WriteHeader)
  {
    hide PagesOk, Covers, CoversAll, Increasing;
    if Careful(s, WriteHeader) {
      HeaderOk(s, WriteHeader);
    }
  }

  /** A log reset keeps the invariant if and only if it is careful. */
  lemma ResetIff(s: State)
    requires ProtocolInv(s) && Enabled(s, ResetLog)
    ensures ProtocolInv(Do(s, ResetLog)) <==> Careful(s, ResetLog)
  {
    hide PagesOk, Covers, CoversAll, Increasing;
    if Careful(s, ResetLog) {
      ResetOk(s, ResetLog);
    }
  }

  lemma MaxIs(hist: seq<Rec>, n: nat)
    requires Increasing(hist) && n <= |hist|
    ensures forall i :: 0 <= i < n ==> hist[i].lsn <= MaxLsn(hist, n)
    ensures forall i :: n <= i < |hist| ==> MaxLsn(hist, n) < hist[i].lsn
  {
  }

  lemma ResetOk(s: State, a: Action)
    requires ProtocolInv(s) && Enabled(s, a) && (a.ResetLog? || a.ResetAfterRecovery?) && Careful(s, a)
    ensures ProtocolInv(Do(s, a))
  {
    hide PagesOk, At;
    var s' := Do(s, a);
    PagesStayOk(s, s');
    MaxGrows(s.hist, s.flushed, s.hist, s'.flushed);
    if a.ResetAfterRecovery? {
      MaxCovers(s);
    } else {
      CoversKept(s.disk, s.hist, s.flushed, s.hist, s'.flushed, s.ckptSeen);
    }
  }

  /** With the last LSN in the header, covering what it lets recovery skip is covering everything. */
  lemma MaxCovers(s: State)
    requires Sized(s) && Increasing(s.hist) && Covers(s.disk, s.hist, s.flushed, MaxLsn(s.hist, s.flushed))
    ensures CoversAll(s.disk, s.hist, s.flushed)
  {
    forall page
      ensures At(s.disk, page) >= Last(s.hist, s.flushed, page)
    {
      LastIs(s.hist, s.flushed, page);
      MaxIs(s.hist, s.flushed);
    }
  }

  /** The operating system makes a page write durable on its own. */
  lemma DurablePageOk(s: State, page: nat, lsn: nat)
    requires Sized(s) && PagesOk(s) && (page, lsn) in s.unsynced && lsn > At(s.disk, page)
    ensures PagesOk(s.(disk := s.disk[page := lsn])) && forall p :: At(s.disk, p) <= At(s.disk[page := lsn], p)
  {
    hide Genuine;
    var s' := s.(disk := s.disk[page := lsn]);
    assert forall p :: At(s'.disk, p) == if p == page then lsn else At(s.disk, p);
  }

  lemma WritebackOk(s: State, a: Action)
    requires ProtocolInv(s) && Enabled(s, a) && (a.WritebackPage? || a.WritebackHeader?)
    ensures ProtocolInv(Do(s, a))
  {
    hide PagesOk, Covers, CoversAll, At;
    if a.WritebackPage? {
      DurablePageOk(s, a.page, a.lsn);
      CoversMore(s.disk, s.disk[a.page := a.lsn], s.hist, s.flushed, s.ckptSeen);
      CoversMore(s.disk, s.disk[a.page := a.lsn], s.hist, s.base, s.ckptSeen);
    } else {
      HeaderDurableOk(s);
    }
  }

  lemma HeaderDurableOk(s: State)
    requires Sized(s) && PagesOk(s)
    ensures PagesOk(s.(ckpt := s.ckptSeen))
  {
    hide Genuine, At;
  }

  lemma StartRecoveryOk(s: State)
    requires ProtocolInv(s) && Enabled(s, StartRecovery)
    ensures ProtocolInv(Do(s, StartRecovery))
  {
    hide PagesOk, Covers;
    DiskBehind(s);
    SamePages(s, Do(s, StartRecovery));
    CoversMore(s.disk, s.seen, s.hist, s.base, s.ckptSeen);
  }

  /** Replaying one record brings its page up to it, unless a later record does. */
  lemma ReplayCovers(s: State, t: State, k: nat, i: nat)
    requires Sized(s) && PagesOk(s) && Increasing(s.hist) && i < s.flushed && Covers(s.disk, s.hist, s.flushed, k)
    requires ReplayedTo(s, k, i)
    requires var rec := s.hist[i];
      t == if rec.lsn <= k || At(s.seen, rec.page) >= rec.lsn then s else WritePage(s, rec.page, rec.lsn)
    ensures PagesOk(t) && ReplayedTo(t, k, i + 1)
  {
    hide Genuine;
    var rec := s.hist[i];
    LastIs(s.hist, s.flushed, rec.page);
    if rec.lsn > k && At(s.seen, rec.page) < rec.lsn {
      RecordIsGenuine(s.hist, s.flushed, i);
      WriteOk(s, rec.page, rec.lsn);
    }
    forall page
      ensures || At(t.seen, page) >= Last(s.hist, i + 1, page)
              || (Last(s.hist, s.flushed, page) > k && Last(s.hist, s.flushed, page) > Last(s.hist, i + 1, page))
    {
      assert At(s.disk, page) <= At(s.seen, page) <= At(t.seen, page);
      assert page != rec.page ==> Last(s.hist, i + 1, page) == Last(s.hist, i, page);
    }
  }

  lemma RecordIsGenuine(hist: seq<Rec>, n: nat, i: nat)
    requires i < n <= |hist|
    ensures Genuine(hist, n, hist[i].page, hist[i].lsn)
  {
    assert hist[i] == Rec(hist[i].lsn, hist[i].page);
  }

  lemma ReplayOk(s: State)
    requires ProtocolInv(s) && Enabled(s, ReplayNext)
    ensures ProtocolInv(Do(s, ReplayNext))
  {
    hide PagesOk, Covers, At, Genuine, ReplayedTo, CoversAll, Increasing;
    var i, k := s.phase.i, s.phase.k;
    var rec := s.hist[i];
    var t := if rec.lsn <= k || At(s.seen, rec.page) >= rec.lsn then s else WritePage(s, rec.page, rec.lsn);
    ReplayCovers(s, t, k, i);
    SamePages(t, Do(s, ReplayNext));
    if i + 1 == s.flushed {
      ReplayEnds(t, k);
    } else {
      SameReplayed(t, Do(s, ReplayNext), k, i + 1);
    }
  }

  lemma ReplayEnds(s: State, k: nat)
    requires Sized(s) && ReplayedTo(s, k, s.flushed)
    ensures CoversAll(s.seen, s.hist, s.flushed)
  {
  }

  lemma SameReplayed(s: State, s': State, k: nat, i: nat)
    requires i <= s.flushed <= |s.hist| && s'.hist == s.hist && s'.flushed == s.flushed && s'.seen == s.seen
    requires ReplayedTo(s, k, i)
    ensures ReplayedTo(s', k, i)
  {
  }

  lemma SamePages(s: State, s': State)
    requires Sized(s) && PagesOk(s) && Sized(s') && s'.hist == s.hist && s'.flushed == s.flushed
    requires s'.disk == s.disk && s'.seen == s.seen && s'.unsynced == s.unsynced
    ensures PagesOk(s')
  {
    hide Genuine, At;
  }

  /** Every step of the protocol keeps the invariant, as long as checkpoints write their header carefully. */
  lemma StepOk(s: State, a: Action)
    requires ProtocolInv(s) && Enabled(s, a) && Careful(s, a)
    ensures ProtocolInv(Do(s, a))
  {
    hide ProtocolInv, Enabled, Do;
    match a
    case Append(_, _) => AppendOk(s, a);
    case FlushLog(_) => FlushOk(s, a);
    case Evict(_) => EvictOk(s, a);
    case StartCheckpoint => FlushOk(s, a);
    case WriteDirty(_) => EvictOk(s, a);
    case FinishFlush => FinishOk(s);
    case WriteHeader => HeaderOk(s, a);
    case SyncHeader => SyncOk(s, a);
    case ResetLog => ResetOk(s, a);
    case StartRecovery => StartRecoveryOk(s);
    case ReplayNext => ReplayOk(s);
    case SyncReplayed => SyncOk(s, a);
    case WriteNewHeader => HeaderOk(s, a);
    case SyncNewHeader => SyncOk(s, a);
    case ResetAfterRecovery => ResetOk(s, a);
    case WritebackPage(_, _) => WritebackOk(s, a);
    case WritebackHeader => WritebackOk(s, a);
    case Kill => CrashOk(s, a);
    case PowerLoss => CrashOk(s, a);
  }

  ghost predicate IsRun(states: seq<State>, actions: seq<Action>)
  {
    && |states| == |actions| + 1 && Init(states[0])
    && (forall i :: 0 <= i < |actions| ==>
          && Enabled(states[i], actions[i]) && Careful(states[i], actions[i])
          && states[i + 1] == Do(states[i], actions[i]))
  }

  lemma {:induction false} RunOk(states: seq<State>, actions: seq<Action>, n: nat)
    requires IsRun(states, actions) && n < |states|
    ensures ProtocolInv(states[n])
    decreases n
  {
    hide ProtocolInv, Enabled, Do, Careful;
    if n == 0 {
      InitOk(states[0]);
    } else {
      RunOk(states, actions, n - 1);
      StepOk(states[n - 1], actions[n - 1]);
    }
  }

  lemma InitOk(s: State)
    requires Init(s)
    ensures ProtocolInv(s)
  {
  }

  /** However often the store crashes, in whatever step of work, checkpoint or recovery, opening it brings back
      exactly the mutations whose log records were flushed. */
  lemma EveryCrashRecovers(states: seq<State>, actions: seq<Action>, n: nat)
    requires IsRun(states, actions) && n < |states|
    ensures Sized(states[n]) && RecoversAll(states[n])
  {
    hide IsRun;
    RunOk(states, actions, n);
    InvRecovers(states[n]);
  }

  /** A recovery that runs to its end has brought the visible pages to the flushed mutations. */
  lemma RecoveryFinishes(s: State)
    requires ProtocolInv(s) && s.phase.ReplaySynced?
    ensures forall page :: At(s.disk, page) == At(s.seen, page) == Last(s.hist, s.flushed, page)
  {
    MaxIs(s.hist, s.flushed);
    forall page
      ensures At(s.disk, page) == At(s.seen, page) == Last(s.hist, s.flushed, page)
    {
      LastIs(s.hist, s.flushed, page);
      assert Genuine(s.hist, s.flushed, page, At(s.disk, page)) && Genuine(s.hist, s.flushed, page, At(s.seen, page));
    }
  }

  // ----- the careless checkpoint -----

  /** When the header is written, a power loss right after the header reached the disk recovers everything if and only
      if the durable pages already held every flushed record that the header lets recovery skip. */
  lemma HeaderSafeIff(s: State)
    requires ProtocolInv(s) && s.phase.PagesDone?
    ensures var lost := Do(Do(Do(s, WriteHeader), WritebackHeader), PowerLoss);
      Sized(lost) && (RecoversAll(lost) <==> Covers(s.disk, s.hist, s.flushed, s.phase.c))
  {
    hide ProtocolInv, Covers, Reopened, Last;
    InvSized(s);
    var s1 := Do(s, WriteHeader);
    var s2 := Do(s1, WritebackHeader);
    var lost := Do(s2, PowerLoss);
    if Covers(s.disk, s.hist, s.flushed, s.phase.c) {
      StepOk(s, WriteHeader);
      StepOk(s1, WritebackHeader);
      StepOk(s2, PowerLoss);
      InvRecovers(lost);
    } else {
      SkippedIsLost(s, lost);
    }
  }

  /** A page whose last record the header lets recovery skip is found as it is on disk. */
  lemma SkippedIsLost(s: State, lost: State)
    requires ProtocolInv(s) && s.phase.PagesDone? && !Covers(s.disk, s.hist, s.flushed, s.phase.c)
    requires lost.hist == s.hist[..s.flushed] && lost.base == s.base && lost.flushed == s.flushed && lost.seen == s.disk
    requires lost.ckptSeen == s.phase.c
    ensures !RecoversAll(lost)
  {
    var page :| Last(s.hist, s.flushed, page) <= s.phase.c && At(s.disk, page) < Last(s.hist, s.flushed, page);
    assert lost.hist[..s.flushed] == s.hist[..s.flushed];
    LastSame(s.hist, lost.hist, s.flushed, page);
    LastIs(s.hist, s.flushed, page);
    NothingReplayed(lost.hist, s.base, s.flushed, s.phase.c, page, At(s.disk, page));
    assert Reopened(lost, page) != Last(lost.hist, s.flushed, page);
  }

  lemma {:induction false} NothingReplayed(hist: seq<Rec>, i: nat, n: nat, k: nat, page: nat, v: nat)
    requires i <= n <= |hist| && forall j :: 0 <= j < n && hist[j].page == page ==> hist[j].lsn <= k
    ensures Replay(hist, i, n, k, page, v) == v
    decreases n - i
  {
    if i < n {
      NothingReplayed(hist, i + 1, n, k, page, v);
    }
  }

  /** A synced page flush, or no unsynced page write, makes the header safe. */
  lemma SyncedIsSafe(s: State)
    requires ProtocolInv(s) && s.phase.PagesDone? && s.unsynced == {}
    ensures Careful(s, WriteHeader)
  {
    CoversMore(s.seen, s.disk, s.hist, s.flushed, s.phase.c);
  }

  /** A mutation whose page was evicted but not synced: the checkpoint finds nothing dirty, writes its header, and a
      power loss that keeps the header loses the mutation. */
  ghost function EvictedThenCheckpoint(): State
  {
    State([Rec(1, 7)], 0, 1, map[], map[7 := 1], {(7, 1)}, 0, 0, PagesDone(1))
  }

  /** One appended, flushed and evicted record leads there without any fsync. */
  lemma CarelessCheckpointRuns()
    ensures var s0 := State([], 0, 0, map[], map[], {}, 0, 0, Running);
      var s1 := State([Rec(1, 7)], 0, 0, map[], map[], {}, 0, 0, Running);
      var s2 := s1.(flushed := 1);
      && Init(s0) && Enabled(s0, Append(7, 1)) && Do(s0, Append(7, 1)) == s1
      && Enabled(s1, FlushLog(1)) && Do(s1, FlushLog(1)) == s2
      && Enabled(s2, Evict(7)) && Do(s2, Evict(7)) == s2.(seen := map[7 := 1], unsynced := {(7, 1)})
  {
    assert [] + [Rec(1, 7)] == [Rec(1, 7)];
    assert map[][7 := 1] == map[7 := 1];
  }

  lemma CarelessCheckpointFlushes()
    ensures var s3 := State([Rec(1, 7)], 0, 1, map[], map[7 := 1], {(7, 1)}, 0, 0, Running);
      var s4 := s3.(phase := Flushing(1, false));
      && Enabled(s3, StartCheckpoint) && Do(s3, StartCheckpoint) == s4
      && Enabled(s4, FinishFlush) && Do(s4, FinishFlush) == EvictedThenCheckpoint()
  {
    var hist := [Rec(1, 7)];
    forall page
      ensures Last(hist, 1, page) == if page == 7 then 1 else 0
    {
      assert Last(hist, 0, page) == 0;
    }
  }

  lemma CarelessCheckpointLoses()
    ensures var s := EvictedThenCheckpoint();
      && Enabled(s, WriteHeader) && !Careful(s, WriteHeader)
      && var lost := Do(Do(Do(s, WriteHeader), WritebackHeader), PowerLoss);
         Sized(lost) && Last(lost.hist, lost.flushed, 7) == 1 && Reopened(lost, 7) == 0
  {
    var s := EvictedThenCheckpoint();
    assert s.hist[..1] == s.hist;
    assert Last(s.hist, 1, 7) == 1 && At(s.disk, 7) == 0;
    NothingReplayed(s.hist, 0, 1, 1, 7, 0);
  }

  // ----- the busy checkpoint -----

  /** Resetting the log flushes it and then drops it: a power loss right after recovers everything if and only if the
      durable pages already held every record, those appended since the checkpoint began included. */
  lemma ResetSafeIff(s: State)
    requires ProtocolInv(s) && s.phase.HeaderSynced?
    ensures var lost := Do(Do(s, ResetLog), PowerLoss);
      Sized(lost) && (RecoversAll(lost) <==> CoversAll(s.disk, s.hist, |s.hist|))
  {
    hide ProtocolInv, CoversAll, Last;
    InvSized(s);
    var s1 := Do(s, ResetLog);
    var lost := Do(s1, PowerLoss);
    if CoversAll(s.disk, s.hist, |s.hist|) {
      StepOk(s, ResetLog);
      StepOk(s1, PowerLoss);
      InvRecovers(lost);
    } else {
      DroppedIsLost(s, lost);
    }
  }

  lemma DroppedIsLost(s: State, lost: State)
    requires !CoversAll(s.disk, s.hist, |s.hist|)
    requires lost.hist == s.hist[..|s.hist|] && lost.base == lost.flushed == |s.hist| && lost.seen == s.disk
    ensures !RecoversAll(lost)
  {
    var page :| At(s.disk, page) < Last(s.hist, |s.hist|, page);
    assert lost.hist == s.hist;
    assert Reopened(lost, page) != Last(lost.hist, lost.flushed, page);
  }

  /** If nothing was appended since the checkpoint began, the reset is safe. */
  lemma QuietIsSafe(s: State)
    requires ProtocolInv(s) && s.phase.HeaderSynced? && MaxLsn(s.hist, |s.hist|) <= s.phase.c
    ensures Careful(s, ResetLog)
  {
    MaxIs(s.hist, |s.hist|);
    forall page
      ensures At(s.disk, page) >= Last(s.hist, |s.hist|, page)
    {
      LastIs(s.hist, |s.hist|, page);
      LastGrows(s.hist, s.flushed, |s.hist|, page);
    }
  }

  /** A mutation between the header and the reset of the log. */
  ghost function BusyCheckpoint(): State
  {
    State([Rec(1, 7)], 0, 0, map[], map[], {}, 0, 0, HeaderSynced(0))
  }

  lemma BusyCheckpointRuns()
    ensures var s0 := State([], 0, 0, map[], map[], {}, 0, 0, Running);
      var s1, s2 := s0.(phase := Flushing(0, false)), s0.(phase := PagesDone(0));
      var s3, s4 := s0.(phase := HeaderOut(0)), s0.(phase := HeaderSynced(0));
      && Init(s0) && Enabled(s0, StartCheckpoint) && Do(s0, StartCheckpoint) == s1
      && Enabled(s1, FinishFlush) && Do(s1, FinishFlush) == s2 && Careful(s2, WriteHeader)
      && Enabled(s2, WriteHeader) && Do(s2, WriteHeader) == s3 && Enabled(s3, SyncHeader) && Do(s3, SyncHeader) == s4
      && Enabled(s4, Append(7, 1)) && Do(s4, Append(7, 1)) == BusyCheckpoint()
  {
    assert [] + [Rec(1, 7)] == [Rec(1, 7)];
  }

  /** It is flushed, dropped with the log, and lost. */
  lemma BusyCheckpointLoses()
    ensures var s := BusyCheckpoint();
      && Enabled(s, ResetLog) && !Careful(s, ResetLog)
      && var lost := Do(Do(s, ResetLog), PowerLoss);
         Sized(lost) && Last(lost.hist, lost.flushed, 7) == 1 && Reopened(lost, 7) == 0
  {
    var s := BusyCheckpoint();
    assert s.hist[..1] == s.hist;
    assert Last(s.hist, 1, 7) == 1 && At(s.disk, 7) == 0;
  }
}
