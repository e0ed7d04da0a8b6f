/**
 Checkpoint and recovery of a store whose log is the page images of a tree.

 `Recovery` knows a page only by the number of the record it was last brought up to.
 Here the records are those a run of the tree wrote, so that a recovered page has a
 content, and what opening the store brings back is a map from keys to values.
 */
module Reopening {
  import opened Pages
  import opened Trees
  import opened Records
  import C = Concurrent
  import A = Atomic
  import V = Recovery
  import O = Opening

  /** Record by record, the history writes the pages the log starts with. */
  predicate Matches(hist: seq<V.Rec>, log: seq<Record>)
  {
    |hist| <= |log| && forall i :: 0 <= i < |hist| ==> hist[i].page == log[i].page
  }

  /** The content of a page at version `v`: the image of its record with that number among the first `n`, or what the
      store held before the log. */
  function Content(hist: seq<V.Rec>, log: seq<Record>, initial: map<Pid, Node>, n: nat, page: Pid, v: nat): Option<Node>
    requires Matches(hist, log) && n <= |hist|
  {
    if n == 0 then (if page in initial then Some(initial[page]) else None)
    else if hist[n - 1] == V.Rec(v, page) then Some(log[n - 1].node)
    else Content(hist, log, initial, n - 1, page, v)
  }

  function PageOf(pages: map<Pid, Node>, page: Pid): Option<Node>
  {
    if page in pages then Some(pages[page]) else None
  }

  /** `pages` is what the store holds when it has come up again: every page at the version that is in its file then. */
  ghost predicate Reopens(e: V.State, log: seq<Record>, initial: map<Pid, Node>, pages: map<Pid, Node>)
  {
    && V.Sized(e) && Matches(e.hist, log)
    && forall page: Pid :: PageOf(pages, page) == Content(e.hist, log, initial, e.flushed, page, V.At(e.seen, page))
  }

  /** The last version of every page is its last image. */
  lemma {:induction false} LastImage(hist: seq<V.Rec>, log: seq<Record>, initial: map<Pid, Node>, n: nat, page: Pid)
    requires Matches(hist, log) && n <= |hist|
    ensures Content(hist, log, initial, n, page, V.Last(hist, n, page)) == PageOf(Replay(initial, log[..n]), page)
    decreases n
  {
    if n > 0 {
      LastImage(hist, log, initial, n - 1, page);
      assert log[..n][..n - 1] == log[..n - 1];
    }
  }

  /** If every flushed record is in the pages, they are the replayed log. */
  lemma ReopensReplay(e: V.State, log: seq<Record>, initial: map<Pid, Node>, pages: map<Pid, Node>)
    requires V.Sized(e) && Matches(e.hist, log) && O.Opened(e)
    ensures Reopens(e, log, initial, pages) <==> pages == Replay(initial, log[..e.flushed])
  {
    hide V.Last, Content, Replay;
    var replayed := Replay(initial, log[..e.flushed]);
    forall page: Pid
      ensures PageOf(replayed, page) == Content(e.hist, log, initial, e.flushed, page, V.At(e.seen, page))
    {
      LastImage(e.hist, log, initial, e.flushed, page);
      assert V.At(e.seen, page) == V.Last(e.hist, e.flushed, page);
    }
    if Reopens(e, log, initial, pages) {
      forall page: Pid
        ensures page in pages <==> page in replayed
        ensures page in pages ==> pages[page] == replayed[page]
      {
        assert PageOf(pages, page) == PageOf(replayed, page);
      }
    }
  }

  /** A store whose log is that of a run of the tree, with crashes or without, and that crashes in any step of work,
      checkpoint or recovery, after any number of crashes before, comes up with the map of all flushed mutations:
      lookups and ascending scans read it as it stood after the step that logged the last flushed image, and that is
      what the actions up to this step mean. */
  lemma ReopensToMap(vs: seq<V.State>, va: seq<V.Action>, n: nat, crash: V.Action, cs: seq<C.State>, ca: seq<C.Action>,
                     pages: map<Pid, Node>)
    returns (i: nat)
    requires V.IsRun(vs, va) && n < |vs| && (crash.Kill? || crash.PowerLoss?) && C.IsRun(cs, ca)
    requires Reopens(O.ComesUp(vs[n], crash), Log(cs, ca, |ca|), Storage(cs[0]), pages)
    ensures i <= |ca| && vs[n].flushed <= |Log(cs, ca, |ca|)| && Log(cs, ca, i) == Log(cs, ca, |ca|)[..vs[n].flushed]
    ensures ReadsAs(pages, cs[0].t.root, A.History(ca[..i]).m)
  {
    hide V.IsRun, C.IsRun, Log, ReadsAs, Storage, Replay, Content, O.ComesUp, V.ProtocolInv, O.Opened, A.History;
    RunSize(cs, ca);
    O.EveryOpening(vs, va, n, crash);
    var e := O.ComesUp(vs[n], crash);
    ReopensReplay(e, Log(cs, ca, |ca|), Storage(cs[0]), pages);
    i := CrashAnywhere(cs, ca, e.flushed);
  }
}
