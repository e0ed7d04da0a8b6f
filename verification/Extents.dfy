/**
 Runs of pages, and the central free list as a map from the start of a run to its length.
 */
module Extents {

  datatype Extent = Extent(start: nat, len: nat)

  predicate Within(p: nat, a: nat, b: nat)
  {
    a <= p < b
  }

  /** The pages from `a` up to but not including `b`. */
  ghost function Run(a: nat, b: nat): set<nat>
  {
    set p: nat | p < b && Within(p, a, b)
  }

  ghost function PagesOf(e: Extent): set<nat>
  {
    Run(e.start, e.start + e.len)
  }

  lemma {:induction false} RunSize(a: nat, b: nat)
    requires a <= b
    ensures |Run(a, b)| == b - a
    decreases b - a
  {
    if a == b {
      assert Run(a, b) == {};
    } else {
      assert Run(a, b) == {a} + Run(a + 1, b);
      RunSize(a + 1, b);
    }
  }

  lemma RunSplit(a: nat, b: nat, c: nat)
    requires a <= b <= c
    ensures Run(a, c) == Run(a, b) + Run(b, c) && Run(a, b) !! Run(b, c)
  {
  }

  /** Disjoint sets add up as multisets. */
  lemma UnionCounts<T>(a: set<T>, b: set<T>)
    requires a !! b
    ensures multiset(a + b) == multiset(a) + multiset(b)
  {
  }

  // ----- the central map -----

  /** Runs are not empty, do not contain page 0, and no two of them overlap or touch. */
  ghost predicate CentralOk(c: map<nat, nat>)
  {
    && (forall s :: s in c ==> s > 0 && c[s] > 0)
    && (forall s, t :: s in c && t in c && s < t ==> s + c[s] < t)
  }

  /** The pages of the run that starts at `s`. */
  ghost function RunAt(c: map<nat, nat>, s: nat): set<nat>
  {
    if s in c then Run(s, s + c[s]) else {}
  }

  /** All pages of the central map. */
  ghost function FreeSet(c: map<nat, nat>): set<nat>
  {
    set s, p | s in c && p in RunAt(c, s) :: p
  }

  /** `[s, s + len)` is free and cannot be extended on either side. */
  ghost predicate MaximalRun(free: set<nat>, s: nat, len: nat)
  {
    && len > 0 && (forall p :: s <= p < s + len ==> p in free)
    && (s == 0 || s - 1 !in free) && s + len !in free
  }

  /** The map is exactly the decomposition of its pages into maximal runs. */
  lemma CentralIsDecomposition(c: map<nat, nat>, s: nat, len: nat)
    requires CentralOk(c)
    ensures s in c && c[s] == len <==> MaximalRun(FreeSet(c), s, len)
  {
    if s in c {
      RunIsMaximal(c, s);
    }
    if MaximalRun(FreeSet(c), s, len) {
      assert s in FreeSet(c);
      var t :| t in c && s in RunAt(c, t);
      RunIsMaximal(c, t);
      SameRun(FreeSet(c), s, len, t, c[t]);
    }
  }

  lemma RunIsMaximal(c: map<nat, nat>, s: nat)
    requires CentralOk(c) && s in c
    ensures MaximalRun(FreeSet(c), s, c[s])
  {
    forall p: nat | s <= p < s + c[s]
      ensures p in FreeSet(c)
    {
      assert p in RunAt(c, s);
    }
    forall t | t in c
      ensures s + c[s] !in RunAt(c, t) && s - 1 !in RunAt(c, t)
    {
      assert t < s ==> t + c[t] < s;
      assert s < t ==> s + c[s] < t;
    }
  }

  /** Maximal runs that share the start of one of them are equal. */
  lemma SameRun(free: set<nat>, s: nat, len: nat, t: nat, n: nat)
    requires MaximalRun(free, s, len) && MaximalRun(free, t, n) && t <= s < t + n
    ensures s == t && len == n
  {
    var q := if s > 0 then s - 1 else 0;
    assert t <= q < t + n ==> q in free;
    assert s <= t + n < s + len ==> t + n in free;
    assert t <= s + len < t + n ==> s + len in free;
  }

  /** Two such maps with the same pages are the same map. */
  lemma CentralUnique(c: map<nat, nat>, d: map<nat, nat>)
    requires CentralOk(c) && CentralOk(d) && FreeSet(c) == FreeSet(d)
    ensures c == d
  {
    forall s | s in c
      ensures s in d && d[s] == c[s]
    {
      CentralIsDecomposition(c, s, c[s]);
      CentralIsDecomposition(d, s, c[s]);
    }
    forall s | s in d
      ensures s in c
    {
      CentralIsDecomposition(d, s, d[s]);
      CentralIsDecomposition(c, s, d[s]);
    }
  }

  lemma InFree(c: map<nat, nat>, t: nat, p: nat)
    requires t in c && p in RunAt(c, t)
    ensures p in FreeSet(c)
  {
  }

  lemma FreeFrom(c: map<nat, nat>, p: nat) returns (t: nat)
    requires p in FreeSet(c)
    ensures t in c && p in RunAt(c, t)
  {
    t :| t in c && p in RunAt(c, t);
  }

  lemma RunIsFree(c: map<nat, nat>, s: nat)
    ensures RunAt(c, s) <= FreeSet(c)
  {
    hide FreeSet;
    forall p | p in RunAt(c, s)
      ensures p in FreeSet(c)
    {
      InFree(c, s, p);
    }
  }

  lemma RunsApart(c: map<nat, nat>, s: nat, t: nat, p: nat)
    requires CentralOk(c) && s in c && t in c && p in RunAt(c, s) && p in RunAt(c, t)
    ensures s == t
  {
  }

  /** Taking a run out. */
  lemma RemoveRun(c: map<nat, nat>, s: nat)
    requires CentralOk(c) && s in c
    ensures CentralOk(c - {s}) && FreeSet(c - {s}) == FreeSet(c) - Run(s, s + c[s]) && Run(s, s + c[s]) <= FreeSet(c)
  {
    hide FreeSet, Run;
    var d := c - {s};
    RunIsFree(c, s);
    forall p
      ensures p in FreeSet(d) <==> p in FreeSet(c) && p !in RunAt(c, s)
    {
      if p in FreeSet(d) {
        var t := FreeFrom(d, p);
        InFree(c, t, p);
        if p in RunAt(c, s) {
          RunsApart(c, s, t, p);
        }
      }
      if p in FreeSet(c) && p !in RunAt(c, s) {
        var t := FreeFrom(c, p);
        InFree(d, t, p);
      }
    }
  }

  /** Putting a run in that touches nothing. */
  lemma AddRun(c: map<nat, nat>, s: nat, len: nat)
    requires CentralOk(c) && s > 0 && len > 0 && s !in c
    requires forall t :: t in c ==> t + c[t] < s || s + len < t
    ensures CentralOk(c[s := len]) && FreeSet(c[s := len]) == FreeSet(c) + Run(s, s + len)
    ensures FreeSet(c) !! Run(s, s + len)
  {
    hide FreeSet, Run;
    var d := c[s := len];
    assert CentralOk(d);
    RunIsFree(d, s);
    forall p
      ensures p in FreeSet(d) <==> p in FreeSet(c) || p in Run(s, s + len)
      ensures p in FreeSet(c) ==> p !in Run(s, s + len)
    {
      if p in FreeSet(c) {
        var t := FreeFrom(c, p);
        InFree(d, t, p);
        if p in RunAt(d, s) {
          RunsApart(d, s, t, p);
        }
      }
      if p in FreeSet(d) {
        var t := FreeFrom(d, p);
        if t != s {
          InFree(c, t, p);
        }
      }
    }
  }

  // ----- searches in the ordered map -----

  /** The greatest key not above `bound`. */
  method LastAtMost(c: map<nat, nat>, bound: nat) returns (found: bool, k: nat)
    ensures found <==> exists s :: s in c && s <= bound
    ensures found ==> k in c && k <= bound && forall s :: s in c && s <= bound ==> s <= k
  {
    found, k := false, 0;
    var rest := c.Keys;
    while rest != {}
      invariant rest <= c.Keys
      invariant found <==> exists s :: s in c && s !in rest && s <= bound
      invariant found ==> k in c && k <= bound && forall s :: s in c && s !in rest && s <= bound ==> s <= k
      decreases |rest|
    {
      var s :| s in rest;
      if s <= bound && (!found || k < s) {
        found, k := true, s;
      }
      rest := rest - {s};
    }
  }

  /** The least key not below `bound`. */
  method FirstAtLeast(c: map<nat, nat>, bound: nat) returns (found: bool, k: nat)
    ensures found <==> exists s :: s in c && bound <= s
    ensures found ==> k in c && bound <= k && forall s :: s in c && bound <= s ==> k <= s
  {
    found, k := false, 0;
    var rest := c.Keys;
    while rest != {}
      invariant rest <= c.Keys
      invariant found <==> exists s :: s in c && s !in rest && bound <= s
      invariant found ==> k in c && bound <= k && forall s :: s in c && s !in rest && bound <= s ==> k <= s
      decreases |rest|
    {
      var s :| s in rest;
      if bound <= s && (!found || s < k) {
        found, k := true, s;
      }
      rest := rest - {s};
    }
  }

  /** Run `a` is the better fit: shorter, or as short and further left. */
  predicate Fitter(c: map<nat, nat>, a: nat, b: nat)
    requires a in c && b in c
  {
    c[a] < c[b] || (c[a] == c[b] && a <= b)
  }

  /** The shortest run of at least `len` pages, the leftmost of several. */
  method BestFit(c: map<nat, nat>, len: nat) returns (found: bool, k: nat)
    ensures found <==> exists s :: s in c && len <= c[s]
    ensures found ==> k in c && len <= c[k] && forall s :: s in c && len <= c[s] ==> Fitter(c, k, s)
  {
    found, k := false, 0;
    var rest := c.Keys;
    while rest != {}
      invariant rest <= c.Keys
      invariant found <==> exists s :: s in c && s !in rest && len <= c[s]
      invariant found ==> k in c && len <= c[k] && forall s :: s in c && s !in rest && len <= c[s] ==> Fitter(c, k, s)
      decreases |rest|
    {
      var s :| s in rest;
      if len <= c[s] && (!found || !Fitter(c, k, s)) {
        found, k := true, s;
      }
      rest := rest - {s};
    }
  }
}
