/** Reachability over a finite graph given by the successors of each node. */
module Closure {

  type Graph = map<string, set<string>>

  function Successors(g: Graph, n: string): set<string> { if n in g then g[n] else {} }

  ghost predicate Closed(g: Graph, t: set<string>)
  {
    forall n :: n in t ==> Successors(g, n) <= t
  }

  /** r is the least set that holds `start` and is closed under g. */
  ghost predicate IsReach(g: Graph, start: set<string>, r: set<string>)
  {
    && start <= r && Closed(g, r)
    && forall t :: start <= t && Closed(g, t) ==> r <= t
  }

  /** A walk of the graph, from its first node to its last. */
  ghost predicate IsWalk(g: Graph, w: seq<string>)
  {
    w != [] && forall i :: 0 < i < |w| ==> w[i] in Successors(g, w[i - 1])
  }

  ghost predicate Connected(g: Graph, start: set<string>, n: string)
  {
    exists w :: IsWalk(g, w) && w[0] in start && w[|w| - 1] == n
  }

  lemma {:induction false} WalkStaysInside(g: Graph, t: set<string>, w: seq<string>, i: nat)
    requires IsWalk(g, w) && i < |w| && w[0] in t && Closed(g, t)
    ensures w[i] in t
  {
    if i > 0 {
      WalkStaysInside(g, t, w, i - 1);
    }
  }

  lemma WalkOfOne(g: Graph, start: set<string>, n: string)
    requires n in start
    ensures Connected(g, start, n)
  {
    assert IsWalk(g, [n]);
  }

  lemma WalkOneFurther(g: Graph, start: set<string>, n: string, next: string)
    requires Connected(g, start, n) && next in Successors(g, n)
    ensures Connected(g, start, next)
  {
    var w :| IsWalk(g, w) && w[0] in start && w[|w| - 1] == n;
    var longer := w + [next];
    assert IsWalk(g, longer) && longer[0] in start && longer[|longer| - 1] == next;
  }

  /** The least closed set is exactly what walks reach. */
  lemma ReachIsConnected(g: Graph, start: set<string>, r: set<string>, n: string)
    requires IsReach(g, start, r)
    ensures n in r <==> Connected(g, start, n)
  {
    if Connected(g, start, n) {
      var w :| IsWalk(g, w) && w[0] in start && w[|w| - 1] == n;
      WalkStaysInside(g, r, w, |w| - 1);
    }
    var t := set m | m in r && Connected(g, start, m);
    forall m | m in start ensures m in t {
      WalkOfOne(g, start, m);
    }
    forall m | m in t ensures Successors(g, m) <= t {
      forall k | k in Successors(g, m) ensures k in t {
        WalkOneFurther(g, start, m, k);
      }
    }
    assert Closed(g, t);
  }

  /** What a queue loop keeps: nodes seen and nodes waiting hold the start, and the successors of those seen. */
  ghost predicate Searching(g: Graph, start: set<string>, seen: set<string>, waiting: set<string>)
  {
    && start <= seen + waiting
    && (forall n :: n in seen ==> Successors(g, n) <= seen + waiting)
    && forall t :: start <= t && Closed(g, t) ==> seen + waiting <= t
  }

  lemma SearchStep(g: Graph, start: set<string>, seen: set<string>, waiting: set<string>, n: string, left: set<string>)
    requires Searching(g, start, seen, waiting) && n in waiting
    requires waiting - {n} <= left + seen + {n} && left <= waiting + Successors(g, n)
    requires Successors(g, n) <= left + seen + {n}
    ensures Searching(g, start, seen + {n}, left)
  {
    var now := seen + {n} + left;
    forall x | x in waiting ensures x in now {
      assert x == n || x in waiting - {n};
    }
    forall m | m in seen + {n} ensures Successors(g, m) <= now {
      if m in seen {
        assert Successors(g, m) <= seen + waiting;
      }
    }
    forall t | start <= t && Closed(g, t) ensures seen + {n} + left <= t {
      assert n in t;
    }
  }

  lemma SearchEnds(g: Graph, start: set<string>, seen: set<string>)
    requires Searching(g, start, seen, {})
    ensures IsReach(g, start, seen)
  {
    assert seen + {} == seen;
  }
}
