/**
 Incremental invalidation: which documents changed between two snapshots, and
 everything that depends on them.
 */
module Invalidation {
  import opened Ordering
  import opened Hashing
  import opened Closure

  type Snapshot = map<string, Hash>

  datatype Edge = Edge(source: string, target: string)

  /** A Go map read: absent keys read as the empty string. */
  function Lookup(m: Snapshot, p: string): Hash { if p in m then m[p] else NoHash }

  ghost function ChangedSet(previous: Snapshot, current: Snapshot): set<string>
  {
    (set p | p in current && Lookup(previous, p) != current[p]) + (previous.Keys - current.Keys)
  }

  /** p was added, removed, or has another hash. */
  ghost predicate Differs(previous: Snapshot, current: Snapshot, p: string)
  {
    (p in previous) != (p in current) || (p in previous && previous[p] != current[p])
  }

  /** The changed set is the set of differences exactly when no added document has an empty hash. */
  lemma ChangedIffDiffers(previous: Snapshot, current: Snapshot)
    ensures (forall p :: p in ChangedSet(previous, current) <==> Differs(previous, current, p)) <==>
            (forall p :: p in current && p !in previous ==> current[p] != NoHash)
  {
    if p :| p in current && p !in previous && current[p] == NoHash {
      assert Differs(previous, current, p) && p !in ChangedSet(previous, current);
    } else {
      forall p ensures p in ChangedSet(previous, current) <==> Differs(previous, current, p) {
      }
    }
  }

  /** Added and changed paths, then removed ones, insertion-sorted in place. */
  method ChangedDocuments(previous: Snapshot, current: Snapshot) returns (out: seq<string>)
    ensures out == Listing(ChangedSet(previous, current))
  {
    out := [];
    var todo := current.Keys;
    while todo != {}
      invariant todo <= current.Keys && NoDuplicates(out)
      invariant forall p :: p in out <==> p in current && p !in todo && Lookup(previous, p) != current[p]
      decreases todo
    {
      var p :| p in todo;
      todo := todo - {p};
      if Lookup(previous, p) != current[p] {
        out := out + [p];
      }
    }
    todo := previous.Keys;
    while todo != {}
      invariant todo <= previous.Keys && NoDuplicates(out)
      invariant forall p :: p in out <==>
        (p in current && Lookup(previous, p) != current[p]) || (p in previous && p !in todo && p !in current)
      decreases todo
    {
      var p :| p in todo;
      todo := todo - {p};
      if p !in current {
        out := out + [p];
      }
    }
    ghost var unsorted := out;
    out := InsertionSort(out);
    LexIsTotalOrder();
    SortBySorted(unsorted, LexLe);
    SortedUnique(out, SortBy(unsorted, LexLe), LexLe);
    SortedStringsListed(unsorted, ChangedSet(previous, current));
  }

  /** The nested exchange loops of the source. */
  method InsertionSort(input: seq<string>) returns (out: seq<string>)
    ensures multiset(out) == multiset(input) && Sorted(out, LexLe)
  {
    out := input;
    var i := 1;
    while i < |out|
      invariant 1 <= i && (i <= |out| || i == 1) && multiset(out) == multiset(input)
      invariant i <= |out| ==> Sorted(out[..i], LexLe)
    {
      out := Sift(out, i);
      i := i + 1;
    }
    assert |out| > 0 ==> out[..|out|] == out;
  }

  /** Moves element i down to its place among the sorted elements before it. */
  method Sift(input: seq<string>, i: nat) returns (out: seq<string>)
    requires i < |input| && Sorted(input[..i], LexLe)
    ensures |out| == |input| && multiset(out) == multiset(input) && Sorted(out[..i + 1], LexLe)
  {
    out := input;
    var j := i;
    SortedBut(out, i);
    while j > 0 && out[j] != out[j - 1] && LexLe(out[j], out[j - 1])
      invariant 0 <= j <= i < |out| == |input| && multiset(out) == multiset(input)
      invariant OrderedBut(out, i, j)
    {
      ExchangeStep(out, i, j);
      out := Exchange(out, j);
      j := j - 1;
    }
    SiftDone(out, i, j);
  }

  /** Elements up to i are in order, except that the one at j may be too far right. */
  ghost predicate OrderedBut(out: seq<string>, i: nat, j: nat)
    requires j <= i < |out|
  {
    forall a, b :: 0 <= a < b <= i && b != j ==> LexLe(out[a], out[b])
  }

  lemma SortedBut(out: seq<string>, i: nat)
    requires i < |out| && Sorted(out[..i], LexLe)
    ensures OrderedBut(out, i, i)
  {
    forall a, b | 0 <= a < b < i ensures LexLe(out[a], out[b]) {
      assert out[..i][a] == out[a] && out[..i][b] == out[b];
    }
  }

  function Exchange(out: seq<string>, j: nat): (r: seq<string>)
    requires 0 < j < |out|
    ensures |r| == |out| && multiset(r) == multiset(out)
  {
    var r := out[j := out[j - 1]][j - 1 := out[j]];
    assert out == out[..j - 1] + [out[j - 1], out[j]] + out[j + 1..];
    assert r == out[..j - 1] + [out[j], out[j - 1]] + out[j + 1..];
    r
  }

  lemma ExchangeStep(out: seq<string>, i: nat, j: nat)
    requires 0 < j <= i < |out| && OrderedBut(out, i, j) && LexLe(out[j], out[j - 1])
    ensures OrderedBut(Exchange(out, j), i, j - 1)
  {
    var r := Exchange(out, j);
    forall a, b | 0 <= a < b <= i && b != j - 1 ensures LexLe(r[a], r[b]) {
      var a' := if a == j then j - 1 else if a == j - 1 then j else a;
      var b' := if b == j then j - 1 else b;
      assert r[a] == out[a'] && r[b] == out[b'];
    }
  }

  /** The element sifted to j is in place: everything before it is no greater. */
  lemma SiftDone(out: seq<string>, i: nat, j: nat)
    requires j <= i < |out| && OrderedBut(out, i, j)
    requires j == 0 || out[j] == out[j - 1] || !LexLe(out[j], out[j - 1])
    ensures Sorted(out[..i + 1], LexLe)
  {
    if j > 0 {
      LexTotal(out[j - 1], out[j]);
      forall a | 0 <= a < j ensures LexLe(out[a], out[j]) {
        if a < j - 1 {
          LexTransitive(out[a], out[j - 1], out[j]);
        }
      }
    }
  }

  ghost function SourcesOf(edges: seq<Edge>, target: string): set<string>
  {
    set e | e in edges && e.target == target :: e.source
  }

  /** The dependency graph turned round: from a document to those that depend on it. */
  ghost function Reverse(edges: seq<Edge>): Graph
  {
    map t | t in (set e | e in edges :: e.target) :: SourcesOf(edges, t)
  }

  /** The reverse adjacency lists, built edge by edge. */
  method BuildReverse(edges: seq<Edge>) returns (reverse: map<string, seq<string>>)
    ensures forall t :: Successors(Reverse(edges), t) == Listed(reverse, t)
  {
    reverse := map[];
    for i := 0 to |edges|
      invariant forall t, s :: s in Listed(reverse, t) <==> Edge(s, t) in edges[..i]
    {
      var e := edges[i];
      assert edges[..i + 1] == edges[..i] + [e];
      reverse := reverse[e.target := (if e.target in reverse then reverse[e.target] else []) + [e.source]];
    }
    assert edges[..|edges|] == edges;
    forall t ensures Successors(Reverse(edges), t) == Listed(reverse, t) {
      forall s ensures s in Successors(Reverse(edges), t) <==> Edge(s, t) in edges {
        ReverseHas(edges, s, t);
      }
    }
  }

  ghost function Listed(reverse: map<string, seq<string>>, t: string): set<string>
  {
    if t in reverse then set s | s in reverse[t] else {}
  }

  lemma ReverseHas(edges: seq<Edge>, s: string, t: string)
    ensures s in Successors(Reverse(edges), t) <==> Edge(s, t) in edges
  {
    if s in Successors(Reverse(edges), t) {
      var e :| e in edges && e.target == t && e.source == s;
      assert e == Edge(s, t);
    }
    if Edge(s, t) in edges {
      var e := Edge(s, t);
      assert e.target in (set x | x in edges :: x.target);
    }
  }

  /** Changed paths and every reverse dependency, breadth first, then sorted. */
  method TransitiveDependents(changed: seq<string>, edges: seq<Edge>)
    returns (out: seq<string>)
    ensures StrictlySorted(out)
    ensures IsReach(Reverse(edges), Waiting(changed), Waiting(out))
  {
    var reverse := BuildReverse(edges);
    ghost var g, start := Reverse(edges), Waiting(changed);
    ghost var nodes := start + set e | e in edges :: e.source;
    var seen: set<string> := {};
    var q := changed;
    while |q| > 0
      invariant Searching(g, start, seen, Waiting(q))
      invariant Waiting(q) <= nodes && seen <= nodes
      decreases nodes - seen, |q|
    {
      var p := q[0];
      ghost var waiting := Waiting(q);
      assert q == [p] + q[1..];
      q := q[1..];
      if p in seen {
        SeenAlready(g, start, seen, waiting, p, Waiting(q));
        continue;
      }
      ghost var rest := Waiting(q);
      q := PushUnseen(q, if p in reverse then reverse[p] else [], seen + {p});
      forall d | d in Successors(g, p) ensures d in nodes {
        ReverseHas(edges, d, p);
        assert Edge(d, p).source in (set e | e in edges :: e.source);
      }
      assert Successors(g, p) == Listed(reverse, p);
      SearchStep(g, start, seen, waiting, p, Waiting(q));
      seen := seen + {p};
    }
    assert Waiting(q) == {};
    SearchEnds(g, start, seen);
    out := SortedKeys(seen);
    assert Waiting(out) == seen;
  }

  /** Appends the dependents not seen yet. */
  method PushUnseen(q: seq<string>, ds: seq<string>, seen: set<string>) returns (r: seq<string>)
    ensures Waiting(r) == Waiting(q) + (Waiting(ds) - seen)
  {
    r := q;
    assert ds[..0] == [];
    for i := 0 to |ds|
      invariant Waiting(r) == Waiting(q) + (Waiting(ds[..i]) - seen)
    {
      assert ds[..i + 1] == ds[..i] + [ds[i]];
      assert Waiting(ds[..i + 1]) == Waiting(ds[..i]) + {ds[i]};
      if ds[i] !in seen {
        assert Waiting(r + [ds[i]]) == Waiting(r) + {ds[i]};
        r := r + [ds[i]];
      }
    }
    assert ds[..|ds|] == ds;
  }

  ghost function Waiting(q: seq<string>): set<string> { set p | p in q }

  lemma SeenAlready(g: Graph, start: set<string>, seen: set<string>, waiting: set<string>, p: string, rest: set<string>)
    requires Searching(g, start, seen, waiting) && p in seen && waiting == rest + {p}
    ensures Searching(g, start, seen, rest)
  {
    assert seen + waiting == seen + rest;
  }

  // ---------- What the result means ----------

  /** d depends, through any number of edges, on p. */
  ghost predicate DependsOn(edges: seq<Edge>, d: string, p: string)
  {
    exists w :: DependencyChain(edges, w) && w[0] == d && w[|w| - 1] == p
  }

  ghost predicate DependencyChain(edges: seq<Edge>, w: seq<string>)
  {
    w != [] && forall i :: 0 < i < |w| ==> Edge(w[i - 1], w[i]) in edges
  }

  function Backwards(w: seq<string>): (r: seq<string>)
    ensures |r| == |w| && forall i :: 0 <= i < |w| ==> r[i] == w[|w| - 1 - i]
  {
    seq(|w|, i requires 0 <= i < |w| => w[|w| - 1 - i])
  }

  lemma ChainIsWalkBackwards(edges: seq<Edge>, w: seq<string>)
    ensures DependencyChain(edges, w) <==> IsWalk(Reverse(edges), Backwards(w))
  {
    var b := Backwards(w);
    forall i | 0 < i < |w| ensures b[|w| - i] in Successors(Reverse(edges), b[|w| - i - 1]) <==> Edge(w[i - 1], w[i]) in edges {
      ReverseHas(edges, w[i - 1], w[i]);
    }
    if IsWalk(Reverse(edges), b) {
      forall i | 0 < i < |w| ensures Edge(w[i - 1], w[i]) in edges {
        assert b[|w| - i] in Successors(Reverse(edges), b[|w| - i - 1]);
      }
    }
    if DependencyChain(edges, w) {
      forall k | 0 < k < |b| ensures b[k] in Successors(Reverse(edges), b[k - 1]) {
        var i := |w| - k;
        assert Edge(w[i - 1], w[i]) in edges;
      }
    }
  }

  /** Complete and minimal: a document is invalidated exactly when it depends on a changed one (or is one). */
  lemma InvalidatedIffDependsOnChange(changed: set<string>, edges: seq<Edge>, reach: set<string>, d: string)
    requires IsReach(Reverse(edges), changed, reach)
    ensures d in reach <==> exists p :: p in changed && DependsOn(edges, d, p)
  {
    ReachIsConnected(Reverse(edges), changed, reach, d);
    if d in reach {
      var b :| IsWalk(Reverse(edges), b) && b[0] in changed && b[|b| - 1] == d;
      var w := Backwards(b);
      assert Backwards(w) == b;
      ChainIsWalkBackwards(edges, w);
      assert DependsOn(edges, d, b[0]);
    }
    if p :| p in changed && DependsOn(edges, d, p) {
      var w :| DependencyChain(edges, w) && w[0] == d && w[|w| - 1] == p;
      ChainIsWalkBackwards(edges, w);
      var b := Backwards(w);
      assert IsWalk(Reverse(edges), b) && b[0] == p && b[|b| - 1] == d;
    }
  }

  /** A document left alone is unchanged, and so is everything it depends on. */
  lemma UntouchedIsUnchanged(previous: Snapshot, current: Snapshot, edges: seq<Edge>, reach: set<string>, d: string, p: string)
    requires forall q :: q in current && q !in previous ==> current[q] != NoHash
    requires IsReach(Reverse(edges), ChangedSet(previous, current), reach)
    requires d !in reach && DependsOn(edges, d, p)
    ensures !Differs(previous, current, p) && !Differs(previous, current, d)
  {
    ChangedIffDiffers(previous, current);
    InvalidatedIffDependsOnChange(ChangedSet(previous, current), edges, reach, d);
    assert DependencyChain(edges, [d]);
    assert DependsOn(edges, d, d);
  }
}
