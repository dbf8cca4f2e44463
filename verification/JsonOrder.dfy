/**
 The order in which a comparison reports: strictly increasing in the walk through the
 expected tree.  With what is reported at each path this fixes the report as a list,
 and nothing is reported twice at one path.
 */
module JsonOrder {
  import opened Ordering
  import opened JsonDiff

  /** Of two steps from one value, s is walked first: elements by number, expected keys before others, both in byte order. */
  ghost predicate StepBefore(e: Json, s: Step, t: Step)
  {
    match (s, t)
    case (Index(i), Index(j)) => i < j
    case (Key(k), Key(l)) =>
      e.Object? && if k in e.fields <==> l in e.fields then k != l && LexLe(k, l) else k in e.fields
    case _ => false
  }

  /** The walk through e meets p before q: a path before what lies below it, else by the first step that differs. */
  ghost predicate Precedes(e: Json, p: Path, q: Path)
  {
    if p == [] || q == [] then p == [] && q != []
    else if p[0] == q[0] then Child(e, p[0]).Some? && Precedes(Child(e, p[0]).value, p[1..], q[1..])
    else StepBefore(e, p[0], q[0])
  }

  lemma {:induction false} PrecedesItself(e: Json, p: Path)
    ensures !Precedes(e, p, p)
    decreases |p|
  {
    if p != [] && Child(e, p[0]).Some? {
      PrecedesItself(Child(e, p[0]).value, p[1..]);
    }
  }

  /** Both lie below the path, and m comes first there. */
  ghost predicate Before(path: Path, e: Json, m: Mismatch, n: Mismatch)
  {
    path <= m.path && path <= n.path && Precedes(e, m.path[|path|..], n.path[|path|..])
  }

  ghost predicate InOrder(path: Path, e: Json, ms: seq<Mismatch>)
  {
    forall i, j :: 0 <= i < j < |ms| ==> Before(path, e, ms[i], ms[j])
  }

  lemma JoinInOrder(path: Path, e: Json, ms: seq<Mismatch>, ns: seq<Mismatch>)
    requires InOrder(path, e, ms) && InOrder(path, e, ns)
    requires forall m, n :: m in ms && n in ns ==> Before(path, e, m, n)
    ensures InOrder(path, e, ms + ns)
  {
    hide Before;
    var all := ms + ns;
    forall i, j | 0 <= i < j < |all| ensures Before(path, e, all[i], all[j]) {
      if i < |ms| <= j {
        assert all[i] in ms && all[j] in ns;
      }
    }
  }

  /** Below a step the order is that of the child. */
  lemma BelowStep(path: Path, e: Json, s: Step, ms: seq<Mismatch>)
    requires Child(e, s).Some? && InOrder(path + [s], Child(e, s).value, ms)
    ensures InOrder(path, e, ms)
  {
    forall i, j | 0 <= i < j < |ms| ensures Before(path, e, ms[i], ms[j]) {
      assert Before(path + [s], Child(e, s).value, ms[i], ms[j]);
      SameStep(path, e, s, ms[i], ms[j]);
    }
  }

  lemma SameStep(path: Path, e: Json, s: Step, m: Mismatch, n: Mismatch)
    requires Child(e, s).Some? && Before(path + [s], Child(e, s).value, m, n)
    ensures Before(path, e, m, n)
  {
    var t := path + [s];
    var p, q := m.path[|path|..], n.path[|path|..];
    assert t[|path|] == s;
    assert p[0] == s == q[0] && p[1..] == m.path[|t|..] && q[1..] == n.path[|t|..];
    assert path <= m.path && path <= n.path;
  }

  /** Below different steps the steps decide. */
  lemma OtherStep(path: Path, e: Json, s: Step, t: Step, m: Mismatch, n: Mismatch)
    requires path + [s] <= m.path && path + [t] <= n.path && s != t && StepBefore(e, s, t)
    ensures Before(path, e, m, n)
  {
    hide StepBefore;
    assert (path + [s])[|path|] == s && (path + [t])[|path|] == t;
    var p, q := m.path[|path|..], n.path[|path|..];
    assert p[0] == s && q[0] == t;
    assert path <= m.path && path <= n.path;
  }

  // ---------- Objects ----------

  lemma {:induction false} KeysInOrder(path: Path, e: Json, a: Json, keys: seq<string>)
    requires e.Object? && a.Object? && StrictlySorted(keys) && forall k :: k in keys ==> k in e.fields
    ensures InOrder(path, e, DiffKeys(path, e, a, keys))
    decreases e, 1, |keys|
  {
    hide Diff, DiffKeys, DiffKey, StrictlySorted, InOrder, Before;
    if keys == [] {
      NoKeys(path, e, a);
    } else {
      var n := |keys| - 1;
      var last, before := keys[n], DiffKeys(path, e, a, keys[..n]);
      assert keys[..n + 1] == keys && last in keys;
      KeysGrow(path, e, a, keys, n);
      assert StrictlySorted(keys[..n]) by {
        SortedFront(keys, n);
      }
      KeysInOrder(path, e, a, keys[..n]);
      KeyInOrder(path, e, a, last);
      forall x, y | x in before && y in DiffKey(path, e, a, last) ensures Before(path, e, x, y) {
        KeysMember(path, e, a, keys[..n], x);
        var k :| k in keys[..n] && x in DiffKey(path, e, a, k);
        SortedLast(keys, n, k);
        KeyBelow(path, e, a, k, x);
        KeyBelow(path, e, a, last, y);
        OtherStep(path, e, Key(k), Key(last), x, y);
      }
      JoinInOrder(path, e, before, DiffKey(path, e, a, last));
    }
  }

  lemma NoKeys(path: Path, e: Json, a: Json)
    requires e.Object? && a.Object?
    ensures InOrder(path, e, DiffKeys(path, e, a, []))
  {
  }

  lemma SortedFront(keys: seq<string>, n: nat)
    requires StrictlySorted(keys) && n <= |keys|
    ensures StrictlySorted(keys[..n])
  {
  }

  lemma SortedLast(keys: seq<string>, n: nat, k: string)
    requires StrictlySorted(keys) && n == |keys| - 1 && k in keys[..n]
    ensures k in keys && k != keys[n] && LexLe(k, keys[n])
  {
  }

  lemma KeyInOrder(path: Path, e: Json, a: Json, k: string)
    requires e.Object? && a.Object? && k in e.fields
    ensures InOrder(path, e, DiffKey(path, e, a, k))
    decreases e, 0
  {
    hide Diff, InOrder;
    if k in a.fields {
      ReportInOrder(path + [Key(k)], e.fields[k], a.fields[k]);
      BelowStep(path, e, Key(k), Diff(path + [Key(k)], e.fields[k], a.fields[k]));
    } else {
      OneInOrder(path, e, DiffKey(path, e, a, k));
    }
  }

  lemma OneInOrder(path: Path, e: Json, ms: seq<Mismatch>)
    requires |ms| <= 1
    ensures InOrder(path, e, ms)
  {
  }

  /** The keys that were not expected come in byte order. */
  lemma UnexpectedInOrder(path: Path, e: Json, a: Json, keys: seq<string>)
    requires e.Object? && a.Object? && StrictlySorted(keys) && forall k :: k in keys ==> k in a.fields && k !in e.fields
    ensures InOrder(path, e, Unexpected(path, a, keys))
  {
    hide Before, LexLe;
    var ms := Unexpected(path, a, keys);
    forall i, j | 0 <= i < j < |ms| ensures Before(path, e, ms[i], ms[j]) {
      assert keys[i] in keys && keys[j] in keys;
      OtherStep(path, e, Key(keys[i]), Key(keys[j]), ms[i], ms[j]);
    }
  }

  lemma ObjectsInOrder(path: Path, e: Json, a: Json)
    requires e.Object? && a.Object?
    ensures InOrder(path, e, Diff(path, e, a))
    decreases e, 2
  {
    hide Diff, DiffKeys, DiffKey, Unexpected, Listing, StrictlySorted, InOrder, Before;
    var keys, others := Listing(e.fields.Keys), Listing(a.fields.Keys - e.fields.Keys);
    var first, more := DiffKeys(path, e, a, keys), Unexpected(path, a, others);
    DiffObjects(path, e, a);
    KeysInOrder(path, e, a, keys);
    UnexpectedInOrder(path, e, a, others);
    forall x, y | x in first && y in more ensures Before(path, e, x, y) {
      KeysMember(path, e, a, keys, x);
      var k :| k in keys && x in DiffKey(path, e, a, k);
      KeyBelow(path, e, a, k, x);
      var l := UnexpectedKey(path, a, others, y);
      OtherStep(path, e, Key(k), Key(l), x, y);
    }
    JoinInOrder(path, e, first, more);
  }

  lemma UnexpectedKey(path: Path, a: Json, keys: seq<string>, m: Mismatch) returns (k: string)
    requires a.Object? && (forall k :: k in keys ==> k in a.fields) && m in Unexpected(path, a, keys)
    ensures k in keys && path + [Key(k)] <= m.path
  {
    var ms := Unexpected(path, a, keys);
    var i :| 0 <= i < |ms| && ms[i] == m;
    k := keys[i];
  }

  // ---------- Arrays ----------

  lemma {:induction false} ItemsInOrder(path: Path, e: Json, a: Json, n: nat)
    requires e.Array? && a.Array? && n <= |e.items| && n <= |a.items|
    ensures InOrder(path, e, DiffItems(path, e, a, n))
    decreases e, 1, n
  {
    hide Diff, InOrder, Before;
    if n == 0 {
      OneInOrder(path, e, DiffItems(path, e, a, 0));
    } else {
      ItemsInOrder(path, e, a, n - 1);
      var before, last := DiffItems(path, e, a, n - 1), Diff(path + [Index(n - 1)], e.items[n - 1], a.items[n - 1]);
      ReportInOrder(path + [Index(n - 1)], e.items[n - 1], a.items[n - 1]);
      BelowStep(path, e, Index(n - 1), last);
      forall x, y | x in before && y in last ensures Before(path, e, x, y) {
        var i := ItemIndex(path, e, a, n - 1, x);
        PathsBelow(path + [Index(n - 1)], e.items[n - 1], a.items[n - 1], y);
        OtherStep(path, e, Index(i), Index(n - 1), x, y);
      }
      JoinInOrder(path, e, before, last);
    }
  }

  lemma ItemIndex(path: Path, e: Json, a: Json, n: nat, m: Mismatch) returns (i: nat)
    requires e.Array? && a.Array? && n <= |e.items| && n <= |a.items| && m in DiffItems(path, e, a, n)
    ensures i < n && path + [Index(i)] <= m.path
  {
    hide Diff, DiffItems;
    ItemsMember(path, e, a, n, m);
    i :| 0 <= i < n && m in DiffItem(path, e, a, i);
    PathsBelow(path + [Index(i)], e.items[i], a.items[i], m);
  }

  lemma SurplusInOrder(path: Path, e: Json, a: Json)
    requires e.Array? && a.Array?
    ensures InOrder(path, e, Surplus(path, e, a))
    ensures forall m :: m in Surplus(path, e, a) ==> exists i :: i >= MinOf(|e.items|, |a.items|) && path + [Index(i)] <= m.path
  {
    hide Surplus, Before, DiffersBelow;
    var ms, common := Surplus(path, e, a), MinOf(|e.items|, |a.items|);
    forall i, j | 0 <= i < j < |ms| ensures Before(path, e, ms[i], ms[j]) {
      SurplusAt(path, e, a, i);
      SurplusAt(path, e, a, j);
      OtherStep(path, e, Index(common + i), Index(common + j), ms[i], ms[j]);
    }
    forall m | m in ms ensures exists i :: i >= common && path + [Index(i)] <= m.path {
      var j :| 0 <= j < |ms| && ms[j] == m;
      SurplusAt(path, e, a, j);
      assert path + [Index(common + j)] <= m.path;
    }
  }

  lemma ArraysInOrder(path: Path, e: Json, a: Json)
    requires e.Array? && a.Array?
    ensures InOrder(path, e, Diff(path, e, a))
    decreases e, 2
  {
    hide Diff, DiffItems, Surplus, InOrder, Before, LengthCheck;
    var common := MinOf(|e.items|, |a.items|);
    var check, items, surplus := LengthCheck(path, e, a), DiffItems(path, e, a, common), Surplus(path, e, a);
    DiffArrays(path, e, a);
    ItemsInOrder(path, e, a, common);
    SurplusInOrder(path, e, a);
    forall x, y | x in items && y in surplus ensures Before(path, e, x, y) {
      var i := ItemIndex(path, e, a, common, x);
      var j :| j >= common && path + [Index(j)] <= y.path;
      OtherStep(path, e, Index(i), Index(j), x, y);
    }
    JoinInOrder(path, e, items, surplus);
    LengthFirst(path, e, a);
    OneInOrder(path, e, check);
    forall x, y | x in check && y in items + surplus ensures Before(path, e, x, y) {
      if y in items {
        var i := ItemIndex(path, e, a, common, y);
        LengthBefore(path, e, Index(i), x, y);
      } else {
        var j :| j >= common && path + [Index(j)] <= y.path;
        LengthBefore(path, e, Index(j), x, y);
      }
    }
    JoinInOrder(path, e, check, items + surplus);
  }

  lemma LengthFirst(path: Path, e: Json, a: Json)
    requires e.Array? && a.Array?
    ensures |LengthCheck(path, e, a)| <= 1 && forall m :: m in LengthCheck(path, e, a) ==> m.path == path
  {
  }

  lemma LengthBefore(path: Path, e: Json, s: Step, m: Mismatch, n: Mismatch)
    requires m.path == path && path + [s] <= n.path
    ensures Before(path, e, m, n)
  {
    assert m.path[|path|..] == [] && path <= n.path;
  }

  // ---------- The whole report ----------

  /** What is reported comes in the order of the walk, whatever the two trees are. */
  lemma ReportInOrder(path: Path, e: Json, a: Json)
    ensures InOrder(path, e, Diff(path, e, a))
    decreases e, 3
  {
    if e.Object? && a.Object? {
      hide Diff;
      ObjectsInOrder(path, e, a);
    } else if e.Array? && a.Array? {
      hide Diff;
      ArraysInOrder(path, e, a);
    } else {
      OneInOrder(path, e, Diff(path, e, a));
    }
  }

  /** No two mismatches have the same path. */
  lemma ReportedOnce(path: Path, e: Json, a: Json, i: nat, j: nat)
    requires i < j < |Diff(path, e, a)|
    ensures Diff(path, e, a)[i].path != Diff(path, e, a)[j].path
  {
    hide Diff;
    var ms := Diff(path, e, a);
    ReportInOrder(path, e, a);
    assert Before(path, e, ms[i], ms[j]);
    PrecedesItself(e, ms[i].path[|path|..]);
  }
}
