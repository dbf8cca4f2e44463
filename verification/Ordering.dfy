/**
 The byte order of strings, and the sorting done by the standard library's
 `sort` package: a stable insertion sort stands for the library calls, and the
 lemmas say that a sorted permutation is unique, so no result below depends on
 the algorithm behind it.
 */
module Ordering {

  /** `a <= b` in the byte-wise order of strings. */
  predicate LexLe(a: string, b: string)
  {
    a == "" || (b != "" && (a[0] < b[0] || (a[0] == b[0] && LexLe(a[1..], b[1..]))))
  }

  lemma {:induction false} LexTotal(a: string, b: string)
    ensures LexLe(a, b) || LexLe(b, a)
    ensures LexLe(a, a)
  {
    if a != "" {
      LexTotal(a[1..], if b == "" then "" else b[1..]);
    }
  }

  lemma {:induction false} LexAntisymmetric(a: string, b: string)
    requires LexLe(a, b) && LexLe(b, a)
    ensures a == b
  {
    if a != "" {
      LexAntisymmetric(a[1..], b[1..]);
      assert a == [a[0]] + a[1..] && b == [b[0]] + b[1..];
    }
  }

  lemma {:induction false} LexTransitive(a: string, b: string, c: string)
    requires LexLe(a, b) && LexLe(b, c)
    ensures LexLe(a, c)
  {
    if a != "" && a[0] == b[0] == c[0] {
      LexTransitive(a[1..], b[1..], c[1..]);
    }
  }

  /** Strings that share a beginning compare as the rest does: the shorter first, else by the first byte that differs. */
  lemma {:induction false} LexDecides(common: string, a: string, b: string)
    ensures LexLe(common, common + a) && (LexLe(common + a, common) <==> a == "")
    ensures a != "" && b != "" && a[0] != b[0] ==> (LexLe(common + a, common + b) <==> a[0] < b[0])
  {
    if common == "" {
      assert common + a == a && common + b == b;
    } else {
      LexDecides(common[1..], a, b);
      assert (common + a)[1..] == common[1..] + a && (common + b)[1..] == common[1..] + b;
    }
  }

  lemma LexIsTotalOrder()
    ensures TotalPreorder(LexLe) && Antisymmetric(LexLe)
  {
    forall a, b ensures LexLe(a, b) || LexLe(b, a) {
      LexTotal(a, b);
    }
    forall a, b | LexLe(a, b) && LexLe(b, a) ensures a == b {
      LexAntisymmetric(a, b);
    }
    forall a, b, c | LexLe(a, b) && LexLe(b, c) ensures LexLe(a, c) {
      LexTransitive(a, b, c);
    }
  }

  ghost predicate TotalPreorder<T(!new)>(le: (T, T) -> bool)
  {
    && (forall x, y :: le(x, y) || le(y, x))
    && (forall x, y, z :: le(x, y) && le(y, z) ==> le(x, z))
  }

  ghost predicate Antisymmetric<T(!new)>(le: (T, T) -> bool)
  {
    forall x, y :: le(x, y) && le(y, x) ==> x == y
  }

  ghost predicate Sorted<T>(s: seq<T>, le: (T, T) -> bool)
  {
    forall i, j :: 0 <= i < j < |s| ==> le(s[i], s[j])
  }

  /** Sorted with no element twice. */
  ghost predicate StrictlySorted(s: seq<string>)
  {
    forall i, j :: 0 <= i < j < |s| ==> LexLe(s[i], s[j]) && s[i] != s[j]
  }

  function Insert<T>(x: T, s: seq<T>, le: (T, T) -> bool): (r: seq<T>)
    ensures multiset(r) == multiset{x} + multiset(s)
  {
    if s == [] then [x]
    else if le(x, s[0]) then [x] + s
    else
      assert s == [s[0]] + s[1..];
      [s[0]] + Insert(x, s[1..], le)
  }

  /** Stable insertion sort, from the back. */
  function SortBy<T>(s: seq<T>, le: (T, T) -> bool): (r: seq<T>)
    ensures multiset(r) == multiset(s)
    ensures |r| == |s|
  {
    if s == [] then []
    else
      assert s == [s[0]] + s[1..];
      var r := Insert(s[0], SortBy(s[1..], le), le);
      assert |multiset(r)| == |multiset(s)|;
      r
  }

  lemma {:induction false} InsertSorted<T(!new)>(x: T, s: seq<T>, le: (T, T) -> bool)
    requires TotalPreorder(le) && Sorted(s, le)
    ensures Sorted(Insert(x, s, le), le)
  {
    if s != [] && !le(x, s[0]) {
      InsertSorted(x, s[1..], le);
      var r := Insert(x, s[1..], le);
      forall y | y in r ensures le(s[0], y) {
        assert y in multiset(r);
        assert y == x || y in s[1..];
      }
    }
  }

  lemma {:induction false} SortBySorted<T(!new)>(s: seq<T>, le: (T, T) -> bool)
    requires TotalPreorder(le)
    ensures Sorted(SortBy(s, le), le)
  {
    if s != [] {
      SortBySorted(s[1..], le);
      InsertSorted(s[0], SortBy(s[1..], le), le);
    }
  }

  /** Two sorted listings of the same elements are the same listing. */
  lemma {:induction false} SortedUnique<T(!new)>(a: seq<T>, b: seq<T>, le: (T, T) -> bool)
    requires TotalPreorder(le) && Antisymmetric(le)
    requires Sorted(a, le) && Sorted(b, le)
    requires multiset(a) == multiset(b)
    ensures a == b
  {
    hide Sorted, TotalPreorder, Antisymmetric;
    SameLength(a, b);
    if a != [] {
      SameFirst(a, b, le);
      TailOf(a, le);
      TailOf(b, le);
      var s, t := a[1..], b[1..];
      assert multiset(s) == multiset(t);
      SortedUnique(s, t, le);
      SameCons(a, b);
    }
  }

  lemma SameLength<T>(a: seq<T>, b: seq<T>)
    requires multiset(a) == multiset(b)
    ensures |a| == |b|
  {
    assert |multiset(a)| == |multiset(b)|;
  }

  lemma SameCons<T>(a: seq<T>, b: seq<T>)
    requires a != [] && b != [] && a[0] == b[0] && a[1..] == b[1..]
    ensures a == b
  {
    assert a == [a[0]] + a[1..] && b == [b[0]] + b[1..];
  }

  lemma SameFirst<T(!new)>(a: seq<T>, b: seq<T>, le: (T, T) -> bool)
    requires TotalPreorder(le) && Antisymmetric(le) && Sorted(a, le) && Sorted(b, le)
    requires a != [] && multiset(a) == multiset(b)
    ensures b != [] && a[0] == b[0]
  {
    assert a[0] in multiset(b);
    assert b[0] in multiset(a);
    assert le(a[0], b[0]) && le(b[0], a[0]);
  }

  lemma TailOf<T>(s: seq<T>, le: (T, T) -> bool)
    requires s != [] && Sorted(s, le)
    ensures Sorted(s[1..], le) && multiset(s[1..]) == multiset(s) - multiset{s[0]}
  {
    assert s == [s[0]] + s[1..];
  }

  // ---------- Sets listed in order ----------

  lemma {:induction false} LexMinExists(s: set<string>)
    requires s != {}
    ensures exists m :: m in s && forall x :: x in s ==> LexLe(m, x)
  {
    var y :| y in s;
    var rest := s - {y};
    if rest == {} {
      LexTotal(y, y);
      assert s == {y};
    } else {
      LexMinExists(rest);
      var m :| m in rest && forall x :: x in rest ==> LexLe(m, x);
      LexTotal(y, m);
      LexTotal(y, y);
      var least := if LexLe(y, m) then y else m;
      forall x | x in s ensures LexLe(least, x) {
        if x != y && least == y {
          LexTransitive(y, m, x);
        }
      }
    }
  }

  /** The strings of a set in increasing order. */
  ghost function Listing(s: set<string>): (r: seq<string>)
    ensures StrictlySorted(r)
    ensures forall x :: x in r <==> x in s
  {
    if s == {} then []
    else
      LexMinExists(s);
      var m :| m in s && forall x :: x in s ==> LexLe(m, x);
      [m] + Listing(s - {m})
  }

  /** A strictly sorted listing is decided by its elements. */
  lemma {:induction false} StrictlySortedUnique(a: seq<string>, b: seq<string>)
    requires StrictlySorted(a) && StrictlySorted(b)
    requires forall x :: x in a <==> x in b
    ensures a == b
  {
    assert b != [] ==> b[0] in b;
    if a != [] {
      assert a[0] in b && b[0] in a;
      if a[0] != b[0] {
        LexAntisymmetric(a[0], b[0]);
      }
      forall x ensures x in a[1..] <==> x in b[1..] {
        assert x in a[1..] <==> x in a && x != a[0];
        assert x in b[1..] <==> x in b && x != b[0];
      }
      StrictlySortedUnique(a[1..], b[1..]);
      assert a == [a[0]] + a[1..] && b == [b[0]] + b[1..];
    }
  }

  ghost predicate NoDuplicates<T>(s: seq<T>)
  {
    forall i, j :: 0 <= i < j < |s| ==> s[i] != s[j]
  }

  lemma {:induction false} NoDuplicatesMultiset<T>(s: seq<T>)
    ensures NoDuplicates(s) <==> forall x :: multiset(s)[x] <= 1
  {
    if s != [] {
      NoDuplicatesMultiset(s[1..]);
      assert s == [s[0]] + s[1..];
      if NoDuplicates(s) {
        assert s[0] !in multiset(s[1..]);
      } else if NoDuplicates(s[1..]) {
        assert s[0] in s[1..];
        assert multiset(s)[s[0]] == 1 + multiset(s[1..])[s[0]];
      } else {
        var x :| multiset(s[1..])[x] > 1;
        assert multiset(s)[x] >= multiset(s[1..])[x];
      }
    }
  }

  /** Sorting distinct strings gives the listing of their set. */
  lemma SortedStringsListed(out: seq<string>, s: set<string>)
    requires NoDuplicates(out) && forall x :: x in out <==> x in s
    ensures SortBy(out, LexLe) == Listing(s)
  {
    var r := SortBy(out, LexLe);
    LexIsTotalOrder();
    SortBySorted(out, LexLe);
    NoDuplicatesMultiset(out);
    NoDuplicatesMultiset(r);
    forall x ensures x in r <==> x in Listing(s) {
      assert x in multiset(r) <==> x in multiset(out);
    }
    StrictlySortedUnique(r, Listing(s));
  }

  /** The keys of a map, collected in any order and sorted. */
  method SortedKeys(s: set<string>) returns (out: seq<string>)
    ensures out == Listing(s)
  {
    var todo := s;
    out := [];
    while todo != {}
      invariant todo <= s && NoDuplicates(out)
      invariant forall x :: x in out <==> x in s && x !in todo
      decreases todo
    {
      var k :| k in todo;
      todo := todo - {k};
      out := out + [k];
    }
    SortedStringsListed(out, s);
    out := SortBy(out, LexLe);
  }
}
