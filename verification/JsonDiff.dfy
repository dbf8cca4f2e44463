/**
 The structural comparison of two JSON snapshots: numbers are normalized, then
 the trees are walked together and every difference is reported with its path.
 */
module JsonDiff {
  import opened Wrappers
  import opened Text
  import opened Ordering

  /** What the JSON decoder returns; a number is kept as it was written. */
  datatype Raw =
    | RawObject(fields: map<string, Raw>)
    | RawArray(items: seq<Raw>)
    | RawNumber(digits: string)
    | RawText(text: string)
    | RawBool(truth: bool)
    | RawNull

  datatype Json =
    | Object(fields: map<string, Json>)
    | Array(items: seq<Json>)
    | Integer(i: int)
    | Float(f: real)
    | Text(text: string)
    | Bool(truth: bool)
    | Null

  // ---------- Normalization ----------

  /** A number is an integer if it can be, else a float, else its own text. */
  function NormalizeNumber(digits: string, parseFloat: string -> Option<real>): Json
  {
    match Atoi(digits)
    case Some(i) => Integer(i)
    case None =>
      match parseFloat(digits)
      case Some(f) => Float(f)
      case None => Text(digits)
  }

  function Normalize(v: Raw, parseFloat: string -> Option<real>): Json
  {
    match v
    case RawObject(fields) => Object(map k | k in fields :: Normalize(fields[k], parseFloat))
    case RawArray(items) => Array(seq(|items|, i requires 0 <= i < |items| => Normalize(items[i], parseFloat)))
    case RawNumber(digits) => NormalizeNumber(digits, parseFloat)
    case RawText(text) => Text(text)
    case RawBool(truth) => Bool(truth)
    case RawNull => Null
  }

  /**
   When two numerals count as the same number: both are integers of 64 bits and
   equal; or neither is, and they are the same float; or neither is in range, and
   they are the same text.
   */
  predicate SameNumber(n: string, m: string, parseFloat: string -> Option<real>)
  {
    if Atoi(n).Some? || Atoi(m).Some? then Atoi(n).Some? && Atoi(m).Some? && Atoi(n).value == Atoi(m).value
    else if parseFloat(n).Some? || parseFloat(m).Some? then
      parseFloat(n).Some? && parseFloat(m).Some? && parseFloat(n).value == parseFloat(m).value
    else n == m
  }

  /** The decoded documents say the same: same shape, same texts and truths, and numbers that count as the same. */
  ghost predicate SameValue(e: Raw, a: Raw, parseFloat: string -> Option<real>)
  {
    match e
    case RawObject(l) => a.RawObject? && l.Keys == a.fields.Keys && forall k :: k in l ==> SameValue(l[k], a.fields[k], parseFloat)
    case RawArray(l) => a.RawArray? && |l| == |a.items| && forall i :: 0 <= i < |l| ==> SameValue(l[i], a.items[i], parseFloat)
    case RawNumber(n) =>
      (a.RawNumber? && SameNumber(n, a.digits, parseFloat)) || (a.RawText? && Unreadable(n, a.text, parseFloat))
    case RawText(t) => a == e || (a.RawNumber? && Unreadable(a.digits, t, parseFloat))
    case _ => a == e
  }

  /** A number outside both ranges, next to a text with the same characters. */
  predicate Unreadable(digits: string, text: string, parseFloat: string -> Option<real>)
  {
    digits == text && Atoi(digits).None? && parseFloat(digits).None?
  }

  /** Two spellings of one float count as the same number exactly when both or neither is the spelling of that integer. */
  lemma SameFloatIff(n: string, m: string, parseFloat: string -> Option<real>)
    requires parseFloat(n) == parseFloat(m) && parseFloat(n).Some?
    ensures SameNumber(n, m, parseFloat) <==> Atoi(n) == Atoi(m)
  {
  }

  /** 1 and 1.0 are reported as different. */
  lemma OneIsNotOnePointZero(parseFloat: string -> Option<real>)
    requires parseFloat("1") == parseFloat("1.0") == Some(1.0)
    ensures Diff([], Normalize(RawNumber("1"), parseFloat), Normalize(RawNumber("1.0"), parseFloat)) != []
  {
    assert "1"[..0] == "" && Atoi("1") == Some(1);
    assert !IsDigit("1.0"[1]);
  }

  /** Normalization identifies exactly the documents that say the same. */
  lemma {:induction false} NormalizedEqual(e: Raw, a: Raw, parseFloat: string -> Option<real>)
    ensures Normalize(e, parseFloat) == Normalize(a, parseFloat) <==> SameValue(e, a, parseFloat)
  {
    var ne, na := Normalize(e, parseFloat), Normalize(a, parseFloat);
    match e
    case RawObject(l) =>
      if a.RawObject? && l.Keys == a.fields.Keys {
        forall k | k in l ensures (ne.fields[k] == na.fields[k]) <==> SameValue(l[k], a.fields[k], parseFloat) {
          NormalizedEqual(l[k], a.fields[k], parseFloat);
        }
        assert ne.fields.Keys == l.Keys && na.fields.Keys == l.Keys;
        assert ne.fields == na.fields <==> forall k :: k in l ==> ne.fields[k] == na.fields[k];
      } else if a.RawObject? {
        assert ne.fields.Keys == l.Keys && na.fields.Keys == a.fields.Keys;
      }
    case RawArray(l) =>
      if a.RawArray? && |l| == |a.items| {
        forall i | 0 <= i < |l| ensures (ne.items[i] == na.items[i]) <==> SameValue(l[i], a.items[i], parseFloat) {
          NormalizedEqual(l[i], a.items[i], parseFloat);
        }
        assert ne.items == na.items <==> forall i :: 0 <= i < |l| ==> ne.items[i] == na.items[i];
      } else if a.RawArray? {
        assert |ne.items| == |l| && |na.items| == |a.items|;
      }
    case RawNumber(n) =>
      if a.RawNumber? {
        NumbersEqual(n, a.digits, parseFloat);
      }
    case _ =>
  }

  lemma NumbersEqual(n: string, m: string, parseFloat: string -> Option<real>)
    ensures NormalizeNumber(n, parseFloat) == NormalizeNumber(m, parseFloat) <==> SameNumber(n, m, parseFloat)
  {
  }

  // ---------- Mismatches ----------

  datatype Step = Key(name: string) | Index(at: nat)

  type Path = seq<Step>

  datatype Kind = TypeMismatch | LengthMismatch | MissingValue | UnexpectedValue | ValueMismatch

  /** One side of a mismatch: a value, where an absent one is null, or a length. */
  datatype Side = Of(value: Json) | Count(length: nat)

  datatype Mismatch = Mismatch(path: Path, kind: Kind, expected: Side, actual: Side)

  function MinOf(a: nat, b: nat): nat { if a < b then a else b }

  /** What is reported for one expected key. */
  ghost function DiffKey(path: Path, e: Json, a: Json, k: string): seq<Mismatch>
    requires e.Object? && a.Object? && k in e.fields
    decreases e, 0, 0
  {
    if k in a.fields then Diff(path + [Key(k)], e.fields[k], a.fields[k])
    else [Mismatch(path + [Key(k)], MissingValue, Of(e.fields[k]), Of(Null))]
  }

  ghost function DiffKeys(path: Path, e: Json, a: Json, keys: seq<string>): seq<Mismatch>
    requires e.Object? && a.Object? && forall k :: k in keys ==> k in e.fields
    decreases e, 1, |keys|
  {
    if keys == [] then []
    else DiffKeys(path, e, a, keys[..|keys| - 1]) + DiffKey(path, e, a, keys[|keys| - 1])
  }

  function Unexpected(path: Path, a: Json, keys: seq<string>): seq<Mismatch>
    requires a.Object? && forall k :: k in keys ==> k in a.fields
  {
    seq(|keys|, i requires 0 <= i < |keys| =>
      assert keys[i] in keys;
      Mismatch(path + [Key(keys[i])], UnexpectedValue, Of(Null), Of(a.fields[keys[i]])))
  }

  /** The first n elements of both arrays, compared pairwise. */
  ghost function DiffItems(path: Path, e: Json, a: Json, n: nat): seq<Mismatch>
    requires e.Array? && a.Array? && n <= |e.items| && n <= |a.items|
    decreases e, 1, n
  {
    if n == 0 then []
    else DiffItems(path, e, a, n - 1) + Diff(path + [Index(n - 1)], e.items[n - 1], a.items[n - 1])
  }

  /** The elements one of the arrays has beyond the other. */
  function Surplus(path: Path, e: Json, a: Json): seq<Mismatch>
    requires e.Array? && a.Array?
  {
    var l, r := |e.items|, |a.items|;
    if l > r then seq(l - r, i requires 0 <= i < l - r => Mismatch(path + [Index(r + i)], MissingValue, Of(e.items[r + i]), Of(Null)))
    else seq(r - l, i requires 0 <= i < r - l => Mismatch(path + [Index(l + i)], UnexpectedValue, Of(Null), Of(a.items[l + i])))
  }

  function LengthCheck(path: Path, e: Json, a: Json): seq<Mismatch>
    requires e.Array? && a.Array?
  {
    if |e.items| == |a.items| then []
    else [Mismatch(path, LengthMismatch, Count(|e.items|), Count(|a.items|))]
  }

  /** All mismatches, in the order they are reported. */
  ghost function Diff(path: Path, e: Json, a: Json): seq<Mismatch>
    decreases e, 2, 0
  {
    if e.Object? then
      if a.Object? then
        DiffKeys(path, e, a, Listing(e.fields.Keys)) + Unexpected(path, a, Listing(a.fields.Keys - e.fields.Keys))
      else [Mismatch(path, TypeMismatch, Of(e), Of(a))]
    else if e.Array? then
      if a.Array? then
        LengthCheck(path, e, a) + (DiffItems(path, e, a, MinOf(|e.items|, |a.items|)) + Surplus(path, e, a))
      else [Mismatch(path, TypeMismatch, Of(e), Of(a))]
    else if e == a then [] else [Mismatch(path, ValueMismatch, Of(e), Of(a))]
  }

  // ---------- The walk ----------

  class Differ {
    var found: seq<Mismatch>

    constructor ()
      ensures found == []
    {
      found := [];
    }

    /** Appends the mismatches of one pair of values. */
    method Values(path: Path, e: Json, a: Json)
      modifies this
      ensures found == old(found) + Diff(path, e, a)
      decreases e, 2
    {
      if e.Object? && a.Object? {
        Objects(path, e, a);
      } else if e.Array? && a.Array? {
        Arrays(path, e, a);
      } else if e.Object? || e.Array? {
        found := found + [Mismatch(path, TypeMismatch, Of(e), Of(a))];
      } else if e != a {
        found := found + [Mismatch(path, ValueMismatch, Of(e), Of(a))];
      }
    }

    method Objects(path: Path, e: Json, a: Json)
      requires e.Object? && a.Object?
      modifies this
      ensures found == old(found) + Diff(path, e, a)
      decreases e, 1
    {
      hide Listing, Diff, DiffKeys, Unexpected;
      var keys := SortedKeys(e.fields.Keys);
      var seen := ExpectedKeys(path, e, a, keys);
      ghost var middle := found;
      var remaining := SortedKeys(seen);
      RemainingKeys(path, e, a, remaining);
      DiffObjects(path, e, a);
      assert (old(found) + DiffKeys(path, e, a, keys)) + Unexpected(path, a, remaining)
        == old(found) + (DiffKeys(path, e, a, keys) + Unexpected(path, a, remaining));
    }

    /** Walks the expected keys and returns the actual keys none of them removed. */
    method ExpectedKeys(path: Path, e: Json, a: Json, keys: seq<string>) returns (seen: set<string>)
      requires e.Object? && a.Object? && forall k :: k in keys <==> k in e.fields
      modifies this
      ensures seen == a.fields.Keys - e.fields.Keys
      ensures found == old(found) + DiffKeys(path, e, a, keys)
      decreases e, 0
    {
      hide Diff;
      ghost var before := found;
      seen := a.fields.Keys;
      for i := 0 to |keys|
        invariant seen == a.fields.Keys - (set k | k in keys[..i])
        invariant found == before + DiffKeys(path, e, a, keys[..i])
      {
        var k := keys[i];
        assert k in keys;
        KeysGrow(path, e, a, keys, i);
        ghost var sofar, more := DiffKeys(path, e, a, keys[..i]), DiffKey(path, e, a, k);
        assert (before + sofar) + more == before + (sofar + more);
        assert keys[..i + 1] == keys[..i] + [k];
        seen := seen - {k};
        if k in a.fields {
          Values(path + [Key(k)], e.fields[k], a.fields[k]);
        } else {
          found := found + [Mismatch(path + [Key(k)], MissingValue, Of(e.fields[k]), Of(Null))];
        }
      }
      assert keys[..|keys|] == keys;
      assert (set k | k in keys) == e.fields.Keys;
    }

    method RemainingKeys(path: Path, e: Json, a: Json, remaining: seq<string>)
      requires e.Object? && a.Object? && forall k :: k in remaining ==> k in a.fields
      modifies this
      ensures found == old(found) + Unexpected(path, a, remaining)
    {
      ghost var all := Unexpected(path, a, remaining);
      ghost var before := found;
      for i := 0 to |remaining|
        invariant found == before + all[..i]
      {
        var k := remaining[i];
        assert k in remaining;
        assert all[..i + 1] == all[..i] + [all[i]];
        found := found + [Mismatch(path + [Key(k)], UnexpectedValue, Of(Null), Of(a.fields[k]))];
      }
      assert all[..|remaining|] == all;
    }

    method Arrays(path: Path, e: Json, a: Json)
      requires e.Array? && a.Array?
      modifies this
      ensures found == old(found) + Diff(path, e, a)
      decreases e, 1
    {
      hide Diff, DiffItems, Surplus;
      if |e.items| != |a.items| {
        found := found + [Mismatch(path, LengthMismatch, Count(|e.items|), Count(|a.items|))];
      }
      assert found == old(found) + LengthCheck(path, e, a);
      var common := MinOf(|e.items|, |a.items|);
      CommonItems(path, e, a, common);
      SurplusItems(path, e, a, common);
      DiffArrays(path, e, a);
      Regroup(old(found), LengthCheck(path, e, a), DiffItems(path, e, a, common), Surplus(path, e, a));
    }

    method CommonItems(path: Path, e: Json, a: Json, common: nat)
      requires e.Array? && a.Array? && common <= |e.items| && common <= |a.items|
      modifies this
      ensures found == old(found) + DiffItems(path, e, a, common)
      decreases e, 0
    {
      hide Diff;
      ghost var start := found;
      for i := 0 to common
        invariant found == start + DiffItems(path, e, a, i)
      {
        ghost var sofar, more := DiffItems(path, e, a, i), Diff(path + [Index(i)], e.items[i], a.items[i]);
        assert (start + sofar) + more == start + (sofar + more);
        Values(path + [Index(i)], e.items[i], a.items[i]);
      }
    }

    method SurplusItems(path: Path, e: Json, a: Json, common: nat)
      requires e.Array? && a.Array? && common == MinOf(|e.items|, |a.items|)
      modifies this
      ensures found == old(found) + Surplus(path, e, a)
    {
      ghost var all := Surplus(path, e, a);
      ghost var before := found;
      if |e.items| > |a.items| {
        for i := common to |e.items|
          invariant found == before + all[..i - common]
        {
          assert all[..i + 1 - common] == all[..i - common] + [all[i - common]];
          found := found + [Mismatch(path + [Index(i)], MissingValue, Of(e.items[i]), Of(Null))];
        }
      } else {
        for i := common to |a.items|
          invariant found == before + all[..i - common]
        {
          assert all[..i + 1 - common] == all[..i - common] + [all[i - common]];
          found := found + [Mismatch(path + [Index(i)], UnexpectedValue, Of(Null), Of(a.items[i]))];
        }
      }
      assert all[..|all|] == all;
    }
  }

  lemma DiffObjects(path: Path, e: Json, a: Json)
    requires e.Object? && a.Object?
    ensures Diff(path, e, a)
         == DiffKeys(path, e, a, Listing(e.fields.Keys)) + Unexpected(path, a, Listing(a.fields.Keys - e.fields.Keys))
  {
    hide Listing, DiffKeys, Unexpected;
  }

  lemma DiffArrays(path: Path, e: Json, a: Json)
    requires e.Array? && a.Array?
    ensures Diff(path, e, a)
         == LengthCheck(path, e, a) + (DiffItems(path, e, a, MinOf(|e.items|, |a.items|)) + Surplus(path, e, a))
  {
    hide LengthCheck, DiffItems, Surplus;
  }

  lemma Regroup<T>(a: seq<T>, b: seq<T>, c: seq<T>, d: seq<T>)
    ensures ((a + b) + c) + d == a + (b + (c + d))
  {
  }

  lemma KeysGrow(path: Path, e: Json, a: Json, keys: seq<string>, i: nat)
    requires e.Object? && a.Object? && (forall k :: k in keys ==> k in e.fields) && i < |keys|
    ensures keys[i] in e.fields
    ensures DiffKeys(path, e, a, keys[..i + 1]) == DiffKeys(path, e, a, keys[..i]) + DiffKey(path, e, a, keys[i])
  {
    hide DiffKey;
    assert keys[i] in keys;
    assert keys[..i + 1][..i] == keys[..i];
  }

  method DiffJson(e: Json, a: Json) returns (mismatches: seq<Mismatch>)
    ensures mismatches == Diff([], e, a)
    ensures mismatches == [] <==> e == a
  {
    var d := new Differ();
    d.Values([], e, a);
    mismatches := d.found;
    EmptyIffEqual([], e, a);
  }

  // ---------- The report decides equality ----------

  lemma {:induction false} KeysEmptyIff(path: Path, e: Json, a: Json, keys: seq<string>)
    requires e.Object? && a.Object? && forall k :: k in keys ==> k in e.fields
    ensures DiffKeys(path, e, a, keys) == [] <==> forall k :: k in keys ==> k in a.fields && e.fields[k] == a.fields[k]
    decreases e, 1, |keys|
  {
    if keys != [] {
      var n := |keys| - 1;
      KeysEmptyIff(path, e, a, keys[..n]);
      assert keys == keys[..n] + [keys[n]];
      if keys[n] in a.fields {
        EmptyIffEqual(path + [Key(keys[n])], e.fields[keys[n]], a.fields[keys[n]]);
      }
    }
  }

  lemma {:induction false} ItemsEmptyIff(path: Path, e: Json, a: Json, n: nat)
    requires e.Array? && a.Array? && n <= |e.items| && n <= |a.items|
    ensures DiffItems(path, e, a, n) == [] <==> e.items[..n] == a.items[..n]
    decreases e, 1, n
  {
    hide Diff;
    if n > 0 {
      ItemsEmptyIff(path, e, a, n - 1);
      EmptyIffEqual(path + [Index(n - 1)], e.items[n - 1], a.items[n - 1]);
      OneMoreEqual(e.items, a.items, n);
    }
  }

  lemma OneMoreEqual(e: seq<Json>, a: seq<Json>, n: nat)
    requires 0 < n <= |e| && n <= |a|
    ensures e[..n] == a[..n] <==> e[..n - 1] == a[..n - 1] && e[n - 1] == a[n - 1]
  {
    assert e[..n] == e[..n - 1] + [e[n - 1]];
    assert a[..n] == a[..n - 1] + [a[n - 1]];
    if e[..n] == a[..n] {
      assert e[..n - 1] == e[..n][..n - 1];
    }
  }

  lemma NothingUnexpectedIff(path: Path, e: Json, a: Json)
    requires e.Object? && a.Object?
    ensures Unexpected(path, a, Listing(a.fields.Keys - e.fields.Keys)) == [] <==> a.fields.Keys <= e.fields.Keys
  {
    hide Listing;
    var more := Listing(a.fields.Keys - e.fields.Keys);
    if more == [] {
      forall k | k in a.fields ensures k in e.fields {
        assert k !in more;
      }
    } else {
      assert more[0] in more;
      assert more[0] in a.fields.Keys && more[0] !in e.fields.Keys;
    }
  }

  lemma ObjectsEqualIff(e: Json, a: Json)
    requires e.Object? && a.Object?
    ensures e == a <==> a.fields.Keys <= e.fields.Keys && forall k :: k in e.fields ==> k in a.fields && e.fields[k] == a.fields[k]
  {
    if a.fields.Keys <= e.fields.Keys && forall k :: k in e.fields ==> k in a.fields && e.fields[k] == a.fields[k] {
      assert a.fields.Keys == e.fields.Keys;
      assert e.fields == a.fields;
    }
  }

  lemma ArraysEqualIff(path: Path, e: Json, a: Json)
    requires e.Array? && a.Array?
    ensures var n := MinOf(|e.items|, |a.items|);
      e == a <==> LengthCheck(path, e, a) == [] && e.items[..n] == a.items[..n] && Surplus(path, e, a) == []
  {
    assert e.items[..|e.items|] == e.items && a.items[..|a.items|] == a.items;
  }

  /** Nothing is reported exactly when the trees are equal. */
  lemma {:induction false} EmptyIffEqual(path: Path, e: Json, a: Json)
    ensures Diff(path, e, a) == [] <==> e == a
    decreases e, 2, 0
  {
    if e.Object? && a.Object? {
      hide Listing, DiffKeys, Unexpected, Diff;
      DiffObjects(path, e, a);
      KeysEmptyIff(path, e, a, Listing(e.fields.Keys));
      NothingUnexpectedIff(path, e, a);
      ObjectsEqualIff(e, a);
    } else if e.Array? && a.Array? {
      hide LengthCheck, DiffItems, Surplus, Diff;
      DiffArrays(path, e, a);
      ItemsEmptyIff(path, e, a, MinOf(|e.items|, |a.items|));
      ArraysEqualIff(path, e, a);
    }
  }

  /** Comparing two decoded documents after normalization. */
  lemma SnapshotsAgree(e: Raw, a: Raw, parseFloat: string -> Option<real>)
    ensures Diff([], Normalize(e, parseFloat), Normalize(a, parseFloat)) == [] <==> SameValue(e, a, parseFloat)
  {
    EmptyIffEqual([], Normalize(e, parseFloat), Normalize(a, parseFloat));
    NormalizedEqual(e, a, parseFloat);
  }

  // ---------- The report is exact ----------

  function Child(v: Json, s: Step): Option<Json>
  {
    if v.Object? && s.Key? && s.name in v.fields then Some(v.fields[s.name])
    else if v.Array? && s.Index? && s.at < |v.items| then Some(v.items[s.at])
    else None
  }

  /** The value below v that a path names. */
  function Lookup(v: Json, p: Path): Option<Json>
  {
    if p == [] then Some(v)
    else match Child(v, p[0])
         case Some(w) => Lookup(w, p[1..])
         case None => None
  }

  /** What a mismatch of each kind means at one pair of values. */
  predicate DiffersHere(e: Json, a: Json, kind: Kind, x: Side, y: Side)
  {
    match kind
    case TypeMismatch => x == Of(e) && y == Of(a) && ((e.Object? && !a.Object?) || (e.Array? && !a.Array?))
    case LengthMismatch => e.Array? && a.Array? && |e.items| != |a.items| && x == Count(|e.items|) && y == Count(|a.items|)
    case ValueMismatch => x == Of(e) && y == Of(a) && !e.Object? && !e.Array? && e != a
    case _ => false
  }

  /** What a mismatch of each kind means at a child of two objects or two arrays. */
  predicate DiffersBelow(e: Json, a: Json, s: Step, kind: Kind, x: Side, y: Side)
  {
    && ((e.Object? && a.Object?) || (e.Array? && a.Array?))
    && match kind
       case MissingValue => Child(e, s).Some? && Child(a, s).None? && x == Of(Child(e, s).value) && y == Of(Null)
       case UnexpectedValue => Child(e, s).None? && Child(a, s).Some? && x == Of(Null) && y == Of(Child(a, s).value)
       case _ => false
  }

  /** The trees differ at the path, in the way the mismatch says, stated by looking the path up in both. */
  ghost predicate Differs(e: Json, a: Json, p: Path, kind: Kind, x: Side, y: Side)
  {
    if kind == MissingValue || kind == UnexpectedValue then
      && p != []
      && var parent, s := p[..|p| - 1], p[|p| - 1];
      && Lookup(e, parent).Some? && Lookup(a, parent).Some?
      && DiffersBelow(Lookup(e, parent).value, Lookup(a, parent).value, s, kind, x, y)
    else
      && Lookup(e, p).Some? && Lookup(a, p).Some?
      && DiffersHere(Lookup(e, p).value, Lookup(a, p).value, kind, x, y)
  }

  /** Below a step, two trees differ as the two children do. */
  lemma DiffersChild(e: Json, a: Json, p: Path, kind: Kind, x: Side, y: Side)
    requires |p| > 0 && Child(e, p[0]).Some? && Child(a, p[0]).Some?
    ensures Differs(e, a, p, kind, x, y) <==> Differs(Child(e, p[0]).value, Child(a, p[0]).value, p[1..], kind, x, y)
  {
    hide DiffersHere, DiffersBelow;
    if kind == MissingValue || kind == UnexpectedValue {
      if |p| > 1 {
        assert p[..|p| - 1][1..] == p[1..][..|p| - 2];
        assert p[1..][|p| - 2] == p[|p| - 1];
      } else {
        ChildIsPresent(e, a, p, kind, x, y);
      }
    }
  }

  lemma ChildIsPresent(e: Json, a: Json, p: Path, kind: Kind, x: Side, y: Side)
    requires |p| == 1 && Child(e, p[0]).Some? && Child(a, p[0]).Some? && (kind == MissingValue || kind == UnexpectedValue)
    ensures !Differs(e, a, p, kind, x, y)
  {
    hide Child;
    assert p[..0] == [];
  }

  /** Below a step one of the trees does not have, only the step itself is a difference. */
  lemma DiffersAtGap(e: Json, a: Json, p: Path, kind: Kind, x: Side, y: Side)
    requires |p| > 0 && (Child(e, p[0]).None? || Child(a, p[0]).None?)
    ensures Differs(e, a, p, kind, x, y) <==> |p| == 1 && DiffersBelow(e, a, p[0], kind, x, y)
  {
    hide Child, DiffersHere, DiffersBelow;
    if |p| == 1 {
      GapItself(e, a, p, kind, x, y);
    } else if kind == MissingValue || kind == UnexpectedValue {
      assert p[..|p| - 1][0] == p[0];
    }
  }

  lemma GapItself(e: Json, a: Json, p: Path, kind: Kind, x: Side, y: Side)
    requires |p| == 1 && (Child(e, p[0]).None? || Child(a, p[0]).None?)
    ensures Differs(e, a, p, kind, x, y) <==> DiffersBelow(e, a, p[0], kind, x, y)
  {
    hide Child, DiffersHere;
    if kind == MissingValue || kind == UnexpectedValue {
      assert p[..0] == [];
    }
  }

  lemma {:induction false} KeysMember(path: Path, e: Json, a: Json, keys: seq<string>, m: Mismatch)
    requires e.Object? && a.Object? && forall k :: k in keys ==> k in e.fields
    ensures m in DiffKeys(path, e, a, keys) <==> exists k :: k in keys && m in DiffKey(path, e, a, k)
    decreases |keys|
  {
    hide DiffKey;
    if keys != [] {
      var n := |keys| - 1;
      KeysMember(path, e, a, keys[..n], m);
      KeysGrow(path, e, a, keys, n);
      assert keys[..n + 1] == keys;
      assert forall k :: k in keys <==> k in keys[..n] || k == keys[n];
    }
  }

  ghost function DiffItem(path: Path, e: Json, a: Json, i: nat): seq<Mismatch>
    requires e.Array? && a.Array? && i < |e.items| && i < |a.items|
  {
    Diff(path + [Index(i)], e.items[i], a.items[i])
  }

  lemma {:induction false} ItemsMember(path: Path, e: Json, a: Json, n: nat, m: Mismatch)
    requires e.Array? && a.Array? && n <= |e.items| && n <= |a.items|
    ensures m in DiffItems(path, e, a, n) <==> exists i :: 0 <= i < n && m in DiffItem(path, e, a, i)
    decreases n
  {
    hide Diff;
    if n > 0 {
      ItemsMember(path, e, a, n - 1, m);
      assert DiffItems(path, e, a, n) == DiffItems(path, e, a, n - 1) + DiffItem(path, e, a, n - 1);
    }
  }

  lemma SurplusAt(path: Path, e: Json, a: Json, j: nat)
    requires e.Array? && a.Array? && j < |Surplus(path, e, a)|
    ensures var m, i := Surplus(path, e, a)[j], MinOf(|e.items|, |a.items|) + j;
      m.path == path + [Index(i)] && DiffersBelow(e, a, Index(i), m.kind, m.expected, m.actual)
  {
  }

  lemma SurplusOf(path: Path, e: Json, a: Json, m: Mismatch, i: nat)
    requires e.Array? && a.Array? && m.path == path + [Index(i)]
    requires DiffersBelow(e, a, Index(i), m.kind, m.expected, m.actual)
    ensures var j := i - MinOf(|e.items|, |a.items|); 0 <= j < |Surplus(path, e, a)| && Surplus(path, e, a)[j] == m
  {
  }

  lemma SurplusMember(path: Path, e: Json, a: Json, m: Mismatch)
    requires e.Array? && a.Array?
    ensures m in Surplus(path, e, a) <==>
            exists i: nat :: m.path == path + [Index(i)] && DiffersBelow(e, a, Index(i), m.kind, m.expected, m.actual)
  {
    hide Surplus, DiffersBelow;
    var s := Surplus(path, e, a);
    if m in s {
      var j :| 0 <= j < |s| && s[j] == m;
      SurplusAt(path, e, a, j);
    }
    if i: nat :| m.path == path + [Index(i)] && DiffersBelow(e, a, Index(i), m.kind, m.expected, m.actual) {
      SurplusOf(path, e, a, m, i);
    }
  }

  lemma UnexpectedMember(path: Path, e: Json, a: Json, m: Mismatch)
    requires e.Object? && a.Object?
    ensures m in Unexpected(path, a, Listing(a.fields.Keys - e.fields.Keys)) <==>
            m.kind == UnexpectedValue &&
            exists k :: m.path == path + [Key(k)] && DiffersBelow(e, a, Key(k), m.kind, m.expected, m.actual)
  {
    hide Listing;
    var keys := Listing(a.fields.Keys - e.fields.Keys);
    var s := Unexpected(path, a, keys);
    if m in s {
      var j :| 0 <= j < |s| && s[j] == m;
      assert keys[j] in keys;
      assert DiffersBelow(e, a, Key(keys[j]), m.kind, m.expected, m.actual);
    }
    if k :| m.kind == UnexpectedValue && m.path == path + [Key(k)] && DiffersBelow(e, a, Key(k), m.kind, m.expected, m.actual) {
      assert k in keys;
      var j :| 0 <= j < |keys| && keys[j] == k;
      assert s[j] == m;
    }
  }

  /** Everything reported for a pair of values lies at or below its path. */
  lemma {:induction false} PathsBelow(path: Path, e: Json, a: Json, m: Mismatch)
    requires m in Diff(path, e, a)
    ensures path <= m.path
    decreases e
  {
    if e.Object? && a.Object? {
      hide Listing, DiffKeys, Unexpected, Diff;
      DiffObjects(path, e, a);
      var keys := Listing(e.fields.Keys);
      KeysMember(path, e, a, keys, m);
      UnexpectedMember(path, e, a, m);
      if k :| k in keys && m in DiffKey(path, e, a, k) {
        KeyBelow(path, e, a, k, m);
      }
    } else if e.Array? && a.Array? {
      hide DiffItems, Surplus, Diff;
      DiffArrays(path, e, a);
      var n := MinOf(|e.items|, |a.items|);
      ItemsMember(path, e, a, n, m);
      SurplusMember(path, e, a, m);
      if i :| 0 <= i < n && m in DiffItem(path, e, a, i) {
        PathsBelow(path + [Index(i)], e.items[i], a.items[i], m);
      }
    }
  }

  lemma KeyBelow(path: Path, e: Json, a: Json, k: string, m: Mismatch)
    requires e.Object? && a.Object? && k in e.fields && m in DiffKey(path, e, a, k)
    ensures path + [Key(k)] <= m.path
    decreases e, 0
  {
    hide Diff;
    if k in a.fields {
      PathsBelow(path + [Key(k)], e.fields[k], a.fields[k], m);
    }
  }

  /** What is reported at or below one member of two objects. */
  lemma ObjectMember(path: Path, e: Json, a: Json, k: string, m: Mismatch)
    requires e.Object? && a.Object? && path + [Key(k)] <= m.path
    ensures m in Diff(path, e, a) <==>
            (if k in e.fields && k in a.fields then m in Diff(path + [Key(k)], e.fields[k], a.fields[k])
             else m.path == path + [Key(k)] && DiffersBelow(e, a, Key(k), m.kind, m.expected, m.actual))
  {
    hide Listing, DiffKeys, Unexpected, Diff;
    DiffObjects(path, e, a);
    var keys := Listing(e.fields.Keys);
    KeysMember(path, e, a, keys, m);
    UnexpectedMember(path, e, a, m);
    assert m.path[|path|] == Key(k);
    if j :| j in keys && m in DiffKey(path, e, a, j) {
      KeyBelow(path, e, a, j, m);
      assert m.path[|path|] == Key(j);
    }
    if k in e.fields {
      assert m in DiffKey(path, e, a, k) <==> m in DiffKeys(path, e, a, keys);
    }
  }

  /** What is reported at or below one element of two arrays. */
  lemma ArrayMember(path: Path, e: Json, a: Json, i: nat, m: Mismatch)
    requires e.Array? && a.Array? && path + [Index(i)] <= m.path
    ensures m in Diff(path, e, a) <==>
            (if i < |e.items| && i < |a.items| then m in Diff(path + [Index(i)], e.items[i], a.items[i])
             else m.path == path + [Index(i)] && DiffersBelow(e, a, Index(i), m.kind, m.expected, m.actual))
  {
    hide DiffItems, Surplus, Diff;
    DiffArrays(path, e, a);
    var n := MinOf(|e.items|, |a.items|);
    ItemsMember(path, e, a, n, m);
    SurplusMember(path, e, a, m);
    assert m.path[|path|] == Index(i);
    if j :| 0 <= j < n && m in DiffItem(path, e, a, j) {
      PathsBelow(path + [Index(j)], e.items[j], a.items[j], m);
      assert m.path[|path|] == Index(j);
    }
    if i < n {
      assert m in DiffItem(path, e, a, i) <==> m in DiffItems(path, e, a, n);
    }
  }

  lemma ObjectPaths(path: Path, e: Json, a: Json, m: Mismatch)
    requires e.Object? && a.Object? && m in Diff(path, e, a)
    ensures |m.path| > |path| && m.path[|path|].Key?
  {
    hide Listing, DiffKeys, Unexpected, Diff;
    DiffObjects(path, e, a);
    var keys := Listing(e.fields.Keys);
    KeysMember(path, e, a, keys, m);
    UnexpectedMember(path, e, a, m);
    if j :| j in keys && m in DiffKey(path, e, a, j) {
      KeyBelow(path, e, a, j, m);
      assert (path + [Key(j)])[|path|] == Key(j);
    }
  }

  lemma ArrayPaths(path: Path, e: Json, a: Json, m: Mismatch)
    requires e.Array? && a.Array? && m in Diff(path, e, a)
    ensures m in LengthCheck(path, e, a) || (|m.path| > |path| && m.path[|path|].Index?)
  {
    hide DiffItems, Surplus, Diff, LengthCheck;
    DiffArrays(path, e, a);
    var n := MinOf(|e.items|, |a.items|);
    ItemsMember(path, e, a, n, m);
    SurplusMember(path, e, a, m);
    if j :| 0 <= j < n && m in DiffItem(path, e, a, j) {
      PathsBelow(path + [Index(j)], e.items[j], a.items[j], m);
      assert (path + [Index(j)])[|path|] == Index(j);
    }
  }

  lemma HereOfObjects(path: Path, e: Json, a: Json, m: Mismatch)
    requires m.path == path && e.Object? && a.Object?
    ensures m !in Diff(path, e, a) && !DiffersHere(e, a, m.kind, m.expected, m.actual)
  {
    hide Diff;
    if m in Diff(path, e, a) {
      ObjectPaths(path, e, a, m);
      assert false;
    }
  }

  lemma HereOfArrays(path: Path, e: Json, a: Json, m: Mismatch)
    requires m.path == path && e.Array? && a.Array?
    ensures m in Diff(path, e, a) <==> DiffersHere(e, a, m.kind, m.expected, m.actual)
  {
    hide Diff, DiffItems, Surplus;
    DiffArrays(path, e, a);
    if m in Diff(path, e, a) {
      ArrayPaths(path, e, a, m);
    }
  }

  lemma HereOfOthers(path: Path, e: Json, a: Json, m: Mismatch)
    requires m.path == path && !(e.Object? && a.Object?) && !(e.Array? && a.Array?)
    ensures m in Diff(path, e, a) <==> DiffersHere(e, a, m.kind, m.expected, m.actual)
  {
    hide DiffKeys, DiffItems, Surplus, Unexpected, Listing;
  }

  /** What is reported at the path itself. */
  lemma ReportedHere(path: Path, e: Json, a: Json, m: Mismatch)
    requires m.path == path
    ensures m in Diff(path, e, a) <==> DiffersHere(e, a, m.kind, m.expected, m.actual)
  {
    hide Diff, DiffersHere;
    if e.Object? && a.Object? {
      HereOfObjects(path, e, a, m);
    } else if e.Array? && a.Array? {
      HereOfArrays(path, e, a, m);
    } else {
      HereOfOthers(path, e, a, m);
    }
  }

  /**
   A mismatch is reported exactly when looking its path up in both trees shows
   that difference: nothing is missed and nothing is made up.
   */
  lemma {:induction false} ReportIsExact(path: Path, e: Json, a: Json, p: Path, kind: Kind, x: Side, y: Side)
    ensures Mismatch(path + p, kind, x, y) in Diff(path, e, a) <==> Differs(e, a, p, kind, x, y)
    decreases |p|
  {
    hide Diff, DiffersHere, DiffersBelow, Differs;
    var m := Mismatch(path + p, kind, x, y);
    if p == [] {
      DiffersAtRoot(e, a, kind, x, y);
      assert path + p == path;
      ReportedHere(path, e, a, m);
    } else {
      var s, t := p[0], path + [p[0]];
      assert path + p == t + p[1..];
      StepReported(path, e, a, s, m);
      if Child(e, s).Some? && Child(a, s).Some? {
        DiffersChild(e, a, p, kind, x, y);
        ReportIsExact(t, Child(e, s).value, Child(a, s).value, p[1..], kind, x, y);
      } else {
        DiffersAtGap(e, a, p, kind, x, y);
        assert |p| == 1 <==> m.path == t;
      }
    }
  }

  lemma DiffersAtRoot(e: Json, a: Json, kind: Kind, x: Side, y: Side)
    ensures Differs(e, a, [], kind, x, y) <==> DiffersHere(e, a, kind, x, y)
  {
  }

  /** What is reported at or below one step, whatever the two values are. */
  lemma StepReported(path: Path, e: Json, a: Json, s: Step, m: Mismatch)
    requires path + [s] <= m.path
    ensures m in Diff(path, e, a) <==>
            (if Child(e, s).Some? && Child(a, s).Some? then m in Diff(path + [s], Child(e, s).value, Child(a, s).value)
             else m.path == path + [s] && DiffersBelow(e, a, s, m.kind, m.expected, m.actual))
  {
    if e.Object? && a.Object? {
      if s.Key? {
        hide Diff, DiffersBelow;
        ObjectMember(path, e, a, s.name, m);
      } else {
        NoSuchStep(path, e, a, s, m);
      }
    } else if e.Array? && a.Array? {
      if s.Index? {
        hide Diff, DiffersBelow;
        ArrayMember(path, e, a, s.at, m);
      } else {
        NoSuchStep(path, e, a, s, m);
      }
    }
  }

  /** Nothing lies below a key of an array or an index of an object. */
  lemma NoSuchStep(path: Path, e: Json, a: Json, s: Step, m: Mismatch)
    requires path + [s] <= m.path
    requires (e.Object? && a.Object? && s.Index?) || (e.Array? && a.Array? && s.Key?)
    ensures m !in Diff(path, e, a)
  {
    hide Diff;
    assert m.path[|path|] == s;
    if m in Diff(path, e, a) {
      if e.Object? {
        ObjectPaths(path, e, a, m);
      } else {
        ArrayPaths(path, e, a, m);
      }
    }
  }
}
