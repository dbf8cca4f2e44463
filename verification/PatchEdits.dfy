/**
 Validating and previewing a patch: edits are grouped by file, checked, sorted
 and spliced back to front.  The preview equals replacing all spans at once, and
 neither acceptance nor the bytes depend on the order in which edits are listed.
 */
module PatchEdits {
  import opened Wrappers
  import opened Ordering
  import opened PatchSpan
  import opened Hashing

  type Bytes = string

  /** Versions of the identity contract: absent, the current one, or another. */
  datatype Contract = NoContract | CurrentContract | OtherContract(name: string)

  datatype Edit = Edit(
    path: string,
    contentHash: Hash,
    identityContract: Contract,
    identityVersion: Contract,
    span: Span,
    oldText: Bytes,
    newText: Bytes)

  datatype FilePreview = FilePreview(path: string, oldHash: Hash, newHash: Hash, bytes: Bytes)

  datatype PatchError = PathEscape | Unreadable | StaleHash | IdentityContract | OutOfRange | SpanPanic | OldText | Overlap

  // ---------- One file ----------

  /** What an edit does to the bytes, and what the sort compares. */
  datatype Key = Key(start: int, end: int, newText: Bytes, oldText: Bytes)

  function KeyOf(e: Edit): Key { Key(e.span.byteStart, e.span.byteEnd, e.newText, e.oldText) }

  function Keys(es: seq<Edit>): (ks: seq<Key>)
    ensures |ks| == |es| && forall i :: 0 <= i < |es| ==> ks[i] == KeyOf(es[i])
  {
    seq(|es|, i requires 0 <= i < |es| => KeyOf(es[i]))
  }

  predicate KeyLe(a: Key, b: Key)
  {
    if a.start != b.start then a.start < b.start
    else if a.end != b.end then a.end < b.end
    else if a.newText != b.newText then LexLe(a.newText, b.newText)
    else LexLe(a.oldText, b.oldText)
  }

  predicate EditLe(a: Edit, b: Edit) { KeyLe(KeyOf(a), KeyOf(b)) }

  lemma KeyLeAntisymmetric(a: Key, b: Key)
    requires KeyLe(a, b) && KeyLe(b, a)
    ensures a == b
  {
    if a.newText != b.newText {
      LexAntisymmetric(a.newText, b.newText);
    } else {
      LexAntisymmetric(a.oldText, b.oldText);
    }
  }

  lemma KeyLeTransitive(a: Key, b: Key, c: Key)
    requires KeyLe(a, b) && KeyLe(b, c)
    ensures KeyLe(a, c)
  {
    if a.start == b.start == c.start && a.end == b.end == c.end {
      if a.newText == b.newText == c.newText {
        LexTransitive(a.oldText, b.oldText, c.oldText);
      } else if a.newText != b.newText && b.newText != c.newText {
        LexTransitive(a.newText, b.newText, c.newText);
        if a.newText == c.newText {
          LexAntisymmetric(a.newText, b.newText);
        }
      }
    }
  }

  lemma KeyOrder()
    ensures TotalPreorder(KeyLe) && Antisymmetric(KeyLe)
  {
    forall a, b ensures KeyLe(a, b) || KeyLe(b, a) {
      LexTotal(a.newText, b.newText);
      LexTotal(a.oldText, b.oldText);
    }
    forall a, b | KeyLe(a, b) && KeyLe(b, a) ensures a == b {
      KeyLeAntisymmetric(a, b);
    }
    forall a, b, c | KeyLe(a, b) && KeyLe(b, c) ensures KeyLe(a, c) {
      KeyLeTransitive(a, b, c);
    }
  }

  /** The edits in span order, as the stable sort leaves them. */
  function SortEdits(es: seq<Edit>): seq<Edit> { SortBy(es, EditLe) }

  /** Neighbours in span order do not overlap. */
  predicate Adjacent(ks: seq<Key>)
  {
    forall i :: 0 < i < |ks| ==> ks[i - 1].end <= ks[i].start
  }

  /** The original with every span replaced at once: the untouched gaps interleaved with the new texts. */
  function Interleave(original: Bytes, ks: seq<Key>, from: nat): Bytes
    requires from <= |original|
  {
    if ks == [] then original[from..]
    else if from <= ks[0].start <= ks[0].end <= |original| then
      original[from..ks[0].start] + ks[0].newText + Interleave(original, ks[1..], ks[0].end)
    else original[from..]
  }

  ghost predicate EditOk(original: Bytes, e: Edit)
  {
    && e.contentHash == Digest(original)
    && e.identityContract == CurrentContract
    && (e.identityVersion == NoContract || e.identityVersion == CurrentContract)
    && Accepted(original, e.span)
    && original[e.span.byteStart..e.span.byteEnd] == e.oldText
  }

  ghost function EditError(original: Bytes, e: Edit): PatchError
  {
    if e.contentHash != Digest(original) then StaleHash
    else if e.identityContract != CurrentContract ||
            (e.identityVersion != NoContract && e.identityVersion != CurrentContract) then IdentityContract
    else if !Accepted(original, e.span) then (if Crashes(original, e.span) then SpanPanic else OutOfRange)
    else OldText
  }

  /** The first edit, in listing order, that fails a check. */
  ghost function FirstError(original: Bytes, es: seq<Edit>): Option<PatchError>
  {
    if es == [] then None
    else if !EditOk(original, es[0]) then Some(EditError(original, es[0]))
    else FirstError(original, es[1..])
  }

  /** What a group of edits makes of one file. */
  ghost function Patched(original: Bytes, es: seq<Edit>): Result<Bytes, PatchError>
  {
    if FirstError(original, es).Some? then Err(FirstError(original, es).value)
    else
      var ks := Keys(SortEdits(es));
      if !Adjacent(ks) then Err(Overlap) else Ok(Interleave(original, ks, 0))
  }

  lemma {:induction false} FirstErrorSound(original: Bytes, es: seq<Edit>)
    ensures FirstError(original, es).None? <==> forall e :: e in es ==> EditOk(original, e)
  {
    if es != [] {
      FirstErrorSound(original, es[1..]);
      assert es == [es[0]] + es[1..];
    }
  }

  method CheckEdit(original: Bytes, e: Edit) returns (err: Option<PatchError>)
    ensures err == if EditOk(original, e) then None else Some(EditError(original, e))
  {
    if e.contentHash == NoHash || e.contentHash != Digest(original) {
      return Some(StaleHash);
    }
    if e.identityContract != CurrentContract ||
       (e.identityVersion != NoContract && e.identityVersion != CurrentContract) {
      return Some(IdentityContract);
    }
    var verdict := ValidateSpan(e.span, original);
    if verdict != Accept {
      return Some(if verdict == Panic then SpanPanic else OutOfRange);
    }
    if original[e.span.byteStart..e.span.byteEnd] != e.oldText {
      return Some(OldText);
    }
    return None;
  }

  /** Spans in range, one after the other. */
  ghost predicate Spliceable(original: Bytes, ks: seq<Key>)
  {
    Adjacent(ks) && forall i :: 0 <= i < |ks| ==> 0 <= ks[i].start <= ks[i].end <= |original|
  }

  /** The body of the preview for one file: check, sort, look for overlaps, splice. */
  method PatchFile(original: Bytes, group: seq<Edit>) returns (r: Result<Bytes, PatchError>)
    ensures r == Patched(original, group)
  {
    var err := CheckAll(original, group);
    if err.Some? {
      return Err(err.value);
    }
    var edits := SortEdits(group);
    var overlap := Overlapping(edits);
    if overlap {
      return Err(Overlap);
    }
    SortedInRange(original, group);
    var result := SpliceBackwards(original, edits);
    return Ok(result);
  }

  method CheckAll(original: Bytes, group: seq<Edit>) returns (err: Option<PatchError>)
    ensures err == FirstError(original, group)
  {
    assert group[0..] == group;
    for i := 0 to |group|
      invariant FirstError(original, group) == FirstError(original, group[i..])
    {
      err := CheckEdit(original, group[i]);
      assert group[i..][1..] == group[i + 1..];
      if err.Some? {
        return;
      }
    }
    err := None;
  }

  method Overlapping(edits: seq<Edit>) returns (overlap: bool)
    ensures overlap <==> !Adjacent(Keys(edits))
  {
    ghost var ks := Keys(edits);
    var i := 1;
    while i < |edits|
      invariant i >= 1
      invariant forall j :: 0 < j < i && j < |ks| ==> ks[j - 1].end <= ks[j].start
    {
      if edits[i - 1].span.byteEnd > edits[i].span.byteStart {
        assert ks[i - 1].end > ks[i].start;
        return true;
      }
      i := i + 1;
    }
    return false;
  }

  lemma SortedInRange(original: Bytes, group: seq<Edit>)
    requires FirstError(original, group).None? && Adjacent(Keys(SortEdits(group)))
    ensures Spliceable(original, Keys(SortEdits(group)))
  {
    FirstErrorSound(original, group);
    var edits := SortEdits(group);
    forall j | 0 <= j < |edits| ensures EditOk(original, edits[j]) {
      assert edits[j] in multiset(edits);
      assert edits[j] in group;
    }
  }

  /** From the last span to the first, so that offsets not used yet stay right. */
  method SpliceBackwards(original: Bytes, edits: seq<Edit>) returns (result: Bytes)
    requires Spliceable(original, Keys(edits))
    ensures result == Interleave(original, Keys(edits), 0)
  {
    ghost var ks := Keys(edits);
    result := original;
    var i := |edits|;
    assert original == original[..Before(ks, i)] + original[Before(ks, i)..];
    while i > 0
      invariant 0 <= i <= |edits|
      invariant result == original[..Before(ks, i)] + Interleave(original, ks[i..], Before(ks, i))
    {
      i := i - 1;
      var s, e := edits[i].span.byteStart, edits[i].span.byteEnd;
      SpliceStep(original, ks, i, result);
      result := result[..s] + edits[i].newText + result[e..];
    }
    assert ks[0..] == ks;
  }

  /** The offset up to which the original is untouched when only the edits from i on are applied. */
  ghost function Before(ks: seq<Key>, i: nat): int
    requires i <= |ks|
  {
    if i == 0 then 0 else ks[i - 1].end
  }

  lemma SpliceStep(original: Bytes, ks: seq<Key>, i: nat, result: Bytes)
    requires Spliceable(original, ks) && i < |ks|
    requires result == original[..ks[i].end] + Interleave(original, ks[i + 1..], ks[i].end)
    ensures result[..ks[i].start] + ks[i].newText + result[ks[i].end..]
         == original[..Before(ks, i)] + Interleave(original, ks[i..], Before(ks, i))
  {
    var k, b := ks[i], Before(ks, i);
    assert ks[i..][1..] == ks[i + 1..];
    assert result[..k.start] == original[..k.start] == original[..b] + original[b..k.start];
    assert result[k.end..] == Interleave(original, ks[i + 1..], k.end);
  }

  // ---------- What the splice means ----------

  function Growth(ks: seq<Key>): int
  {
    if ks == [] then 0 else |ks[0].newText| - (ks[0].end - ks[0].start) + Growth(ks[1..])
  }

  /** The exact length: the original plus what each edit adds. */
  lemma {:induction false} InterleaveLength(original: Bytes, ks: seq<Key>, from: nat)
    requires Spliceable(original, ks) && from <= |original| && (ks != [] ==> from <= ks[0].start)
    ensures |Interleave(original, ks, from)| == |original| - from + Growth(ks)
  {
    if ks != [] {
      Rest(original, ks);
      InterleaveLength(original, ks[1..], ks[0].end);
    }
  }

  lemma Rest(original: Bytes, ks: seq<Key>)
    requires Spliceable(original, ks) && ks != []
    ensures Spliceable(original, ks[1..]) && (ks[1..] != [] ==> ks[0].end <= ks[1..][0].start)
    ensures ks[0].start <= ks[0].end <= |original|
  {
  }

  /** The edits that undo ks, placed in the patched bytes; `shift` is how far the text has moved so far. */
  function Undo(ks: seq<Key>, shift: int): (us: seq<Key>)
    ensures |us| == |ks|
  {
    if ks == [] then []
    else
      var k := ks[0];
      [Key(k.start + shift, k.start + shift + |k.newText|, k.oldText, k.newText)]
        + Undo(ks[1..], shift + |k.newText| - (k.end - k.start))
  }

  /** Undoing a patch gives the original bytes back. */
  lemma {:induction false} UndoRestores(original: Bytes, ks: seq<Key>, from: nat, done: Bytes)
    requires Spliceable(original, ks) && from <= |original| && (ks != [] ==> from <= ks[0].start)
    requires forall i :: 0 <= i < |ks| ==> original[ks[i].start..ks[i].end] == ks[i].oldText
    ensures var patched := done + Interleave(original, ks, from);
      Interleave(patched, Undo(ks, |done| - from), |done|) == original[from..]
    decreases |ks|
  {
    hide Spliceable, Interleave, Undo;
    if ks == [] {
      UndoNothing(original, from, done);
    } else {
      var k := ks[0];
      Rest(original, ks);
      var gap := original[from..k.start];
      UndoRestores(original, ks[1..], k.end, done + (gap + k.newText));
      UndoFirst(original, ks, from, done);
      assert original[from..] == gap + (k.oldText + original[k.end..]);
    }
  }

  lemma UndoNothing(original: Bytes, from: nat, done: Bytes)
    requires from <= |original|
    ensures Interleave(done + Interleave(original, [], from), Undo([], |done| - from), |done|) == original[from..]
  {
    assert (done + original[from..])[|done|..] == original[from..];
  }

  /** One step of a patch and of its undoing. */
  lemma UndoFirst(original: Bytes, ks: seq<Key>, from: nat, done: Bytes)
    requires ks != [] && 0 <= from <= ks[0].start <= ks[0].end <= |original|
    ensures var k := ks[0];
      var gap := original[from..k.start];
      var done' := done + (gap + k.newText);
      var patched := done' + Interleave(original, ks[1..], k.end);
      && done + Interleave(original, ks, from) == patched
      && Interleave(patched, Undo(ks, |done| - from), |done|)
         == gap + (k.oldText + Interleave(patched, Undo(ks[1..], |done'| - k.end), |done'|))
  {
    hide Interleave, Undo;
    var k := ks[0];
    var gap := original[from..k.start];
    var done' := done + (gap + k.newText);
    var patched := done' + Interleave(original, ks[1..], k.end);
    FirstEdit(original, ks, from);
    assert done + (gap + (k.newText + Interleave(original, ks[1..], k.end))) == patched;
    UndoHead(ks, |done| - from);
    FirstEdit(patched, Undo(ks, |done| - from), |done|);
    assert patched[|done|..|done| + |gap|] == gap;
  }

  lemma FirstEdit(original: Bytes, ks: seq<Key>, from: nat)
    requires ks != [] && from <= ks[0].start <= ks[0].end <= |original|
    ensures Interleave(original, ks, from)
         == original[from..ks[0].start] + (ks[0].newText + Interleave(original, ks[1..], ks[0].end))
  {
  }

  lemma UndoHead(ks: seq<Key>, shift: int)
    requires ks != []
    ensures var us, k := Undo(ks, shift), ks[0];
      && us[0] == Key(k.start + shift, k.start + shift + |k.newText|, k.oldText, k.newText)
      && us[1..] == Undo(ks[1..], shift + |k.newText| - (k.end - k.start))
  {
  }

  /** An accepted patch has the length its edits say, and applying the undoing edits to its result gives the file back. */
  lemma PatchedUndo(original: Bytes, es: seq<Edit>)
    requires Patched(original, es).Ok?
    ensures var patched, ks := Patched(original, es).value, Keys(SortEdits(es));
      && |patched| == |original| + Growth(ks)
      && Interleave(patched, Undo(ks, 0), 0) == original
  {
    hide Interleave, Undo, Growth;
    var edits, ks := SortEdits(es), Keys(SortEdits(es));
    SortedInRange(original, es);
    FirstErrorSound(original, es);
    forall i | 0 <= i < |ks| ensures original[ks[i].start..ks[i].end] == ks[i].oldText {
      assert edits[i] in multiset(edits);
      assert edits[i] in es;
    }
    InterleaveLength(original, ks, 0);
    UndoRestores(original, ks, 0, "");
    assert "" + Interleave(original, ks, 0) == Interleave(original, ks, 0);
  }

  /** Without overlapping neighbours no two edits overlap: any edit ends before every later one starts. */
  lemma {:induction false} AdjacentIsPairwise(ks: seq<Key>, i: nat, j: nat)
    requires i < j < |ks| && (forall m :: 0 <= m < |ks| ==> ks[m].start <= ks[m].end) && Adjacent(ks)
    ensures ks[i].end <= ks[j].start
    decreases j
  {
    if i < j - 1 {
      AdjacentIsPairwise(ks, i, j - 1);
    }
  }

  // ---------- Order of listing ----------

  /** Taking the element at j out of a sequence. */
  lemma WithoutAt<T>(s: seq<T>, j: nat)
    requires j < |s|
    ensures s == s[..j] + ([s[j]] + s[j + 1..])
    ensures multiset(s) == multiset{s[j]} + multiset(s[..j] + s[j + 1..])
    ensures multiset(s[..j] + s[j + 1..]) == multiset(s) - multiset{s[j]}
  {
    var t := s[..j] + ([s[j]] + s[j + 1..]);
    assert s == t;
    assert multiset(t) == multiset(s[..j]) + (multiset{s[j]} + multiset(s[j + 1..]));
    var without := s[..j] + s[j + 1..];
    assert multiset(without) == multiset(s[..j]) + multiset(s[j + 1..]);
  }

  lemma {:induction false} KeysMultiset(a: seq<Edit>, b: seq<Edit>)
    requires multiset(a) == multiset(b)
    ensures multiset(Keys(a)) == multiset(Keys(b))
    decreases |a|
  {
    assert |a| == |multiset(a)| == |multiset(b)| == |b|;
    if a != [] {
      assert a[0] in multiset(b);
      var j :| 0 <= j < |b| && b[j] == a[0];
      WithoutAt(a, 0);
      WithoutAt(b, j);
      KeysMultiset(a[..0] + a[1..], b[..j] + b[j + 1..]);
      KeysWithoutAt(a, 0);
      KeysWithoutAt(b, j);
    }
  }

  lemma KeysWithoutAt(s: seq<Edit>, j: nat)
    requires j < |s|
    ensures multiset(Keys(s)) == multiset{KeyOf(s[j])} + multiset(Keys(s[..j] + s[j + 1..]))
  {
    WithoutAt(Keys(s), j);
    assert Keys(s)[..j] + Keys(s)[j + 1..] == Keys(s[..j] + s[j + 1..]);
  }

  /** Sorting leaves the same keys in the same order however the edits were listed. */
  lemma SortedKeysUnique(a: seq<Edit>, b: seq<Edit>)
    requires multiset(a) == multiset(b)
    ensures Keys(SortEdits(a)) == Keys(SortEdits(b))
  {
    KeyOrder();
    KeysMultiset(SortEdits(a), SortEdits(b));
    SortEditsSorted(a);
    SortEditsSorted(b);
    SortedUnique(Keys(SortEdits(a)), Keys(SortEdits(b)), KeyLe);
  }

  lemma SortEditsSorted(es: seq<Edit>)
    ensures Sorted(Keys(SortEdits(es)), KeyLe)
  {
    KeyOrder();
    assert TotalPreorder(EditLe) by {
      forall a, b ensures EditLe(a, b) || EditLe(b, a) {
        assert KeyLe(KeyOf(a), KeyOf(b)) || KeyLe(KeyOf(b), KeyOf(a));
      }
      forall a, b, c | EditLe(a, b) && EditLe(b, c) ensures EditLe(a, c) {
        assert KeyLe(KeyOf(a), KeyOf(c));
      }
    }
    SortBySorted(es, EditLe);
  }

  lemma SameMembers<T>(a: seq<T>, b: seq<T>)
    requires multiset(a) == multiset(b)
    ensures forall x :: x in a <==> x in b
  {
    assert forall x :: x in a <==> x in multiset(a);
    assert forall x :: x in b <==> x in multiset(b);
  }

  /** One file: acceptance and bytes are the same for every listing of the same edits. */
  lemma PatchedOrderFree(original: Bytes, a: seq<Edit>, b: seq<Edit>)
    requires multiset(a) == multiset(b)
    ensures Patched(original, a).Ok? == Patched(original, b).Ok?
    ensures Patched(original, a).Ok? ==> Patched(original, a) == Patched(original, b)
  {
    hide EditOk, EditError, FirstError, Interleave, Adjacent, Keys, SortEdits;
    FirstErrorSound(original, a);
    FirstErrorSound(original, b);
    SameMembers(a, b);
    SortedKeysUnique(a, b);
  }
}
