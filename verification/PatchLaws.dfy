/**
 What is promised of one file and of one path, told without the functions that
 compute it: which check an edit fails, where its text comes to stand, and what
 cleaning does to a path.
 */
module PatchLaws {
  import opened Wrappers
  import opened Text
  import opened Ordering
  import opened Hashing
  import opened PatchSpan
  import opened PatchPaths
  import opened PatchEdits

  // ---------- Which check fails ----------

  /** The edits before number i pass all checks. */
  ghost predicate PassUpTo(original: Bytes, es: seq<Edit>, i: nat)
    requires i <= |es|
  {
    forall j :: 0 <= j < i ==> Passes(original, es[j])
  }

  ghost predicate Trusted(e: Edit) { e.identityContract == CurrentContract && !e.identityVersion.OtherContract? }

  ghost predicate Passes(original: Bytes, e: Edit)
  {
    && e.contentHash == Sha256(original) && Trusted(e) && Accepted(original, e.span)
    && e.oldText == original[e.span.byteStart..e.span.byteEnd]
  }

  lemma PassesIs(original: Bytes, e: Edit)
    ensures Passes(original, e) <==> EditOk(original, e)
  {
  }

  /** The checks run in this order: hash, contract, span, old text; the first edit to fail one decides. */
  lemma RejectedFor(original: Bytes, es: seq<Edit>, i: nat)
    requires i < |es| && PassUpTo(original, es, i) && !Passes(original, es[i])
    ensures var e := es[i];
      Patched(original, es) ==
        if e.contentHash != Sha256(original) then Err(StaleHash)
        else if !Trusted(e) then Err(IdentityContract)
        else if Accepted(original, e.span) then Err(OldText)
        else Err(if Crashes(original, e.span) then SpanPanic else OutOfRange)
  {
    hide SortEdits, Interleave, Adjacent, Passes, EditOk, EditError;
    FirstToFail(original, es, i);
    ErrorIs(original, es[i]);
  }

  lemma ErrorIs(original: Bytes, e: Edit)
    requires !Passes(original, e)
    ensures EditError(original, e) ==
        if e.contentHash != Sha256(original) then StaleHash
        else if !Trusted(e) then IdentityContract
        else if Accepted(original, e.span) then OldText
        else if Crashes(original, e.span) then SpanPanic
        else OutOfRange
  {
    hide Crashes;
  }

  lemma {:induction false} FirstToFail(original: Bytes, es: seq<Edit>, i: nat)
    requires i < |es| && PassUpTo(original, es, i) && !Passes(original, es[i])
    ensures FirstError(original, es) == Some(EditError(original, es[i]))
    decreases i
  {
    hide Passes, EditOk, EditError;
    PassesIs(original, es[0]);
    if i > 0 {
      FirstToFail(original, es[1..], i - 1);
    }
  }

  /** Edits that pass all checks are accepted exactly when no two of them overlap. */
  lemma AcceptedWhenDisjoint(original: Bytes, es: seq<Edit>)
    requires PassUpTo(original, es, |es|)
    ensures var ks := Keys(SortEdits(es));
      && (Patched(original, es).Ok? <==> forall i, j :: 0 <= i < j < |ks| ==> ks[i].end <= ks[j].start)
      && (Patched(original, es).Err? ==> Patched(original, es) == Err(Overlap))
  {
    hide Interleave, Passes, EditOk, Keys, SortEdits;
    forall e | e in es ensures EditOk(original, e) {
      var j :| 0 <= j < |es| && es[j] == e;
      PassesIs(original, e);
    }
    FirstErrorSound(original, es);
    var ks := Keys(SortEdits(es));
    if Adjacent(ks) {
      SortedInRange(original, es);
      forall i, j | 0 <= i < j < |ks| ensures ks[i].end <= ks[j].start {
        AdjacentIsPairwise(ks, i, j);
      }
    }
  }

  // ---------- Where the new texts stand ----------

  /** How far the text after edit k - 1 has moved. */
  function Moved(ks: seq<Key>, k: nat): int
    requires k <= |ks|
  {
    if k == 0 then 0 else Moved(ks, k - 1) + |ks[k - 1].newText| - (ks[k - 1].end - ks[k - 1].start)
  }

  lemma {:induction false} MovedRest(ks: seq<Key>, k: nat)
    requires 0 < k <= |ks|
    ensures Moved(ks, k) == |ks[0].newText| - (ks[0].end - ks[0].start) + Moved(ks[1..], k - 1)
  {
    if k > 1 {
      MovedRest(ks, k - 1);
      assert ks[1..][k - 2] == ks[k - 1];
    }
  }

  /** The end of the untouched text after edit k. */
  function GapEnd(original: Bytes, ks: seq<Key>, k: nat): int
    requires k < |ks|
  {
    if k + 1 < |ks| then ks[k + 1].start else |original|
  }

  /** s stands in the text at place i. */
  ghost predicate StandsAt(text: Bytes, i: int, s: Bytes) { 0 <= i && i + |s| <= |text| && text[i..i + |s|] == s }

  /** The new text of edit k stands where its span was, moved by the edits before it, and the untouched text follows it. */
  lemma {:induction false} TextsInPlace(original: Bytes, ks: seq<Key>, from: nat, k: nat)
    requires Spliceable(original, ks) && k < |ks| && from <= ks[0].start
    ensures var r, at := Interleave(original, ks, from), ks[k].start - from + Moved(ks, k);
      && 0 <= ks[0].start <= |original| && StandsAt(r, 0, original[from..ks[0].start])
      && StandsAt(r, at, ks[k].newText)
      && 0 <= ks[k].end <= GapEnd(original, ks, k) <= |original|
      && StandsAt(r, at + |ks[k].newText|, original[ks[k].end..GapEnd(original, ks, k)])
    decreases |ks|
  {
    hide Interleave, Spliceable, Moved, StandsAt, GapEnd;
    SpansInRange(original, ks, k);
    var gap, text := original[from..ks[0].start], ks[0].newText;
    var rest := Interleave(original, ks[1..], ks[0].end);
    FirstEdit(original, ks, from);
    NothingMoved(ks);
    StandsHere(gap, text, rest);
    if k == 0 {
      NextGap(original, ks);
      StandsLater(gap + text, rest, 0, original[ks[0].end..GapEnd(original, ks, 0)]);
    } else {
      Rest(original, ks);
      TextsInPlace(original, ks[1..], ks[0].end, k - 1);
      MovedRest(ks, k);
      var at := ks[k].start - ks[0].end + Moved(ks[1..], k - 1);
      StandsLater(gap + text, rest, at, ks[k].newText);
      StandsLater(gap + text, rest, at + |ks[k].newText|, original[ks[k].end..GapEnd(original, ks, k)]);
    }
  }

  lemma StandsHere(gap: Bytes, text: Bytes, rest: Bytes)
    ensures gap + (text + rest) == (gap + text) + rest
    ensures StandsAt(gap + (text + rest), 0, gap) && StandsAt(gap + (text + rest), |gap|, text)
  {
  }

  lemma NothingMoved(ks: seq<Key>)
    ensures Moved(ks, 0) == 0
  {
  }

  lemma SpansInRange(original: Bytes, ks: seq<Key>, k: nat)
    requires Spliceable(original, ks) && k < |ks|
    ensures 0 <= ks[0].start <= ks[0].end <= |original|
    ensures 0 <= ks[k].start <= ks[k].end <= GapEnd(original, ks, k) <= |original|
    ensures k > 0 ==> GapEnd(original, ks, k) == GapEnd(original, ks[1..], k - 1)
  {
    assert k + 1 < |ks| ==> ks[k].end <= ks[k + 1].start;
  }

  lemma StandsLater(first: Bytes, rest: Bytes, i: int, s: Bytes)
    requires StandsAt(rest, i, s)
    ensures StandsAt(first + rest, |first| + i, s)
  {
  }

  /** What follows the first new text. */
  lemma NextGap(original: Bytes, ks: seq<Key>)
    requires ks != [] && Spliceable(original, ks)
    ensures 0 <= ks[0].end <= GapEnd(original, ks, 0) <= |original|
    ensures StandsAt(Interleave(original, ks[1..], ks[0].end), 0, original[ks[0].end..GapEnd(original, ks, 0)])
  {
    if |ks| > 1 {
      FirstEdit(original, ks[1..], ks[0].end);
    }
  }

  /** Two insertions at one place come in the byte order of their texts, however they are listed. */
  lemma InsertionsInOrder(original: Bytes, a: Edit, b: Edit)
    requires Passes(original, a) && Passes(original, b) && a.span == b.span && a.span.byteStart == a.span.byteEnd
    requires LexLe(a.newText, b.newText)
    ensures var at := a.span.byteStart;
      && 0 <= at <= |original|
      && Patched(original, [a, b]) == Ok(original[..at] + a.newText + b.newText + original[at..])
      && Patched(original, [b, a]) == Ok(original[..at] + a.newText + b.newText + original[at..])
  {
    hide Interleave, EditOk, KeyLe, SortEdits, Keys, LexLe;
    var at, es, ks := a.span.byteStart, [a, b], [KeyOf(a), KeyOf(b)];
    PassesIs(original, a);
    PassesIs(original, b);
    forall e | e in es ensures EditOk(original, e) {
    }
    FirstErrorSound(original, es);
    SortedPair(a, b);
    FirstEdit(original, ks, 0);
    FirstEdit(original, ks[1..], at);
    assert ks[1..][1..] == [];
    NoEdits(original, at);
    assert original[at..at] == "";
    assert original[..at] + (a.newText + (original[at..at] + (b.newText + original[at..])))
        == original[..at] + a.newText + b.newText + original[at..];
    assert multiset([a, b]) == multiset([b, a]);
    PatchedOrderFree(original, [a, b], [b, a]);
  }

  lemma NoEdits(original: Bytes, from: nat)
    requires from <= |original|
    ensures Interleave(original, [], from) == original[from..]
  {
  }

  /** The sorted keys of two edits at one place. */
  lemma SortedPair(a: Edit, b: Edit)
    requires a.span == b.span && a.oldText == b.oldText && LexLe(a.newText, b.newText)
    ensures Keys(SortEdits([a, b])) == [KeyOf(a), KeyOf(b)]
  {
    hide SortEdits, KeyLe, LexLe;
    var ks := [KeyOf(a), KeyOf(b)];
    assert Keys([a, b]) == ks;
    KeysInOrder(a, b);
    assert Sorted(ks, KeyLe);
    assert multiset(SortEdits([a, b])) == multiset([a, b]) by {
      SortedSame([a, b]);
    }
    KeysMultiset(SortEdits([a, b]), [a, b]);
    SortEditsSorted([a, b]);
    KeyOrder();
    SortedUnique(Keys(SortEdits([a, b])), ks, KeyLe);
  }

  lemma KeysInOrder(a: Edit, b: Edit)
    requires a.span == b.span && a.oldText == b.oldText && LexLe(a.newText, b.newText)
    ensures KeyLe(KeyOf(a), KeyOf(b))
  {
    LexTotal(a.oldText, a.oldText);
  }

  lemma SortedSame(es: seq<Edit>)
    ensures multiset(SortEdits(es)) == multiset(es)
  {
  }

  // ---------- Cleaning ----------

  lemma TrimmedIff(s: string)
    ensures TrimSpace(s) == s <==> BlankSize(s) == 0 && BlankTail(s) == 0
  {
    TrimLength(s);
    TrimLeftLength(s);
    TrimRightLength(TrimLeft(s));
    if BlankSize(s) > 0 {
      TrimLeftLength(s[BlankSize(s)..]);
    } else if BlankTail(s) > 0 {
      TrimRightLength(s[..|s| - BlankTail(s)]);
    }
  }

  /** A relative path without white space at its ends. */
  predicate Plain(p: string) { p != "" && p[0] != '/' && TrimSpace(p) == p }

  /** A name that does not begin with white space. */
  predicate DirectoryName(n: string) { Ordinary(n) && BlankSize(n) == 0 }

  lemma PlainBelow(first: string, p: string)
    requires Plain(p) && first != "" && '/' !in first && BlankSize(first) == 0
    ensures Plain(first + "/" + p)
  {
    hide TrimSpace;
    var s, n := first + "/" + p, |first + "/" + p|;
    TrimmedIff(p);
    TrimmedIff(s);
    assert s[0] == first[0] && s[n - 1] == p[|p| - 1];
    assert first[0] in first;
    assert BlankSize(s) == 0;
    assert |p| >= 2 ==> s[n - 2] == p[|p| - 2];
    assert |p| >= 3 ==> s[n - 3] == p[|p| - 3];
    assert |p| == 2 ==> s[n - 3] == '/';
    assert |p| == 1 ==> s[n - 2] == '/';
    assert BlankTail(s) == 0;
  }

  /** The parts a plain path is cleaned from. */
  lemma CleanedFrom(p: string)
    requires Plain(p)
    ensures CanonicalRelative(p) ==
      var parts := CleanParts([], Split(p)); if parts == [] || parts[0] == ".." then None else Some(JoinPath(parts))
  {
  }

  lemma StepIn(kept: seq<string>, first: string, p: string)
    requires '/' !in first
    ensures CleanParts(kept, Split(first + "/" + p)) == CleanParts(CleanStep(kept, first), Split(p))
  {
    hide CleanStep;
    SplitFirst(first, p);
    assert ([first] + Split(p))[1..] == Split(p);
  }

  /** Going into a directory and out of it again changes nothing, nor does staying where one is. */
  lemma DetoursVanish(name: string, p: string)
    requires DirectoryName(name) && Plain(p)
    ensures CanonicalRelative(name + "/../" + p) == CanonicalRelative(p)
    ensures CanonicalRelative("./" + p) == CanonicalRelative(p)
  {
    hide CanonicalRelative, TrimSpace, CleanParts, Split;
    assert name + "/../" + p == name + "/" + (".." + "/" + p) && "./" + p == "." + "/" + p;
    PlainBelow("..", p);
    PlainBelow(".", p);
    PlainBelow(name, ".." + "/" + p);
    CleanedFrom(p);
    CleanedFrom("." + "/" + p);
    CleanedFrom(name + "/" + (".." + "/" + p));
    StepIn([], ".", p);
    StepIn([], name, ".." + "/" + p);
    StepIn([name], "..", p);
    assert CleanStep([], name) == [name] && CleanStep([name], "..") == [];
  }

  lemma {:induction false} ClimbStays(kept: seq<string>, parts: seq<string>)
    requires kept != [] && kept[0] == ".."
    ensures CleanParts(kept, parts) != [] && CleanParts(kept, parts)[0] == ".."
    decreases |parts|
  {
    if parts != [] {
      ClimbStays(CleanStep(kept, parts[0]), parts[1..]);
    }
  }

  /** A path that begins by climbing is refused, whatever follows, and so is an absolute one. */
  lemma OutsideRefused(p: string)
    requires Plain(p)
    ensures CanonicalRelative("../" + p) == None && CanonicalRelative("..") == None
    ensures CanonicalRelative("/" + p) == None && CanonicalRelative("") == None
  {
    hide TrimSpace, CleanParts, Split, BlankSize, BlankTail;
    assert "../" + p == ".." + "/" + p;
    assert BlankSize("..") == 0 == BlankTail("..") by {
      DotsAreNotBlank();
    }
    PlainBelow("..", p);
    CleanedFrom(".." + "/" + p);
    StepIn([], "..", p);
    assert CleanStep([], "..") == [".."];
    ClimbStays([".."], Split(p));
    TrimmedIff("..");
    SplitName("..");
    assert CleanParts([], [".."]) == [".."] by {
      OnePart("..");
    }
    TrimmedIff("/" + p);
    SlashTrims(p);
  }

  lemma DotsAreNotBlank()
    ensures BlankSize("..") == 0 == BlankTail("..")
  {
  }

  lemma OnePart(part: string)
    requires part != "" && part != "."
    ensures CleanParts([], [part]) == [part]
  {
    assert [part][1..] == [] && [] + [part] == [part];
  }

  lemma SlashTrims(p: string)
    requires Plain(p)
    ensures TrimSpace("/" + p) == "/" + p && TrimSpace("") == ""
  {
    hide TrimSpace;
    var s, n := "/" + p, |p| + 1;
    TrimmedIff(p);
    TrimmedIff(s);
    TrimmedIff("");
    assert BlankSize(s) == 0;
    assert s[n - 1] == p[|p| - 1];
    assert |p| >= 2 ==> s[n - 2] == p[|p| - 2];
    assert |p| >= 3 ==> s[n - 3] == p[|p| - 3];
    assert BlankTail(s) == 0;
  }

  lemma {:induction false} CleanUnder(name: string, kept: seq<string>, parts: seq<string>)
    requires DirectoryName(name) && ".." !in kept
    requires CleanParts(kept, parts) == [] || CleanParts(kept, parts)[0] != ".."
    ensures CleanParts([name] + kept, parts) == [name] + CleanParts(kept, parts)
    decreases |parts|
  {
    if parts != [] {
      var part, next := parts[0], CleanStep(kept, parts[0]);
      if kept == [] && part == ".." {
        ClimbStays(next, parts[1..]);
        assert false;
      } else {
        assert CleanStep([name] + kept, part) == [name] + next by {
          StepUnder(name, kept, part);
        }
        CleanUnder(name, next, parts[1..]);
      }
    }
  }

  lemma StepUnder(name: string, kept: seq<string>, part: string)
    requires Ordinary(name) && ".." !in kept && !(kept == [] && part == "..")
    ensures CleanStep([name] + kept, part) == [name] + CleanStep(kept, part) && ".." !in CleanStep(kept, part)
  {
    if part == ".." {
      assert kept[|kept| - 1] in kept;
      assert ([name] + kept)[..|kept|] == [name] + kept[..|kept| - 1];
    } else {
      assert ([name] + kept) + [part] == [name] + (kept + [part]);
    }
  }

  /** Below a directory the path is cleaned as it is on its own. */
  lemma CleanedBelow(name: string, p: string)
    requires DirectoryName(name) && Plain(p) && CanonicalRelative(p).Some?
    ensures CanonicalRelative(name + "/" + p) == Some(name + "/" + CanonicalRelative(p).value)
    ensures TrimSpace(name) == name ==> CanonicalRelative(name + "/.") == CanonicalRelative(name)
  {
    hide CanonicalRelative, TrimSpace, CleanParts, Split;
    PlainBelow(name, p);
    CleanedFrom(p);
    CleanedFrom(name + "/" + p);
    StepIn([], name, p);
    assert CleanStep([], name) == [name];
    var parts := CleanParts([], Split(p));
    CleanUnder(name, [], Split(p));
    assert [name] + [] == [name];
    assert ([name] + parts)[1..] == parts;
    if TrimSpace(name) == name {
      PlainDot();
      PlainBelow(name, ".");
      assert name + "/." == name + "/" + ".";
      assert name[0] in name;
      CleanedFrom(name);
      CleanedFrom(name + "/" + ".");
      StepIn([], name, ".");
      SplitName(".");
      SplitName(name);
      DotPart(name);
    }
  }

  lemma PlainDot()
    ensures Plain(".")
  {
    TrimmedIff(".");
  }

  lemma DotPart(name: string)
    requires Ordinary(name)
    ensures CleanParts([name], ["."]) == [name] == CleanParts([], [name])
  {
    assert ["."][1..] == [] && [name][1..] == [] && [] + [name] == [name];
  }
}
