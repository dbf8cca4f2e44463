/**
 The whole of an atomic patch: the previews are prepared from the files on disk
 and committed together.
 */
module PatchTransaction {
  import opened Wrappers
  import opened Text
  import opened Ordering
  import opened Hashing
  import opened PatchPaths
  import PatchSpan
  import opened PatchEdits
  import opened PatchPreview
  import opened PatchDisk
  import opened PatchRecovery
  import opened PatchStates
  import opened PatchStaging
  import opened PatchCommit
  import opened PatchOutcome

  datatype ApplyError = Rejected(error: PatchError) | Transaction(phase: Phase)

  /** The texts of the plain files. */
  function TextsOf(h: Files): (texts: Texts)
    ensures forall n :: n in texts <==> Plain(n) in h && h[Plain(n)].content.Bytes?
    ensures forall n :: n in texts ==> texts[n] == h[Plain(n)].content.data
  {
    map p | p in h.Keys && p.Plain? && h[p].content.Bytes? :: p.name := h[p].content.data
  }

  function Replacements(fs: seq<FilePreview>): (rs: seq<Replacement>)
    ensures |rs| == |fs| && forall i :: 0 <= i < |fs| ==> rs[i] == Replacement(NameOf(fs[i].path), fs[i].bytes)
  {
    seq(|fs|, i requires 0 <= i < |fs| => Replacement(NameOf(fs[i].path), fs[i].bytes))
  }

  /** What the edits of path p make of the file it names. */
  ghost function Outcome(h: Files, edits: seq<Edit>, p: string): Result<Bytes, PatchError>
    requires NameOf(p) in TextsOf(h)
  {
    Patched(TextsOf(h)[NameOf(p)], Group(edits, p))
  }

  /** The files the patch touches. */
  ghost function Touched(edits: seq<Edit>): set<string>
    requires AllCanonical(edits)
  {
    set p | p in Paths(edits) :: NameOf(p)
  }

  /** Exactly the files the patch touches hold what it makes of them, under their old modes; all others are as they were. */
  ghost predicate Applied(orig: Files, h: Files, edits: seq<Edit>)
    requires AllCanonical(edits)
  {
    && (forall p :: p in Paths(edits) ==> Achieved(orig, h, edits, p))
    && forall n :: n !in Touched(edits) ==> Undisturbed(orig, h, n)
  }

  ghost predicate Achieved(orig: Files, h: Files, edits: seq<Edit>, p: string)
  {
    var n := NameOf(p);
    && n in TextsOf(orig) && Outcome(orig, edits, p).Ok? && Plain(n) in h
    && h[Plain(n)] == File(Bytes(Outcome(orig, edits, p).value), orig[Plain(n)].mode)
  }

  /** Neither a journal nor a backup of a touched file is left. */
  ghost predicate NothingLeft(h: Files, edits: seq<Edit>)
  {
    !HasJournal(h) && AllCanonical(edits) && forall n :: n in Touched(edits) ==> Backup(n) !in h
  }

  /** Every plain file is as it was. */
  ghost predicate NothingChanged(orig: Files, h: Files) { forall n :: Same(orig, h, n) }

  /** A state in which a crash may find the disk. */
  ghost predicate CrashState(orig: Files, previews: seq<Replacement>, h: Files)
  {
    h == orig || Pending(orig, Names(previews), h) || Cleaning(orig, previews, h)
  }

  /** The previews of an accepted patch: one for each of its paths, in the order of the paths. */
  lemma PreparedPreviews(root: Root, h: Files, edits: seq<Edit>) returns (paths: seq<string>)
    requires Prepared(root, TextsOf(h), edits).Ok?
    ensures AllCanonical(edits) && StrictlySorted(paths) && (forall p :: p in paths <==> p in Paths(edits))
    ensures var fs := Prepared(root, TextsOf(h), edits).value;
      |fs| == |paths| && forall i :: 0 <= i < |fs| ==> IsTarget(h, edits, paths[i], Replacements(fs)[i])
  {
    hide PreviewAll, Patched, Group, Paths, StrictlySorted;
    var texts, fs := TextsOf(h), Prepared(root, TextsOf(h), edits).value;
    paths := Listing(Paths(edits));
    PreviewPaths(root, texts, edits, paths);
    forall i | 0 <= i < |fs| ensures IsTarget(h, edits, paths[i], Replacements(fs)[i]) {
      assert IsPreview(root, texts, edits, paths[i], fs[i]);
    }
  }

  /** f replaces the file path p names by what the patch makes of it. */
  ghost predicate IsTarget(h: Files, edits: seq<Edit>, p: string, f: Replacement)
  {
    f.name == NameOf(p) && f.name in TextsOf(h) && Outcome(h, edits, p) == Ok(f.data)
  }

  /**
   The targets of an accepted patch: the files it touches, all of which are there,
   and each once exactly when no two of its paths name the same file.
   */
  lemma PreparedTargets(root: Root, h: Files, edits: seq<Edit>)
    requires Prepared(root, TextsOf(h), edits).Ok?
    ensures var names := Names(Replacements(Prepared(root, TextsOf(h), edits).value));
      && AllCanonical(edits) && (NoDuplicates(names) <==> OneFileEach(edits))
      && (forall n :: n in names <==> n in Touched(edits))
      && forall n :: n in names ==> Plain(n) in h
  {
    hide Prepared, Patched, Group, Paths, NameOf, Outcome;
    var fs := Prepared(root, TextsOf(h), edits).value;
    var paths := PreparedPreviews(root, h, edits);
    var names := Names(Replacements(fs));
    assert forall i :: 0 <= i < |paths| ==> IsTarget(h, edits, paths[i], Replacements(fs)[i]) && names[i] == NameOf(paths[i]);
    forall p | p in Paths(edits) ensures NameOf(p) in names {
      var i :| 0 <= i < |paths| && paths[i] == p;
      assert names[i] in names;
    }
    forall n | n in names ensures n in Touched(edits) && Plain(n) in h {
      var i :| 0 <= i < |names| && names[i] == n;
      assert paths[i] in paths;
    }
    NamesDistinct(paths, names, edits);
  }

  /** The replacement of the file a path of the patch names. */
  lemma TargetOfPath(root: Root, h: Files, edits: seq<Edit>, p: string) returns (f: Replacement)
    requires Prepared(root, TextsOf(h), edits).Ok? && AllCanonical(edits) && p in Paths(edits)
    ensures f in Replacements(Prepared(root, TextsOf(h), edits).value) && IsTarget(h, edits, p, f)
  {
    hide Prepared, Paths, IsTarget, AllCanonical;
    var paths := PreparedPreviews(root, h, edits);
    var i :| 0 <= i < |paths| && paths[i] == p;
    f := Replacements(Prepared(root, TextsOf(h), edits).value)[i];
  }

  /** A path of the patch that names the file of a replacement. */
  lemma PathOfTarget(root: Root, h: Files, edits: seq<Edit>, f: Replacement) returns (p: string)
    requires Prepared(root, TextsOf(h), edits).Ok? && f in Replacements(Prepared(root, TextsOf(h), edits).value)
    ensures AllCanonical(edits) && p in Paths(edits) && IsTarget(h, edits, p, f)
  {
    hide Prepared, Paths, IsTarget, AllCanonical;
    var fs := Prepared(root, TextsOf(h), edits).value;
    var paths := PreparedPreviews(root, h, edits);
    var i :| 0 <= i < |fs| && Replacements(fs)[i] == f;
    p := paths[i];
  }

  lemma NamesDistinct(paths: seq<string>, names: seq<string>, edits: seq<Edit>)
    requires AllCanonical(edits) && StrictlySorted(paths) && forall p :: p in paths <==> p in Paths(edits)
    requires |names| == |paths| && forall i :: 0 <= i < |paths| ==> names[i] == NameOf(paths[i])
    ensures NoDuplicates(names) <==> OneFileEach(edits)
  {
    hide Paths, NameOf, AllCanonical;
    if NoDuplicates(names) {
      forall p, q | p in Paths(edits) && q in Paths(edits) && NameOf(p) == NameOf(q) ensures p == q {
        var i :| 0 <= i < |paths| && paths[i] == p;
        var j :| 0 <= j < |paths| && paths[j] == q;
        assert names[i] == names[j];
      }
    } else {
      var i, j :| 0 <= i < j < |names| && names[i] == names[j];
      assert paths[i] in paths && paths[j] in paths;
      assert LexLe(paths[i], paths[j]) && paths[i] != paths[j];
    }
  }

  lemma CommitApplies(root: Root, orig: Files, edits: seq<Edit>, h: Files)
    requires Prepared(root, TextsOf(orig), edits).Ok?
    requires Cleaning(orig, Replacements(Prepared(root, TextsOf(orig), edits).value), h)
    ensures AllCanonical(edits) && Applied(orig, h, edits)
  {
    hide Prepared, Patched, Group, Paths, AllCanonical, OneFileEach, Touched;
    var previews := Replacements(Prepared(root, TextsOf(orig), edits).value);
    PreparedTargets(root, orig, edits);
    forall p | p in Paths(edits) ensures Achieved(orig, h, edits, p) {
      var f := TargetOfPath(root, orig, edits, p);
      assert Committed(orig, h, f);
    }
  }

  lemma FailureChangesNothing(orig: Files, names: seq<string>, h: Files)
    requires Pending(orig, names, h) && RolledBack(orig, names, h)
    ensures NothingChanged(orig, h)
  {
    forall n ensures Same(orig, h, n) {
      assert n !in names ==> Undisturbed(orig, h, n);
    }
  }

  // ---------- Two paths of one file ----------

  /** Paths that name one file make the same text of it. */
  ghost predicate Agreeing(orig: Files, edits: seq<Edit>)
    requires AllCanonical(edits)
  {
    forall p, q :: p in Paths(edits) && q in Paths(edits) && NameOf(p) == NameOf(q) ==> SameOutcome(orig, edits, p, q)
  }

  ghost predicate SameOutcome(orig: Files, edits: seq<Edit>, p: string, q: string)
  {
    NameOf(p) in TextsOf(orig) && NameOf(q) in TextsOf(orig) ==> Outcome(orig, edits, p) == Outcome(orig, edits, q)
  }

  lemma AppliedAgrees(orig: Files, h: Files, edits: seq<Edit>)
    requires AllCanonical(edits) && Applied(orig, h, edits)
    ensures Agreeing(orig, edits)
  {
    hide Paths, Outcome, NameOf, AllCanonical;
    forall p, q | p in Paths(edits) && q in Paths(edits) && NameOf(p) == NameOf(q) ensures SameOutcome(orig, edits, p, q) {
      assert Achieved(orig, h, edits, p) && Achieved(orig, h, edits, q);
    }
  }

  /** A commit in which nothing fails applies an accepted patch exactly when its paths agree about the files they share. */
  lemma FinishedAppliesIff(root: Root, orig: Files, edits: seq<Edit>)
    requires Prepared(root, TextsOf(orig), edits).Ok?
    ensures AllCanonical(edits)
    ensures var h := Finished(orig, Replacements(Prepared(root, TextsOf(orig), edits).value));
      NothingLeft(h, edits) && (Applied(orig, h, edits) <==> Agreeing(orig, edits))
  {
    hide Prepared, Patched, Group, Paths, AllCanonical, NameOf, Finished, OneFileEach, Agreeing;
    var previews := Replacements(Prepared(root, TextsOf(orig), edits).value);
    var h := Finished(orig, previews);
    PreparedTargets(root, orig, edits);
    forall n ensures n in Touched(edits) ==> Backup(n) !in h {
      FinishedAt(orig, previews, n);
    }
    FinishedAt(orig, previews, "");
    if Applied(orig, h, edits) {
      AppliedAgrees(orig, h, edits);
    }
    if Agreeing(orig, edits) {
      forall p | p in Paths(edits) ensures Achieved(orig, h, edits, p) {
        LastOfFile(root, orig, edits, p);
      }
      forall n | n !in Touched(edits) ensures Undisturbed(orig, h, n) {
        FinishedAt(orig, previews, n);
      }
    }
  }

  lemma LastOfFile(root: Root, orig: Files, edits: seq<Edit>, p: string)
    requires Prepared(root, TextsOf(orig), edits).Ok? && AllCanonical(edits) && Agreeing(orig, edits) && p in Paths(edits)
    ensures Achieved(orig, Finished(orig, Replacements(Prepared(root, TextsOf(orig), edits).value)), edits, p)
  {
    hide Prepared, Patched, Group, Paths, AllCanonical, NameOf, Finished, OneFileEach, Outcome;
    var previews := Replacements(Prepared(root, TextsOf(orig), edits).value);
    PreparedTargets(root, orig, edits);
    var n := NameOf(p);
    FinishedAt(orig, previews, n);
    LastForIff(previews, n);
    var f := TargetOfPath(root, orig, edits, p);
    var q := PathOfTarget(root, orig, edits, Replacement(n, LastFor(previews, n).value));
    assert SameOutcome(orig, edits, p, q);
  }

  /** There is a disk with an accepted patch applied exactly when its paths agree. */
  lemma ApplicableIff(root: Root, orig: Files, edits: seq<Edit>)
    requires Prepared(root, TextsOf(orig), edits).Ok?
    ensures AllCanonical(edits)
    ensures (exists h :: Applied(orig, h, edits)) <==> Agreeing(orig, edits)
  {
    hide Prepared, AllCanonical, Applied, Agreeing, Finished, NothingLeft;
    FinishedAppliesIff(root, orig, edits);
    if h :| Applied(orig, h, edits) {
      AppliedAgrees(orig, h, edits);
    }
  }

  /** So they do when no two of them name one file. */
  lemma OneFileEachAgrees(orig: Files, edits: seq<Edit>)
    requires AllCanonical(edits) && OneFileEach(edits)
    ensures Agreeing(orig, edits)
  {
    hide Paths, NameOf, Outcome;
  }

  /**
   Patches chain by their hashes: on a disk that has the patch applied, a further edit
   of one of its files passes the hash check exactly when it carries the new hash.
   */
  lemma NextPatch(root: Root, orig: Files, edits: seq<Edit>, h: Files, f: FilePreview, e: Edit)
    requires Prepared(root, TextsOf(orig), edits).Ok? && f in Prepared(root, TextsOf(orig), edits).value
    requires AllCanonical(edits) && Applied(orig, h, edits) && CanonicalRelative(e.path) == Some(f.path)
    ensures Prepared(root, TextsOf(h), [e]) != Err(StaleHash) <==> e.contentHash == f.newHash
  {
    hide Prepared, Patched, Group, Paths, AllCanonical, CanonicalRelative, Touched;
    PreviewOf(root, TextsOf(orig), edits, f);
    assert Achieved(orig, h, edits, f.path);
    NextPatchHash(root, TextsOf(orig), edits, f, TextsOf(h), e);
  }

  // ---------- The whole patch ----------

  /**
   What a commit of the previews promises where no two paths name one file: on success
   the patch is applied; otherwise every file is as it was, unless moving a backup back
   failed too, and recovery only removes the journal; and every state on the way is one
   that recovery or the rest of the clean-up can deal with.
   */
  ghost predicate AllOrNothing(orig: Files, edits: seq<Edit>, previews: seq<Replacement>, h: Files, trail: seq<Files>,
                               from: nat, faults: set<Op>, ok: bool)
    requires AllCanonical(edits)
  {
    && (ok ==> Applied(orig, h, edits))
    && (!ok && !StuckBackup(faults) ==> NothingChanged(orig, h))
    && (!ok && !StuckBackup(faults) && h != orig ==> Recovered(h) == h - {JournalFile})
    && forall k :: from <= k < |trail| ==> CrashState(orig, previews, trail[k])
  }

  /**
   A patch that is not accepted touches nothing.  The commit of an accepted one
   succeeds exactly when no fault stops it, and else names the phase of the faults.  It
   is all or nothing where no two paths name one file.  Even where they do, a commit
   without any fault leaves no backup and no journal, and has applied the patch exactly
   when anything could.
   */
  method ApplyAtomic(root: Root, disk: Disk, edits: seq<Edit>) returns (r: Result<seq<FilePreview>, ApplyError>)
    requires disk.Valid()
    modifies disk
    ensures disk.Valid() && old(disk.trail) <= disk.trail && old(disk.events) <= disk.events
    ensures var orig, faults := old(disk.files), Faults(disk.events, |old(disk.events)|);
      match Prepared(root, TextsOf(orig), edits)
      case Err(e) => r == Err(Rejected(e)) && disk.files == orig && disk.trail == old(disk.trail)
      case Ok(fs) =>
        && AllCanonical(edits)
        && (r.Ok? <==> !exists op :: op in faults && Stops(op))
        && (r.Err? ==> r.error.Transaction? && Blames(faults, r.error.phase, false))
        && (r.Ok? ==> r == Ok(fs))
        && (r.Ok? && faults == {} ==> NothingLeft(disk.files, edits))
        && (r.Ok? && faults == {} ==> (Applied(orig, disk.files, edits) <==> Agreeing(orig, edits)))
        && (OneFileEach(edits) ==>
              AllOrNothing(orig, edits, Replacements(fs), disk.files, disk.trail, |old(disk.trail)|, faults, r.Ok?))
  {
    hide IsRun, Faults, Prepared, Patched, Group, Paths, AllCanonical, Pending, Cleaning, Applied, Touched, OneFileEach;
    hide NothingChanged, NothingLeft, Ops, Script, Exposed, StuckBackup, Recovered, Finished, Agreeing, CommitFailed, AllOrNothing;
    hide InPhases, OneEach, Blames;
    ghost var orig := disk.files;
    var prepared := Prepare(root, TextsOf(disk.files), edits);
    if prepared.Err? {
      return Err(Rejected(prepared.error));
    }
    PreparedTargets(root, orig, edits);
    FinishedAppliesIff(root, orig, edits);
    var previews := Replacements(prepared.value);
    TargetsOnce(previews, edits);
    var done;
    ghost var begun, cleanAt, stamps;
    done, begun, cleanAt, stamps := Commit(disk, previews);
    ghost var faults := Faults(disk.events, |old(disk.events)|);
    if OneFileEach(edits) {
      InPhase(orig, previews, disk.trail, |old(disk.trail)|, begun, cleanAt);
      if done.Err? {
        if begun < |disk.trail| {
          Failed(orig, previews, disk.files, faults, done.error);
        }
        FailedSafely(orig, edits, previews, disk.files, disk.trail, |old(disk.trail)|, faults);
      } else {
        CommitApplies(root, orig, edits, disk.files);
        AppliedSafely(orig, edits, previews, disk.files, disk.trail, |old(disk.trail)|, faults);
      }
    }
    if done.Err? {
      NothingMissing(orig, previews, faults, done.error);
      return Err(Transaction(done.error));
    }
    return Ok(prepared.value);
  }

  lemma NothingMissing(orig: Files, previews: seq<Replacement>, faults: set<Op>, phase: Phase)
    requires Blamed(orig, Names(previews), faults, phase) && forall n :: n in Names(previews) ==> Plain(n) in orig
    ensures Blames(faults, phase, false)
  {
  }

  lemma TargetsOnce(previews: seq<Replacement>, edits: seq<Edit>)
    requires AllCanonical(edits) && (NoDuplicates(Names(previews)) <==> OneFileEach(edits))
    ensures OneEach(previews) <==> OneFileEach(edits)
  {
    hide OneFileEach;
  }

  lemma InPhase(orig: Files, previews: seq<Replacement>, trail: seq<Files>, from: nat, begun: nat, cleanAt: nat)
    requires from <= begun <= cleanAt <= |trail| && InPhases(orig, previews, trail, begun, cleanAt)
    requires forall k :: from <= k < begun ==> trail[k] == orig
    ensures forall k :: from <= k < |trail| ==> CrashState(orig, previews, trail[k])
  {
    hide Pending, Cleaning;
  }

  lemma FailedSafely(orig: Files, edits: seq<Edit>, previews: seq<Replacement>, h: Files, trail: seq<Files>, from: nat, faults: set<Op>)
    requires AllCanonical(edits) && forall k :: from <= k < |trail| ==> CrashState(orig, previews, trail[k])
    requires h == orig || (!StuckBackup(faults) ==> NothingChanged(orig, h) && Recovered(h) == h - {JournalFile})
    ensures AllOrNothing(orig, edits, previews, h, trail, from, faults, false)
  {
    hide CrashState, StuckBackup, Recovered;
  }

  lemma AppliedSafely(orig: Files, edits: seq<Edit>, previews: seq<Replacement>, h: Files, trail: seq<Files>, from: nat, faults: set<Op>)
    requires AllCanonical(edits) && Applied(orig, h, edits)
    requires forall k :: from <= k < |trail| ==> CrashState(orig, previews, trail[k])
    ensures AllOrNothing(orig, edits, previews, h, trail, from, faults, true)
  {
    hide CrashState, Applied, AllCanonical;
  }

  lemma Failed(orig: Files, previews: seq<Replacement>, h: Files, faults: set<Op>, phase: Phase)
    requires OneEach(previews) && CommitFailed(orig, previews, h, faults, phase)
    ensures !StuckBackup(faults) ==> NothingChanged(orig, h) && Recovered(h) == h - {JournalFile}
  {
    hide Pending, RolledBack, Blamed, LeftFor, StuckBackup, Recovered, OneEach;
    if !StuckBackup(faults) {
      FailureChangesNothing(orig, Names(previews), h);
    }
  }

  // ---------- An accepted patch that nothing can apply ----------

  /**
   Two paths that differ in a white space name the file `x`, and each group of edits is
   checked against the whole of it.  Each replaces the one byte of the file, by A and by
   B: the patch is accepted and no disk has it applied.
   */
  lemma SharedFileExample(w: string) returns (root: Root, h: Files, edits: seq<Edit>)
    requires IsWhite(w)
    ensures |edits| == 2 && edits[0].path == "./" + w + "x" && edits[1].path == "x"
    ensures Prepared(root, TextsOf(h), edits).Ok? && AllCanonical(edits) && !OneFileEach(edits)
    ensures forall g :: !Applied(h, g, edits)
  {
    hide Prepared, Patched, Group, CanonicalRelative, TrimSpace, EditOk, Split, Paths, Leaves, Agreeing, Applied;
    root, h := Root("x", Some([]), map[]), map[Plain("x") := File(Bytes("1"), 420)];
    var span := PatchSpan.Span(0, 1, PatchSpan.NO_POSITION, PatchSpan.NO_POSITION);
    var e := Edit("./" + w + "x", Digest("1"), CurrentContract, NoContract, span, "1", "A");
    var f := Edit("x", Digest("1"), CurrentContract, NoContract, span, "1", "B");
    edits := [e, f];
    BlankPath(w);
    BlankPathTrims(w);
    assert TrimSpace(root.given) != "";
    ExamplePaths(edits, e, f, w + "x");
    WholeFilePatched("1", e);
    WholeFilePatched("1", f);
    ExampleLocated(root, TextsOf(h), "x");
    ExampleLocated(root, TextsOf(h), w + "x");
    PreparedOkIff(root, TextsOf(h), edits);
    assert Outcome(h, edits, w + "x") == Ok("A") && Outcome(h, edits, "x") == Ok("B");
    assert "A"[0] != "B"[0];
    Disagreeing(h, edits, w + "x", "x");
    forall g ensures !Applied(h, g, edits) {
      if Applied(h, g, edits) {
        AppliedAgrees(h, g, edits);
      }
    }
  }

  lemma Disagreeing(h: Files, edits: seq<Edit>, p: string, q: string)
    requires AllCanonical(edits) && p in Paths(edits) && q in Paths(edits) && NameOf(p) == NameOf(q)
    requires p != q && !SameOutcome(h, edits, p, q)
    ensures !Agreeing(h, edits) && !OneFileEach(edits)
  {
    hide SameOutcome, NameOf, Paths;
  }

  lemma ExampleLocated(root: Root, texts: Texts, path: string)
    requires root.base == Some([]) && root.links == map[] && CanonicalRelative(path) == Some("x") && "x" in texts
    ensures Located(root, texts, path) == Ok(texts["x"])
  {
    SplitName("x");
  }

  lemma ExamplePaths(edits: seq<Edit>, e: Edit, f: Edit, p: string)
    requires edits == [e, f] && CanonicalRelative(e.path) == Some(p) && CanonicalRelative(f.path) == Some("x") && p != "x"
    ensures AllCanonical(edits) && Paths(edits) == {p, "x"}
    ensures Group(edits, p) == [e] && Group(edits, "x") == [f]
  {
    hide CanonicalRelative;
    assert edits[0] in edits && edits[1] in edits;
    ExampleGroups(edits, e, f, p);
    ExampleGroups(edits, e, f, "x");
    assert [e] + [] == [e] && [] + [f] == [f];
  }

  lemma ExampleGroups(edits: seq<Edit>, e: Edit, f: Edit, path: string)
    requires edits == [e, f]
    ensures Group(edits, path) == Part(e, path) + Part(f, path)
  {
    hide Part;
    assert edits[1..] == [f] && [f][1..] == [];
    assert Group([f], path) == Part(f, path) + Group([], path) == Part(f, path);
  }

  /** One edit that replaces a whole file. */
  lemma WholeFilePatched(original: Bytes, e: Edit)
    requires e.contentHash == Digest(original) && e.identityContract == CurrentContract && e.identityVersion == NoContract
    requires e.span.byteStart == 0 && e.span.byteEnd == |original| && e.span.start == e.span.end == PatchSpan.NO_POSITION
    requires e.oldText == original
    ensures Patched(original, [e]) == Ok(e.newText)
  {
    assert original[0..|original|] == original;
    FirstErrorSound(original, [e]);
    assert EditOk(original, e);
    assert FirstError(original, [e]).None?;
    assert [e][1..] == [] && SortEdits([e]) == [e];
    var ks := [KeyOf(e)];
    assert Keys([e]) == ks && Adjacent(ks);
    assert Patched(original, [e]) == Ok(Interleave(original, ks, 0));
    assert ks[1..] == [] && Interleave(original, [], |original|) == original[|original|..];
    assert original[0..0] + e.newText + original[|original|..] == e.newText;
  }
}
