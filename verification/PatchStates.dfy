/**
 The disks a commit goes through, what recovery makes of them, and the operations a
 completed commit has done.
 */
module PatchStates {
  import opened Ordering
  import opened PatchDisk
  import opened PatchRecovery

  /** The new bytes of one target. */
  datatype Replacement = Replacement(name: string, data: string)

  datatype Phase = JournalPhase | Validate | Stage | BackupPhase | Replace

  function Names(previews: seq<Replacement>): (names: seq<string>)
    ensures |names| == |previews| && forall i :: 0 <= i < |names| ==> names[i] == previews[i].name
  {
    seq(|previews|, i requires 0 <= i < |previews| => previews[i].name)
  }

  function Backups(names: seq<string>): (paths: seq<Path>)
    ensures |paths| == |names| && forall i :: 0 <= i < |names| ==> paths[i] == Backup(names[i])
  {
    seq(|names|, i requires 0 <= i < |names| => Backup(names[i]))
  }

  /** No file is replaced twice. */
  ghost predicate OneEach(previews: seq<Replacement>) { NoDuplicates(Names(previews)) }

  // ---------- The states of a commit ----------

  /** Target n is as it was. */
  ghost predicate Same(orig: Files, h: Files, n: string)
  {
    (Plain(n) in h <==> Plain(n) in orig) && (Plain(n) in h ==> h[Plain(n)] == orig[Plain(n)])
  }

  /** The original of target n is kept in its backup. */
  ghost predicate Kept(orig: Files, h: Files, n: string)
  {
    Plain(n) in orig && Backup(n) in h && h[Backup(n)] == orig[Plain(n)]
  }

  /** The original of target n is in its backup only, which the journal lists once something stands at the target. */
  ghost predicate Away(orig: Files, h: Files, n: string)
  {
    Kept(orig, h, n) && (Plain(n) in h ==> Backup(n) in Listed(h))
  }

  /** A target before clean-up: untouched, with no backup that recovery would use, or away. */
  ghost predicate Safe(orig: Files, h: Files, n: string)
  {
    (Same(orig, h, n) && (Backup(n) in Listed(h) ==> Backup(n) !in h)) || Away(orig, h, n)
  }

  /** Target n and its backup are the same in h and g. */
  ghost predicate Undisturbed(h: Files, g: Files, n: string)
  {
    && Same(h, g, n)
    && (Backup(n) in g <==> Backup(n) in h) && (Backup(n) in g ==> g[Backup(n)] == h[Backup(n)])
  }

  /** Files that are no targets, and what stands at their backup names, are as they were. */
  ghost predicate OthersSame(orig: Files, names: seq<string>, h: Files)
  {
    forall n :: n !in names ==> Undisturbed(orig, h, n)
  }

  /** A disk of a commit over `names` that has not begun to clean up. */
  ghost predicate Pending(orig: Files, names: seq<string>, h: Files)
  {
    && HasJournal(h)
    && (forall b :: b in Listed(h) ==> b.Backup? && b.of in names)
    && (forall n :: n in names ==> Safe(orig, h, n))
    && OthersSame(orig, names, h)
  }

  /** The target of f holds the new bytes under its old mode. */
  ghost predicate Committed(orig: Files, h: Files, f: Replacement)
  {
    var p := Plain(f.name);
    p in orig && p in h && h[p] == File(Bytes(f.data), orig[p].mode)
  }

  /** A disk during clean-up: every target is committed, and a backup still there holds the original. */
  ghost predicate Cleaning(orig: Files, previews: seq<Replacement>, h: Files)
  {
    && (HasJournal(h) ==> Listed(h) == set n | n in Names(previews) :: Backup(n))
    && (forall f :: f in previews ==> Committed(orig, h, f))
    && (forall n :: n in Names(previews) && Backup(n) in h ==> Kept(orig, h, n))
    && OthersSame(orig, Names(previews), h)
  }

  /** Every target is as it was, and recovery would only remove the journal. */
  ghost predicate RolledBack(orig: Files, names: seq<string>, h: Files)
  {
    (forall n :: n in names ==> Same(orig, h, n)) && Listed(h) !! h.Keys
  }

  /** A target moved to its backup before the journal listed that backup. */
  ghost predicate InWindow(orig: Files, h: Files, n: string)
  {
    Plain(n) in orig && Plain(n) !in h && Backup(n) !in Listed(h)
  }

  /** Moving a backup back over its target failed. */
  ghost predicate StuckBackup(faults: set<Op>) { exists n :: Rename(Backup(n), Plain(n)) in faults }

  /** The staged files of h and g are the same. */
  ghost predicate SameStaged(h: Files, g: Files)
  {
    forall id :: (Staged(id) in g <==> Staged(id) in h) && (Staged(id) in g ==> g[Staged(id)] == h[Staged(id)])
  }

  // ---------- What recovery makes of them ----------

  /**
   Crash recovery before clean-up: `Recover` gives every target its original back
   exactly when no target was caught between its backup and the journal entry.
   */
  lemma CrashRecovery(orig: Files, names: seq<string>, h: Files)
    requires Pending(orig, names, h)
    ensures (forall n :: n in names ==> Same(orig, Recovered(h), n)) <==>
            (forall n :: n in names ==> !InWindow(orig, h, n))
  {
    forall n | n in names ensures Same(orig, Recovered(h), n) <==> !InWindow(orig, h, n) {
      RecoveredAt(h, Plain(n));
      assert Safe(orig, h, n);
    }
  }

  /** Crash recovery during clean-up: exactly the targets whose backup is still there, under a journal, go back. */
  lemma CleanUpRecovery(orig: Files, previews: seq<Replacement>, h: Files, f: Replacement)
    requires Cleaning(orig, previews, h) && f in previews
    ensures Plain(f.name) in Recovered(h)
    ensures Recovered(h)[Plain(f.name)] ==
      if HasJournal(h) && Backup(f.name) in h then orig[Plain(f.name)]
      else File(Bytes(f.data), orig[Plain(f.name)].mode)
  {
    if HasJournal(h) {
      var i :| 0 <= i < |previews| && previews[i] == f;
      assert Names(previews)[i] == f.name;
      RecoveredAt(h, Plain(f.name));
    }
  }

  /** After a clean rollback recovery has nothing to do but remove the journal. */
  lemma RolledBackRecovery(orig: Files, names: seq<string>, h: Files)
    requires RolledBack(orig, names, h) && Pending(orig, names, h)
    ensures Recovered(h) == h - {JournalFile}
  {
    RecoverEndKeeps(h);
  }

  /**
   A commit forgets an earlier, unfinished one: where a backup was waiting to be
   put back when it began, recovery gives what stood at the target instead, unless
   that was the same.
   */
  lemma EarlierCommitForgotten(orig: Files, names: seq<string>, h: Files, n: string)
    requires WellFormed(orig) && Pending(orig, names, h) && (n in names ==> !InWindow(orig, h, n))
    ensures Same(Recovered(orig), Recovered(h), n) <==>
            (Recoverable(orig, Plain(n)) ==> Plain(n) in orig && orig[Plain(n)] == orig[Backup(n)])
  {
    assert n in names ==> Safe(orig, h, n);
    assert n !in names ==> Undisturbed(orig, h, n);
    RecoveredAt(h, Plain(n));
    if HasJournal(orig) {
      RecoveredAt(orig, Plain(n));
    }
  }

  // ---------- Where the commit stands ----------

  /**
   The first `done` targets are committed, those up to `away` are moved to their
   backups, and the journal lists the first `listed`.
   */
  ghost predicate Midway(orig: Files, previews: seq<Replacement>, h: Files, done: nat, away: nat, listed: nat)
  {
    && done <= listed <= away <= |previews| && away <= done + 1
    && HasJournal(h) && h[JournalFile].content.backups == Backups(Names(previews)[..listed])
    && (forall j :: 0 <= j < done ==> Committed(orig, h, previews[j]))
    && (forall j :: 0 <= j < away ==> Kept(orig, h, previews[j].name))
    && (forall j :: done <= j < away ==> Plain(previews[j].name) !in h)
    && (forall j :: away <= j < |previews| ==> Same(orig, h, previews[j].name))
    && OthersSame(orig, Names(previews), h)
  }

  lemma MidwayListed(orig: Files, previews: seq<Replacement>, h: Files, done: nat, away: nat, listed: nat)
    requires Midway(orig, previews, h, done, away, listed) && OneEach(previews)
    ensures forall b :: b in Listed(h) ==> b.Backup? && exists j :: 0 <= j < listed && b.of == previews[j].name
    ensures forall j :: 0 <= j < |previews| ==> (Backup(previews[j].name) in Listed(h) <==> j < listed)
  {
    var names, bs := Names(previews), h[JournalFile].content.backups;
    forall b | b in Listed(h) ensures b.Backup? && exists j :: 0 <= j < listed && b.of == previews[j].name {
      var j :| 0 <= j < |bs| && bs[j] == b;
      assert b.of == previews[j].name;
    }
    forall j | 0 <= j < |previews| ensures Backup(previews[j].name) in Listed(h) <==> j < listed {
      if j < listed {
        assert bs[j] == Backup(previews[j].name);
      }
    }
  }

  lemma MidwayPending(orig: Files, previews: seq<Replacement>, h: Files, done: nat, away: nat, listed: nat)
    requires Midway(orig, previews, h, done, away, listed) && OneEach(previews)
    ensures away <= |previews| && Pending(orig, Names(previews), h)
    ensures forall n :: n in Names(previews)[..away] ==> n in Names(previews) && Away(orig, h, n)
    ensures forall n :: n in Names(previews) && n !in Names(previews)[..away] ==>
      Same(orig, h, n) && Backup(n) !in Listed(h)
    ensures forall j :: listed <= j < away ==> InWindow(orig, h, previews[j].name)
  {
    var names := Names(previews);
    MidwayListed(orig, previews, h, done, away, listed);
    forall n | n in names
      ensures Safe(orig, h, n) && (n in names[..away] ==> Away(orig, h, n))
      ensures n !in names[..away] ==> Same(orig, h, n) && Backup(n) !in Listed(h)
    {
      var j :| 0 <= j < |names| && names[j] == n;
      if j < away {
        assert names[..away][j] == n;
      } else {
        assert forall k :: 0 <= k < away ==> names[..away][k] != n;
      }
    }
  }

  /** h and g differ at staged files only. */
  ghost predicate SameButStaged(h: Files, g: Files)
  {
    && (forall p :: p in h && !p.Staged? ==> p in g && g[p] == h[p])
    && (forall p :: p in g && !p.Staged? ==> p in h)
  }

  lemma MidwayUnstaged(orig: Files, previews: seq<Replacement>, h: Files, g: Files, done: nat, away: nat, listed: nat)
    requires Midway(orig, previews, h, done, away, listed) && SameButStaged(h, g)
    ensures Midway(orig, previews, g, done, away, listed)
  {
    forall n ensures Undisturbed(h, g, n) {
    }
    assert g[JournalFile] == h[JournalFile];
    forall j | 0 <= j < |previews| ensures Undisturbed(h, g, previews[j].name) {
    }
  }

  lemma Distinct(previews: seq<Replacement>, i: nat)
    requires OneEach(previews) && i < |previews|
    ensures previews[i].name in Names(previews)
    ensures forall j :: 0 <= j < |previews| && j != i ==> previews[j].name != previews[i].name
  {
    assert Names(previews)[i] == previews[i].name;
    forall j | 0 <= j < |previews| && j != i ensures previews[j].name != previews[i].name {
      assert Names(previews)[j] != Names(previews)[i];
    }
  }

  lemma OthersUndisturbed(orig: Files, previews: seq<Replacement>, h: Files, g: Files, i: nat)
    requires OneEach(previews) && i < |previews| && OthersSame(orig, Names(previews), h)
    requires forall m :: m != previews[i].name ==> Undisturbed(h, g, m)
    ensures OthersSame(orig, Names(previews), g)
    ensures forall j :: 0 <= j < |previews| && j != i ==> Undisturbed(h, g, previews[j].name)
  {
    Distinct(previews, i);
    forall n | n !in Names(previews) ensures Undisturbed(h, g, n) {
    }
  }

  /** Removing a stale backup of a target not moved yet. */
  lemma MidwayClear(orig: Files, previews: seq<Replacement>, h: Files, g: Files, i: nat)
    requires OneEach(previews) && i < |previews| && Midway(orig, previews, h, i, i, i)
    requires g == h || g == h - {Backup(previews[i].name)}
    ensures Midway(orig, previews, g, i, i, i)
  {
    Distinct(previews, i);
    forall m | m != previews[i].name ensures Undisturbed(h, g, m) {
    }
    OthersUndisturbed(orig, previews, h, g, i);
  }

  lemma MidwayAway(orig: Files, previews: seq<Replacement>, h: Files, g: Files, i: nat)
    requires OneEach(previews) && i < |previews| && Midway(orig, previews, h, i, i, i)
    requires var n := previews[i].name; Plain(n) in h && g == (h - {Plain(n)})[Backup(n) := h[Plain(n)]]
    ensures Midway(orig, previews, g, i, i + 1, i) && Plain(previews[i].name) in orig
  {
    Distinct(previews, i);
    assert Same(orig, h, previews[i].name);
    forall m | m != previews[i].name ensures Undisturbed(h, g, m) {
    }
    OthersUndisturbed(orig, previews, h, g, i);
  }

  lemma MidwayList(orig: Files, previews: seq<Replacement>, h: Files, g: Files, i: nat)
    requires i < |previews| && Midway(orig, previews, h, i, i + 1, i)
    requires g == h[JournalFile := File(Journal(true, Backups(Names(previews)[..i + 1])), PRIVATE)]
    ensures Midway(orig, previews, g, i, i + 1, i + 1)
  {
    forall n ensures Undisturbed(h, g, n) {
    }
    forall j | 0 <= j < |previews| ensures Undisturbed(h, g, previews[j].name) {
    }
  }

  lemma MidwayReplace(orig: Files, previews: seq<Replacement>, h: Files, g: Files, i: nat, id: nat)
    requires OneEach(previews) && i < |previews| && Midway(orig, previews, h, i, i + 1, i + 1)
    requires Staged(id) in h && Plain(previews[i].name) in orig
    requires h[Staged(id)] == File(Bytes(previews[i].data), orig[Plain(previews[i].name)].mode)
    requires g == (h - {Staged(id)})[Plain(previews[i].name) := h[Staged(id)]]
    ensures Midway(orig, previews, g, i + 1, i + 1, i + 1)
  {
    Distinct(previews, i);
    forall m | m != previews[i].name ensures Undisturbed(h, g, m) {
    }
    OthersUndisturbed(orig, previews, h, g, i);
    assert Kept(orig, h, previews[i].name);
  }

  // ---------- The disk after a turn, whatever the names are ----------

  /** Target n moved to its backup name. */
  function Moved(h: Files, n: string): Files
    requires Plain(n) in h
  {
    (h - {Plain(n)})[Backup(n) := h[Plain(n)]]
  }

  /** The journal lists the first `listed` backups. */
  function WithJournal(h: Files, previews: seq<Replacement>, listed: nat): Files
    requires listed <= |previews|
  {
    h[JournalFile := File(Journal(true, Backups(Names(previews)[..listed])), PRIVATE)]
  }

  /** The staged bytes moved to target n. */
  function InPlace(h: Files, id: nat, n: string): Files
    requires Staged(id) in h
  {
    (h - {Staged(id)})[Plain(n) := h[Staged(id)]]
  }

  /** The disk after turn i: the target's old file at its backup name, the new bytes under its mode. */
  function AfterTurn(h: Files, previews: seq<Replacement>, i: nat): Files
    requires i < |previews|
  {
    var f := previews[i];
    var p := Plain(f.name);
    if p !in h then h
    else WithJournal(h[Backup(f.name) := h[p]], previews, i + 1)[p := File(Bytes(f.data), h[p].mode)]
  }

  /** The targets there, and their modes, are those of the beginning. */
  ghost predicate SameTargets(orig: Files, h: Files)
  {
    forall n :: (Plain(n) in h <==> Plain(n) in orig) && (Plain(n) in h ==> h[Plain(n)].mode == orig[Plain(n)].mode)
  }

  lemma TurnIs(h: Files, k: Files, previews: seq<Replacement>, i: nat, id: nat, orig: Files)
    requires i < |previews| && Plain(previews[i].name) in h && Staged(id) !in h
    requires k == h[Staged(id) := File(Bytes(previews[i].data), h[Plain(previews[i].name)].mode)]
    ensures InPlace(WithJournal(Moved(k, previews[i].name), previews, i + 1), id, previews[i].name)
         == AfterTurn(h, previews, i)
    ensures SameTargets(orig, h) ==> SameTargets(orig, AfterTurn(h, previews, i))
  {
  }

  // ---------- The script of a commit ----------

  /** The name the system gave a staged file, and what a cut-short write to it would have left. */
  datatype Stamp = Stamp(id: nat, part: string)

  /** The operations up to the staging of target f. */
  function StageOps(f: Replacement, stamp: Stamp, mode: nat): seq<Op>
  {
    [Resolve(f.name), Stat(Plain(f.name)), CreateTemp(stamp.id), WritePart(stamp.id, stamp.part),
     WriteTemp(stamp.id, f.data), Chmod(stamp.id, mode)]
  }

  /** The operations that replace target i, its new bytes staged. */
  function ReplaceOps(previews: seq<Replacement>, i: nat, id: nat): seq<Op>
    requires i < |previews|
  {
    var n := previews[i].name;
    [Remove(Backup(n)), Rename(Plain(n), Backup(n)),
     WriteJournal(true, Backups(Names(previews)[..i + 1])), Rename(Staged(id), Plain(n))]
  }

  function Turn(orig: Files, previews: seq<Replacement>, i: nat, stamp: Stamp): seq<Op>
    requires i < |previews|
  {
    var p := Plain(previews[i].name);
    StageOps(previews[i], stamp, if p in orig then orig[p].mode else 0) + ReplaceOps(previews, i, stamp.id)
  }

  ghost function Turns(orig: Files, previews: seq<Replacement>, stamps: seq<Stamp>): seq<Op>
    requires |stamps| <= |previews|
  {
    if stamps == [] then []
    else var i := |stamps| - 1; Turns(orig, previews, stamps[..i]) + Turn(orig, previews, i, stamps[i])
  }

  function CleanUpOps(previews: seq<Replacement>): (ops: seq<Op>)
    ensures |ops| == |previews| + 1
    ensures forall i :: 0 <= i < |previews| ==> ops[i] == Remove(Backup(previews[i].name))
    ensures ops[|previews|] == Remove(JournalFile)
  {
    seq(|previews|, i requires 0 <= i < |previews| => Remove(Backup(previews[i].name))) + [Remove(JournalFile)]
  }

  /** Everything a completed commit does, in order. */
  ghost function Script(orig: Files, previews: seq<Replacement>, stamps: seq<Stamp>): seq<Op>
    requires |stamps| == |previews|
  {
    [WriteJournal(false, [])] + (Turns(orig, previews, stamps) + CleanUpOps(previews))
  }
}
