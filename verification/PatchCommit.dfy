/**
 The multi-file commit: stage, back up, list in the journal, replace, clean up,
 with rollback inside the process.  Any operation may fail, and a crash may come
 after any of them.
 */
module PatchCommit {
  import opened Wrappers
  import opened Ordering
  import opened PatchDisk
  import opened PatchRecovery
  import opened PatchStates
  import opened PatchStaging

  // ---------- Rollback ----------

  /** `trail` grew from length `from`, and every state added is pending. */
  ghost predicate PendingSince(orig: Files, names: seq<string>, trail: seq<Files>, from: nat)
  {
    from <= |trail| && forall k :: from <= k < |trail| ==> Pending(orig, names, trail[k])
  }

  /** Target n was put back. */
  ghost predicate PutBack(orig: Files, h: Files, n: string)
  {
    Same(orig, h, n) && Backup(n) !in h
  }

  /** The operations of a rollback over `names`. */
  predicate IsRollbackOp(op: Op, names: seq<string>)
  {
    (op.Remove? && op.path.Plain?) || (op.Rename? && op.from.Backup? && op.from.of in names && op.to == Plain(op.from.of))
  }

  /** The first i targets were put back, but for those whose rename failed; the others are away. */
  ghost predicate Unwound(orig: Files, h: Files, backups: seq<string>, i: nat, faults: set<Op>)
    requires i <= |backups|
  {
    && (forall op :: op in faults ==> IsRollbackOp(op, backups[..i]))
    && (forall k :: 0 <= k < i ==>
          if Rename(Backup(backups[k]), Plain(backups[k])) in faults then Away(orig, h, backups[k])
          else PutBack(orig, h, backups[k]))
    && (forall k :: i <= k < |backups| ==> Away(orig, h, backups[k]))
  }

  /** Each backup holds the original of its target, and the other targets are untouched. */
  ghost predicate Unwindable(orig: Files, h: Files, backups: seq<string>, names: seq<string>)
  {
    && Pending(orig, names, h) && NoDuplicates(backups)
    && (forall n :: n in backups ==> n in names && Away(orig, h, n))
    && forall n :: n in names && n !in backups ==> Same(orig, h, n) && Backup(n) !in Listed(h)
  }

  /**
   Puts every backup back over its target; failures are ignored, as in the source.
   From an unwindable disk every target is as it was exactly when none of the renames
   failed.
   */
  method Rollback(disk: Disk, backups: seq<string>, ghost orig: Files, ghost names: seq<string>, ghost sound: bool)
    requires disk.Valid() && (sound ==> Unwindable(orig, disk.files, backups, names))
    modifies disk
    ensures disk.Valid() && old(disk.trail) <= disk.trail && old(disk.events) <= disk.events
    ensures SameStaged(old(disk.files), disk.files)
    ensures forall op :: op in Faults(disk.events, |old(disk.events)|) ==> IsRollbackOp(op, backups)
    ensures sound ==> PendingSince(orig, names, disk.trail, |old(disk.trail)|) && Pending(orig, names, disk.files)
    ensures sound ==>
      (RolledBack(orig, names, disk.files) <==> !StuckBackup(Faults(disk.events, |old(disk.events)|)))
  {
    hide IsRun, Pending, PendingSince, Unwound, RolledBack, StuckBackup, Away;
    ghost var start, t0, e0 := disk.files, disk.trail, disk.events;
    ghost var faults: set<Op> := {};
    if sound {
      UnwindStarts(orig, start, backups, names, t0);
    }
    NoFaultsYet(e0);
    for i := 0 to |backups|
      invariant disk.Valid() && t0 <= disk.trail && e0 <= disk.events
      invariant faults == Faults(disk.events, |e0|) && forall op :: op in faults ==> IsRollbackOp(op, backups)
      invariant SameStaged(start, disk.files)
      invariant sound ==> PendingSince(orig, names, disk.trail, |t0|)
      invariant sound ==> Pending(orig, names, disk.files) && Listed(disk.files) == Listed(start)
      invariant sound ==> Unwound(orig, disk.files, backups, i, faults)
      invariant sound ==> forall n :: n !in backups ==> Undisturbed(start, disk.files, n)
    {
      ghost var h, events, trail := disk.files, disk.events, disk.trail;
      if sound {
        UnwoundNext(orig, h, backups, i, faults, names);
      }
      PutBackOne(disk, backups[i], orig, names, sound);
      FaultsJoin(|e0|, events, disk.events);
      if sound {
        UnwoundStep(orig, h, disk.files, backups, i, faults, Faults(disk.events, |events|));
        PendingJoin(orig, names, t0, trail, disk.trail);
        forall n | n !in backups ensures Undisturbed(start, disk.files, n) {
          assert Undisturbed(h, disk.files, n);
        }
      }
      faults := Faults(disk.events, |e0|);
    }
    if sound {
      UnwindEnds(orig, start, disk.files, backups, names, faults);
    }
  }

  lemma NoFaultsYet(events: seq<Event>)
    ensures Faults(events, |events|) == {}
  {
  }

  lemma UnwindStarts(orig: Files, h: Files, backups: seq<string>, names: seq<string>, trail: seq<Files>)
    requires forall n :: n in backups ==> n in names && Away(orig, h, n)
    ensures Unwound(orig, h, backups, 0, {}) && PendingSince(orig, names, trail, |trail|)
  {
    forall k | 0 <= k < |backups| ensures Away(orig, h, backups[k]) {
      assert backups[k] in backups;
    }
  }

  lemma UnwoundNext(orig: Files, h: Files, backups: seq<string>, i: nat, faults: set<Op>, names: seq<string>)
    requires i < |backups| && Unwound(orig, h, backups, i, faults) && forall n :: n in backups ==> n in names
    ensures backups[i] in names && Away(orig, h, backups[i])
  {
    assert backups[i] in backups;
  }

  lemma PendingJoin(orig: Files, names: seq<string>, t0: seq<Files>, trail: seq<Files>, more: seq<Files>)
    requires t0 <= trail <= more
    requires PendingSince(orig, names, trail, |t0|) && PendingSince(orig, names, more, |trail|)
    ensures PendingSince(orig, names, more, |t0|)
  {
    hide Pending;
    forall k | |t0| <= k < |more| ensures Pending(orig, names, more[k]) {
      if k < |trail| {
        assert more[k] == trail[k];
      }
    }
  }

  lemma UnwoundStep(orig: Files, h: Files, g: Files, backups: seq<string>, i: nat, faults: set<Op>, more: set<Op>)
    requires NoDuplicates(backups) && i < |backups| && Unwound(orig, h, backups, i, faults)
    requires Listed(g) == Listed(h) && forall m :: m != backups[i] ==> Undisturbed(h, g, m)
    requires var n := backups[i];
      && more <= {Remove(Plain(n)), Rename(Backup(n), Plain(n))}
      && (if Rename(Backup(n), Plain(n)) in more then Away(orig, g, n) else PutBack(orig, g, n))
    ensures Unwound(orig, g, backups, i + 1, faults + more)
  {
    hide Listed;
    assert backups[..i + 1] == backups[..i] + [backups[i]];
    forall op | op in faults + more ensures IsRollbackOp(op, backups[..i + 1]) {
    }
    forall k | 0 <= k < |backups| && k != i ensures Undisturbed(h, g, backups[k]) {
    }
    assert Rename(Backup(backups[i]), Plain(backups[i])) !in faults by {
      assert forall k :: 0 <= k < i ==> backups[..i][k] != backups[i];
    }
  }

  lemma UnwindEnds(orig: Files, start: Files, h: Files, backups: seq<string>, names: seq<string>, faults: set<Op>)
    requires Unwound(orig, h, backups, |backups|, faults) && Pending(orig, names, h) && Listed(h) == Listed(start)
    requires forall n :: n in backups ==> n in names
    requires forall n :: n in names && n !in backups ==> Same(orig, start, n) && Backup(n) !in Listed(start)
    requires forall n :: n !in backups ==> Undisturbed(start, h, n)
    ensures RolledBack(orig, names, h) <==> !StuckBackup(faults)
  {
    hide Listed;
    assert backups[..|backups|] == backups;
    if StuckBackup(faults) {
      var n :| Rename(Backup(n), Plain(n)) in faults;
      var k :| 0 <= k < |backups| && backups[k] == n;
      assert Away(orig, h, backups[k]);
    } else {
      forall n | n in names ensures Same(orig, h, n) && (Backup(n) in Listed(h) ==> Backup(n) !in h) {
        if n in backups {
          var k :| 0 <= k < |backups| && backups[k] == n;
          assert PutBack(orig, h, backups[k]);
        } else {
          assert Undisturbed(start, h, n);
        }
      }
    }
  }

  /** One turn of the rollback. */
  method PutBackOne(disk: Disk, n: string, ghost orig: Files, ghost names: seq<string>, ghost sound: bool)
    requires disk.Valid()
    requires sound ==> Pending(orig, names, disk.files) && n in names && Away(orig, disk.files, n)
    modifies disk
    ensures disk.Valid() && old(disk.trail) <= disk.trail && old(disk.events) <= disk.events
    ensures SameStaged(old(disk.files), disk.files)
    ensures Faults(disk.events, |old(disk.events)|) <= {Remove(Plain(n)), Rename(Backup(n), Plain(n))}
    ensures sound ==> PendingSince(orig, names, disk.trail, |old(disk.trail)|)
    ensures sound ==> Pending(orig, names, disk.files) && Listed(disk.files) == Listed(old(disk.files))
    ensures sound ==>
      if Rename(Backup(n), Plain(n)) in Faults(disk.events, |old(disk.events)|) then Away(orig, disk.files, n)
      else PutBack(orig, disk.files, n)
    ensures sound ==> forall m :: m != n ==> Undisturbed(old(disk.files), disk.files, m)
  {
    hide IsRun, Pending, Listed;
    ghost var h, e0 := disk.files, disk.events;
    var _ := disk.Do(Remove(Plain(n)));
    FaultsGrow(|e0|, e0, disk.events);
    if sound {
      RollbackRemove(orig, names, h, disk.files, n);
    }
    ghost var middle, events := disk.files, disk.events;
    var moved := disk.Do(Rename(Backup(n), Plain(n)));
    FaultsGrow(|e0|, events, disk.events);
    if moved && sound {
      RollbackRename(orig, names, middle, disk.files, n);
    }
  }

  lemma RollbackRemove(orig: Files, names: seq<string>, h: Files, g: Files, n: string)
    requires Pending(orig, names, h) && n in names && Away(orig, h, n)
    requires g == h || g == h - {Plain(n)}
    ensures Pending(orig, names, g) && Away(orig, g, n) && Listed(g) == Listed(h)
    ensures forall m :: m != n ==> Undisturbed(h, g, m)
    ensures SameStaged(h, g)
  {
    assert Listed(g) == Listed(h);
    forall m | m in names ensures Safe(orig, g, m) {
      assert Safe(orig, h, m);
    }
  }

  lemma RollbackRename(orig: Files, names: seq<string>, h: Files, g: Files, n: string)
    requires Pending(orig, names, h) && n in names && Away(orig, h, n)
    requires g == (h - {Backup(n)})[Plain(n) := h[Backup(n)]]
    ensures Pending(orig, names, g) && PutBack(orig, g, n) && Listed(g) == Listed(h)
    ensures forall m :: m != n ==> Undisturbed(h, g, m)
    ensures SameStaged(h, g)
  {
    assert Listed(g) == Listed(h);
    forall m | m in names ensures Safe(orig, g, m) {
      assert Safe(orig, h, m);
    }
  }

  // ---------- One target ----------

  /** Rolls back from wherever the commit stands. */
  method Abort(disk: Disk, previews: seq<Replacement>, ghost orig: Files, ghost done: nat, away: nat, ghost listed: nat)
    requires disk.Valid() && away <= |previews|
    requires OneEach(previews) ==> Midway(orig, previews, disk.files, done, away, listed)
    modifies disk
    ensures disk.Valid() && old(disk.trail) <= disk.trail && old(disk.events) <= disk.events
    ensures SameStaged(old(disk.files), disk.files)
    ensures var faults := Faults(disk.events, |old(disk.events)|);
      && (forall op :: op in faults ==> IsRollbackOp(op, Names(previews)))
      && (OneEach(previews) ==> Restored(orig, Names(previews), disk.files, faults))
    ensures OneEach(previews) ==> PendingSince(orig, Names(previews), disk.trail, |old(disk.trail)|)
  {
    hide IsRun, Midway, Pending, PendingSince, RolledBack, StuckBackup, Unwindable, Faults, SameStaged;
    if OneEach(previews) {
      MidwayUnwinds(orig, previews, disk.files, done, away, listed);
    }
    Rollback(disk, Names(previews)[..away], orig, Names(previews), OneEach(previews));
    forall op | op in Faults(disk.events, |old(disk.events)|) ensures IsRollbackOp(op, Names(previews)) {
      assert IsRollbackOp(op, Names(previews)[..away]);
    }
  }

  /** The disk is pending, and every target is as it was exactly when no backup got stuck. */
  ghost predicate Restored(orig: Files, names: seq<string>, h: Files, faults: set<Op>)
  {
    Pending(orig, names, h) && (RolledBack(orig, names, h) <==> !StuckBackup(faults))
  }

  lemma MidwayUnwinds(orig: Files, previews: seq<Replacement>, h: Files, done: nat, away: nat, listed: nat)
    requires OneEach(previews) && away <= |previews| && Midway(orig, previews, h, done, away, listed)
    ensures Unwindable(orig, h, Names(previews)[..away], Names(previews))
  {
    hide Midway, Pending, Away;
    MidwayPending(orig, previews, h, done, away, listed);
    DistinctPart(Names(previews), away);
  }

  lemma DistinctPart(names: seq<string>, i: nat)
    requires NoDuplicates(names) && i <= |names|
    ensures NoDuplicates(names[..i]) && forall n :: n in names[..i] ==> n in names
  {
  }

  /** Where replacing one target can fail. */
  datatype Replaced = Done | Failed(phase: Phase)

  /** A staged file that was not there before is still there. */
  ghost predicate LeavesStaged(h: Files, g: Files)
  {
    exists id :: Staged(id) in g && Staged(id) !in h
  }

  /** What stopped a commit: a fault, or a target that was not there. */
  ghost predicate HasCause(orig: Files, names: seq<string>, faults: set<Op>)
  {
    (exists op :: op in faults && Stops(op)) || exists n :: n in names && Plain(n) !in orig
  }

  /** The phase named is the one in which the commit was stopped. */
  ghost predicate Blamed(orig: Files, names: seq<string>, faults: set<Op>, phase: Phase)
  {
    Blames(faults, phase, exists n :: n in names && Plain(n) !in orig)
  }

  lemma BlamedForCause(orig: Files, names: seq<string>, faults: set<Op>, phase: Phase)
    requires Blamed(orig, names, faults, phase)
    ensures HasCause(orig, names, faults)
  {
    assert forall op :: PhaseOf(op).Some? ==> Stops(op);
  }

  /** A staged file is left exactly when the journal could not be written, the target not be replaced, or the file not be removed. */
  ghost predicate LeftFor(h: Files, g: Files, faults: set<Op>, phase: Phase)
  {
    LeavesStaged(h, g) <==> phase == JournalPhase || phase == Replace || StuckTemp(faults)
  }

  /**
   How a turn fails: for a cause of the phase named; and where no file is replaced twice, with every
   target as it was exactly when no backup got stuck.
   */
  ghost predicate TurnFailed(orig: Files, previews: seq<Replacement>, h: Files, g: Files, faults: set<Op>, phase: Phase)
  {
    && Blamed(orig, Names(previews), faults, phase)
    && LeftFor(h, g, faults, phase)
    && (OneEach(previews) ==> Restored(orig, Names(previews), g, faults))
  }

  /** The only fault a completed turn can hide: a stale backup that could not be removed before it was replaced. */
  ghost predicate TurnDone(h: Files, g: Files, n: string, faults: set<Op>)
  {
    faults <= {Remove(Backup(n))} && SameStaged(h, g)
  }

  /** The rollback after a failure adds nothing to what the failure left. */
  lemma TurnFails(orig: Files, previews: seq<Replacement>, h: Files, k: Files, g: Files,
                  first: set<Op>, second: set<Op>, phase: Phase)
    requires Blamed(orig, Names(previews), first, phase) && LeftFor(h, k, first, phase) && !StuckBackup(first)
    requires forall op :: op in second ==> IsRollbackOp(op, Names(previews))
    requires SameStaged(k, g) && (OneEach(previews) ==> Restored(orig, Names(previews), g, second))
    ensures TurnFailed(orig, previews, h, g, first + second, phase)
  {
    hide Pending, RolledBack, OneEach, Blamed;
    StillBlamed(orig, Names(previews), first, second, phase);
    assert StuckBackup(first + second) <==> StuckBackup(second);
    assert StuckTemp(first + second) <==> StuckTemp(first);
    assert LeavesStaged(h, g) <==> LeavesStaged(h, k);
  }

  lemma StillBlamed(orig: Files, names: seq<string>, first: set<Op>, second: set<Op>, phase: Phase)
    requires Blamed(orig, names, first, phase) && forall op :: op in second ==> IsRollbackOp(op, names)
    ensures Blamed(orig, names, first + second, phase)
  {
    assert forall op :: op in second ==> PhaseOf(op) == None;
    if op :| op in first && PhaseOf(op) == Some(phase) {
      assert op in first + second;
    }
  }

  lemma StageLeft(h: Files, k: Files, f: Replacement, faults: set<Op>, phase: Phase, orig: Files, names: seq<string>)
    requires StageFailed(h, k, f, faults, phase) && f.name in names && SameTargets(orig, h)
    ensures Blamed(orig, names, faults, phase) && LeftFor(h, k, faults, phase) && !StuckBackup(faults)
  {
  }

  /**
   What a turn that is done promises where no file is replaced twice: the target is
   committed, and a crash on the way would have caught it in its window.
   */
  ghost predicate TurnKept(orig: Files, previews: seq<Replacement>, i: nat, h: Files, trail: seq<Files>, from: nat)
    requires i < |previews|
  {
    Midway(orig, previews, h, i + 1, i + 1, i + 1) && ThroughWindow(orig, trail, from, previews[i].name)
  }

  /** Stages, backs up, lists and replaces target i; on a failure rolls everything back. */
  method ReplaceOne(disk: Disk, previews: seq<Replacement>, i: nat, listed: seq<Path>, ghost orig: Files)
    returns (r: Replaced, ghost stamp: Stamp)
    requires disk.Valid() && i < |previews| && listed == Backups(Names(previews)[..i])
    requires SameTargets(orig, disk.files) && (OneEach(previews) ==> Midway(orig, previews, disk.files, i, i, i))
    modifies disk
    ensures disk.Valid() && old(disk.trail) <= disk.trail && old(disk.events) <= disk.events
    ensures r.Done? ==> disk.files == AfterTurn(old(disk.files), previews, i) && SameTargets(orig, disk.files)
    ensures r.Done? ==>
      TurnDone(old(disk.files), disk.files, previews[i].name, Faults(disk.events, |old(disk.events)|))
    ensures r.Done? ==> Plain(previews[i].name) in orig
    ensures r.Done? ==> Ops(disk.events) == Ops(old(disk.events)) + Turn(orig, previews, i, stamp)
    ensures r.Done? && OneEach(previews) ==>
      TurnKept(orig, previews, i, disk.files, disk.trail, |old(disk.trail)|)
    ensures r.Failed? ==>
      TurnFailed(orig, previews, old(disk.files), disk.files, Faults(disk.events, |old(disk.events)|), r.phase)
    ensures OneEach(previews) ==> PendingSince(orig, Names(previews), disk.trail, |old(disk.trail)|)
  {
    hide IsRun, Midway, Pending, PendingSince, StageFailed, TurnFailed, TurnDone, Faults, Ops, StagedSince, SameButStaged, OneStaged;
    hide LeftFor, Blamed, StuckBackup, Restored, OneEach, TurnKept, SameTargets, AfterTurn;
    ghost var h, e0, t0, names := disk.files, disk.events, disk.trail, Names(previews);
    assert names[i] == previews[i].name && previews[i].name in names;
    var staged, part := StageOne(disk, previews[i]);
    stamp := Stamp(if staged.Ok? then staged.value else 0, part);
    ghost var k, e1, t1 := disk.files, disk.events, disk.trail;
    if OneEach(previews) {
      StagedPending(orig, previews, h, t1, |t0|, i);
      MidwayUnstaged(orig, previews, h, k, i, i, i);
    }
    if staged.Err? {
      StageLeft(h, k, previews[i], Faults(e1, |e0|), staged.error, orig, names);
      Abort(disk, previews, orig, i, i, i);
      FaultsJoin(|e0|, e1, disk.events);
      PendingJoinIf(orig, previews, t0, t1, disk.trail);
      TurnFails(orig, previews, h, k, disk.files, Faults(e1, |e0|), Faults(disk.events, |e1|), staged.error);
      return Failed(staged.error), stamp;
    }
    StagedTarget(orig, h, k, staged.value, previews[i]);
    TurnIs(h, k, previews, i, staged.value, orig);
    r := CommitStaged(disk, previews, i, staged.value, listed, orig, h);
    FaultsJoin(|e0|, e1, disk.events);
    PendingJoinIf(orig, previews, t0, t1, disk.trail);
    assert {} + Faults(disk.events, |e1|) == Faults(disk.events, |e1|);
    if r.Done? {
      TurnLonger(orig, previews, i, disk.files, t0, t1, disk.trail);
      assert Ops(e0) + (StageOps(previews[i], stamp, orig[Plain(previews[i].name)].mode) + ReplaceOps(previews, i, stamp.id))
          == Ops(e0) + StageOps(previews[i], stamp, orig[Plain(previews[i].name)].mode) + ReplaceOps(previews, i, stamp.id);
    }
  }

  lemma TurnLonger(orig: Files, previews: seq<Replacement>, i: nat, h: Files, t0: seq<Files>, trail: seq<Files>, more: seq<Files>)
    requires t0 <= trail <= more && i < |previews|
    requires OneEach(previews) ==> TurnKept(orig, previews, i, h, more, |trail|)
    ensures OneEach(previews) ==> TurnKept(orig, previews, i, h, more, |t0|)
  {
    hide Midway, InWindow, OneEach;
  }

  lemma PendingJoinIf(orig: Files, previews: seq<Replacement>, t0: seq<Files>, trail: seq<Files>, more: seq<Files>)
    requires t0 <= trail <= more
    requires OneEach(previews) ==>
      PendingSince(orig, Names(previews), trail, |t0|) && PendingSince(orig, Names(previews), more, |trail|)
    ensures OneEach(previews) ==> PendingSince(orig, Names(previews), more, |t0|)
  {
    hide OneEach, PendingSince;
    if OneEach(previews) {
      PendingJoin(orig, Names(previews), t0, trail, more);
    }
  }

  lemma StagedTarget(orig: Files, h: Files, k: Files, id: nat, f: Replacement)
    requires OneStaged(h, k, id) && SameButStaged(h, k) && Plain(f.name) in h && SameTargets(orig, h)
    requires k[Staged(id)] == File(Bytes(f.data), h[Plain(f.name)].mode)
    ensures Plain(f.name) in k && k[Plain(f.name)] == h[Plain(f.name)] && Staged(id) in k && Staged(id) !in h
    ensures k == h[Staged(id) := File(Bytes(f.data), h[Plain(f.name)].mode)]
    ensures Plain(f.name) in orig && orig[Plain(f.name)].mode == h[Plain(f.name)].mode
  {
    forall p | p in h ensures p in k && k[p] == h[p] {
      assert k - {Staged(id)} == h;
    }
  }

  lemma StagedPending(orig: Files, previews: seq<Replacement>, h: Files, trail: seq<Files>, from: nat, i: nat)
    requires OneEach(previews) && Midway(orig, previews, h, i, i, i) && StagedSince(h, trail, from)
    ensures PendingSince(orig, Names(previews), trail, from)
  {
    hide Midway, Pending, SameButStaged;
    forall k | from <= k < |trail| ensures Pending(orig, Names(previews), trail[k]) {
      MidwayUnstaged(orig, previews, h, trail[k], i, i, i);
      MidwayPending(orig, previews, trail[k], i, i, i);
    }
  }

  /** A crash at some state of the trail would catch target n between its backup and the journal entry. */
  ghost predicate ThroughWindow(orig: Files, trail: seq<Files>, from: nat, n: string)
  {
    exists k :: from <= k < |trail| && InWindow(orig, trail[k], n)
  }

  lemma WindowStays(orig: Files, t0: seq<Files>, trail: seq<Files>, more: seq<Files>, n: string)
    requires t0 <= trail <= more && ThroughWindow(orig, trail, |t0|, n)
    ensures ThroughWindow(orig, more, |t0|, n)
  {
    hide InWindow;
    var k :| |t0| <= k < |trail| && InWindow(orig, trail[k], n);
    assert more[k] == trail[k];
  }

  /** The rest of the turn, the new bytes staged under `id`; h is the disk before they were. */
  method CommitStaged(disk: Disk, previews: seq<Replacement>, i: nat, id: nat, listed: seq<Path>,
                      ghost orig: Files, ghost h: Files)
    returns (r: Replaced)
    requires disk.Valid() && i < |previews| && listed == Backups(Names(previews)[..i]) && OneStaged(h, disk.files, id)
    requires Plain(previews[i].name) in disk.files && Staged(id) in disk.files
    requires disk.files[Staged(id)] == File(Bytes(previews[i].data), disk.files[Plain(previews[i].name)].mode)
    requires OneEach(previews) ==> Midway(orig, previews, disk.files, i, i, i)
    modifies disk
    ensures disk.Valid() && old(disk.trail) <= disk.trail && old(disk.events) <= disk.events
    ensures r.Done? ==>
      disk.files == InPlace(WithJournal(Moved(old(disk.files), previews[i].name), previews, i + 1), id, previews[i].name)
    ensures r.Done? ==> TurnDone(h, disk.files, previews[i].name, Faults(disk.events, |old(disk.events)|))
    ensures r.Done? ==> Ops(disk.events) == Ops(old(disk.events)) + ReplaceOps(previews, i, id)
    ensures r.Done? && OneEach(previews) ==>
      TurnKept(orig, previews, i, disk.files, disk.trail, |old(disk.trail)|)
    ensures r.Failed? ==>
      TurnFailed(orig, previews, h, disk.files, Faults(disk.events, |old(disk.events)|), r.phase)
    ensures OneEach(previews) ==> PendingSince(orig, Names(previews), disk.trail, |old(disk.trail)|)
  {
    hide IsRun, Midway, Pending, PendingSince, TurnFailed, TurnDone, Faults, Ops, OneStaged, OneEach, TurnKept, BackedUp;
    hide LeftFor, Blamed, StuckBackup, Restored, InWindow, ThroughWindow, SameStaged, Moved, WithJournal, InPlace;
    ghost var k, e0, t0, names, n := disk.files, disk.events, disk.trail, Names(previews), previews[i].name;
    var moved := BackUp(disk, previews, i, orig);
    ghost var e1, t1, away := disk.events, disk.trail, disk.files;
    if !moved {
      BackUpFailedStaged(orig, previews, h, k, away, id, i);
      Discard(disk, id);
      ghost var e2, t2, left := disk.events, disk.trail, disk.files;
      NotMoved(orig, previews, h, k, away, left, i, id, t0, t1, t2);
      FaultsJoin(|e0|, e1, e2);
      BackUpLeft(orig, names, h, k, away, left, id, n, Faults(e1, |e0|), Faults(e2, |e1|));
      Abort(disk, previews, orig, i, i, i);
      FaultsJoin(|e0|, e2, disk.events);
      PendingJoinIf(orig, previews, t0, t2, disk.trail);
      TurnFails(orig, previews, h, left, disk.files, Faults(e2, |e0|), Faults(disk.events, |e2|), BackupPhase);
      return Failed(BackupPhase);
    }
    StagedStill(h, k, away, id);
    BackedUpGives(orig, previews, away, i, t1, |t0|);
    MovedTarget(orig, previews, k, away, i, id, t1, |t0|);
    r := ListAndReplace(disk, previews, i, id, listed, orig, h);
    FaultsJoin(|e0|, e1, disk.events);
    PendingJoinIf(orig, previews, t0, t1, disk.trail);
    if r.Done? {
      WindowKept(orig, previews, i, disk.files, t0, t1, disk.trail);
      CommittedOne(h, disk.files, n, Faults(e1, |e0|));
      assert ReplaceOps(previews, i, id)[..2] == ReplaceOps(previews, i, 0)[..2];
    } else {
      FaultIgnored(orig, previews, h, disk.files, Faults(e1, |e0|), Faults(disk.events, |e1|), r.phase);
    }
  }

  lemma BackUpFailedStaged(orig: Files, previews: seq<Replacement>, h: Files, k: Files, away: Files, id: nat, i: nat)
    requires OneStaged(h, k, id) && SameStaged(k, away)
    ensures Staged(id) in away
  {
  }

  /** The target could not be moved, and the staged file was thrown away. */
  lemma NotMoved(orig: Files, previews: seq<Replacement>, h: Files, k: Files, away: Files, left: Files, i: nat, id: nat,
                 t0: seq<Files>, t1: seq<Files>, t2: seq<Files>)
    requires t0 <= t1 && t2 == t1 + [left] && i < |previews| && (left == away || left == away - {Staged(id)})
    requires OneEach(previews) ==> BackedUp(orig, previews, away, i, false, t1, |t0|)
    ensures OneEach(previews) ==> Midway(orig, previews, left, i, i, i) && PendingSince(orig, Names(previews), t2, |t0|)
  {
    hide Midway, Pending, OneEach;
    if OneEach(previews) {
      MidwayUnstaged(orig, previews, away, left, i, i, i);
      MidwayPending(orig, previews, left, i, i, i);
    }
  }

  lemma BackedUpGives(orig: Files, previews: seq<Replacement>, h: Files, i: nat, trail: seq<Files>, from: nat)
    requires i < |previews| && (OneEach(previews) ==> BackedUp(orig, previews, h, i, true, trail, from))
    ensures OneEach(previews) ==> Midway(orig, previews, h, i, i + 1, i) && PendingSince(orig, Names(previews), trail, from)
    ensures OneEach(previews) ==> ThroughWindow(orig, trail, from, previews[i].name)
  {
    hide OneEach, Midway, PendingSince, ThroughWindow;
  }

  lemma MovedTarget(orig: Files, previews: seq<Replacement>, k: Files, away: Files, i: nat, id: nat, trail: seq<Files>, from: nat)
    requires i < |previews| && Plain(previews[i].name) in k && away == Moved(k, previews[i].name) && Staged(id) in k
    requires k[Staged(id)] == File(Bytes(previews[i].data), k[Plain(previews[i].name)].mode)
    requires OneEach(previews) ==> Midway(orig, previews, k, i, i, i)
    ensures Staged(id) in away && away[Staged(id)] == k[Staged(id)]
    ensures OneEach(previews) ==> ForTarget(orig, previews, i, away, id)
  {
    hide OneEach;
    if OneEach(previews) {
      assert Same(orig, k, previews[i].name);
    }
  }

  lemma WindowKept(orig: Files, previews: seq<Replacement>, i: nat, h: Files, t0: seq<Files>, trail: seq<Files>, more: seq<Files>)
    requires t0 <= trail <= more && i < |previews|
    requires OneEach(previews) ==> Midway(orig, previews, h, i + 1, i + 1, i + 1)
    requires OneEach(previews) ==> ThroughWindow(orig, trail, |t0|, previews[i].name)
    ensures OneEach(previews) ==> TurnKept(orig, previews, i, h, more, |t0|)
  {
    hide Midway, OneEach, ThroughWindow;
    if OneEach(previews) {
      WindowStays(orig, t0, trail, more, previews[i].name);
    }
  }

  lemma StagedStill(h: Files, k: Files, g: Files, id: nat)
    requires OneStaged(h, k, id) && SameStaged(k, g)
    ensures Staged(id) !in h && Staged(id) in g && g[Staged(id)] == k[Staged(id)] && SameStaged(h, g - {Staged(id)})
  {
    forall m: nat | m != id ensures Staged(m) in g <==> Staged(m) in h {
      assert Staged(m) in k - {Staged(id)} <==> Staged(m) in k;
    }
    forall m: nat | m != id && Staged(m) in g ensures g[Staged(m)] == h[Staged(m)] {
      assert (k - {Staged(id)})[Staged(m)] == k[Staged(m)];
    }
  }

  lemma BackUpLeft(orig: Files, names: seq<string>, h: Files, k: Files, away: Files, g: Files, id: nat, n: string,
                   first: set<Op>, second: set<Op>)
    requires OneStaged(h, k, id) && SameStaged(k, away)
    requires Rename(Plain(n), Backup(n)) in first && first <= {Remove(Backup(n)), Rename(Plain(n), Backup(n))}
    requires (second == {} && g == away - {Staged(id)}) || (second == {Remove(Staged(id))} && g == away)
    ensures Blamed(orig, names, first + second, BackupPhase) && !StuckBackup(first + second)
    ensures LeftFor(h, g, first + second, BackupPhase)
  {
    StagedStill(h, k, away, id);
    assert Rename(Plain(n), Backup(n)) in first + second && PhaseOf(Rename(Plain(n), Backup(n))) == Some(BackupPhase);
    if second == {} {
      assert !LeavesStaged(h, g);
    } else {
      assert Remove(Staged(id)) in first + second;
    }
  }

  lemma CommittedOne(h: Files, g: Files, n: string, faults: set<Op>)
    requires faults <= {Remove(Backup(n))} && SameStaged(h, g)
    ensures TurnDone(h, g, n, faults + {})
  {
  }

  lemma FaultIgnored(orig: Files, previews: seq<Replacement>, h: Files, g: Files, first: set<Op>, second: set<Op>, phase: Phase)
    requires (forall op :: op in first ==> !Stops(op)) && TurnFailed(orig, previews, h, g, second, phase)
    ensures TurnFailed(orig, previews, h, g, first + second, phase)
  {
    hide Pending, RolledBack, LeavesStaged, OneEach;
    assert StuckBackup(first + second) <==> StuckBackup(second) by {
      assert forall n :: Stops(Rename(Backup(n), Plain(n)));
    }
    assert StuckTemp(first + second) <==> StuckTemp(second) by {
      assert forall id :: Stops(Remove(Staged(id)));
    }
  }

  /**
   After the attempt to move target i away, where no file is replaced twice: every
   state on the way is pending, and the last one is in the window when it was moved.
   */
  ghost predicate BackedUp(orig: Files, previews: seq<Replacement>, h: Files, i: nat, moved: bool, trail: seq<Files>, from: nat)
    requires i < |previews|
  {
    && Midway(orig, previews, h, i, if moved then i + 1 else i, i)
    && PendingSince(orig, Names(previews), trail, from)
    && (moved ==> ThroughWindow(orig, trail, from, previews[i].name))
  }

  /** Moves target i to its backup name, over whatever stands there. */
  method BackUp(disk: Disk, previews: seq<Replacement>, i: nat, ghost orig: Files) returns (moved: bool)
    requires disk.Valid() && i < |previews| && Plain(previews[i].name) in disk.files
    requires OneEach(previews) ==> Midway(orig, previews, disk.files, i, i, i)
    modifies disk
    ensures disk.Valid() && old(disk.trail) <= disk.trail && old(disk.events) <= disk.events
    ensures disk.trail[|disk.trail| - 1] == disk.files && SameStaged(old(disk.files), disk.files)
    ensures moved ==> disk.files == Moved(old(disk.files), previews[i].name)
    ensures var n, faults := previews[i].name, Faults(disk.events, |old(disk.events)|);
      && faults <= {Remove(Backup(n)), Rename(Plain(n), Backup(n))}
      && (moved <==> Rename(Plain(n), Backup(n)) !in faults)
    ensures Ops(disk.events) == Ops(old(disk.events)) + ReplaceOps(previews, i, 0)[..2]
    ensures OneEach(previews) ==>
      BackedUp(orig, previews, disk.files, i, moved, disk.trail, |old(disk.trail)|)
  {
    hide IsRun, Midway, Pending, Faults, Ops, InWindow, OneEach;
    var n := previews[i].name;
    ghost var h, e0, t0 := disk.files, disk.events, disk.trail;
    var _ := disk.Do(Remove(Backup(n)));
    ghost var g, e1, t1 := disk.files, disk.events, disk.trail;
    FaultsGrow(|e0|, e0, e1);
    OpsGrow(e0, e1);
    moved := disk.Do(Rename(Plain(n), Backup(n)));
    FaultsGrow(|e0|, e1, disk.events);
    OpsGrow(e1, disk.events);
    assert ReplaceOps(previews, i, 0)[..2] == [Remove(Backup(n)), Rename(Plain(n), Backup(n))];
    if OneEach(previews) {
      AwayInTwo(orig, previews, h, g, disk.files, i, moved, t0, disk.trail);
    }
  }

  lemma AwayInTwo(orig: Files, previews: seq<Replacement>, h: Files, g: Files, away: Files, i: nat, moved: bool,
                  t0: seq<Files>, trail: seq<Files>)
    requires OneEach(previews) && i < |previews| && Midway(orig, previews, h, i, i, i) && Plain(previews[i].name) in h
    requires (g == h || g == h - {Backup(previews[i].name)}) && Plain(previews[i].name) in g
    requires away == (if moved then (g - {Plain(previews[i].name)})[Backup(previews[i].name) := g[Plain(previews[i].name)]] else g)
    requires trail == t0 + [g] + [away]
    ensures BackedUp(orig, previews, away, i, moved, trail, |t0|)
  {
    hide Midway, Pending, InWindow;
    MidwayClear(orig, previews, h, g, i);
    MidwayPending(orig, previews, g, i, i, i);
    if moved {
      MidwayAway(orig, previews, g, away, i);
      MidwayPending(orig, previews, away, i, i + 1, i);
      assert trail[|t0| + 1] == away;
    }
  }

  /** The staged bytes, and the disk h before they were there. */
  ghost predicate Holds(h: Files, k: Files, id: nat)
  {
    Staged(id) in k && Staged(id) !in h && SameStaged(h, k - {Staged(id)})
  }

  /** The bytes staged for target i are its new ones, under its old mode. */
  ghost predicate ForTarget(orig: Files, previews: seq<Replacement>, i: nat, k: Files, id: nat)
    requires i < |previews|
  {
    && Plain(previews[i].name) in orig && Staged(id) in k
    && k[Staged(id)] == File(Bytes(previews[i].data), orig[Plain(previews[i].name)].mode)
  }

  /** Target i stands at its backup name: lists it in the journal, then moves the staged bytes into place. */
  method ListAndReplace(disk: Disk, previews: seq<Replacement>, i: nat, id: nat, listed: seq<Path>,
                        ghost orig: Files, ghost h: Files)
    returns (r: Replaced)
    requires disk.Valid() && i < |previews| && listed == Backups(Names(previews)[..i]) && Holds(h, disk.files, id)
    requires OneEach(previews) ==> Midway(orig, previews, disk.files, i, i + 1, i)
    requires OneEach(previews) ==> ForTarget(orig, previews, i, disk.files, id)
    modifies disk
    ensures disk.Valid() && old(disk.trail) <= disk.trail && old(disk.events) <= disk.events
    ensures r.Done? ==> disk.files == InPlace(WithJournal(old(disk.files), previews, i + 1), id, previews[i].name)
    ensures r.Done? ==> SameStaged(h, disk.files) && Faults(disk.events, |old(disk.events)|) == {}
    ensures r.Done? ==> Ops(disk.events) == Ops(old(disk.events)) + ReplaceOps(previews, i, id)[2..]
    ensures r.Done? && OneEach(previews) ==> Midway(orig, previews, disk.files, i + 1, i + 1, i + 1)
    ensures r.Failed? ==>
      TurnFailed(orig, previews, h, disk.files, Faults(disk.events, |old(disk.events)|), r.phase)
    ensures OneEach(previews) ==> PendingSince(orig, Names(previews), disk.trail, |old(disk.trail)|)
  {
    hide IsRun, Midway, Pending, PendingSince, TurnFailed, Faults, Ops, Restored, OneEach, ForTarget, SameStaged, LeftFor, Blamed;
    ghost var k, e0, t0, names := disk.files, disk.events, disk.trail, Names(previews);
    var n := previews[i].name;
    BackupsGrow(names, i);
    var op := WriteJournal(true, listed + [Backup(n)]);
    var journaled := disk.Do(op);
    ghost var g, e1, t1 := disk.files, disk.events, disk.trail;
    FaultsGrow(|e0|, e0, e1);
    OpsGrow(e0, e1);
    JournalStep(orig, previews, h, k, g, i, id, t0, t1, journaled);
    if !journaled {
      LeftBehind(orig, names, h, g, id, op, Faults(e1, |e0|), JournalPhase);
      Abort(disk, previews, orig, i, i + 1, i);
      FaultsJoin(|e0|, e1, disk.events);
      PendingJoinIf(orig, previews, t0, t1, disk.trail);
      TurnFails(orig, previews, h, g, disk.files, Faults(e1, |e0|), Faults(disk.events, |e1|), JournalPhase);
      return Failed(JournalPhase);
    }
    assert Faults(e1, |e0|) == {};
    r := MoveIntoPlace(disk, previews, i, id, orig, h);
    FaultsJoin(|e0|, e1, disk.events);
    assert {} + Faults(disk.events, |e1|) == Faults(disk.events, |e1|);
    PendingJoinIf(orig, previews, t0, t1, disk.trail);
    assert ReplaceOps(previews, i, id)[2..] == [op] + [Rename(Staged(id), Plain(n))];
  }

  lemma JournalStep(orig: Files, previews: seq<Replacement>, h: Files, k: Files, g: Files, i: nat, id: nat,
                    t0: seq<Files>, trail: seq<Files>, journaled: bool)
    requires i < |previews| && Holds(h, k, id) && trail == t0 + [g]
    requires g == if journaled then WithJournal(k, previews, i + 1) else k
    requires OneEach(previews) ==> Midway(orig, previews, k, i, i + 1, i) && ForTarget(orig, previews, i, k, id)
    ensures Holds(h, g, id)
    ensures OneEach(previews) ==> Midway(orig, previews, g, i, i + 1, if journaled then i + 1 else i)
    ensures OneEach(previews) ==> ForTarget(orig, previews, i, g, id) && PendingSince(orig, Names(previews), trail, |t0|)
  {
    hide Midway, Pending, OneEach;
    if OneEach(previews) {
      if journaled {
        MidwayList(orig, previews, k, g, i);
      }
      MidwayPending(orig, previews, g, i, i + 1, if journaled then i + 1 else i);
    }
  }

  /** The last operation of a turn. */
  method MoveIntoPlace(disk: Disk, previews: seq<Replacement>, i: nat, id: nat, ghost orig: Files, ghost h: Files)
    returns (r: Replaced)
    requires disk.Valid() && i < |previews| && Holds(h, disk.files, id)
    requires OneEach(previews) ==> Midway(orig, previews, disk.files, i, i + 1, i + 1)
    requires OneEach(previews) ==> ForTarget(orig, previews, i, disk.files, id)
    modifies disk
    ensures disk.Valid() && old(disk.trail) <= disk.trail && old(disk.events) <= disk.events
    ensures r.Done? ==> disk.files == InPlace(old(disk.files), id, previews[i].name)
    ensures r.Done? ==> SameStaged(h, disk.files) && Faults(disk.events, |old(disk.events)|) == {}
    ensures r.Done? ==> Ops(disk.events) == Ops(old(disk.events)) + [Rename(Staged(id), Plain(previews[i].name))]
    ensures r.Done? && OneEach(previews) ==> Midway(orig, previews, disk.files, i + 1, i + 1, i + 1)
    ensures r.Failed? ==>
      TurnFailed(orig, previews, h, disk.files, Faults(disk.events, |old(disk.events)|), r.phase)
    ensures OneEach(previews) ==> PendingSince(orig, Names(previews), disk.trail, |old(disk.trail)|)
  {
    hide IsRun, Midway, Pending, PendingSince, TurnFailed, Faults, Ops, Restored, OneEach, ForTarget, LeftFor, Blamed;
    ghost var k, e0, t0, names := disk.files, disk.events, disk.trail, Names(previews);
    var op := Rename(Staged(id), Plain(previews[i].name));
    var replaced := disk.Do(op);
    ghost var g, e1, t1 := disk.files, disk.events, disk.trail;
    FaultsGrow(|e0|, e0, e1);
    OpsGrow(e0, e1);
    ReplaceStep(orig, previews, k, g, i, id, t0, t1, replaced);
    if !replaced {
      LeftBehind(orig, names, h, g, id, op, Faults(e1, |e0|), Replace);
      Abort(disk, previews, orig, i, i + 1, i + 1);
      FaultsJoin(|e0|, e1, disk.events);
      PendingJoinIf(orig, previews, t0, t1, disk.trail);
      TurnFails(orig, previews, h, g, disk.files, Faults(e1, |e0|), Faults(disk.events, |e1|), Replace);
      return Failed(Replace);
    }
    assert SameStaged(k - {Staged(id)}, g);
    return Done;
  }

  lemma ReplaceStep(orig: Files, previews: seq<Replacement>, k: Files, g: Files, i: nat, id: nat,
                    t0: seq<Files>, trail: seq<Files>, replaced: bool)
    requires i < |previews| && Staged(id) in k && trail == t0 + [g]
    requires g == if replaced then InPlace(k, id, previews[i].name) else k
    requires OneEach(previews) ==> Midway(orig, previews, k, i, i + 1, i + 1) && ForTarget(orig, previews, i, k, id)
    ensures OneEach(previews) ==> Midway(orig, previews, g, if replaced then i + 1 else i, i + 1, i + 1)
    ensures OneEach(previews) ==> PendingSince(orig, Names(previews), trail, |t0|)
  {
    hide Midway, Pending, OneEach;
    if OneEach(previews) {
      if replaced {
        MidwayReplace(orig, previews, k, g, i, id);
      }
      MidwayPending(orig, previews, g, if replaced then i + 1 else i, i + 1, i + 1);
    }
  }

  lemma LeftBehind(orig: Files, names: seq<string>, h: Files, g: Files, id: nat, op: Op, faults: set<Op>, phase: Phase)
    requires Staged(id) !in h && Staged(id) in g && (phase == JournalPhase || phase == Replace)
    requires faults == {op} && PhaseOf(op) == Some(phase)
    ensures Blamed(orig, names, faults, phase) && LeftFor(h, g, faults, phase) && !StuckBackup(faults)
  {
    assert op in faults;
  }

  lemma BackupsGrow(names: seq<string>, i: nat)
    requires i < |names|
    ensures Backups(names[..i]) + [Backup(names[i])] == Backups(names[..i + 1])
  {
  }

  // ---------- Clean-up ----------

  ghost predicate CleaningSince(orig: Files, previews: seq<Replacement>, trail: seq<Files>, from: nat)
  {
    from <= |trail| && forall k :: from <= k < |trail| ==> Cleaning(orig, previews, trail[k])
  }

  /** A crash at some state of the trail would leave the first target new and the second one old. */
  ghost predicate ThroughMix(orig: Files, previews: seq<Replacement>, trail: seq<Files>, from: nat)
    requires |previews| >= 2
  {
    exists k :: from <= k < |trail| && Mixed(orig, previews, trail[k])
  }

  ghost predicate Mixed(orig: Files, previews: seq<Replacement>, h: Files)
    requires |previews| >= 2
  {
    Committed(orig, Recovered(h), previews[0]) && Same(orig, Recovered(h), previews[1].name)
  }

  /** The first i backups were removed, but for those whose removal failed; the others are there. */
  ghost predicate Swept(orig: Files, h: Files, names: seq<string>, i: nat, faults: set<Op>)
    requires i <= |names|
  {
    && (forall op :: op in faults ==> op.Remove? && op.path.Backup? && op.path.of in names[..i])
    && (forall k :: 0 <= k < i ==> (Backup(names[k]) in h <==> Remove(Backup(names[k])) in faults))
    && (forall k :: i <= k < |names| ==> Backup(names[k]) in h)
  }

  lemma SweptStep(orig: Files, h: Files, g: Files, names: seq<string>, i: nat, faults: set<Op>, more: set<Op>)
    requires NoDuplicates(names) && i < |names| && Swept(orig, h, names, i, faults)
    requires var b := Backup(names[i]); (g == h && more == {Remove(b)}) || (g == h - {b} && more == {})
    ensures Swept(orig, g, names, i + 1, faults + more)
  {
    assert names[..i + 1] == names[..i] + [names[i]];
    assert Remove(Backup(names[i])) !in faults by {
      assert forall k :: 0 <= k < i ==> names[..i][k] != names[i];
    }
  }

  /** h without the backups of the listed names. */
  function Unbacked(h: Files, names: seq<string>): Files { h - set n | n in names :: Backup(n) }

  /** The clean-up after i removals, where no file is replaced twice. */
  ghost predicate Sweeping(orig: Files, previews: seq<Replacement>, h: Files, i: nat, faults: set<Op>, trail: seq<Files>, from: nat)
    requires i <= |previews|
  {
    && Cleaning(orig, previews, h) && CleaningSince(orig, previews, trail, from)
    && Swept(orig, h, Names(previews), i, faults)
    && (i >= 1 && |previews| >= 2 && Remove(Backup(previews[0].name)) !in faults ==> ThroughMix(orig, previews, trail, from))
  }

  /** Where no file is replaced twice: every state is in clean-up, and a backup is left exactly when its removal failed. */
  ghost predicate CleanedUp(orig: Files, previews: seq<Replacement>, h: Files, faults: set<Op>, trail: seq<Files>, from: nat)
  {
    && CleaningSince(orig, previews, trail, from) && Cleaning(orig, previews, h)
    && (forall n :: n in Names(previews) ==> (Backup(n) in h <==> Remove(Backup(n)) in faults))
    && (|previews| >= 2 && Remove(Backup(previews[0].name)) !in faults ==> ThroughMix(orig, previews, trail, from))
  }

  /**
   Removes the backups, then the journal; failures are ignored.  What is left is
   exactly what could not be removed.
   */
  method CleanUp(disk: Disk, previews: seq<Replacement>, ghost orig: Files)
    requires disk.Valid() && HasJournal(disk.files)
    requires OneEach(previews) ==> Midway(orig, previews, disk.files, |previews|, |previews|, |previews|)
    modifies disk
    ensures disk.Valid() && old(disk.trail) <= disk.trail && old(disk.events) <= disk.events
    ensures Ops(disk.events) == Ops(old(disk.events)) + CleanUpOps(previews)
    ensures SameStaged(old(disk.files), disk.files)
    ensures var faults := Faults(disk.events, |old(disk.events)|);
      && (forall op :: op in faults ==> !Stops(op))
      && (HasJournal(disk.files) <==> Remove(JournalFile) in faults)
      && (faults == {} ==> disk.files == Unbacked(old(disk.files), Names(previews)) - {JournalFile})
      && (OneEach(previews) ==> CleanedUp(orig, previews, disk.files, faults, disk.trail, |old(disk.trail)|))
  {
    hide IsRun, Midway, Faults, Ops, OneEach, Sweeping, Unbacked, CleanedUp;
    ghost var names, start, t0, e0 := Names(previews), disk.files, disk.trail, disk.events;
    ghost var faults: set<Op> := {};
    SweepBegins(orig, previews, start, t0, e0);
    for i := 0 to |previews|
      invariant disk.Valid() && t0 <= disk.trail && e0 <= disk.events
      invariant faults == Faults(disk.events, |e0|) && OnlyStale(faults)
      invariant Ops(disk.events) == Ops(e0) + CleanUpOps(previews)[..i]
      invariant SameStaged(start, disk.files) && HasJournal(disk.files)
      invariant faults == {} ==> disk.files == Unbacked(start, names[..i])
      invariant OneEach(previews) ==> Sweeping(orig, previews, disk.files, i, faults, disk.trail, |t0|)
    {
      ghost var h, events, trail, before := disk.files, disk.events, disk.trail, faults;
      var _ := disk.Do(Remove(Backup(previews[i].name)));
      FaultsGrow(|e0|, events, disk.events);
      OpsGrow(events, disk.events);
      UnbackedGrows(start, h, disk.files, names, i, disk.events[|events|], before);
      if OneEach(previews) {
        SweepOne(orig, previews, h, disk.files, i, before, disk.events[|events|], |t0|, trail);
      }
      faults := Faults(disk.events, |e0|);
      assert CleanUpOps(previews)[..i + 1] == CleanUpOps(previews)[..i] + [Remove(Backup(previews[i].name))];
    }
    ghost var h, events, trail := disk.files, disk.events, disk.trail;
    var _ := disk.Do(Remove(JournalFile));
    FaultsGrow(|e0|, events, disk.events);
    OpsGrow(events, disk.events);
    assert names[..|names|] == names;
    if OneEach(previews) {
      SweepEnds(orig, previews, h, disk.files, faults, disk.events[|events|], |t0|, trail);
    }
    assert CleanUpOps(previews) == CleanUpOps(previews)[..|previews|] + [Remove(JournalFile)];
  }

  /** Only stale backups could not be removed. */
  ghost predicate OnlyStale(faults: set<Op>) { forall op :: op in faults ==> op.Remove? && op.path.Backup? }

  lemma UnbackedGrows(start: Files, h: Files, g: Files, names: seq<string>, i: nat, e: Event, before: set<Op>)
    requires i < |names| && e.op == Remove(Backup(names[i])) && Happens(h, e, g)
    requires (before == {} ==> h == Unbacked(start, names[..i])) && OnlyStale(before) && HasJournal(h)
    ensures var faults := before + (if e.Fault? then {e.op} else {});
      OnlyStale(faults) && (faults == {} ==> g == Unbacked(start, names[..i + 1]))
    ensures HasJournal(g) && SameStaged(h, g)
  {
    assert names[..i + 1] == names[..i] + [names[i]];
    assert forall n :: n in names[..i + 1] <==> n in names[..i] || n == names[i];
  }

  lemma SweepBegins(orig: Files, previews: seq<Replacement>, h: Files, trail: seq<Files>, events: seq<Event>)
    ensures OneEach(previews) && Midway(orig, previews, h, |previews|, |previews|, |previews|) ==>
      Sweeping(orig, previews, h, 0, {}, trail, |trail|)
    ensures Faults(events, |events|) == {} && CleanUpOps(previews)[..0] == []
    ensures Unbacked(h, Names(previews)[..0]) == h && SameStaged(h, h)
  {
    hide OneEach, Midway, Cleaning;
    if OneEach(previews) && Midway(orig, previews, h, |previews|, |previews|, |previews|) {
      CleaningBegins(orig, previews, h);
      AllKept(orig, previews, h);
    }
    assert (set n | n in Names(previews)[..0] :: Backup(n)) == {};
  }

  lemma AllKept(orig: Files, previews: seq<Replacement>, h: Files)
    requires Midway(orig, previews, h, |previews|, |previews|, |previews|)
    ensures forall k :: 0 <= k < |previews| ==> Backup(Names(previews)[k]) in h
  {
    forall k | 0 <= k < |previews| ensures Backup(Names(previews)[k]) in h {
      assert Kept(orig, h, previews[k].name);
    }
  }

  lemma SweepOne(orig: Files, previews: seq<Replacement>, h: Files, g: Files, i: nat, faults: set<Op>, e: Event,
                 from: nat, trail: seq<Files>)
    requires OneEach(previews) && i < |previews| && HasJournal(h) && HasJournal(g)
    requires Sweeping(orig, previews, h, i, faults, trail, from)
    requires e.op == Remove(Backup(previews[i].name)) && Happens(h, e, g)
    ensures Sweeping(orig, previews, g, i + 1, faults + (if e.Fault? then {e.op} else {}), trail + [g], from)
  {
    hide Cleaning, Mixed, Recovered;
    var names := Names(previews);
    assert names[i] == previews[i].name && Backup(names[i]) in h;
    CleaningStep(orig, previews, h, g, i);
    SweptStep(orig, h, g, names, i, faults, if e.Fault? then {e.op} else {});
    if |previews| >= 2 && Remove(Backup(names[0])) !in faults + (if e.Fault? then {e.op} else {}) {
      if i == 0 {
        MixedAfterOne(orig, previews, g);
        assert (trail + [g])[|trail|] == g;
      } else {
        MixStays(orig, previews, trail, from, g);
      }
    }
  }

  lemma MixStays(orig: Files, previews: seq<Replacement>, trail: seq<Files>, from: nat, g: Files)
    requires |previews| >= 2 && ThroughMix(orig, previews, trail, from)
    ensures ThroughMix(orig, previews, trail + [g], from)
  {
    hide Mixed;
    var k :| from <= k < |trail| && Mixed(orig, previews, trail[k]);
    assert (trail + [g])[k] == trail[k];
  }

  lemma MixedAfterOne(orig: Files, previews: seq<Replacement>, h: Files)
    requires |previews| >= 2 && Cleaning(orig, previews, h) && HasJournal(h)
    requires Backup(previews[0].name) !in h && Backup(previews[1].name) in h
    ensures Mixed(orig, previews, h)
  {
    CleanUpRecovery(orig, previews, h, previews[0]);
    CleanUpRecovery(orig, previews, h, previews[1]);
    assert Committed(orig, h, previews[0]) && Committed(orig, h, previews[1]);
  }

  lemma SweepEnds(orig: Files, previews: seq<Replacement>, h: Files, g: Files, faults: set<Op>, e: Event,
                  from: nat, trail: seq<Files>)
    requires Sweeping(orig, previews, h, |previews|, faults, trail, from)
    requires e.op == Remove(JournalFile) && Happens(h, e, g)
    ensures CleanedUp(orig, previews, g, faults + (if e.Fault? then {e.op} else {}), trail + [g], from)
  {
    hide Cleaning, ThroughMix;
    var names := Names(previews);
    CleaningEnds(orig, previews, h, g);
    forall n | n in names ensures Backup(n) in h <==> Remove(Backup(n)) in faults {
      var k :| 0 <= k < |names| && names[k] == n;
    }
    if |previews| >= 2 && Remove(Backup(previews[0].name)) !in faults {
      MixStays(orig, previews, trail, from, g);
    }
  }

  lemma CleaningBegins(orig: Files, previews: seq<Replacement>, h: Files)
    requires OneEach(previews) && Midway(orig, previews, h, |previews|, |previews|, |previews|)
    ensures Cleaning(orig, previews, h)
  {
    var names := Names(previews);
    MidwayListed(orig, previews, h, |previews|, |previews|, |previews|);
    forall b ensures b in Listed(h) <==> b in set n | n in names :: Backup(n) {
      if b in Listed(h) {
        var j :| 0 <= j < |previews| && b.of == previews[j].name;
        assert names[j] == b.of;
      }
    }
    forall f | f in previews ensures Committed(orig, h, f) {
      var j :| 0 <= j < |previews| && previews[j] == f;
    }
    forall n | n in names ensures Kept(orig, h, n) {
      var j :| 0 <= j < |names| && names[j] == n;
      assert Kept(orig, h, previews[j].name);
    }
  }

  lemma CleaningStep(orig: Files, previews: seq<Replacement>, h: Files, g: Files, i: nat)
    requires i < |previews| && Cleaning(orig, previews, h)
    requires g == h || g == h - {Backup(previews[i].name)}
    ensures Cleaning(orig, previews, g)
  {
    assert Names(previews)[i] == previews[i].name;
    assert HasJournal(g) ==> HasJournal(h) && Listed(g) == Listed(h);
    forall n | n !in Names(previews) ensures Undisturbed(h, g, n) {
    }
    forall f | f in previews ensures Committed(orig, g, f) {
      assert Committed(orig, h, f);
    }
  }

  lemma CleaningEnds(orig: Files, previews: seq<Replacement>, h: Files, g: Files)
    requires Cleaning(orig, previews, h) && (g == h || g == h - {JournalFile})
    ensures Cleaning(orig, previews, g)
  {
    forall n ensures Undisturbed(h, g, n) {
    }
    forall f | f in previews ensures Committed(orig, g, f) {
      assert Committed(orig, h, f);
    }
  }

  // ---------- The whole commit ----------

  /** No fault that stops a commit, and every target there. */
  ghost predicate Unhindered(orig: Files, names: seq<string>, faults: set<Op>) { !HasCause(orig, names, faults) }

  /** Where a commit that failed leaves the disk; what it says of the targets supposes that no file is replaced twice. */
  ghost predicate CommitFailed(orig: Files, previews: seq<Replacement>, h: Files, faults: set<Op>, phase: Phase)
  {
    && TurnFailed(orig, previews, orig, h, faults, phase)
    && (OneEach(previews) && RolledBack(orig, Names(previews), h) ==> Recovered(h) == h - {JournalFile})
  }

  /** Where a commit that completed leaves the disk: what is left over is what could not be removed. */
  ghost predicate CommitDone(orig: Files, previews: seq<Replacement>, h: Files, faults: set<Op>)
  {
    && Cleaning(orig, previews, h)
    && (HasJournal(h) <==> Remove(JournalFile) in faults)
    && (forall n :: n in Names(previews) && Backup(n) in h ==> Remove(Backup(n)) in faults)
    && SameStaged(orig, h)
  }

  /** Where crashes would do harm: each target goes through its window, and the clean-up through a mixed state. */
  ghost predicate Exposed(orig: Files, previews: seq<Replacement>, trail: seq<Files>, begun: nat, cleanAt: nat, faults: set<Op>)
  {
    && (forall f :: f in previews ==> ThroughWindow(orig, trail, begun, f.name))
    && (|previews| >= 2 && Remove(Backup(previews[0].name)) !in faults ==> ThroughMix(orig, previews, trail, cleanAt))
  }

  function Begun(orig: Files): Files { orig[JournalFile := File(Journal(false, []), PRIVATE)] }

  /** The disk after the first i turns. */
  function AfterTurns(h: Files, previews: seq<Replacement>, i: nat): Files
    requires i <= |previews|
  {
    if i == 0 then h else AfterTurn(AfterTurns(h, previews, i - 1), previews, i - 1)
  }

  /** The disk a commit without any fault leaves, whether or not a file is replaced twice. */
  function Finished(orig: Files, previews: seq<Replacement>): Files
  {
    Unbacked(AfterTurns(Begun(orig), previews, |previews|), Names(previews)) - {JournalFile}
  }

  /** The states of a commit: pending from `begun` on, in clean-up from `cleanAt` on. */
  ghost predicate InPhases(orig: Files, previews: seq<Replacement>, trail: seq<Files>, begun: nat, cleanAt: nat)
    requires begun <= cleanAt <= |trail|
  {
    && (forall k :: begun <= k < cleanAt ==> Pending(orig, Names(previews), trail[k]))
    && (forall k :: cleanAt <= k < |trail| ==> Cleaning(orig, previews, trail[k]))
  }

  /**
   The whole commit.  It completes exactly when no fault stops it and all targets
   are there; then it has done its script, in order, and without any fault left the
   finished disk.  Where no file is replaced twice, states of the trail from `begun`
   up to `cleanAt` are pending and those from `cleanAt` on are in clean-up.
   */
  method Commit(disk: Disk, previews: seq<Replacement>)
    returns (r: Result<(), Phase>, ghost begun: nat, ghost cleanAt: nat, ghost stamps: seq<Stamp>)
    requires disk.Valid()
    modifies disk
    ensures disk.Valid() && old(disk.trail) <= disk.trail && old(disk.events) <= disk.events
    ensures |old(disk.trail)| <= begun <= cleanAt <= |disk.trail|
    ensures forall k :: |old(disk.trail)| <= k < begun ==> disk.trail[k] == old(disk.files)
    ensures OneEach(previews) ==> InPhases(old(disk.files), previews, disk.trail, begun, cleanAt)
    ensures var faults := Faults(disk.events, |old(disk.events)|);
      && (r.Ok? <==> Unhindered(old(disk.files), Names(previews), faults))
      && (r.Ok? && faults == {} ==> disk.files == Finished(old(disk.files), previews))
      && (r.Err? ==> Blamed(old(disk.files), Names(previews), faults, r.error))
      && (begun == |disk.trail| ==> r == Err(JournalPhase) && disk.files == old(disk.files))
      && (begun < |disk.trail| && r.Err? ==>
            cleanAt == |disk.trail| && CommitFailed(old(disk.files), previews, disk.files, faults, r.error))
      && (r.Ok? && OneEach(previews) ==> CommitDone(old(disk.files), previews, disk.files, faults))
      && (r.Ok? && OneEach(previews) ==> Exposed(old(disk.files), previews, disk.trail, begun, cleanAt, faults))
    ensures r.Ok? ==> |stamps| == |previews|
    ensures r.Ok? ==> Ops(disk.events) == Ops(old(disk.events)) + Script(old(disk.files), previews, stamps)
  {
    hide IsRun, Faults, Ops, TurnFailed, Script, Turns, CleanUpOps, HasCause, Blamed, AfterTurns, Unbacked, SameTargets, AllTurned;
    hide CommitFailed, CommitDone, Exposed, OnlyStale, SameStaged, Unhindered, OneEach, InPhases, PendingSince, Midway, CleanedUp;
    ghost var orig, names, e0, t0 := disk.files, Names(previews), disk.events, disk.trail;
    stamps := [];
    var started := disk.Do(WriteJournal(false, []));
    ghost var e1, t1 := disk.events, disk.trail;
    FaultsGrow(|e0|, e0, e1);
    OpsGrow(e0, e1);
    begun, cleanAt := |t1|, |t1|;
    if !started {
      NeverBegun(orig, previews, Faults(e1, |e0|), t1);
      return Err(JournalPhase), begun, cleanAt, stamps;
    }
    begun := |t0|;
    FirstMidway(orig, previews, disk.files, t0, t1);
    var stopped;
    stopped, stamps := ReplaceAll(disk, previews, orig);
    ghost var h, e2, t2 := disk.files, disk.events, disk.trail;
    FaultsJoin(|e0|, e1, e2);
    PendingJoinIf(orig, previews, t0, t1, t2);
    cleanAt := |t2|;
    assert Faults(e1, |e0|) == {} && {} + Faults(e2, |e1|) == Faults(e2, |e1|);
    if stopped.Some? {
      Fails(orig, previews, h, Faults(e2, |e0|), stopped.value, t2, begun);
      return Err(stopped.value), begun, cleanAt, stamps;
    }
    MidwayOf(orig, previews, |previews|, h, t2, |t1|);
    CleanUp(disk, previews, orig);
    FaultsJoin(|e0|, e2, disk.events);
    Completes(orig, previews, h, disk.files, Faults(e2, |e0|), Faults(disk.events, |e2|), t0, t1, t2, disk.trail);
    ScriptDone(orig, previews, stamps, Ops(e0));
    NoFaultAtAll(Faults(e2, |e0|), Faults(disk.events, |e2|));
    r := Ok(());
  }

  lemma ScriptDone(orig: Files, previews: seq<Replacement>, stamps: seq<Stamp>, ops: seq<Op>)
    requires |stamps| == |previews|
    ensures (ops + [WriteJournal(false, [])] + Turns(orig, previews, stamps)) + CleanUpOps(previews)
         == ops + Script(orig, previews, stamps)
  {
    hide Turns, CleanUpOps;
  }

  lemma NoFaultAtAll(first: set<Op>, second: set<Op>)
    ensures first + second == {} ==> second == {}
  {
    assert second <= first + second;
  }

  /** All turns are done: what holds where no file is replaced twice. */
  ghost predicate AllTurned(orig: Files, previews: seq<Replacement>, i: nat, h: Files, trail: seq<Files>, from: nat)
    requires i <= |previews|
  {
    Midway(orig, previews, h, i, i, i) && AllThroughWindow(orig, previews, i, trail, from)
  }

  /** Turn after turn, until one fails. */
  method ReplaceAll(disk: Disk, previews: seq<Replacement>, ghost orig: Files)
    returns (stopped: Option<Phase>, ghost stamps: seq<Stamp>)
    requires disk.Valid() && SameStaged(orig, disk.files) && SameTargets(orig, disk.files)
    requires OneEach(previews) ==> Midway(orig, previews, disk.files, 0, 0, 0)
    requires HasJournal(disk.files)
    modifies disk
    ensures disk.Valid() && old(disk.trail) <= disk.trail && old(disk.events) <= disk.events
    ensures stopped.Some? ==>
      TurnFailed(orig, previews, orig, disk.files, Faults(disk.events, |old(disk.events)|), stopped.value)
    ensures stopped.None? ==> disk.files == AfterTurns(old(disk.files), previews, |previews|)
    ensures stopped.None? ==> HasJournal(disk.files) && forall n :: n in Names(previews) ==> Plain(n) in orig
    ensures stopped.None? ==> OnlyStale(Faults(disk.events, |old(disk.events)|)) && SameStaged(orig, disk.files)
    ensures stopped.None? ==> |stamps| == |previews| && Ops(disk.events) == Ops(old(disk.events)) + Turns(orig, previews, stamps)
    ensures stopped.None? && OneEach(previews) ==>
      AllTurned(orig, previews, |previews|, disk.files, disk.trail, |old(disk.trail)|)
    ensures OneEach(previews) ==> PendingSince(orig, Names(previews), disk.trail, |old(disk.trail)|)
  {
    hide IsRun, Midway, Pending, PendingSince, Faults, Ops, TurnFailed, TurnDone, Turn, Blamed;
    hide ThroughWindow, OnlyStale, SameStaged, AllTurned, TurnKept, OneEach, SameTargets, AfterTurn;
    ghost var names, start, e0, t0 := Names(previews), disk.files, disk.events, disk.trail;
    var listed: seq<Path> := [];
    ghost var faults: set<Op> := {};
    stamps := [];
    NoTurns(orig, previews, start, e0, t0);
    for i := 0 to |previews|
      invariant disk.Valid() && t0 <= disk.trail && e0 <= disk.events
      invariant listed == Backups(names[..i]) && disk.files == AfterTurns(start, previews, i)
      invariant SameStaged(orig, disk.files) && SameTargets(orig, disk.files) && HasJournal(disk.files)
      invariant forall j :: 0 <= j < i ==> Plain(names[j]) in orig
      invariant faults == Faults(disk.events, |e0|) && OnlyStale(faults)
      invariant |stamps| == i && Ops(disk.events) == Ops(e0) + Turns(orig, previews, stamps)
      invariant OneEach(previews) ==> PendingSince(orig, names, disk.trail, |t0|)
      invariant OneEach(previews) ==> AllTurned(orig, previews, i, disk.files, disk.trail, |t0|)
    {
      ghost var h, events, trail := disk.files, disk.events, disk.trail;
      MidwayOf(orig, previews, i, h, trail, |t0|);
      var step;
      ghost var stamp;
      step, stamp := ReplaceOne(disk, previews, i, listed, orig);
      FaultsJoin(|e0|, events, disk.events);
      PendingJoinIf(orig, previews, t0, trail, disk.trail);
      if step.Failed? {
        FailsLater(orig, previews, h, disk.files, faults, Faults(disk.events, |events|), step.phase);
        return Some(step.phase), stamps;
      }
      JournalStays(h, previews, i);
      TurnKeeps(orig, h, disk.files, previews[i].name, faults, Faults(disk.events, |events|));
      OneMoreTurned(orig, previews, i, h, disk.files, t0, trail, disk.trail);
      TurnsGrow(orig, previews, Ops(e0), stamps, stamp);
      faults, stamps := Faults(disk.events, |e0|), stamps + [stamp];
      BackupsGrow(names, i);
      listed := listed + [Backup(previews[i].name)];
    }
    return None, stamps;
  }

  lemma JournalStays(h: Files, previews: seq<Replacement>, i: nat)
    requires i < |previews| && HasJournal(h)
    ensures HasJournal(AfterTurn(h, previews, i))
  {
  }

  lemma MidwayOf(orig: Files, previews: seq<Replacement>, i: nat, h: Files, trail: seq<Files>, from: nat)
    requires i <= |previews| && (OneEach(previews) ==> AllTurned(orig, previews, i, h, trail, from))
    ensures OneEach(previews) ==> Midway(orig, previews, h, i, i, i)
  {
    hide OneEach, Midway;
  }

  lemma OneMoreTurned(orig: Files, previews: seq<Replacement>, i: nat, h: Files, g: Files,
                      t0: seq<Files>, trail: seq<Files>, more: seq<Files>)
    requires t0 <= trail <= more && i < |previews|
    requires OneEach(previews) ==> AllTurned(orig, previews, i, h, trail, |t0|)
    requires OneEach(previews) ==> TurnKept(orig, previews, i, g, more, |trail|)
    ensures OneEach(previews) ==> AllTurned(orig, previews, i + 1, g, more, |t0|)
  {
    hide OneEach, Midway, ThroughWindow, AllThroughWindow;
    if OneEach(previews) {
      WindowsStay(orig, previews, i, t0, trail, more);
    }
  }

  /** Crashes at some states of the trail would catch each of the first i targets in its window. */
  ghost predicate AllThroughWindow(orig: Files, previews: seq<Replacement>, i: nat, trail: seq<Files>, from: nat)
    requires i <= |previews|
  {
    forall j :: 0 <= j < i ==> ThroughWindow(orig, trail, from, previews[j].name)
  }

  lemma NoTurns(orig: Files, previews: seq<Replacement>, h: Files, events: seq<Event>, trail: seq<Files>)
    ensures Backups(Names(previews)[..0]) == [] && Faults(events, |events|) == {} && OnlyStale({})
    ensures Turns(orig, previews, []) == [] && Ops(events) + [] == Ops(events)
    ensures PendingSince(orig, Names(previews), trail, |trail|)
    ensures Midway(orig, previews, h, 0, 0, 0) ==> AllTurned(orig, previews, 0, h, trail, |trail|)
  {
    hide Midway;
  }

  lemma NeverBegun(orig: Files, previews: seq<Replacement>, faults: set<Op>, trail: seq<Files>)
    requires WriteJournal(false, []) in faults
    ensures !Unhindered(orig, Names(previews), faults) && InPhases(orig, previews, trail, |trail|, |trail|)
    ensures faults == {WriteJournal(false, [])} ==> Blamed(orig, Names(previews), faults, JournalPhase)
  {
    assert PhaseOf(WriteJournal(false, [])) == Some(JournalPhase);
    assert Stops(WriteJournal(false, []));
  }

  lemma FirstMidway(orig: Files, previews: seq<Replacement>, h: Files, t0: seq<Files>, trail: seq<Files>)
    requires h == Begun(orig) && trail == t0 + [h]
    ensures Midway(orig, previews, h, 0, 0, 0) && PendingSince(orig, Names(previews), trail, |t0|)
    ensures SameStaged(orig, h) && SameTargets(orig, h) && HasJournal(h) && OnlyStale({})
  {
    assert Names(previews)[..0] == [];
    forall n ensures Undisturbed(orig, h, n) {
    }
    assert Listed(h) == {};
    assert Pending(orig, Names(previews), h);
  }

  lemma Fails(orig: Files, previews: seq<Replacement>, h: Files, faults: set<Op>, phase: Phase, trail: seq<Files>, begun: nat)
    requires TurnFailed(orig, previews, orig, h, faults, phase) && begun <= |trail|
    requires OneEach(previews) ==> PendingSince(orig, Names(previews), trail, begun)
    ensures !Unhindered(orig, Names(previews), faults) && CommitFailed(orig, previews, h, faults, phase)
    ensures Blamed(orig, Names(previews), faults, phase)
    ensures OneEach(previews) ==> InPhases(orig, previews, trail, begun, |trail|)
  {
    hide Pending, RolledBack, OneEach;
    BlamedForCause(orig, Names(previews), faults, phase);
    if OneEach(previews) && RolledBack(orig, Names(previews), h) {
      RolledBackRecovery(orig, Names(previews), h);
    }
  }

  lemma FailsLater(orig: Files, previews: seq<Replacement>, h: Files, g: Files, first: set<Op>, second: set<Op>, phase: Phase)
    requires SameStaged(orig, h) && TurnFailed(orig, previews, h, g, second, phase) && OnlyStale(first)
    ensures TurnFailed(orig, previews, orig, g, first + second, phase)
  {
    hide Restored, OneEach;
    FaultIgnored(orig, previews, h, g, first, second, phase);
    assert LeavesStaged(orig, g) <==> LeavesStaged(h, g);
  }

  lemma TurnKeeps(orig: Files, h: Files, g: Files, n: string, first: set<Op>, second: set<Op>)
    requires SameStaged(orig, h) && TurnDone(h, g, n, second) && OnlyStale(first)
    ensures SameStaged(orig, g) && OnlyStale(first + second)
  {
  }

  lemma WindowsStay(orig: Files, previews: seq<Replacement>, i: nat, t0: seq<Files>, trail: seq<Files>, more: seq<Files>)
    requires i < |previews| && t0 <= trail <= more && AllThroughWindow(orig, previews, i, trail, |t0|)
    requires ThroughWindow(orig, more, |trail|, previews[i].name)
    ensures AllThroughWindow(orig, previews, i + 1, more, |t0|)
  {
    hide InWindow;
    forall j | 0 <= j < i ensures ThroughWindow(orig, more, |t0|, previews[j].name) {
      WindowStays(orig, t0, trail, more, previews[j].name);
    }
  }

  lemma TurnsGrow(orig: Files, previews: seq<Replacement>, ops: seq<Op>, stamps: seq<Stamp>, stamp: Stamp)
    requires |stamps| < |previews|
    ensures ops + Turns(orig, previews, stamps + [stamp])
         == (ops + Turns(orig, previews, stamps)) + Turn(orig, previews, |stamps|, stamp)
  {
    hide Turn;
    assert (stamps + [stamp])[..|stamps|] == stamps;
  }

  lemma Completes(orig: Files, previews: seq<Replacement>, h: Files, g: Files, first: set<Op>, second: set<Op>,
                  t0: seq<Files>, t1: seq<Files>, trail: seq<Files>, more: seq<Files>)
    requires t0 <= t1 <= trail <= more && SameStaged(orig, h) && SameStaged(h, g)
    requires OnlyStale(first) && (forall op :: op in second ==> !Stops(op))
    requires forall n :: n in Names(previews) ==> Plain(n) in orig
    requires HasJournal(g) <==> Remove(JournalFile) in second
    requires OneEach(previews) ==> CleanedUp(orig, previews, g, second, more, |trail|)
    requires OneEach(previews) ==> AllTurned(orig, previews, |previews|, h, trail, |t1|)
    requires OneEach(previews) ==> PendingSince(orig, Names(previews), trail, |t0|)
    ensures Unhindered(orig, Names(previews), first + second)
    ensures OneEach(previews) ==> CommitDone(orig, previews, g, first + second)
    ensures OneEach(previews) ==> Exposed(orig, previews, more, |t0|, |trail|, first + second)
    ensures OneEach(previews) ==> InPhases(orig, previews, more, |t0|, |trail|)
  {
    hide InWindow, ThroughMix, Pending, Cleaning, OneEach, Midway;
    if OneEach(previews) {
      AllExposed(orig, previews, t0, t1, trail, more);
      forall k | |t0| <= k < |trail| ensures Pending(orig, Names(previews), more[k]) {
        assert more[k] == trail[k];
      }
    }
  }

  lemma AllExposed(orig: Files, previews: seq<Replacement>, t0: seq<Files>, t1: seq<Files>, trail: seq<Files>, more: seq<Files>)
    requires t0 <= t1 <= trail <= more && AllThroughWindow(orig, previews, |previews|, trail, |t1|)
    ensures forall f :: f in previews ==> ThroughWindow(orig, more, |t0|, f.name)
  {
    hide InWindow;
    forall f | f in previews ensures ThroughWindow(orig, more, |t0|, f.name) {
      var j :| 0 <= j < |previews| && previews[j] == f;
      var k :| |t1| <= k < |trail| && InWindow(orig, trail[k], previews[j].name);
      assert more[k] == trail[k];
    }
  }
}
