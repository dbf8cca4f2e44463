/**
 Recovery after a crash: every backup the journal lists is put back over its
 target, then the journal is removed.
 */
module PatchRecovery {
  import opened Ordering
  import opened PatchDisk

  /** The backups the journal on disk lists. */
  ghost function Listed(h: Files): set<Path>
  {
    if HasJournal(h) then set b | b in h[JournalFile].content.backups else {}
  }

  /** A journal as `ApplyAtomic` writes it: it lists backup names only. */
  ghost predicate WellFormed(h: Files) { forall b :: b in Listed(h) ==> b.Backup? }

  /** The file `strings.TrimSuffix` finds behind a backup name. */
  function TargetOf(b: Path): Path { if b.Backup? then Plain(b.of) else b }

  /** A plain file whose listed backup exists. */
  ghost predicate Recoverable(h: Files, p: Path)
  {
    p.Plain? && Backup(p.name) in Listed(h) && Backup(p.name) in h
  }

  /** Every listed backup that exists is put back over its target, and the journal is gone. */
  ghost function Recovered(h: Files): Files
  {
    if !HasJournal(h) then h
    else
      var targets := set b | b in Listed(h) && b in h :: TargetOf(b);
      map p | p in (h.Keys + targets) - Listed(h) - {JournalFile} && (p in h || Recoverable(h, p)) ::
        if Recoverable(h, p) then h[Backup(p.name)] else h[p]
  }

  /** What recovery leaves at each name. */
  lemma RecoveredAt(h: Files, p: Path)
    requires HasJournal(h) && WellFormed(h)
    ensures var r := Recovered(h);
      if p.Plain? then
        if Recoverable(h, p) then p in r && r[p] == h[Backup(p.name)]
        else (p in r <==> p in h) && (p in h ==> r[p] == h[p])
      else if p.JournalFile? || p in Listed(h) then p !in r
      else (p in r <==> p in h) && (p in h ==> r[p] == h[p])
  {
    if Recoverable(h, p) {
      assert TargetOf(Backup(p.name)) == p;
    }
  }

  /** One successful operation of `Recover`. */
  ghost predicate RecoverStep(h: Files, g: Files)
  {
    && HasJournal(h)
    && (|| (exists b :: b in Listed(h) && b in h && g == h - {TargetOf(b)})
        || (exists b :: b in Listed(h) && b in h && g == (h - {b})[TargetOf(b) := h[b]])
        || (Listed(h) !! h.Keys && g == h - {JournalFile}))
  }

  lemma RecoverMoveKeeps(h: Files, g: Files, b: Path)
    requires WellFormed(h) && HasJournal(h) && b in Listed(h) && b in h
    requires g == h - {TargetOf(b)} || g == (h - {b})[TargetOf(b) := h[b]]
    ensures WellFormed(g) && HasJournal(g) && Listed(g) == Listed(h) && Recovered(g) == Recovered(h)
  {
    assert b.Backup? && Listed(g) == Listed(h);
    forall p ensures p in Recovered(h) <==> p in Recovered(g) {
      RecoveredAt(h, p);
      RecoveredAt(g, p);
    }
    forall p | p in Recovered(h) ensures Recovered(h)[p] == Recovered(g)[p] {
      RecoveredAt(h, p);
      RecoveredAt(g, p);
    }
  }

  lemma RecoverEndKeeps(h: Files)
    requires WellFormed(h) && HasJournal(h) && Listed(h) !! h.Keys
    ensures Recovered(h) == h - {JournalFile}
  {
    var g := h - {JournalFile};
    forall p ensures p in Recovered(h) <==> p in g {
      RecoveredAt(h, p);
    }
    forall p | p in g ensures Recovered(h)[p] == g[p] {
      RecoveredAt(h, p);
    }
  }

  /** However far recovery got, running it again from there reaches the same disk. */
  lemma RecoverStepKeeps(h: Files, g: Files)
    requires WellFormed(h) && RecoverStep(h, g)
    ensures WellFormed(g) && Recovered(g) == Recovered(h)
  {
    if Listed(h) !! h.Keys && g == h - {JournalFile} {
      RecoverEndKeeps(h);
    } else {
      var b :| b in Listed(h) && b in h && (g == h - {TargetOf(b)} || g == (h - {b})[TargetOf(b) := h[b]]);
      RecoverMoveKeeps(h, g, b);
    }
  }

  /** Any number of interrupted recoveries, one after the other: each state still leads to the same disk. */
  lemma {:induction false} RecoverRunKeeps(run: seq<Files>, i: nat)
    requires i < |run| && WellFormed(run[0])
    requires forall j :: 0 < j < |run| ==> run[j] == run[j - 1] || RecoverStep(run[j - 1], run[j])
    ensures WellFormed(run[i]) && Recovered(run[i]) == Recovered(run[0])
  {
    if i > 0 {
      RecoverRunKeeps(run, i - 1);
      if run[i] != run[i - 1] {
        RecoverStepKeeps(run[i - 1], run[i]);
      }
    }
  }

  /** Every state from number `from` on is the one before or one step of recovery away from it. */
  ghost predicate Linked(trail: seq<Files>, from: nat)
  {
    forall k :: from <= k < |trail| && k > 0 ==> trail[k] == trail[k - 1] || RecoverStep(trail[k - 1], trail[k])
  }

  lemma LinkedGrows(trail: seq<Files>, from: nat, g: Files)
    requires Linked(trail, from) && trail != []
    requires g == trail[|trail| - 1] || RecoverStep(trail[|trail| - 1], g)
    ensures Linked(trail + [g], from)
  {
    hide RecoverStep;
  }

  // ---------- The method ----------

  /** `Stat` failed on a backup that was there. */
  ghost predicate Missed(faults: set<Op>) { exists b :: Stat(b) in faults }

  /** Faults that do not stop recovery: a missed backup, and a target that could not be removed before it was replaced. */
  predicate Bearable(op: Op) { op.Stat? || (op.Remove? && op.path.Plain?) }

  /** The journal is the one recovery began with, and the disk still recovers like `start`. */
  ghost predicate StillRecovers(start: Files, h: Files, backups: seq<Path>)
  {
    && WellFormed(h) && HasJournal(h) && (forall b :: b in Listed(h) <==> b in backups)
    && Recovered(h) == Recovered(start)
  }

  /** The first i listed backups are gone, but for those a failing `Stat` missed. */
  ghost predicate Passed(h: Files, backups: seq<Path>, i: nat, faults: set<Op>)
    requires i <= |backups|
  {
    && (forall op :: op in faults ==> Bearable(op))
    && (forall b :: Stat(b) in faults ==> b in backups[..i])
    && (forall k :: 0 <= k < i && backups[k] in h ==> Stat(backups[k]) in faults)
    && (NoDuplicates(backups) ==> forall b :: Stat(b) in faults ==> b in h)
  }

  /** What one turn did about backup b: it was not there, it was missed, or it was moved over its target. */
  ghost predicate Turned(h: Files, g: Files, b: Path, faults: set<Op>)
  {
    || (b !in h && g == h && faults == {})
    || (b in h && g == h && faults == {Stat(b)})
    || (b in h && b.Backup? && g == (h - {b, TargetOf(b)})[TargetOf(b) := h[b]] && faults <= {Remove(TargetOf(b))})
  }

  lemma PassedStep(h: Files, g: Files, backups: seq<Path>, i: nat, faults: set<Op>, more: set<Op>)
    requires i < |backups| && Passed(h, backups, i, faults) && Turned(h, g, backups[i], more)
    requires forall b :: b in backups ==> b.Backup?
    ensures Passed(g, backups, i + 1, faults + more)
  {
    var b := backups[i];
    assert backups[..i + 1] == backups[..i] + [b];
    forall k | 0 <= k < i + 1 && backups[k] in g ensures Stat(backups[k]) in faults + more {
      if k < i {
        assert backups[k] in backups && backups[k] in h;
      }
    }
    if NoDuplicates(backups) {
      forall c | Stat(c) in faults + more ensures c in g {
        if Stat(c) in faults {
          var k :| 0 <= k < i && backups[..i][k] == c;
          assert backups[k] != b;
        }
      }
    }
  }

  /** Before the journal goes: nothing is left to put back unless it was missed. */
  lemma LastStep(start: Files, h: Files, g: Files, backups: seq<Path>, faults: set<Op>)
    requires StillRecovers(start, h, backups) && Passed(h, backups, |backups|, faults)
    requires g == h - {JournalFile}
    ensures !Missed(faults) ==> RecoverStep(h, g) && Recovered(g) == g == Recovered(start)
    ensures NoDuplicates(backups) && Missed(faults) ==> g != Recovered(start)
  {
    hide Recovered, RecoverStep;
    assert backups[..|backups|] == backups;
    if !Missed(faults) {
      assert Listed(h) !! h.Keys;
      RecoverEnds(h);
    } else if NoDuplicates(backups) {
      var b :| Stat(b) in faults;
      RecoveredAt(h, b);
    }
  }

  lemma RecoverEnds(h: Files)
    requires WellFormed(h) && HasJournal(h) && Listed(h) !! h.Keys
    ensures var g := h - {JournalFile}; RecoverStep(h, g) && Recovered(g) == g == Recovered(h)
  {
    RecoverEndKeeps(h);
  }

  /**
   Puts back every listed backup that `Stat` finds, then removes the journal.  On
   a journal as the commit writes it, recovery completes exactly when reading the
   journal, moving the backups and removing the journal do not fail; having
   completed, it has put everything back exactly when `Stat` missed nothing; and
   unless it completes having missed something, every state on the way is linked
   to the one before by a step of recovery.
   */
  method Recover(disk: Disk) returns (ok: bool)
    requires disk.Valid()
    modifies disk
    ensures disk.Valid() && old(disk.trail) <= disk.trail && old(disk.events) <= disk.events
    ensures !HasJournal(old(disk.files)) ==> !ok && disk.files == old(disk.files)
    ensures HasJournal(old(disk.files)) && WellFormed(old(disk.files)) ==>
      RecoversFrom(old(disk.files), disk.files, |old(disk.trail)|, disk.trail, Faults(disk.events, |old(disk.events)|), ok)
  {
    hide Recovered, RecoverStep, IsRun, Linked, StillRecovers, Passed, Turned, WellFormed;
    ghost var start, e0, t0 := disk.files, disk.events, |disk.trail|;
    ghost var sound := WellFormed(start);
    var readable := disk.Do(ReadJournal);
    FaultsGrow(|e0|, e0, disk.events);
    ghost var faults := Faults(disk.events, |e0|);
    if !readable {
      if HasJournal(start) && sound {
        NothingDone(start, old(disk.trail), faults);
      }
      return false;
    }
    var backups := disk.files[JournalFile].content.backups;
    if sound {
      assert faults == {};
      Begins(start, old(disk.trail), backups);
    }
    for i := 0 to |backups|
      invariant disk.Valid() && old(disk.trail) <= disk.trail && e0 <= disk.events && disk.trail != []
      invariant faults == Faults(disk.events, |e0|)
      invariant sound ==> StillRecovers(start, disk.files, backups) && Linked(disk.trail, t0)
      invariant sound ==> Passed(disk.files, backups, i, faults)
    {
      ghost var events, h, before := disk.events, disk.files, faults;
      var moved := PutBackListed(disk, backups, i, start, t0, sound);
      FaultsJoin(|e0|, events, disk.events);
      faults := Faults(disk.events, |e0|);
      if !moved {
        if sound {
          Stopped(start, disk.files, backups, t0, disk.trail, faults, Rename(backups[i], TargetOf(backups[i])));
        }
        return false;
      }
      if sound {
        OnlyBackups(start, h, backups);
        PassedStep(h, disk.files, backups, i, before, Faults(disk.events, |events|));
      }
    }
    ghost var h, events, trail := disk.files, disk.events, disk.trail;
    ok := disk.Do(Remove(JournalFile));
    FaultsGrow(|e0|, events, disk.events);
    if sound {
      OnlyBackups(start, h, backups);
      assert faults + {} == faults;
      Ends(start, h, disk.files, backups, t0, trail, faults, Faults(disk.events, |e0|), ok);
    }
  }

  /** What a run of `Recover` promises of a journal as the commit writes it. */
  ghost predicate RecoversFrom(start: Files, h: Files, from: nat, trail: seq<Files>, faults: set<Op>, ok: bool)
    requires HasJournal(start)
  {
    && (ok <==> forall op :: op in faults ==> Bearable(op))
    && (!ok || !Missed(faults) ==> Linked(trail, from) && Recovered(h) == Recovered(start))
    && (ok && NoDuplicates(start[JournalFile].content.backups) ==> (h == Recovered(start) <==> !Missed(faults)))
  }

  lemma NothingDone(start: Files, trail: seq<Files>, faults: set<Op>)
    requires HasJournal(start) && faults == {ReadJournal} && trail != [] && trail[|trail| - 1] == start
    ensures RecoversFrom(start, start, |trail|, trail + [start], faults, false)
  {
    hide Recovered;
  }

  lemma Begins(start: Files, trail: seq<Files>, backups: seq<Path>)
    requires HasJournal(start) && WellFormed(start) && backups == start[JournalFile].content.backups
    requires trail != [] && trail[|trail| - 1] == start
    ensures StillRecovers(start, start, backups) && Linked(trail + [start], |trail|) && Passed(start, backups, 0, {})
  {
    hide Recovered;
  }

  lemma OnlyBackups(start: Files, h: Files, backups: seq<Path>)
    requires StillRecovers(start, h, backups)
    ensures JournalFile in h && forall b :: b in backups ==> b.Backup?
  {
    hide Recovered;
  }

  lemma Stopped(start: Files, h: Files, backups: seq<Path>, from: nat, trail: seq<Files>, faults: set<Op>, op: Op)
    requires HasJournal(start) && StillRecovers(start, h, backups) && Linked(trail, from) && op in faults && !Bearable(op)
    ensures RecoversFrom(start, h, from, trail, faults, false)
  {
    hide Recovered, Linked;
  }

  lemma Ends(start: Files, h: Files, g: Files, backups: seq<Path>, from: nat, trail: seq<Files>,
             before: set<Op>, faults: set<Op>, ok: bool)
    requires HasJournal(start) && backups == start[JournalFile].content.backups
    requires StillRecovers(start, h, backups) && Passed(h, backups, |backups|, before)
    requires trail != [] && trail[|trail| - 1] == h && Linked(trail, from)
    requires g == if ok then h - {JournalFile} else h
    requires faults == before + (if ok then {} else {Remove(JournalFile)})
    ensures RecoversFrom(start, g, from, trail + [g], faults, ok)
  {
    hide Recovered, Linked, RecoverStep;
    if ok {
      LastStep(start, h, g, backups, faults);
      if !Missed(faults) {
        LinkedGrows(trail, from, g);
      }
    } else {
      assert Remove(JournalFile) in faults && !Bearable(Remove(JournalFile));
      LinkedGrows(trail, from, g);
    }
  }

  /** One turn: removes the target of a backup that `Stat` finds, then renames the backup over it. */
  method PutBackListed(disk: Disk, backups: seq<Path>, i: nat, ghost start: Files, ghost from: nat, ghost sound: bool)
    returns (moved: bool)
    requires disk.Valid() && i < |backups|
    requires sound ==> StillRecovers(start, disk.files, backups) && Linked(disk.trail, from)
    modifies disk
    ensures disk.Valid() && old(disk.trail) <= disk.trail && old(disk.events) <= disk.events
    ensures sound ==> StillRecovers(start, disk.files, backups) && Linked(disk.trail, from)
    ensures moved && sound ==>
      Turned(old(disk.files), disk.files, backups[i], Faults(disk.events, |old(disk.events)|))
    ensures !moved && sound ==> Rename(backups[i], TargetOf(backups[i])) in Faults(disk.events, |old(disk.events)|)
  {
    hide Recovered, RecoverStep, IsRun, Linked;
    ghost var h, e0 := disk.files, disk.events;
    var b := backups[i];
    ghost var trail := disk.trail;
    var found := disk.Do(Stat(b));
    FaultsGrow(|e0|, e0, disk.events);
    if sound {
      LinkedGrows(trail, from, h);
    }
    if !found {
      return true;
    }
    ghost var events := disk.events;
    trail := disk.trail;
    var _ := disk.Do(Remove(TargetOf(b)));
    FaultsGrow(|e0|, events, disk.events);
    ghost var g := disk.files;
    if sound {
      Moves(start, h, g, backups, i, trail, from);
    }
    events, trail := disk.events, disk.trail;
    moved := disk.Do(Rename(b, TargetOf(b)));
    FaultsGrow(|e0|, events, disk.events);
    if sound {
      Moves(start, g, disk.files, backups, i, trail, from);
      assert b.Backup?;
    }
  }

  /** A removal of the target, or the move of the backup over it, is a step of recovery. */
  lemma Moves(start: Files, h: Files, g: Files, backups: seq<Path>, i: nat, trail: seq<Files>, from: nat)
    requires i < |backups| && backups[i] in h && StillRecovers(start, h, backups)
    requires trail != [] && trail[|trail| - 1] == h && Linked(trail, from)
    requires var b := backups[i]; g == h || g == h - {TargetOf(b)} || g == (h - {b})[TargetOf(b) := h[b]]
    ensures StillRecovers(start, g, backups) && Linked(trail + [g], from) && backups[i].Backup?
  {
    hide Recovered, Linked;
    if g != h {
      RecoverMoveKeeps(h, g, backups[i]);
      assert RecoverStep(h, g);
    }
    LinkedGrows(trail, from, g);
  }
}
