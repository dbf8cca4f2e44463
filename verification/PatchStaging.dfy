/** Staging the new bytes of one file: a temporary file is created, written and given the old mode. */
module PatchStaging {
  import opened Wrappers
  import opened PatchDisk
  import opened PatchStates

  /** `trail` grew from length `from` by states that differ from h at staged files only. */
  ghost predicate StagedSince(h: Files, trail: seq<Files>, from: nat)
  {
    from <= |trail| && forall k :: from <= k < |trail| ==> SameButStaged(h, trail[k])
  }

  /** Removing a staged file failed. */
  ghost predicate StuckTemp(faults: set<Op>) { exists id :: Remove(Staged(id)) in faults }

  /** h with exactly one staged file more. */
  ghost predicate OneStaged(h: Files, g: Files, id: nat)
  {
    Staged(id) !in h && Staged(id) in g && g - {Staged(id)} == h
  }

  /** A fault that stops a commit; the others are ignored where they happen. */
  predicate Stops(op: Op) { !(op.Remove? && (op.path.Backup? || op.path.JournalFile?)) }

  /** The phase a fault of the operation fails the commit in; a fault of any other operation is passed over where it happens. */
  function PhaseOf(op: Op): Option<Phase>
  {
    match op
    case Resolve(_) => Some(Validate)
    case Stat(_) => Some(Validate)
    case CreateTemp(_) => Some(Stage)
    case WritePart(_, _) => Some(Stage)
    case WriteTemp(_, _) => Some(Stage)
    case Chmod(_, _) => Some(Stage)
    case WriteJournal(_, _) => Some(JournalPhase)
    case Rename(Plain(_), _) => Some(BackupPhase)
    case Rename(Staged(_), _) => Some(Replace)
    case _ => None
  }

  /** The phase named is that of the faults, none of which belongs to another; or a file to be validated was missing. */
  ghost predicate Blames(faults: set<Op>, phase: Phase, missing: bool)
  {
    && (forall op :: op in faults && PhaseOf(op).Some? ==> PhaseOf(op) == Some(phase))
    && ((exists op :: op in faults && PhaseOf(op) == Some(phase)) || (phase == Validate && missing))
  }

  /** How staging fails: for a cause of the phase named, and leaving nothing behind unless the staged file could not be removed. */
  ghost predicate StageFailed(h: Files, g: Files, f: Replacement, faults: set<Op>, phase: Phase)
  {
    && (phase == Validate || phase == Stage)
    && !StuckBackup(faults)
    && Blames(faults, phase, Plain(f.name) !in h)
    && (if StuckTemp(faults) then exists id :: OneStaged(h, g, id) else g == h)
  }

  /** Stages the new bytes of one file under its old mode. */
  method StageOne(disk: Disk, f: Replacement) returns (r: Result<nat, Phase>, ghost part: string)
    requires disk.Valid()
    modifies disk
    ensures disk.Valid() && old(disk.trail) <= disk.trail && old(disk.events) <= disk.events
    ensures StagedSince(old(disk.files), disk.trail, |old(disk.trail)|) && SameButStaged(old(disk.files), disk.files)
    ensures r.Ok? ==> Plain(f.name) in old(disk.files) && OneStaged(old(disk.files), disk.files, r.value)
    ensures r.Ok? ==> disk.files[Staged(r.value)] == File(Bytes(f.data), old(disk.files)[Plain(f.name)].mode)
    ensures r.Ok? ==> Faults(disk.events, |old(disk.events)|) == {}
    ensures r.Ok? ==> var mode := old(disk.files)[Plain(f.name)].mode;
      Ops(disk.events) == Ops(old(disk.events)) + StageOps(f, Stamp(r.value, part), mode)
    ensures r.Err? ==> StageFailed(old(disk.files), disk.files, f, Faults(disk.events, |old(disk.events)|), r.error)
  {
    hide IsRun;
    part := "";
    ghost var e0, h := disk.events, disk.files;
    var resolves := disk.Do(Resolve(f.name));
    ghost var e1 := disk.events;
    FaultsGrow(|e0|, e0, e1);
    if !resolves {
      assert Resolve(f.name) in Faults(e1, |e0|);
      return Err(Validate), part;
    }
    var found := disk.Do(Stat(Plain(f.name)));
    ghost var e2 := disk.events;
    FaultsGrow(|e0|, e1, e2);
    if !found {
      assert Plain(f.name) in h ==> Stat(Plain(f.name)) in Faults(e2, |e0|);
      return Err(Validate), part;
    }
    var mode := disk.files[Plain(f.name)].mode;
    r, part := StageBytes(disk, f, mode);
    FaultsJoin(|e0|, e2, disk.events);
    OpsGrow(e0, e1);
    OpsGrow(e1, e2);
    assert Faults(e2, |e0|) == {};
    assert {} + Faults(disk.events, |e2|) == Faults(disk.events, |e2|);
  }

  /** Creates the staged file, writes it and sets its mode; when that fails, removes it. */
  method StageBytes(disk: Disk, f: Replacement, mode: nat) returns (r: Result<nat, Phase>, ghost part: string)
    requires disk.Valid()
    modifies disk
    ensures disk.Valid() && old(disk.trail) <= disk.trail && old(disk.events) <= disk.events
    ensures StagedSince(old(disk.files), disk.trail, |old(disk.trail)|)
    ensures r.Ok? ==> OneStaged(old(disk.files), disk.files, r.value)
    ensures r.Ok? ==> disk.files[Staged(r.value)] == File(Bytes(f.data), mode)
    ensures r.Ok? ==> Faults(disk.events, |old(disk.events)|) == {}
    ensures r.Ok? ==> Ops(disk.events) == Ops(old(disk.events)) + StageOps(f, Stamp(r.value, part), mode)[2..]
    ensures r.Err? ==> StageFailed(old(disk.files), disk.files, f, Faults(disk.events, |old(disk.events)|), r.error)
  {
    hide IsRun;
    hide Faults, Ops, StageFailed, SameButStaged;
    ghost var h, e0, t0 := disk.files, disk.events, disk.trail;
    part := "";
    var id, created := disk.Create();
    ghost var e1, t1 := disk.events, disk.trail;
    FaultsGrow(|e0|, e0, e1);
    OpsGrow(e0, e1);
    CreatedOne(h, disk.files, id, t0, t1, created);
    if !created {
      assert {} + {CreateTemp(id)} == {CreateTemp(id)} == {CreateTemp(id)} + {};
      FailedBy(h, h, f, CreateTemp(id), {});
      return Err(Stage), part;
    }
    var written;
    written, part := FillTemp(disk, id, f.data, mode, h);
    ghost var e2, t2 := disk.events, disk.trail;
    FaultsJoin(|e0|, e1, e2);
    StagedJoin(h, t0, t1, t2);
    if !written {
      ghost var cause :| IsTempOp(cause, id) && Faults(e2, |e1|) == {cause};
      assert {} + {cause} == {cause};
      assert Faults(e2, |e0|) == {cause};
      Discard(disk, id);
      FaultsJoin(|e0|, e2, disk.events);
      FailedBy(h, disk.files, f, cause, Faults(disk.events, |e2|));
      DiscardedOne(h, t2[|t2| - 1], disk.files, id, t0, t2, disk.trail);
      return Err(Stage), part;
    }
    return Ok(id), part;
  }

  lemma CreatedOne(h: Files, g: Files, id: nat, t0: seq<Files>, trail: seq<Files>, created: bool)
    requires Staged(id) !in h && g == (if created then h[Staged(id) := File(Bytes(""), PRIVATE)] else h)
    requires trail == t0 + [g]
    ensures StagedSince(h, trail, |t0|) && (created ==> OneStaged(h, g, id))
  {
  }

  lemma DiscardedOne(h: Files, k: Files, g: Files, id: nat, t0: seq<Files>, trail: seq<Files>, more: seq<Files>)
    requires OneStaged(h, k, id) && (g == k || g == k - {Staged(id)})
    requires t0 <= trail && StagedSince(h, trail, |t0|) && more == trail + [g]
    ensures StagedSince(h, more, |t0|)
  {
    assert SameButStaged(h, g);
  }

  lemma FailedBy(h: Files, g: Files, f: Replacement, cause: Op, faults: set<Op>)
    requires PhaseOf(cause) == Some(Stage)
    requires (g == h && faults == {}) || exists id :: OneStaged(h, g, id) && faults == {Remove(Staged(id))}
    ensures StageFailed(h, g, f, {cause} + faults, Stage)
  {
    hide OneStaged;
    if !(g == h && faults == {}) {
      var id :| OneStaged(h, g, id) && faults == {Remove(Staged(id))};
      assert Remove(Staged(id)) in {cause} + faults;
    }
    assert cause in {cause} + faults;
  }

  /** Removes a staged file. */
  method Discard(disk: Disk, id: nat)
    requires disk.Valid() && Staged(id) in disk.files
    modifies disk
    ensures disk.Valid() && old(disk.trail) <= disk.trail && old(disk.events) <= disk.events
    ensures disk.trail == old(disk.trail) + [disk.files]
    ensures var faults := Faults(disk.events, |old(disk.events)|);
      || (faults == {} && disk.files == old(disk.files) - {Staged(id)})
      || (faults == {Remove(Staged(id))} && disk.files == old(disk.files))
  {
    hide IsRun;
    ghost var e0 := disk.events;
    var _ := disk.Do(Remove(Staged(id)));
    FaultsGrow(|e0|, e0, disk.events);
    assert {} + {Remove(Staged(id))} == {Remove(Staged(id))};
  }

  /** Writes a staged file, which may stop anywhere, and sets its mode. */
  method FillTemp(disk: Disk, id: nat, data: string, mode: nat, ghost h: Files) returns (ok: bool, ghost part: string)
    requires disk.Valid() && OneStaged(h, disk.files, id)
    modifies disk
    ensures disk.Valid() && old(disk.trail) <= disk.trail && old(disk.events) <= disk.events
    ensures StagedSince(h, disk.trail, |old(disk.trail)|) && OneStaged(h, disk.files, id)
    ensures ok ==> disk.files[Staged(id)] == File(Bytes(data), mode) && Faults(disk.events, |old(disk.events)|) == {}
    ensures ok ==> Ops(disk.events) == Ops(old(disk.events)) + [WritePart(id, part), WriteTemp(id, data), Chmod(id, mode)]
    ensures !ok ==> exists op :: IsTempOp(op, id) && Faults(disk.events, |old(disk.events)|) == {op}
  {
    hide IsRun, Faults, Ops, OneStaged, SameButStaged, After;
    ghost var e0, t0 := disk.events, disk.trail;
    var length: int := *;
    var cut := if 0 <= length < |data| then data[..length] else data;
    part := cut;
    ok := ChangeTemp(disk, id, WritePart(id, cut), h);
    ghost var e1, t1 := disk.events, disk.trail;
    if !ok {
      return;
    }
    ok := ChangeTemp(disk, id, WriteTemp(id, data), h);
    ghost var e2, t2 := disk.events, disk.trail;
    FaultsJoin(|e0|, e1, e2);
    StagedJoin(h, t0, t1, t2);
    if !ok {
      assert IsTempOp(WriteTemp(id, data), id);
      assert {} + {WriteTemp(id, data)} == {WriteTemp(id, data)};
      return;
    }
    ok := ChangeTemp(disk, id, Chmod(id, mode), h);
    FaultsJoin(|e0|, e2, disk.events);
    StagedJoin(h, t0, t2, disk.trail);
    if !ok {
      assert IsTempOp(Chmod(id, mode), id);
      assert {} + {Chmod(id, mode)} == {Chmod(id, mode)};
    }
  }

  lemma StagedJoin(h: Files, t0: seq<Files>, trail: seq<Files>, more: seq<Files>)
    requires t0 <= trail <= more && StagedSince(h, trail, |t0|) && StagedSince(h, more, |trail|)
    ensures StagedSince(h, more, |t0|)
  {
    hide SameButStaged;
    forall k | |t0| <= k < |more| ensures SameButStaged(h, more[k]) {
      if k < |trail| {
        assert more[k] == trail[k];
      }
    }
  }

  predicate IsTempOp(op: Op, id: nat)
  {
    (op.Chmod? || op.WritePart? || op.WriteTemp?) && op.id == id
  }

  /** What stands at a staged name after an operation on it. */
  function TempAfter(f: File, op: Op): File
  {
    match op
    case WritePart(_, part) => File(Bytes(part), f.mode)
    case WriteTemp(_, data) => File(Bytes(data), f.mode)
    case Chmod(_, mode) => File(f.content, mode)
    case _ => f
  }

  method ChangeTemp(disk: Disk, id: nat, op: Op, ghost h: Files) returns (ok: bool)
    requires disk.Valid() && OneStaged(h, disk.files, id) && IsTempOp(op, id)
    modifies disk
    ensures disk.Valid() && old(disk.trail) <= disk.trail && old(disk.events) <= disk.events
    ensures StagedSince(h, disk.trail, |old(disk.trail)|)
    ensures Staged(id) in old(disk.files) && OneStaged(h, disk.files, id) && Staged(id) in disk.files
    ensures ok ==> disk.files[Staged(id)] == TempAfter(old(disk.files)[Staged(id)], op)
    ensures Faults(disk.events, |old(disk.events)|) == if ok then {} else {op}
    ensures Ops(disk.events) == Ops(old(disk.events)) + [op]
  {
    hide IsRun;
    ghost var e0 := disk.events;
    ok := disk.Do(op);
    FaultsGrow(|e0|, e0, disk.events);
    OpsGrow(e0, disk.events);
    assert {} + {op} == {op};
  }
}
