/**
 The disk a patch is applied to: files by name, and operations that succeed, are
 impossible, or fail although they were possible.  A ghost log keeps every
 operation with its outcome, and a ghost trail every state a crash could leave.
 */
module PatchDisk {

  /**
   The names a transaction uses.  A target is a plain file; its backup name is an
   injective function of it and is no target itself, as are the journal and the
   staged files, whose names the system chooses.
   */
  datatype Path = Plain(name: string) | Backup(of: string) | Staged(id: nat) | JournalFile

  datatype Content = Bytes(data: string) | Journal(replacing: bool, backups: seq<Path>)

  datatype File = File(content: Content, mode: nat)

  type Files = map<Path, File>

  /** A file only its owner may read and write: 0600. */
  const PRIVATE: nat := 384

  predicate HasJournal(h: Files) { JournalFile in h && h[JournalFile].content.Journal? }

  datatype Op =
    | Resolve(name: string)
    | Stat(path: Path)
    | ReadJournal
    | WriteJournal(replacing: bool, backups: seq<Path>)
    | CreateTemp(id: nat)
    | WritePart(id: nat, part: string)   // what a write has put down when it is cut short
    | WriteTemp(id: nat, data: string)
    | Chmod(id: nat, mode: nat)
    | Remove(path: Path)
    | Rename(from: Path, to: Path)

  /** What became of an operation. */
  datatype Event = Did(op: Op) | Absent(op: Op) | Fault(op: Op)

  /** The operation finds on h what it needs. */
  predicate Possible(h: Files, op: Op)
  {
    match op
    case Stat(p) => p in h
    case ReadJournal => HasJournal(h)
    case CreateTemp(id) => Staged(id) !in h
    case WritePart(id, _) => Staged(id) in h
    case WriteTemp(id, _) => Staged(id) in h
    case Chmod(id, _) => Staged(id) in h
    case Remove(p) => p in h
    case Rename(from, _) => from in h
    case _ => true
  }

  /** The disk after an operation; the journal is written at once, and a rename replaces what stands at the new name. */
  function After(h: Files, op: Op): Files
    requires Possible(h, op)
  {
    match op
    case WriteJournal(replacing, backups) => h[JournalFile := File(Journal(replacing, backups), PRIVATE)]
    case CreateTemp(id) => h[Staged(id) := File(Bytes(""), PRIVATE)]
    case WritePart(id, part) => h[Staged(id) := File(Bytes(part), h[Staged(id)].mode)]
    case WriteTemp(id, data) => h[Staged(id) := File(Bytes(data), h[Staged(id)].mode)]
    case Chmod(id, mode) => h[Staged(id) := File(h[Staged(id)].content, mode)]
    case Remove(p) => h - {p}
    case Rename(from, to) => (h - {from})[to := h[from]]
    case _ => h
  }

  ghost predicate Happens(h: Files, e: Event, g: Files)
  {
    match e
    case Did(op) => Possible(h, op) && g == After(h, op)
    case Absent(op) => !Possible(h, op) && g == h
    case Fault(op) => Possible(h, op) && g == h
  }

  /** The states of a disk and the events between them. */
  ghost predicate IsRun(trail: seq<Files>, events: seq<Event>)
  {
    && |trail| == |events| + 1
    && forall k :: 0 <= k < |events| ==> Happens(trail[k], events[k], trail[k + 1])
  }

  lemma RunGrows(trail: seq<Files>, events: seq<Event>, e: Event, g: Files)
    requires IsRun(trail, events) && Happens(trail[|trail| - 1], e, g)
    ensures IsRun(trail + [g], events + [e])
  {
    hide Happens;
    var longer, more := trail + [g], events + [e];
    forall k | 0 <= k < |more| ensures Happens(longer[k], more[k], longer[k + 1]) {
      if k < |events| {
        assert longer[k] == trail[k] && longer[k + 1] == trail[k + 1];
      } else {
        assert longer[k] == trail[|trail| - 1] && longer[k + 1] == g;
      }
    }
  }

  /** The operations that failed although they were possible, from event `from` on. */
  ghost function Faults(events: seq<Event>, from: nat): set<Op>
  {
    set k | from <= k < |events| && events[k].Fault? :: events[k].op
  }

  lemma FaultsJoin(from: nat, events: seq<Event>, more: seq<Event>)
    requires from <= |events| && events <= more
    ensures Faults(more, from) == Faults(events, from) + Faults(more, |events|)
  {
    forall op | op in Faults(more, from) ensures op in Faults(events, from) + Faults(more, |events|) {
      var k :| from <= k < |more| && more[k] == Fault(op);
      if k < |events| {
        assert events[k] == Fault(op);
      }
    }
    forall op | op in Faults(events, from) ensures op in Faults(more, from) {
      var k :| from <= k < |events| && events[k] == Fault(op);
      assert more[k] == Fault(op);
    }
  }

  /** One more event. */
  lemma FaultsGrow(from: nat, events: seq<Event>, more: seq<Event>)
    requires from <= |events| && |more| == |events| + 1 && events <= more
    ensures var e := more[|events|];
      Faults(more, from) == Faults(events, from) + (if e.Fault? then {e.op} else {})
    ensures Faults(events, |events|) == {}
  {
    FaultsJoin(from, events, more);
    var e := more[|events|];
    if e.Fault? {
      assert e.op in Faults(more, |events|);
    }
  }

  /** The operations of a log, whatever became of them. */
  ghost function Ops(events: seq<Event>): (ops: seq<Op>)
    ensures |ops| == |events| && forall k :: 0 <= k < |events| ==> ops[k] == events[k].op
  {
    seq(|events|, k requires 0 <= k < |events| => events[k].op)
  }

  lemma OpsGrow(events: seq<Event>, more: seq<Event>)
    requires |more| == |events| + 1 && events <= more
    ensures Ops(more) == Ops(events) + [more[|events|].op]
  {
  }

  class Disk {
    var files: Files
    ghost var trail: seq<Files>
    ghost var events: seq<Event>

    constructor (files: Files)
      ensures this.files == files && trail == [files] && events == [] && Valid()
    {
      this.files := files;
      trail, events := [files], [];
    }

    /** The log explains the trail, and the trail ends in the files of now. */
    ghost predicate Valid()
      reads this
    {
      trail != [] && IsRun(trail, events) && trail[|trail| - 1] == files
    }

    /** Any operation may fail; one that does changes nothing. */
    method Do(op: Op) returns (ok: bool)
      requires Valid()
      modifies this
      ensures Valid()
      ensures ok ==> Possible(old(files), op) && files == After(old(files), op)
      ensures !ok ==> files == old(files)
      ensures events == old(events) + [if ok then Did(op) else if Possible(old(files), op) then Fault(op) else Absent(op)]
      ensures trail == old(trail) + [files]
    {
      hide IsRun, After;
      var fails: bool := *;
      ok := Possible(files, op) && !fails;
      ghost var e := if ok then Did(op) else if Possible(files, op) then Fault(op) else Absent(op);
      if ok {
        files := After(files, op);
      }
      assert Happens(old(files), e, files);
      RunGrows(trail, events, e, files);
      trail, events := trail + [files], events + [e];
    }

    /** `os.CreateTemp`: tries names until one is free. */
    method Create() returns (id: nat, ok: bool)
      requires Valid()
      modifies this
      ensures Valid()
      ensures Possible(old(files), CreateTemp(id))
      ensures files == if ok then After(old(files), CreateTemp(id)) else old(files)
      ensures events == old(events) + [if ok then Did(CreateTemp(id)) else Fault(CreateTemp(id))]
      ensures trail == old(trail) + [files]
    {
      id := *;
      ghost var bound := FreeFrom(files.Keys);
      while Staged(id) in files
        decreases bound - id
      {
        id := id + 1;
      }
      ok := Do(CreateTemp(id));
    }
  }

  /** Only finitely many names are taken. */
  lemma {:induction false} FreeFrom(taken: set<Path>) returns (bound: nat)
    ensures forall k: nat :: Staged(k) in taken ==> k < bound
  {
    if taken == {} {
      bound := 0;
    } else {
      var p :| p in taken;
      var rest := FreeFrom(taken - {p});
      bound := if p.Staged? && p.id >= rest then p.id + 1 else rest;
      forall k: nat | Staged(k) in taken ensures k < bound {
        if Staged(k) != p {
          assert Staged(k) in taken - {p};
        }
      }
    }
  }
}
