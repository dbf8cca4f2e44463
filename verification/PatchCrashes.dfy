/**
 Runs of a commit in which nothing fails, and the inputs on which a crash in the
 middle of one does harm.
 */
module PatchCrashes {
  import opened PatchDisk
  import opened PatchRecovery
  import opened PatchStates
  import opened PatchCommit

  // ---------- Replaying a script ----------

  /** The disk after an operation that does not fail. */
  function Next(h: Files, op: Op): Files { if Possible(h, op) then After(h, op) else h }

  function Replayed(h: Files, ops: seq<Op>): Files
  {
    if ops == [] then h else Next(Replayed(h, ops[..|ops| - 1]), ops[|ops| - 1])
  }

  lemma ReplayedGrows(h: Files, ops: seq<Op>, op: Op)
    ensures Replayed(h, ops + [op]) == Next(Replayed(h, ops), op)
  {
    assert (ops + [op])[..|ops|] == ops;
  }

  lemma {:induction false} ReplayedJoin(h: Files, a: seq<Op>, b: seq<Op>)
    ensures Replayed(h, a + b) == Replayed(Replayed(h, a), b)
    decreases |b|
  {
    if b == [] {
      assert a + b == a;
    } else {
      var c, op := b[..|b| - 1], b[|b| - 1];
      assert a + b == (a + c) + [op];
      ReplayedGrows(h, a + c, op);
      ReplayedJoin(h, a, c);
    }
  }

  /** A replay is a run of the disk in which nothing fails. */
  lemma {:induction false} ReplayIsRun(h: Files, ops: seq<Op>) returns (trail: seq<Files>, events: seq<Event>)
    ensures IsRun(trail, events) && Ops(events) == ops && Faults(events, 0) == {}
    ensures trail[0] == h && trail[|ops|] == Replayed(h, ops)
    decreases |ops|
  {
    if ops == [] {
      trail, events := [h], [];
    } else {
      var op := ops[|ops| - 1];
      trail, events := ReplayIsRun(h, ops[..|ops| - 1]);
      var last := trail[|trail| - 1];
      var e := if Possible(last, op) then Did(op) else Absent(op);
      RunGrows(trail, events, e, Next(last, op));
      FaultsGrow(0, events, events + [e]);
      OpsGrow(events, events + [e]);
      trail, events := trail + [Next(last, op)], events + [e];
    }
  }

  // ---------- One target ----------

  /** The first half of a turn: the new bytes are staged and the target stands at its backup name. */
  lemma HalfTurn(h: Files, f: Replacement, stamp: Stamp)
    requires Plain(f.name) in h && Staged(stamp.id) !in h
    ensures var old', p := h[Plain(f.name)], Plain(f.name);
      Replayed(h, StageOps(f, stamp, old'.mode) + [Remove(Backup(f.name)), Rename(p, Backup(f.name))])
      == (h - {p})[Staged(stamp.id) := File(Bytes(f.data), old'.mode)][Backup(f.name) := old']
  {
    var n, id, mode := f.name, Staged(stamp.id), h[Plain(f.name)].mode;
    var s := StageOps(f, stamp, mode);
    Staging(h, f, stamp);
    var h1 := Replayed(h, s);
    ReplayedGrows(h, s, Remove(Backup(n)));
    ReplayedGrows(h, s + [Remove(Backup(n))], Rename(Plain(n), Backup(n)));
    assert s + [Remove(Backup(n))] + [Rename(Plain(n), Backup(n))] == s + [Remove(Backup(n)), Rename(Plain(n), Backup(n))];
    var h2 := Next(h1, Remove(Backup(n)));
    assert h2 == h1 - {Backup(n)};
    assert Next(h2, Rename(Plain(n), Backup(n))) == (h - {Plain(n)})[id := File(Bytes(f.data), mode)][Backup(n) := h[Plain(n)]];
  }

  lemma Staging(h: Files, f: Replacement, stamp: Stamp)
    requires Plain(f.name) in h && Staged(stamp.id) !in h
    ensures var mode := h[Plain(f.name)].mode;
      Replayed(h, StageOps(f, stamp, mode)) == h[Staged(stamp.id) := File(Bytes(f.data), mode)]
  {
    var id, mode := stamp.id, h[Plain(f.name)].mode;
    var a := [Resolve(f.name), Stat(Plain(f.name)), CreateTemp(id)];
    assert Replayed(h, []) == h;
    ReplayedGrows(h, [], Resolve(f.name));
    ReplayedGrows(h, [Resolve(f.name)], Stat(Plain(f.name)));
    ReplayedGrows(h, [Resolve(f.name), Stat(Plain(f.name))], CreateTemp(id));
    assert [] + [Resolve(f.name)] == [Resolve(f.name)];
    assert [Resolve(f.name)] + [Stat(Plain(f.name))] == [Resolve(f.name), Stat(Plain(f.name))];
    assert [Resolve(f.name), Stat(Plain(f.name))] + [CreateTemp(id)] == a;
    var h1 := h[Staged(id) := File(Bytes(""), PRIVATE)];
    assert Replayed(h, a) == h1;
    Filling(h, h1, a, id, f.data, stamp.part, mode);
    assert a + [WritePart(id, stamp.part)] + [WriteTemp(id, f.data)] + [Chmod(id, mode)] == StageOps(f, stamp, mode);
  }

  lemma Filling(h: Files, g: Files, a: seq<Op>, id: nat, data: string, part: string, mode: nat)
    requires Replayed(h, a) == g && Staged(id) in g
    ensures Replayed(h, a + [WritePart(id, part)] + [WriteTemp(id, data)] + [Chmod(id, mode)])
         == g[Staged(id) := File(Bytes(data), mode)]
  {
    ReplayedGrows(h, a, WritePart(id, part));
    ReplayedGrows(h, a + [WritePart(id, part)], WriteTemp(id, data));
    ReplayedGrows(h, a + [WritePart(id, part)] + [WriteTemp(id, data)], Chmod(id, mode));
  }

  /** A whole turn in which nothing fails. */
  lemma WholeTurn(orig: Files, h: Files, previews: seq<Replacement>, i: nat, stamp: Stamp)
    requires i < |previews|
    requires var p := Plain(previews[i].name); p in h && p in orig && h[p].mode == orig[p].mode && Staged(stamp.id) !in h
    ensures var f := previews[i];
      var p := Plain(f.name);
      Replayed(h, Turn(orig, previews, i, stamp))
      == h[Backup(f.name) := h[p]]
          [JournalFile := File(Journal(true, Backups(Names(previews)[..i + 1])), PRIVATE)]
          [p := File(Bytes(f.data), h[p].mode)]
  {
    var f := previews[i];
    var n, id, mode := f.name, stamp.id, h[Plain(f.name)].mode;
    var half := StageOps(f, stamp, mode) + [Remove(Backup(n)), Rename(Plain(n), Backup(n))];
    var list := WriteJournal(true, Backups(Names(previews)[..i + 1]));
    HalfTurn(h, f, stamp);
    ReplayedGrows(h, half, list);
    ReplayedGrows(h, half + [list], Rename(Staged(id), Plain(n)));
    assert half + [list] + [Rename(Staged(id), Plain(n))] == Turn(orig, previews, i, stamp);
  }

  // ---------- A commit of one target ----------

  /** The script with its first operation and the halves of its one turn apart. */
  lemma OneTurn(orig: Files, f: Replacement, stamp: Stamp)
    requires Plain(f.name) in orig
    ensures var script := Script(orig, [f], [stamp]);
      var staged := [WriteJournal(false, [])] + StageOps(f, stamp, orig[Plain(f.name)].mode);
      && |script| >= 9 && script[..1] == [WriteJournal(false, [])]
      && script[..8] == staged + [Remove(Backup(f.name))]
      && script[..9] == staged + [Remove(Backup(f.name)), Rename(Plain(f.name), Backup(f.name))]
  {
    var turn := Turn(orig, [f], 0, stamp);
    assert [stamp][..0] == [] && [] + turn == turn;
    assert Turns(orig, [f], [stamp]) == turn;
  }

  lemma AfterOne(orig: Files)
    ensures Replayed(orig, [WriteJournal(false, [])]) == Begun(orig)
  {
    assert [WriteJournal(false, [])][..0] == [];
  }

  /** After eight operations the stale backup is gone, after nine the target is away and not listed. */
  lemma AfterNine(orig: Files, f: Replacement, stamp: Stamp)
    requires Plain(f.name) in orig && Staged(stamp.id) !in orig
    ensures |Script(orig, [f], [stamp])| >= 9
    ensures var script, mode, p := Script(orig, [f], [stamp]), orig[Plain(f.name)].mode, Plain(f.name);
      && Replayed(orig, script[..1]) == Begun(orig)
      && Replayed(orig, script[..8]) == Begun(orig)[Staged(stamp.id) := File(Bytes(f.data), mode)] - {Backup(f.name)}
      && Replayed(orig, script[..9])
         == (Begun(orig) - {p})[Staged(stamp.id) := File(Bytes(f.data), mode)][Backup(f.name) := orig[p]]
  {
    var w, s, c := [WriteJournal(false, [])], StageOps(f, stamp, orig[Plain(f.name)].mode), Remove(Backup(f.name));
    OneTurn(orig, f, stamp);
    AfterOne(orig);
    Staging(Begun(orig), f, stamp);
    HalfTurn(Begun(orig), f, stamp);
    ReplayedJoin(orig, w, s);
    ReplayedGrows(orig, w + s, c);
    var half := s + [c, Rename(Plain(f.name), Backup(f.name))];
    ReplayedJoin(orig, w, half);
    assert w + s + [c, Rename(Plain(f.name), Backup(f.name))] == w + half;
  }

  // ---------- Examples ----------

  /**
   A crash between backup and journal entry loses the file: the first nine
   operations of the commit that replaces the file `a` lead to a disk from which
   recovery does not bring `a` back.
   */
  lemma WindowExample() returns (orig: Files, f: Replacement, stamp: Stamp, h: Files)
    ensures |Script(orig, [f], [stamp])| >= 9 && h == Replayed(orig, Script(orig, [f], [stamp])[..9])
    ensures Pending(orig, Names([f]), h) && InWindow(orig, h, f.name)
    ensures Plain(f.name) in orig && Plain(f.name) !in Recovered(h)
  {
    hide Replayed, Script, Recovered;
    f, stamp := Replacement("a", "new"), Stamp(0, "n");
    orig := map[Plain("a") := File(Bytes("old"), 420)];
    AfterNine(orig, f, stamp);
    h := (Begun(orig) - {Plain("a")})[Staged(0) := File(Bytes("new"), 420)][Backup("a") := orig[Plain("a")]];
    assert Names([f])[0] == "a";
    assert Listed(h) == {};
    RecoveredAt(h, Plain("a"));
  }

  /**
   A commit begun over an unfinished one: its first operation empties the journal,
   so that the original waiting in the backup is not put back any more; its eighth
   takes that original from the disk.
   */
  lemma EarlierCommitExample() returns (orig: Files, f: Replacement, stamp: Stamp, h: Files, g: Files)
    ensures |Script(orig, [f], [stamp])| >= 9
    ensures h == Replayed(orig, Script(orig, [f], [stamp])[..1]) && g == Replayed(orig, Script(orig, [f], [stamp])[..8])
    ensures WellFormed(orig) && Recoverable(orig, Plain(f.name)) && !Same(Recovered(orig), Recovered(h), f.name)
    ensures forall p :: p in g ==> g[p].content != orig[Backup(f.name)].content
  {
    hide Replayed, Script, Recovered;
    f, stamp := Replacement("a", "new"), Stamp(0, "n");
    orig := map[Plain("a") := File(Bytes("half"), 420), Backup("a") := File(Bytes("whole"), 420),
                JournalFile := File(Journal(true, [Backup("a")]), PRIVATE)];
    AfterNine(orig, f, stamp);
    h := Begun(orig);
    g := h[Staged(0) := File(Bytes("new"), 420)] - {Backup("a")};
    assert Listed(orig) == {Backup("a")} && Listed(h) == {};
    RecoveredAt(orig, Plain("a"));
    RecoveredAt(h, Plain("a"));
    assert "half"[0] != "whole"[0] && "new"[0] != "whole"[0];
  }

  // ---------- A commit of two targets ----------

  lemma TwoTurns(orig: Files, previews: seq<Replacement>, stamps: seq<Stamp>)
    requires |previews| == |stamps| == 2
    ensures var script := Script(orig, previews, stamps);
      && |script| >= 22
      && script[..22] == [WriteJournal(false, [])] + Turn(orig, previews, 0, stamps[0]) + Turn(orig, previews, 1, stamps[1])
                         + [Remove(Backup(previews[0].name))]
  {
    var a, b := Turn(orig, previews, 0, stamps[0]), Turn(orig, previews, 1, stamps[1]);
    assert stamps[..1][..0] == [];
    assert [] + a == a;
    assert Turns(orig, previews, stamps[..1]) == Turns(orig, previews, []) + Turn(orig, previews, 0, stamps[..1][0]);
    assert Turns(orig, previews, stamps) == a + b;
    assert |a| == 10 && |b| == 10;
    assert CleanUpOps(previews)[0] == Remove(Backup(previews[0].name));
  }

  /** Two targets committed, and the first backup removed. */
  lemma AfterTwentyTwo(orig: Files, previews: seq<Replacement>, stamps: seq<Stamp>)
    requires |stamps| == |previews| == 2 && previews[0].name != previews[1].name
    requires Plain(previews[0].name) in orig && Plain(previews[1].name) in orig
    requires Staged(stamps[0].id) !in orig && Staged(stamps[1].id) !in orig
    ensures |Script(orig, previews, stamps)| >= 22
    ensures var p, q := Plain(previews[0].name), Plain(previews[1].name);
      Replayed(orig, Script(orig, previews, stamps)[..22])
      == orig[JournalFile := File(Journal(true, Backups(Names(previews))), PRIVATE)]
             [p := File(Bytes(previews[0].data), orig[p].mode)]
             [q := File(Bytes(previews[1].data), orig[q].mode)]
             [Backup(previews[1].name) := orig[q]] - {Backup(previews[0].name)}
  {
    hide Turn, CleanUpOps, Script, Turns, Replayed, StageOps;
    var w, a, b, c := [WriteJournal(false, [])], Turn(orig, previews, 0, stamps[0]), Turn(orig, previews, 1, stamps[1]),
      Remove(Backup(previews[0].name));
    TwoTurns(orig, previews, stamps);
    AfterOne(orig);
    WholeTurn(orig, Begun(orig), previews, 0, stamps[0]);
    ReplayedJoin(orig, w, a);
    var one := Replayed(orig, w + a);
    WholeTurn(orig, one, previews, 1, stamps[1]);
    ReplayedJoin(orig, w + a, b);
    ReplayedGrows(orig, w + a + b, c);
    assert Names(previews)[..2] == Names(previews);
    TwoCommitted(orig, one, Replayed(orig, w + a + b), previews[0], previews[1],
                 File(Journal(true, Backups(Names(previews)[..1])), PRIVATE),
                 File(Journal(true, Backups(Names(previews))), PRIVATE));
  }

  lemma TwoCommitted(orig: Files, one: Files, two: Files, f: Replacement, k: Replacement, first: File, second: File)
    requires f.name != k.name && Plain(f.name) in orig && Plain(k.name) in orig
    requires var p := Plain(f.name);
      one == Begun(orig)[Backup(f.name) := orig[p]][JournalFile := first][p := File(Bytes(f.data), orig[p].mode)]
    requires var q := Plain(k.name);
      two == one[Backup(k.name) := orig[q]][JournalFile := second][q := File(Bytes(k.data), orig[q].mode)]
    ensures var p, q := Plain(f.name), Plain(k.name);
      two - {Backup(f.name)}
      == orig[JournalFile := second][p := File(Bytes(f.data), orig[p].mode)][q := File(Bytes(k.data), orig[q].mode)]
             [Backup(k.name) := orig[q]] - {Backup(f.name)}
  {
  }

  /**
   A crash inside the clean-up can leave one file new and another old: the commit
   that empties the files `a` and `b`, stopped after the first removal of its clean-up.
   */
  lemma CleanUpMixExample() returns (orig: Files, previews: seq<Replacement>, stamps: seq<Stamp>, h: Files)
    ensures |stamps| == |previews| == 2 && |Script(orig, previews, stamps)| >= 22
    ensures h == Replayed(orig, Script(orig, previews, stamps)[..22])
    ensures Mixed(orig, previews, h) && !Same(orig, Recovered(h), previews[0].name)
  {
    hide Replayed, Script, Recovered;
    var file := File(Bytes("x"), 420);
    orig := map[Plain("a") := file, Plain("b") := file];
    previews, stamps := [Replacement("a", ""), Replacement("b", "")], [Stamp(0, ""), Stamp(0, "")];
    AfterTwentyTwo(orig, previews, stamps);
    var both := Backups(Names(previews));
    assert both == [Backup("a"), Backup("b")];
    h := orig[JournalFile := File(Journal(true, both), PRIVATE)][Plain("a") := File(Bytes(""), 420)]
             [Plain("b") := File(Bytes(""), 420)][Backup("b") := file] - {Backup("a")};
    assert Listed(h) == {Backup("a"), Backup("b")};
    RecoveredAt(h, Plain("a"));
    RecoveredAt(h, Plain("b"));
  }

  // ---------- A commit of one target twice ----------

  /** The disk after two turns about one file: the second has set the new bytes of the first aside. */
  function TwiceReplaced(orig: Files, previews: seq<Replacement>): Files
    requires |previews| == 2 && Plain(previews[0].name) in orig
  {
    var n, mode := previews[0].name, orig[Plain(previews[0].name)].mode;
    orig[Backup(n) := File(Bytes(previews[0].data), mode)]
        [JournalFile := File(Journal(true, [Backup(n), Backup(n)]), PRIVATE)][Plain(n) := File(Bytes(previews[1].data), mode)]
  }

  lemma SharedTurns(orig: Files, previews: seq<Replacement>, stamps: seq<Stamp>)
    requires |stamps| == |previews| == 2 && previews[0].name == previews[1].name
    requires Plain(previews[0].name) in orig && Staged(stamps[0].id) !in orig && Staged(stamps[1].id) !in orig
    ensures |Script(orig, previews, stamps)| == 24
    ensures Replayed(orig, Script(orig, previews, stamps)[..21]) == TwiceReplaced(orig, previews)
  {
    hide Turn, CleanUpOps, Script, Turns, Replayed, StageOps;
    var w, a, b := [WriteJournal(false, [])], Turn(orig, previews, 0, stamps[0]), Turn(orig, previews, 1, stamps[1]);
    var n := previews[0].name;
    TwoTurnsWhole(orig, previews, stamps);
    AfterOne(orig);
    WholeTurn(orig, Begun(orig), previews, 0, stamps[0]);
    ReplayedJoin(orig, w, a);
    WholeTurn(orig, Replayed(orig, w + a), previews, 1, stamps[1]);
    ReplayedJoin(orig, w + a, b);
    assert Backups(Names(previews)[..2]) == [Backup(n), Backup(n)];
  }

  /**
   Two previews of one file: the second turn removes the backup of the original and
   sets the new bytes of the first aside instead, so that before the clean-up no
   recovery finds the original, and after it the first preview is lost.
   */
  lemma SharedTarget(orig: Files, previews: seq<Replacement>, stamps: seq<Stamp>)
    requires |stamps| == |previews| == 2 && previews[0].name == previews[1].name
    requires Plain(previews[0].name) in orig && Staged(stamps[0].id) !in orig && Staged(stamps[1].id) !in orig
    ensures |Script(orig, previews, stamps)| == 24
    ensures var script, n := Script(orig, previews, stamps), previews[0].name;
      var mode := orig[Plain(n)].mode;
      && Recovered(Replayed(orig, script[..21]))
         == orig[Plain(n) := File(Bytes(previews[0].data), mode)] - {Backup(n), JournalFile}
      && Replayed(orig, script) == orig[Plain(n) := File(Bytes(previews[1].data), mode)] - {Backup(n), JournalFile}
  {
    hide Turn, CleanUpOps, Script, Turns, Replayed, StageOps, Recovered;
    var n, script := previews[0].name, Script(orig, previews, stamps);
    var two := TwiceReplaced(orig, previews);
    SharedTurns(orig, previews, stamps);
    TwoTurnsWhole(orig, previews, stamps);
    OneListed(two, n);
    var c, d := Remove(Backup(n)), Remove(JournalFile);
    ReplayedGrows(orig, script[..21], c);
    ReplayedGrows(orig, script[..21] + [c], c);
    ReplayedGrows(orig, script[..21] + [c] + [c], d);
    assert script[..21] + [c] + [c] + [d] == script;
    assert two - {Backup(n)} - {JournalFile}
        == orig[Plain(n) := File(Bytes(previews[1].data), orig[Plain(n)].mode)] - {Backup(n), JournalFile};
  }

  /** What a rollback does about the listed names when nothing fails. */
  function RollbackOps(names: seq<string>): seq<Op>
  {
    if names == [] then []
    else [Remove(Plain(names[0])), Rename(Backup(names[0]), Plain(names[0]))] + RollbackOps(names[1..])
  }

  /** A rollback after the two turns, for a failure about a later file, leaves nothing of the shared one at all. */
  lemma SharedRollback(orig: Files, previews: seq<Replacement>, stamps: seq<Stamp>)
    requires |stamps| == |previews| == 2 && previews[0].name == previews[1].name
    requires Plain(previews[0].name) in orig && Staged(stamps[0].id) !in orig && Staged(stamps[1].id) !in orig
    ensures |Script(orig, previews, stamps)| == 24
    ensures var h := Replayed(orig, Script(orig, previews, stamps)[..21] + RollbackOps(Names(previews)));
      Plain(previews[0].name) !in h && Backup(previews[0].name) !in h
  {
    hide Script, Replayed;
    SharedTurns(orig, previews, stamps);
    var n, done := previews[0].name, Script(orig, previews, stamps)[..21];
    var c, d := Remove(Plain(n)), Rename(Backup(n), Plain(n));
    ReplayedGrows(orig, done, c);
    ReplayedGrows(orig, done + [c], d);
    ReplayedGrows(orig, done + [c] + [d], c);
    ReplayedGrows(orig, done + [c] + [d] + [c], d);
    assert Names(previews) == [n, n] && [n, n][1..] == [n] && [n][1..] == [];
    assert RollbackOps([n]) == [c, d] + [] && RollbackOps([n, n]) == [c, d] + RollbackOps([n]);
    assert done + [c] + [d] + [c] + [d] == done + RollbackOps(Names(previews));
  }

  lemma TwoTurnsWhole(orig: Files, previews: seq<Replacement>, stamps: seq<Stamp>)
    requires |previews| == |stamps| == 2 && previews[0].name == previews[1].name
    ensures var script := Script(orig, previews, stamps);
      var turns := [WriteJournal(false, [])] + Turn(orig, previews, 0, stamps[0]) + Turn(orig, previews, 1, stamps[1]);
      var c := Remove(Backup(previews[0].name));
      |script| == 24 && script[..21] == turns && script == turns + [c, c, Remove(JournalFile)]
  {
    var a, b := Turn(orig, previews, 0, stamps[0]), Turn(orig, previews, 1, stamps[1]);
    assert stamps[..1][..0] == [];
    assert [] + a == a;
    assert Turns(orig, previews, stamps[..1]) == Turns(orig, previews, []) + Turn(orig, previews, 0, stamps[..1][0]);
    assert Turns(orig, previews, stamps) == a + b;
    assert |a| == 10 && |b| == 10;
    var c := Remove(Backup(previews[0].name));
    assert CleanUpOps(previews) == [c, c, Remove(JournalFile)];
  }

  /** Recovery with one backup listed, and there. */
  lemma OneListed(h: Files, n: string)
    requires HasJournal(h) && Backup(n) in h
    requires h[JournalFile].content == Journal(true, [Backup(n), Backup(n)])
    ensures Recovered(h) == h[Plain(n) := h[Backup(n)]] - {Backup(n), JournalFile}
  {
    assert Listed(h) == {Backup(n)};
    forall q ensures q in Recovered(h) <==> q in h[Plain(n) := h[Backup(n)]] - {Backup(n), JournalFile} {
      RecoveredAt(h, q);
    }
    forall q | q in Recovered(h) ensures Recovered(h)[q] == h[Plain(n) := h[Backup(n)]][q] {
      RecoveredAt(h, q);
    }
  }
}
