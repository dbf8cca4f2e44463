/** What a commit in which nothing fails makes of each file, even when it replaces one twice: the last replacement counts. */
module PatchOutcome {
  import opened Wrappers
  import opened PatchDisk
  import opened PatchStates
  import opened PatchCommit

  /** The new bytes of the last replacement of file n. */
  function LastFor(previews: seq<Replacement>, n: string): Option<string>
  {
    if previews == [] then None
    else
      var k := |previews| - 1;
      if previews[k].name == n then Some(previews[k].data) else LastFor(previews[..k], n)
  }

  lemma {:induction false} LastForIff(previews: seq<Replacement>, n: string)
    ensures LastFor(previews, n).Some? <==> n in Names(previews)
    ensures LastFor(previews, n).Some? ==> Replacement(n, LastFor(previews, n).value) in previews
  {
    if previews != [] {
      var k := |previews| - 1;
      LastForIff(previews[..k], n);
      assert previews == previews[..k] + [previews[k]];
      assert Names(previews) == Names(previews[..k]) + [previews[k].name];
    }
  }

  /** File n after some turns: replaced by the last of them that did, or undisturbed. */
  ghost predicate TurnedTo(orig: Files, h: Files, n: string, last: Option<string>)
  {
    match last
    case None => Undisturbed(orig, h, n)
    case Some(data) => Plain(n) in orig && Plain(n) in h && h[Plain(n)] == File(Bytes(data), orig[Plain(n)].mode)
  }

  lemma {:induction false} AfterTurnsAt(orig: Files, previews: seq<Replacement>, i: nat, n: string)
    requires i <= |previews| && forall f :: f in previews ==> Plain(f.name) in orig
    ensures TurnedTo(orig, AfterTurns(Begun(orig), previews, i), n, LastFor(previews[..i], n))
  {
    if i > 0 {
      AfterTurnsAt(orig, previews, i - 1, n);
      assert previews[..i][..i - 1] == previews[..i - 1];
      var h, f := AfterTurns(Begun(orig), previews, i - 1), previews[i - 1];
      assert f in previews;
      OneTurnAt(orig, h, previews, i - 1, n, LastFor(previews[..i - 1], n));
    }
  }

  lemma OneTurnAt(orig: Files, h: Files, previews: seq<Replacement>, i: nat, n: string, last: Option<string>)
    requires i < |previews| && Plain(previews[i].name) in orig && TurnedTo(orig, h, n, last)
    ensures TurnedTo(orig, AfterTurn(h, previews, i), n, if previews[i].name == n then Some(previews[i].data) else last)
  {
  }

  /**
   The disk of a commit in which nothing fails: a file it replaces holds the bytes of
   its last replacement under the old mode and has no backup; all others are as they
   were, and there is no journal.
   */
  lemma FinishedAt(orig: Files, previews: seq<Replacement>, n: string)
    requires forall m :: m in Names(previews) ==> Plain(m) in orig
    ensures var h := Finished(orig, previews);
      && !HasJournal(h)
      && (n !in Names(previews) ==> Undisturbed(orig, h, n))
      && (n in Names(previews) ==> LastFor(previews, n).Some? && TurnedTo(orig, h, n, LastFor(previews, n)) && Backup(n) !in h)
  {
    hide AfterTurns;
    forall f | f in previews ensures Plain(f.name) in orig {
      var j :| 0 <= j < |previews| && previews[j] == f;
      assert Names(previews)[j] == f.name;
    }
    AfterTurnsAt(orig, previews, |previews|, n);
    assert previews[..|previews|] == previews;
    LastForIff(previews, n);
  }
}
