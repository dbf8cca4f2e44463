/**
 What a load holds, told from the references alone: which of them are followed, the
 documents they lead to, and the reports on the ones that cannot be read.
 */
module WorkspaceLaws {
  import opened Wrappers
  import opened Text
  import opened LetterCase
  import opened Workspace

  // ---------- The references of the root ----------

  /** Names of ASCII letters and digits with no white space at the ends. */
  predicate PlainKey(k: string) { IsAscii(k) && TrimSpace(k) == k }

  /** The keys that name a source: `cmd`, `cns`, `stcommon` and `st` in any letter case, and `st` with a number. */
  lemma FileKeys(k: string, rest: string)
    requires PlainKey(k)
    ensures Lower(k) == "cmd" || Lower(k) == "cns" || Lower(k) == "stcommon" || Lower(k) == "st" ==> IsFileKey(k)
    ensures Lower(k) == "st" + rest && rest != "" && rest != "common" ==> (IsFileKey(k) <==> Atoi(rest).Some?)
  {
    ToLowerAscii(k);
    var l := Lower(k);
    if l == "st" + rest && rest != "" && rest != "common" {
      assert l[..2] == "st" && l[2..] == rest;
      assert l[1] == 't';
      assert "stcommon"[2..] == "common";
    }
  }

  /** No other key does. */
  lemma OtherKeys(k: string)
    requires PlainKey(k) && Lower(k) != "cmd" && Lower(k) != "cns" && !("st" <= Lower(k))
    ensures !IsFileKey(k)
  {
    ToLowerAscii(k);
    assert "st" <= "st" && "st" <= "stcommon";
  }

  /** The sections are gone through in order, and so are the lines of a `[Files]` section. */
  lemma {:induction false} SectionsJoin(env: Env, a: seq<Section>, b: seq<Section>)
    ensures SectionsRefs(env, a + b) == SectionsRefs(env, a) + SectionsRefs(env, b)
  {
    hide LinesRefs, IsFilesSection;
    if a == [] {
      assert a + b == b && [] + SectionsRefs(env, b) == SectionsRefs(env, b);
    } else {
      SectionsJoin(env, a[1..], b);
      assert (a + b)[1..] == a[1..] + b;
      var first := if IsFilesSection(a[0]) then LinesRefs(env, a[0].lines) else [];
      Regroup(first, SectionsRefs(env, a[1..]), SectionsRefs(env, b));
    }
  }

  lemma OneSection(env: Env, s: Section)
    ensures SectionsRefs(env, [s]) == if FoldsTo(TrimSpace(s.header), "files") then LinesRefs(env, s.lines) else []
  {
    hide LinesRefs;
    assert [s][1..] == [];
    assert LinesRefs(env, s.lines) + [] == LinesRefs(env, s.lines);
  }

  lemma {:induction false} LinesJoin(env: Env, a: seq<SourceLine>, b: seq<SourceLine>)
    ensures LinesRefs(env, a + b) == LinesRefs(env, a) + LinesRefs(env, b)
  {
    hide LineRefs;
    if a == [] {
      assert a + b == b && [] + LinesRefs(env, b) == LinesRefs(env, b);
    } else {
      LinesJoin(env, a[1..], b);
      assert (a + b)[1..] == a[1..] + b;
      Regroup(LineRefs(env, a[0]), LinesRefs(env, a[1..]), LinesRefs(env, b));
    }
  }

  /** A line makes a reference when it has a file key and its value is not normalised away. */
  lemma OneLine(env: Env, line: SourceLine)
    ensures LinesRefs(env, [line]) ==
      if line.kind == KeyValueLine && IsFileKey(line.key) && env.normalize(line.value) != ""
      then [SourceRef(env.normalize(line.value), TrimSpace(line.key), line.span)] else []
  {
    hide IsFileKey, TrimSpace;
    assert [line][1..] == [];
    assert LineRefs(env, line) + [] == LineRefs(env, line);
  }

  // ---------- Which references are followed ----------

  function TargetOf(env: Env, disk: Disk, def: Path, ref: SourceRef): Option<Path>
  {
    env.lookup(disk.Keys, def, ref.path)
  }

  /** Both lead somewhere, and to the same file up to the duplicate key. */
  ghost predicate SameTarget(env: Env, disk: Disk, def: Path, a: SourceRef, b: SourceRef)
  {
    && TargetOf(env, disk, def, a).Some? && TargetOf(env, disk, def, b).Some?
    && env.dedupKey(TargetOf(env, disk, def, a).value) == env.dedupKey(TargetOf(env, disk, def, b).value)
  }

  /** Reference i leads to a file that is neither the root nor what an earlier reference leads to. */
  ghost predicate First(env: Env, disk: Disk, def: Path, refs: seq<SourceRef>, i: nat)
    requires i < |refs|
  {
    && TargetOf(env, disk, def, refs[i]).Some?
    && env.dedupKey(TargetOf(env, disk, def, refs[i]).value) != env.dedupKey(def)
    && forall j :: 0 <= j < i ==> !SameTarget(env, disk, def, refs[j], refs[i])
  }

  /** The document of reference i, when it is a first one that can be read. */
  ghost function DocumentOf(env: Env, disk: Disk, def: Path, refs: seq<SourceRef>, i: nat): Option<Document>
    requires i < |refs|
  {
    if !First(env, disk, def, refs, i) then None
    else
      var p := TargetOf(env, disk, def, refs[i]).value;
      if p in disk && disk[p].readable then Some(Document(p, env.parse(p, disk[p].bytes))) else None
  }

  /** A common state file the game itself brings along. */
  ghost predicate Supplied(ref: SourceRef) { FoldsTo(ref.key, "stcommon") && FoldsTo(Base(ref.path), "common1.cns") }

  /** The report on reference i: what the parser says of its file, or that a first one cannot be read. */
  ghost function ReportOf(env: Env, disk: Disk, def: Path, refs: seq<SourceRef>, i: nat): seq<Diagnostic>
    requires i < |refs|
  {
    match DocumentOf(env, disk, def, refs, i)
    case Some(doc) => doc.parsed.diagnostics
    case None =>
      if First(env, disk, def, refs, i) && !Supplied(refs[i]) then [Diagnostic(def, refs[i].span, MissingSource(refs[i].path))]
      else []
  }

  /** The documents of the references before number i, in order. */
  ghost function DocumentsUpTo(env: Env, disk: Disk, def: Path, refs: seq<SourceRef>, i: nat): seq<Document>
    requires i <= |refs|
  {
    if i == 0 then []
    else
      DocumentsUpTo(env, disk, def, refs, i - 1) +
      match DocumentOf(env, disk, def, refs, i - 1) case Some(doc) => [doc] case None => []
  }

  ghost function ReportsUpTo(env: Env, disk: Disk, def: Path, refs: seq<SourceRef>, i: nat): seq<Diagnostic>
    requires i <= |refs|
  {
    if i == 0 then [] else ReportsUpTo(env, disk, def, refs, i - 1) + ReportOf(env, disk, def, refs, i - 1)
  }

  /** The keys seen before reference i: the root's, and those of the references that lead somewhere. */
  ghost predicate SeenUpTo(env: Env, disk: Disk, def: Path, refs: seq<SourceRef>, i: nat, seen: set<Path>)
    requires i <= |refs|
  {
    forall key :: key in seen <==> key == env.dedupKey(def) || MetBefore(env, disk, def, refs, i, key)
  }

  ghost predicate MetBefore(env: Env, disk: Disk, def: Path, refs: seq<SourceRef>, i: nat, key: Path)
    requires i <= |refs|
  {
    exists j :: 0 <= j < i && TargetOf(env, disk, def, refs[j]).Some?
             && env.dedupKey(TargetOf(env, disk, def, refs[j]).value) == key
  }

  /** What the loader has after the references before number i. */
  ghost function LoadedUpTo(env: Env, disk: Disk, def: Path, root: Document, refs: seq<SourceRef>, i: nat): LoadResult
    requires i <= |refs|
  {
    LoadResult([root] + DocumentsUpTo(env, disk, def, refs, i), root.parsed.diagnostics + ReportsUpTo(env, disk, def, refs, i))
  }

  lemma FirstIsUnseen(env: Env, disk: Disk, def: Path, refs: seq<SourceRef>, i: nat, seen: set<Path>)
    requires i < |refs| && SeenUpTo(env, disk, def, refs, i, seen)
    ensures var target := TargetOf(env, disk, def, refs[i]);
      First(env, disk, def, refs, i) <==> target.Some? && env.dedupKey(target.value) !in seen
  {
    hide TargetOf;
    var target := TargetOf(env, disk, def, refs[i]);
    if target.Some? {
      var key := env.dedupKey(target.value);
      forall j | 0 <= j < i
        ensures SameTarget(env, disk, def, refs[j], refs[i]) <==>
          TargetOf(env, disk, def, refs[j]).Some? && env.dedupKey(TargetOf(env, disk, def, refs[j]).value) == key
      {
      }
    }
  }

  lemma SeenGrows(env: Env, disk: Disk, def: Path, refs: seq<SourceRef>, i: nat, seen: set<Path>)
    requires i < |refs| && SeenUpTo(env, disk, def, refs, i, seen)
    ensures var target := TargetOf(env, disk, def, refs[i]);
      SeenUpTo(env, disk, def, refs, i + 1, if target.Some? then seen + {env.dedupKey(target.value)} else seen)
  {
    hide TargetOf;
  }

  /** One turn of the loader: a reference that is not a first one changes nothing. */
  lemma OneTurn(env: Env, disk: Disk, def: Path, root: Document, refs: seq<SourceRef>, i: nat)
    requires i < |refs|
    ensures var acc, next := LoadedUpTo(env, disk, def, root, refs, i), LoadedUpTo(env, disk, def, root, refs, i + 1);
      next == if First(env, disk, def, refs, i)
        then AddSource(env, disk, def, refs[i], TargetOf(env, disk, def, refs[i]).value, acc) else acc
  {
    hide First, TargetOf, FoldsTo, Base;
    var docs, reports := DocumentsUpTo(env, disk, def, refs, i), ReportsUpTo(env, disk, def, refs, i);
    var doc := DocumentOf(env, disk, def, refs, i);
    var more := match doc case Some(d) => [d] case None => [];
    assert [root] + (docs + more) == ([root] + docs) + more;
    var ds, added := root.parsed.diagnostics, ReportOf(env, disk, def, refs, i);
    assert ds + (reports + added) == (ds + reports) + added;
    assert docs + [] == docs && reports + [] == reports;
  }

  lemma {:induction false} LoadRefsIs(env: Env, disk: Disk, def: Path, root: Document, refs: seq<SourceRef>, i: nat, seen: set<Path>)
    requires i <= |refs| && SeenUpTo(env, disk, def, refs, i, seen)
    ensures LoadRefs(env, disk, def, refs[i..], seen, LoadedUpTo(env, disk, def, root, refs, i))
         == LoadedUpTo(env, disk, def, root, refs, |refs|)
    decreases |refs| - i
  {
    hide LoadedUpTo, AddSource, First, SeenUpTo;
    if i < |refs| {
      assert refs[i..][0] == refs[i] && refs[i..][1..] == refs[i + 1..];
      FirstIsUnseen(env, disk, def, refs, i, seen);
      SeenGrows(env, disk, def, refs, i, seen);
      OneTurn(env, disk, def, root, refs, i);
      var target := TargetOf(env, disk, def, refs[i]);
      if target.Some? && env.dedupKey(target.value) in seen {
        assert seen + {env.dedupKey(target.value)} == seen;
      }
      LoadRefsIs(env, disk, def, root, refs, i + 1, if target.Some? then seen + {env.dedupKey(target.value)} else seen);
    }
  }

  /**
   A load is the root, then the first references that can be read, in order; its
   diagnostics are the parser's on each, and one for each first reference that cannot be
   read and is not a supplied file.  A root that cannot be read is all there is to report.
   */
  lemma LoadIs(env: Env, disk: Disk, def: Path)
    ensures Load(env, disk, def) ==
      if def in disk && disk[def].readable then
        var root := Document(def, env.parse(def, disk[def].bytes));
        var refs := SectionsRefs(env, root.parsed.sections);
        LoadResult([root] + DocumentsUpTo(env, disk, def, refs, |refs|),
                   root.parsed.diagnostics + ReportsUpTo(env, disk, def, refs, |refs|))
      else LoadResult([], [Diagnostic(def, 1, MissingSource(def))])
  {
    hide LoadRefs, SectionsRefs;
    if def in disk && disk[def].readable {
      var root := Document(def, env.parse(def, disk[def].bytes));
      var refs := SectionsRefs(env, root.parsed.sections);
      LoadRefsIs(env, disk, def, root, refs, 0, {env.dedupKey(def)});
      assert refs[0..] == refs;
      assert [root] + [] == [root] && root.parsed.diagnostics + [] == root.parsed.diagnostics;
    }
  }

  lemma {:induction false} ReportsExtend(env: Env, disk: Disk, def: Path, refs: seq<SourceRef>, i: nat, n: nat)
    requires i <= n <= |refs|
    ensures ReportsUpTo(env, disk, def, refs, i) <= ReportsUpTo(env, disk, def, refs, n)
    decreases n
  {
    hide ReportOf;
    if i < n {
      ReportsExtend(env, disk, def, refs, i, n - 1);
    }
  }

  /** A first reference whose file cannot be read is reported at its line, after the reports on the references before it. */
  lemma MissingIsReported(env: Env, disk: Disk, def: Path, i: nat)
    requires def in disk && disk[def].readable
    requires i < |RootRefs(env, disk, def)| && First(env, disk, def, RootRefs(env, disk, def), i)
    requires var p := TargetOf(env, disk, def, RootRefs(env, disk, def)[i]).value; !(p in disk && disk[p].readable)
    requires !Supplied(RootRefs(env, disk, def)[i])
    ensures var refs := RootRefs(env, disk, def);
      env.parse(def, disk[def].bytes).diagnostics + ReportsUpTo(env, disk, def, refs, i)
        + [Diagnostic(def, refs[i].span, MissingSource(refs[i].path))] <= Load(env, disk, def).diagnostics
  {
    hide Load, First, SectionsRefs, FoldsTo, Base, TargetOf, DocumentsUpTo, ReportsUpTo;
    LoadIs(env, disk, def);
    var refs := RootRefs(env, disk, def);
    var root, before := env.parse(def, disk[def].bytes).diagnostics, ReportsUpTo(env, disk, def, refs, i);
    ReportsExtend(env, disk, def, refs, i + 1, |refs|);
    OneReport(env, disk, def, refs, i);
    var d := [Diagnostic(def, refs[i].span, MissingSource(refs[i].path))];
    AfterPrefix(root, before, d, ReportsUpTo(env, disk, def, refs, |refs|));
  }

  lemma OneReport(env: Env, disk: Disk, def: Path, refs: seq<SourceRef>, i: nat)
    requires i < |refs|
    ensures ReportsUpTo(env, disk, def, refs, i + 1) == ReportsUpTo(env, disk, def, refs, i) + ReportOf(env, disk, def, refs, i)
  {
  }

  lemma AfterPrefix(root: seq<Diagnostic>, before: seq<Diagnostic>, d: seq<Diagnostic>, all: seq<Diagnostic>)
    requires before + d <= all
    ensures root + before + d <= root + all
  {
    assert root + (before + d) == root + before + d;
    assert all == (before + d) + all[|before + d|..];
    assert root + ((before + d) + all[|before + d|..]) == (root + (before + d)) + all[|before + d|..];
  }

  // ---------- The last part of a path ----------

  /** The last part is what stands between the last slashes. */
  lemma {:induction false} LastPartIs(dir: string, name: string)
    requires '/' !in name && (dir == "" || dir[|dir| - 1] == '/')
    ensures LastPart(dir + name) == name
    decreases |name|
  {
    if name != "" {
      var n := |name| - 1;
      LastPartIs(dir, name[..n]);
      assert (dir + name)[..|dir + name| - 1] == dir + name[..n];
      assert name[n] in name && name == name[..n] + [name[n]];
    } else {
      assert dir + name == dir;
    }
  }

  lemma {:induction false} SlashesTrimmed(p: string, slashes: nat)
    requires p == "" || p[|p| - 1] != '/'
    ensures TrimSlashes(p + seq(slashes, _ => '/')) == p
  {
    var s := p + seq(slashes, _ => '/');
    if slashes > 0 {
      SlashesTrimmed(p, slashes - 1);
      assert s[..|s| - 1] == p + seq(slashes - 1, _ => '/');
    } else {
      assert s == p;
    }
  }

  lemma BaseIs(dir: string, name: string, slashes: nat)
    requires name != "" && '/' !in name && (dir == "" || dir[|dir| - 1] == '/')
    ensures Base(dir + name + seq(slashes, _ => '/')) == name
    ensures Base("") == "." && (slashes > 0 ==> Base(seq(slashes, _ => '/')) == "/")
  {
    assert name[|name| - 1] in name;
    SlashesTrimmed(dir + name, slashes);
    LastPartIs(dir, name);
    SlashesTrimmed("", slashes);
    assert "" + seq(slashes, _ => '/') == seq(slashes, _ => '/');
  }
}
