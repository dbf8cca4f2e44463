/**
 Loading a workspace: a definition file and the sources its [Files] sections
 name.  Parsing, path resolution and reference resolution are parameters; the
 load is a function of them and of the disk, and depends only on which files
 exist and on the bytes of the documents it loads.
 */
module Workspace {
  import opened Wrappers
  import opened Text
  import opened LetterCase

  type Path = string

  /** A file by content, modification time and whether it can be read. */
  datatype FileState = FileState(bytes: string, mtime: int, readable: bool)

  type Disk = map<Path, FileState>

  datatype LineKind = CommentLine | KeyValueLine | BlankLine | MalformedLine

  datatype SourceLine = SourceLine(kind: LineKind, key: string, value: string, span: nat)

  datatype Section = Section(header: string, lines: seq<SourceLine>)

  datatype DiagnosticCode = MissingSource(what: string) | OtherCode(code: string)

  datatype Diagnostic = Diagnostic(path: Path, span: nat, code: DiagnosticCode)

  /** What the parser makes of one text; `rest` stands for symbols and references. */
  datatype Parsed = Parsed(sections: seq<Section>, diagnostics: seq<Diagnostic>, rest: string)

  datatype Document = Document(path: Path, parsed: Parsed)

  datatype Semantics = Semantics(references: string, diagnostics: seq<Diagnostic>)

  /**
   The code the loader calls: the parser, the resolver, and the profile's value
   normalisation, path lookup (over the set of existing files) and duplicate key.
   */
  datatype Env = Env(
    parse: (Path, string) -> Parsed,
    resolve: seq<Document> -> Semantics,
    normalize: string -> string,
    lookup: (set<Path>, Path, string) -> Option<Path>,
    dedupKey: Path -> Path)

  datatype SourceRef = SourceRef(path: string, key: string, span: nat)

  datatype LoadResult = LoadResult(documents: seq<Document>, diagnostics: seq<Diagnostic>)

  /** `isWorkspaceFileKey`: cmd, cns, stcommon, or st with an optional number. */
  predicate IsFileKey(key: string)
  {
    var k := ToLower(TrimSpace(key));
    || k == "cmd" || k == "cns" || k == "st" || k == "stcommon"
    || (HasPrefix(k, "st") && |k| > 2 && Atoi(k[2..]).Some?)
  }

  predicate IsFilesSection(s: Section) { FoldsTo(TrimSpace(s.header), "files") }

  /** The reference one line makes, if any. */
  function LineRefs(env: Env, line: SourceLine): seq<SourceRef>
  {
    if line.kind != KeyValueLine || !IsFileKey(line.key) then []
    else
      var value := env.normalize(line.value);
      if value == "" then [] else [SourceRef(value, TrimSpace(line.key), line.span)]
  }

  function LinesRefs(env: Env, lines: seq<SourceLine>): seq<SourceRef>
  {
    if lines == [] then [] else LineRefs(env, lines[0]) + LinesRefs(env, lines[1..])
  }

  function SectionsRefs(env: Env, sections: seq<Section>): seq<SourceRef>
  {
    if sections == [] then []
    else (if IsFilesSection(sections[0]) then LinesRefs(env, sections[0].lines) else [])
         + SectionsRefs(env, sections[1..])
  }

  /** The outer loop of `sourceReferences`. */
  method SourceReferences(env: Env, sections: seq<Section>) returns (refs: seq<SourceRef>)
    ensures refs == SectionsRefs(env, sections)
  {
    refs := [];
    assert sections[0..] == sections;
    for i := 0 to |sections|
      invariant SectionsRefs(env, sections) == refs + SectionsRefs(env, sections[i..])
    {
      assert sections[i..][1..] == sections[i + 1..];
      ghost var tail := SectionsRefs(env, sections[i + 1..]);
      if IsFilesSection(sections[i]) {
        ghost var before := refs;
        refs := LineReferences(env, sections[i].lines, refs);
        Regroup(before, LinesRefs(env, sections[i].lines), tail);
      } else {
        assert [] + tail == tail;
      }
    }
  }

  /** The inner loop: the references of one section's lines, after those found already. */
  method LineReferences(env: Env, lines: seq<SourceLine>, found: seq<SourceRef>) returns (refs: seq<SourceRef>)
    ensures refs == found + LinesRefs(env, lines)
  {
    refs := found;
    assert lines[0..] == lines;
    for i := 0 to |lines|
      invariant found + LinesRefs(env, lines) == refs + LinesRefs(env, lines[i..])
    {
      assert lines[i..][1..] == lines[i + 1..];
      Regroup(refs, LineRefs(env, lines[i]), LinesRefs(env, lines[i + 1..]));
      refs := refs + LineRefs(env, lines[i]);
    }
  }

  lemma Regroup(a: seq<SourceRef>, b: seq<SourceRef>, c: seq<SourceRef>)
    ensures (a + b) + c == a + (b + c)
  {
  }

  /** `os.ReadFile`. */
  function ReadFile(disk: Disk, p: Path): Option<string>
  {
    if p in disk && disk[p].readable then Some(disk[p].bytes) else None
  }

  /** `filepath.Base`: the last part of a path, whatever slashes end it. */
  function Base(p: string): string
  {
    if p == "" then "."
    else if TrimSlashes(p) == "" then "/"
    else LastPart(TrimSlashes(p))
  }

  function TrimSlashes(p: string): string
  {
    if p != "" && p[|p| - 1] == '/' then TrimSlashes(p[..|p| - 1]) else p
  }

  function LastPart(p: string): string
  {
    if p == "" || p[|p| - 1] == '/' then "" else LastPart(p[..|p| - 1]) + [p[|p| - 1]]
  }

  /** A missing common state file is not reported. */
  predicate MayBeMissing(ref: SourceRef)
  {
    FoldsTo(ref.key, "stcommon") && FoldsTo(Base(ref.path), "common1.cns")
  }

  function Missing(def: Path, ref: SourceRef): seq<Diagnostic>
  {
    if MayBeMissing(ref) then [] else [Diagnostic(def, ref.span, MissingSource(ref.path))]
  }

  /** Loads the referenced sources in order, each file once, after what is loaded already. */
  function LoadRefs(env: Env, disk: Disk, def: Path, refs: seq<SourceRef>, seen: set<Path>, acc: LoadResult): LoadResult
    decreases |refs|
  {
    if refs == [] then acc
    else
      var target := env.lookup(disk.Keys, def, refs[0].path);
      if target.None? || env.dedupKey(target.value) in seen then LoadRefs(env, disk, def, refs[1..], seen, acc)
      else
        var seen' := seen + {env.dedupKey(target.value)};
        LoadRefs(env, disk, def, refs[1..], seen', AddSource(env, disk, def, refs[0], target.value, acc))
  }

  /** One source added, or its absence reported. */
  function AddSource(env: Env, disk: Disk, def: Path, ref: SourceRef, p: Path, acc: LoadResult): LoadResult
  {
    match ReadFile(disk, p)
    case None => LoadResult(acc.documents, acc.diagnostics + Missing(def, ref))
    case Some(text) =>
      var doc := Document(p, env.parse(p, text));
      LoadResult(acc.documents + [doc], acc.diagnostics + doc.parsed.diagnostics)
  }

  function Load(env: Env, disk: Disk, def: Path): LoadResult
  {
    match ReadFile(disk, def)
    case None => LoadResult([], [Diagnostic(def, 1, MissingSource(def))])
    case Some(text) =>
      var root := Document(def, env.parse(def, text));
      LoadRefs(env, disk, def, SectionsRefs(env, root.parsed.sections), {env.dedupKey(def)},
               LoadResult([root], root.parsed.diagnostics))
  }

  /** The loading loop of the source. */
  method LoadWorkspace(env: Env, disk: Disk, def: Path) returns (result: LoadResult)
    ensures result == Load(env, disk, def)
  {
    var text := ReadFile(disk, def);
    if text.None? {
      return LoadResult([], [Diagnostic(def, 1, MissingSource(def))]);
    }
    var root := Document(def, env.parse(def, text.value));
    result := LoadResult([root], root.parsed.diagnostics);
    var refs := SourceReferences(env, root.parsed.sections);
    var seen := {env.dedupKey(def)};
    assert refs[0..] == refs;
    for i := 0 to |refs|
      invariant LoadRefs(env, disk, def, refs[i..], seen, result) == Load(env, disk, def)
    {
      assert refs[i..][1..] == refs[i + 1..];
      var target := env.lookup(disk.Keys, def, refs[i].path);
      if target.None? {
        continue;
      }
      var key := env.dedupKey(target.value);
      if key in seen {
        continue;
      }
      seen := seen + {key};
      result := AddSource(env, disk, def, refs[i], target.value, result);
    }
  }

  /** The files whose documents are in a result. */
  function Loaded(r: LoadResult): set<Path> { set d | d in r.documents :: d.path }

  /** d and e have the same files, readable alike. */
  ghost predicate SameFiles(d: Disk, e: Disk)
  {
    d.Keys == e.Keys && forall p :: p in d ==> d[p].readable == e[p].readable
  }

  lemma {:induction false} LoadRefsKeeps(env: Env, disk: Disk, def: Path, refs: seq<SourceRef>, seen: set<Path>, acc: LoadResult)
    ensures Loaded(acc) <= Loaded(LoadRefs(env, disk, def, refs, seen, acc))
    decreases |refs|
  {
    if refs != [] {
      var target := env.lookup(disk.Keys, def, refs[0].path);
      if target.None? || env.dedupKey(target.value) in seen {
        LoadRefsKeeps(env, disk, def, refs[1..], seen, acc);
      } else {
        var acc' := AddSource(env, disk, def, refs[0], target.value, acc);
        assert Loaded(acc) <= Loaded(acc');
        LoadRefsKeeps(env, disk, def, refs[1..], seen + {env.dedupKey(target.value)}, acc');
      }
    }
  }

  // ---------- What a load depends on ----------

  /** The files the references lead to, each once. */
  function TriedRefs(env: Env, files: set<Path>, def: Path, refs: seq<SourceRef>, seen: set<Path>): set<Path>
    decreases |refs|
  {
    if refs == [] then {}
    else
      var target := env.lookup(files, def, refs[0].path);
      if target.None? || env.dedupKey(target.value) in seen then TriedRefs(env, files, def, refs[1..], seen)
      else {target.value} + TriedRefs(env, files, def, refs[1..], seen + {env.dedupKey(target.value)})
  }

  /** The references of the root; none when it cannot be read. */
  function RootRefs(env: Env, disk: Disk, def: Path): seq<SourceRef>
  {
    match ReadFile(disk, def)
    case None => []
    case Some(text) => SectionsRefs(env, env.parse(def, text).sections)
  }

  /** Every file a load tries to read. */
  function Tried(env: Env, disk: Disk, def: Path): set<Path>
  {
    {def} + TriedRefs(env, disk.Keys, def, RootRefs(env, disk, def), {env.dedupKey(def)})
  }

  /** The references of the root lead to the same paths on both disks. */
  ghost predicate SameLookups(env: Env, d: Disk, e: Disk, def: Path)
  {
    forall r :: r in RootRefs(env, d, def) ==> env.lookup(d.Keys, def, r.path) == env.lookup(e.Keys, def, r.path)
  }

  lemma {:induction false} TriedSame(env: Env, d: set<Path>, e: set<Path>, def: Path, refs: seq<SourceRef>, seen: set<Path>)
    requires forall r :: r in refs ==> env.lookup(d, def, r.path) == env.lookup(e, def, r.path)
    ensures TriedRefs(env, d, def, refs, seen) == TriedRefs(env, e, def, refs, seen)
    decreases |refs|
  {
    if refs != [] {
      assert refs[0] in refs;
      var target := env.lookup(d, def, refs[0].path);
      if target.None? || env.dedupKey(target.value) in seen {
        TriedSame(env, d, e, def, refs[1..], seen);
      } else {
        TriedSame(env, d, e, def, refs[1..], seen + {env.dedupKey(target.value)});
      }
    }
  }

  lemma {:induction false} LoadRefsSame(env: Env, d: Disk, e: Disk, def: Path, refs: seq<SourceRef>, seen: set<Path>, acc: LoadResult)
    requires forall r :: r in refs ==> env.lookup(d.Keys, def, r.path) == env.lookup(e.Keys, def, r.path)
    requires forall p :: p in TriedRefs(env, d.Keys, def, refs, seen) ==> ReadFile(d, p) == ReadFile(e, p)
    ensures LoadRefs(env, e, def, refs, seen, acc) == LoadRefs(env, d, def, refs, seen, acc)
    decreases |refs|
  {
    if refs != [] {
      assert refs[0] in refs;
      var target := env.lookup(d.Keys, def, refs[0].path);
      if target.None? || env.dedupKey(target.value) in seen {
        LoadRefsSame(env, d, e, def, refs[1..], seen, acc);
      } else {
        var p := target.value;
        LoadRefsSame(env, d, e, def, refs[1..], seen + {env.dedupKey(p)}, AddSource(env, d, def, refs[0], p, acc));
      }
    }
  }

  /** A file that is tried and can be read is loaded. */
  lemma {:induction false} TriedIsLoaded(env: Env, disk: Disk, def: Path, refs: seq<SourceRef>, seen: set<Path>, acc: LoadResult, p: Path)
    requires p in TriedRefs(env, disk.Keys, def, refs, seen) && ReadFile(disk, p).Some?
    ensures p in Loaded(LoadRefs(env, disk, def, refs, seen, acc))
    decreases |refs|
  {
    var target := env.lookup(disk.Keys, def, refs[0].path);
    if target.None? || env.dedupKey(target.value) in seen {
      TriedIsLoaded(env, disk, def, refs[1..], seen, acc, p);
    } else {
      var seen', acc' := seen + {env.dedupKey(target.value)}, AddSource(env, disk, def, refs[0], target.value, acc);
      if p == target.value {
        var doc := Document(p, env.parse(p, ReadFile(disk, p).value));
        assert acc'.documents[|acc.documents|] == doc && p in Loaded(acc');
        LoadRefsKeeps(env, disk, def, refs[1..], seen', acc');
      } else {
        TriedIsLoaded(env, disk, def, refs[1..], seen', acc', p);
      }
    }
  }

  lemma LoadedIfReadable(env: Env, disk: Disk, def: Path, p: Path)
    requires p in Tried(env, disk, def) && ReadFile(disk, def).Some? && ReadFile(disk, p).Some?
    ensures p in Loaded(Load(env, disk, def))
  {
    var root := Document(def, env.parse(def, ReadFile(disk, def).value));
    var acc, refs, seen := LoadResult([root], root.parsed.diagnostics), RootRefs(env, disk, def), {env.dedupKey(def)};
    if p == def {
      assert acc.documents[0].path == def && def in Loaded(acc);
      LoadRefsKeeps(env, disk, def, refs, seen, acc);
    } else {
      TriedIsLoaded(env, disk, def, refs, seen, acc, p);
    }
  }

  /** The files a load tried and could not read. */
  function Unread(env: Env, disk: Disk, def: Path): set<Path>
  {
    set p | p in Tried(env, disk, def) && ReadFile(disk, p).None?
  }

  /** What a load depends on: with the loaded files and the lookups unchanged, it changes exactly when an unread file can be read. */
  lemma LoadChangesIff(env: Env, d: Disk, e: Disk, def: Path)
    requires SameLookups(env, d, e, def)
    requires forall p :: p in Loaded(Load(env, d, def)) ==> ReadFile(d, p) == ReadFile(e, p)
    ensures Load(env, e, def) != Load(env, d, def) <==> exists p :: p in Unread(env, d, def) && ReadFile(e, p).Some?
    ensures Load(env, e, def) != Load(env, d, def) ==> Loaded(Load(env, e, def)) != Loaded(Load(env, d, def))
  {
    LoadReadable(env, d, def);
    if ReadFile(d, def).None? {
      assert def in Unread(env, d, def) && Tried(env, d, def) == {def};
      if ReadFile(e, def).Some? {
        LoadedIfReadable(env, e, def, def);
      }
    } else {
      LoadedIfReadable(env, d, def, def);
      TriedSame(env, d.Keys, e.Keys, def, RootRefs(env, d, def), {env.dedupKey(def)});
      assert Tried(env, d, def) == Tried(env, e, def);
      if p :| p in Unread(env, d, def) && ReadFile(e, p).Some? {
        LoadedIfReadable(env, e, def, p);
      } else {
        forall p | p in Tried(env, d, def) ensures ReadFile(d, p) == ReadFile(e, p) {
          if ReadFile(d, p).Some? {
            LoadedIfReadable(env, d, def, p);
          }
        }
        var root := Document(def, env.parse(def, ReadFile(d, def).value));
        LoadRefsSame(env, d, e, def, RootRefs(env, d, def), {env.dedupKey(def)}, LoadResult([root], root.parsed.diagnostics));
      }
    }
  }

  /** A load depends only on which files exist and on the bytes of the documents it loads. */
  lemma LoadIsLocal(env: Env, d: Disk, e: Disk, def: Path)
    requires SameFiles(d, e)
    requires forall p :: p in Loaded(Load(env, d, def)) ==> ReadFile(d, p) == ReadFile(e, p)
    ensures Load(env, e, def) == Load(env, d, def)
  {
    LoadChangesIff(env, d, e, def);
  }

  /** Every loaded document was read from a readable file. */
  lemma {:induction false} LoadRefsReadable(env: Env, disk: Disk, def: Path, refs: seq<SourceRef>, seen: set<Path>, acc: LoadResult)
    requires forall p :: p in Loaded(acc) ==> ReadFile(disk, p).Some?
    ensures forall p :: p in Loaded(LoadRefs(env, disk, def, refs, seen, acc)) ==> ReadFile(disk, p).Some?
    decreases |refs|
  {
    if refs != [] {
      var target := env.lookup(disk.Keys, def, refs[0].path);
      if target.None? || env.dedupKey(target.value) in seen {
        LoadRefsReadable(env, disk, def, refs[1..], seen, acc);
      } else {
        var acc' := AddSource(env, disk, def, refs[0], target.value, acc);
        forall p | p in Loaded(acc') ensures ReadFile(disk, p).Some? {
          var doc :| doc in acc'.documents && doc.path == p;
          assert doc in acc.documents || doc.path == target.value;
        }
        LoadRefsReadable(env, disk, def, refs[1..], seen + {env.dedupKey(target.value)}, acc');
      }
    }
  }

  lemma LoadReadable(env: Env, disk: Disk, def: Path)
    ensures forall p :: p in Loaded(Load(env, disk, def)) ==> ReadFile(disk, p).Some?
  {
    if ReadFile(disk, def).Some? {
      var root := Document(def, env.parse(def, ReadFile(disk, def).value));
      LoadRefsReadable(env, disk, def, SectionsRefs(env, root.parsed.sections), {env.dedupKey(def)},
                       LoadResult([root], root.parsed.diagnostics));
    }
  }

  // ---------- Where references may lead elsewhere ----------

  /** The paths of the loaded documents, in order. */
  function LoadedPaths(r: LoadResult): (paths: seq<Path>)
    ensures |paths| == |r.documents| && forall i :: 0 <= i < |paths| ==> paths[i] == r.documents[i].path
  {
    seq(|r.documents|, i requires 0 <= i < |r.documents| => r.documents[i].path)
  }

  /** Every document is what the parser makes of its file on that disk. */
  ghost predicate AreParsed(env: Env, disk: Disk, documents: seq<Document>)
  {
    forall d :: d in documents ==> ReadFile(disk, d.path).Some? && d.parsed == env.parse(d.path, ReadFile(disk, d.path).value)
  }

  lemma {:induction false} LoadRefsParsed(env: Env, disk: Disk, def: Path, refs: seq<SourceRef>, seen: set<Path>, acc: LoadResult)
    requires AreParsed(env, disk, acc.documents)
    ensures AreParsed(env, disk, LoadRefs(env, disk, def, refs, seen, acc).documents)
    decreases |refs|
  {
    if refs != [] {
      var target := env.lookup(disk.Keys, def, refs[0].path);
      if target.None? || env.dedupKey(target.value) in seen {
        LoadRefsParsed(env, disk, def, refs[1..], seen, acc);
      } else {
        var acc' := AddSource(env, disk, def, refs[0], target.value, acc);
        LoadRefsParsed(env, disk, def, refs[1..], seen + {env.dedupKey(target.value)}, acc');
      }
    }
  }

  lemma LoadParsed(env: Env, disk: Disk, def: Path)
    ensures AreParsed(env, disk, Load(env, disk, def).documents)
  {
    if ReadFile(disk, def).Some? {
      var root := Document(def, env.parse(def, ReadFile(disk, def).value));
      LoadRefsParsed(env, disk, def, SectionsRefs(env, root.parsed.sections), {env.dedupKey(def)},
                     LoadResult([root], root.parsed.diagnostics));
    }
  }

  /**
   Whatever became of the other files: when the loaded ones still read the same, two
   loads are equal exactly when they load the same paths, in order, and report the same.
   */
  lemma LoadSameIff(env: Env, d: Disk, e: Disk, def: Path)
    requires forall p :: p in Loaded(Load(env, d, def)) ==> ReadFile(d, p) == ReadFile(e, p)
    ensures Load(env, d, def) == Load(env, e, def) <==>
      && LoadedPaths(Load(env, d, def)) == LoadedPaths(Load(env, e, def))
      && Load(env, d, def).diagnostics == Load(env, e, def).diagnostics
  {
    hide Load;
    var a, b := Load(env, d, def), Load(env, e, def);
    LoadParsed(env, d, def);
    LoadParsed(env, e, def);
    if LoadedPaths(a) == LoadedPaths(b) {
      forall i | 0 <= i < |a.documents| ensures a.documents[i] == b.documents[i] {
        assert LoadedPaths(a)[i] == LoadedPaths(b)[i];
        assert a.documents[i] in a.documents && b.documents[i] in b.documents;
        assert a.documents[i].path in Loaded(a);
      }
    }
  }
}
