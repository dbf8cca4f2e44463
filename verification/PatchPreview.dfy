/** A preview over many files: the edits grouped by canonical path, the files taken in path order. */
module PatchPreview {
  import opened Wrappers
  import opened Text
  import opened Ordering
  import opened Hashing
  import opened PatchPaths
  import opened PatchEdits

  type Texts = map<string, Bytes>

  /** The edits of one file, in listing order. */
  function Group(edits: seq<Edit>, path: string): seq<Edit>
  {
    if edits == [] then []
    else Part(edits[0], path) + Group(edits[1..], path)
  }

  ghost predicate AllCanonical(edits: seq<Edit>)
  {
    forall e :: e in edits ==> CanonicalRelative(e.path).Some?
  }

  /** The files a patch touches. */
  ghost function Paths(edits: seq<Edit>): set<string>
    requires AllCanonical(edits)
  {
    set e | e in edits :: CanonicalRelative(e.path).value
  }

  /** The text of the file a path names. */
  function Located(root: Root, disk: Texts, path: string): Result<Bytes, PatchError>
  {
    match ResolvePath(root, path)
    case Err(Escape) => Err(PathEscape)
    case Err(NoRoot) => Err(Unreadable)
    case Ok(name) => if name in disk then Ok(disk[name]) else Err(Unreadable)
  }

  ghost function PreviewFile(root: Root, disk: Texts, edits: seq<Edit>, path: string): Result<FilePreview, PatchError>
  {
    match Located(root, disk, path)
    case Err(e) => Err(e)
    case Ok(original) =>
      match Patched(original, Group(edits, path))
      case Err(e) => Err(e)
      case Ok(bytes) => Ok(FilePreview(path, Digest(original), Digest(bytes), bytes))
  }

  /** The previews of the listed files, or the first error among them. */
  ghost function PreviewAll(root: Root, disk: Texts, edits: seq<Edit>, paths: seq<string>): Result<seq<FilePreview>, PatchError>
  {
    if paths == [] then Ok([])
    else match PreviewFile(root, disk, edits, paths[0])
      case Err(e) => Err(e)
      case Ok(f) =>
        match PreviewAll(root, disk, edits, paths[1..])
        case Err(e) => Err(e)
        case Ok(fs) => Ok([f] + fs)
  }

  ghost function Prepared(root: Root, disk: Texts, edits: seq<Edit>): Result<seq<FilePreview>, PatchError>
  {
    if TrimSpace(root.given) == "" || !AllCanonical(edits) then Err(PathEscape)
    else PreviewAll(root, disk, edits, Listing(Paths(edits)))
  }

  /** `prepare`: groups the edits in a map, sorts its keys, previews file after file. */
  method Prepare(root: Root, disk: Texts, edits: seq<Edit>) returns (r: Result<seq<FilePreview>, PatchError>)
    ensures r == Prepared(root, disk, edits)
  {
    if TrimSpace(root.given) == "" {
      return Err(PathEscape);
    }
    var groups := GroupEdits(edits);
    if groups.None? {
      return Err(PathEscape);
    }
    var paths := SortedKeys(groups.value.Keys);
    r := PreviewListed(root, disk, edits, groups.value, paths);
  }

  /** The edits by canonical path; None when some path has no canonical form. */
  method GroupEdits(edits: seq<Edit>) returns (groups: Option<map<string, seq<Edit>>>)
    ensures groups.Some? <==> AllCanonical(edits)
    ensures groups.Some? ==> Grouped(edits, groups.value)
  {
    var m: map<string, seq<Edit>> := map[];
    for i := 0 to |edits|
      invariant Grouped(edits[..i], m)
    {
      assert edits[..i + 1] == edits[..i] + [edits[i]];
      var path := CanonicalRelative(edits[i].path);
      if path.None? {
        assert edits[i] in edits;
        return None;
      }
      var next := m[path.value := (if path.value in m then m[path.value] else []) + [edits[i]]];
      OneMore(edits[..i], edits[i], path.value, m, next);
      m := next;
    }
    assert edits[..|edits|] == edits;
    return Some(m);
  }

  /** m holds the groups of the edits, all of which have a canonical path. */
  ghost predicate Grouped(edits: seq<Edit>, m: map<string, seq<Edit>>)
  {
    AllCanonical(edits) && m.Keys == Paths(edits) && forall p :: p in m ==> m[p] == Group(edits, p)
  }

  lemma PathsGrow(edits: seq<Edit>, e: Edit)
    requires AllCanonical(edits) && CanonicalRelative(e.path).Some?
    ensures AllCanonical(edits + [e])
    ensures Paths(edits + [e]) == Paths(edits) + {CanonicalRelative(e.path).value}
  {
    assert forall x :: x in edits + [e] <==> x in edits || x == e;
    assert e in edits + [e];
    forall p | p in Paths(edits) ensures p in Paths(edits + [e]) {
      var x :| x in edits && CanonicalRelative(x.path).value == p;
      assert x in edits + [e];
    }
  }

  /** What adding edit e, of path q, does to the groups m of the edits before it. */
  lemma OneMore(done: seq<Edit>, e: Edit, q: string, m: map<string, seq<Edit>>, m': map<string, seq<Edit>>)
    requires Grouped(done, m) && CanonicalRelative(e.path) == Some(q)
    requires m' == m[q := (if q in m then m[q] else []) + [e]]
    ensures Grouped(done + [e], m')
  {
    PathsGrow(done, e);
    assert m'.Keys == m.Keys + {q};
    forall p | p in m' ensures m'[p] == Group(done + [e], p) {
      GroupGrows(done, e, p);
      if p == q {
        GroupAbsent(done, q);
      } else {
        assert Group(done, p) + [] == Group(done, p);
      }
    }
  }

  method PreviewListed(root: Root, disk: Texts, ghost edits: seq<Edit>, groups: map<string, seq<Edit>>, paths: seq<string>)
    returns (r: Result<seq<FilePreview>, PatchError>)
    requires forall p :: p in groups ==> groups[p] == Group(edits, p)
    requires forall p :: p in paths ==> p in groups
    ensures r == PreviewAll(root, disk, edits, paths)
  {
    var out: seq<FilePreview> := [];
    PrefixedNone(PreviewAll(root, disk, edits, paths));
    assert paths[0..] == paths;
    for i := 0 to |paths|
      invariant PreviewAll(root, disk, edits, paths) == Prefixed(out, PreviewAll(root, disk, edits, paths[i..]))
    {
      assert paths[i..][1..] == paths[i + 1..];
      var path := paths[i];
      var original := Located(root, disk, path);
      if original.Err? {
        return Err(original.error);
      }
      var bytes := PatchFile(original.value, groups[path]);
      if bytes.Err? {
        return Err(bytes.error);
      }
      var f := FilePreview(path, Digest(original.value), Digest(bytes.value), bytes.value);
      PrefixedStep(out, f, PreviewAll(root, disk, edits, paths[i + 1..]));
      out := out + [f];
    }
    assert out + [] == out;
    return Ok(out);
  }

  ghost function Prefixed(done: seq<FilePreview>, r: Result<seq<FilePreview>, PatchError>): Result<seq<FilePreview>, PatchError>
  {
    match r
    case Err(e) => Err(e)
    case Ok(fs) => Ok(done + fs)
  }

  lemma PrefixedNone(r: Result<seq<FilePreview>, PatchError>)
    ensures Prefixed([], r) == r
  {
    if r.Ok? {
      assert [] + r.value == r.value;
    }
  }

  lemma PrefixedStep(done: seq<FilePreview>, f: FilePreview, r: Result<seq<FilePreview>, PatchError>)
    ensures r.Ok? ==> Prefixed(done, Ok([f] + r.value)) == Prefixed(done + [f], r)
  {
    if r.Ok? {
      assert done + ([f] + r.value) == (done + [f]) + r.value;
    }
  }

  /** The part an edit has in the group of a path. */
  function Part(e: Edit, path: string): seq<Edit>
  {
    if CanonicalRelative(e.path) == Some(path) then [e] else []
  }

  lemma {:induction false} GroupGrows(edits: seq<Edit>, e: Edit, path: string)
    ensures Group(edits + [e], path) == Group(edits, path) + Part(e, path)
  {
    hide CanonicalRelative;
    if edits == [] {
      assert [e][1..] == [];
      assert Part(e, path) + [] == Part(e, path);
    } else {
      GroupGrows(edits[1..], e, path);
      assert (edits + [e])[1..] == edits[1..] + [e];
    }
  }

  lemma {:induction false} GroupAbsent(edits: seq<Edit>, path: string)
    requires AllCanonical(edits)
    ensures path !in Paths(edits) ==> Group(edits, path) == []
  {
    if edits != [] {
      assert edits == [edits[0]] + edits[1..];
      assert edits[0] in edits;
      GroupAbsent(edits[1..], path);
    }
  }

  /** The previews are those of the listed paths, in their order: each file's text with its edits spliced in. */
  lemma {:induction false} PreviewPaths(root: Root, disk: Texts, edits: seq<Edit>, paths: seq<string>)
    requires PreviewAll(root, disk, edits, paths).Ok?
    ensures var fs := PreviewAll(root, disk, edits, paths).value;
      |fs| == |paths| && forall i :: 0 <= i < |fs| ==> IsPreview(root, disk, edits, paths[i], fs[i])
    decreases |paths|
  {
    hide Patched, Group;
    if paths != [] {
      PreviewPaths(root, disk, edits, paths[1..]);
      if Located(root, disk, paths[0]).Ok? {
        AcceptedHashes(Located(root, disk, paths[0]).value, Group(edits, paths[0]));
      }
    }
  }

  /** Every edit of an accepted group carries the hash of the original. */
  lemma AcceptedHashes(original: Bytes, es: seq<Edit>)
    requires Patched(original, es).Ok?
    ensures forall e :: e in es ==> e.contentHash == Sha256(original)
  {
    FirstErrorSound(original, es);
  }

  /** f is the preview of the file at `path`: its text with the edits spliced in, the hash before, which every edit carries, and the one after. */
  ghost predicate IsPreview(root: Root, disk: Texts, edits: seq<Edit>, path: string, f: FilePreview)
  {
    var original := Located(root, disk, path);
    && f.path == path && original.Ok? && Patched(original.value, Group(edits, path)) == Ok(f.bytes)
    && f.oldHash == Sha256(original.value) && f.newHash == Sha256(f.bytes)
    && forall e :: e in Group(edits, path) ==> e.contentHash == f.oldHash
  }

  lemma {:induction false} InGroup(edits: seq<Edit>, e: Edit, path: string)
    ensures e in Group(edits, path) <==> e in edits && CanonicalRelative(e.path) == Some(path)
  {
    hide CanonicalRelative;
    if edits != [] {
      InGroup(edits[1..], e, path);
      assert edits == [edits[0]] + edits[1..];
    }
  }

  /** Every preview of an accepted patch names one of its files and is its preview. */
  lemma PreviewOf(root: Root, disk: Texts, edits: seq<Edit>, f: FilePreview)
    requires Prepared(root, disk, edits).Ok? && f in Prepared(root, disk, edits).value
    ensures f.path in Paths(edits) && IsPreview(root, disk, edits, f.path, f)
    ensures forall e :: e in edits && CanonicalRelative(e.path) == Some(f.path) ==> e.contentHash == f.oldHash
  {
    hide PreviewAll, Paths, Listing, Group, Patched, CanonicalRelative, Located;
    var fs, paths := Prepared(root, disk, edits).value, Listing(Paths(edits));
    PreviewPaths(root, disk, edits, paths);
    var i :| 0 <= i < |fs| && fs[i] == f;
    assert paths[i] in paths;
    assert IsPreview(root, disk, edits, paths[i], fs[i]);
    forall e | e in edits && CanonicalRelative(e.path) == Some(f.path) ensures e.contentHash == f.oldHash {
      InGroup(edits, e, f.path);
    }
  }

  /**
   Once the patch is on the disk, an edit of a file it changed passes the hash check
   exactly when it carries the hash the preview gives as the new one.
   */
  lemma NextPatchHash(root: Root, disk: Texts, edits: seq<Edit>, f: FilePreview, after: Texts, e: Edit)
    requires Prepared(root, disk, edits).Ok? && f in Prepared(root, disk, edits).value
    requires ResolvePath(root, f.path).Ok?
    requires ResolvePath(root, f.path).value in after && after[ResolvePath(root, f.path).value] == f.bytes
    requires CanonicalRelative(e.path) == Some(f.path)
    ensures Prepared(root, after, [e]) != Err(StaleHash) <==> e.contentHash == f.newHash
  {
    hide PreviewAll, Paths, Listing, CanonicalRelative, ResolvePath, Patched;
    PreviewOf(root, disk, edits, f);
    PreviewOne(root, after, e, f.path);
    StaleIff(f.bytes, e);
    assert [e][1..] == [] && Group([e][1..], f.path) == [];
    assert Group([e], f.path) == [e] + [] == [e];
  }

  /** An edit on its own is stale exactly when it does not carry the hash of the original. */
  lemma StaleIff(original: Bytes, e: Edit)
    ensures Patched(original, [e]) == Err(StaleHash) <==> e.contentHash != Sha256(original)
  {
    hide SortEdits, Interleave, Adjacent;
    assert FirstError(original, [e][1..]) == None;
  }

  /** A patch of one edit is the preview of its one file. */
  lemma PreviewOne(root: Root, disk: Texts, e: Edit, path: string)
    requires CanonicalRelative(e.path) == Some(path) && TrimSpace(root.given) != ""
    ensures Prepared(root, disk, [e]) == match PreviewFile(root, disk, [e], path)
      case Err(x) => Err(x)
      case Ok(f) => Ok([f])
  {
    hide PreviewFile, CanonicalRelative, TrimSpace;
    assert Paths([e]) == {path};
    assert StrictlySorted([path]);
    StrictlySortedUnique([path], Listing({path}));
    assert [path][1..] == [] && PreviewAll(root, disk, [e], [path][1..]) == Ok([]);
    var r := PreviewFile(root, disk, [e], path);
    assert r.Ok? ==> [r.value] + [] == [r.value];
    assert e in [e] && AllCanonical([e]);
  }

  /** An accepted patch previews every file it touches once, in increasing path order. */
  lemma PreparedDistinct(root: Root, disk: Texts, edits: seq<Edit>)
    requires Prepared(root, disk, edits).Ok?
    ensures var fs := Prepared(root, disk, edits).value;
      StrictlySorted(seq(|fs|, i requires 0 <= i < |fs| => fs[i].path))
  {
    hide PreviewAll, Paths, Listing, StrictlySorted;
    PreviewPaths(root, disk, edits, Listing(Paths(edits)));
    var fs := Prepared(root, disk, edits).value;
    assert seq(|fs|, i requires 0 <= i < |fs| => fs[i].path) == Listing(Paths(edits));
  }

  ghost predicate FileAccepted(root: Root, disk: Texts, edits: seq<Edit>, path: string)
  {
    var original := Located(root, disk, path);
    original.Ok? && Patched(original.value, Group(edits, path)).Ok?
  }

  lemma {:induction false} PreviewAllOk(root: Root, disk: Texts, edits: seq<Edit>, paths: seq<string>)
    ensures PreviewAll(root, disk, edits, paths).Ok? <==> forall p :: p in paths ==> FileAccepted(root, disk, edits, p)
    decreases |paths|
  {
    hide Patched, Group, Located;
    if paths != [] {
      PreviewAllOk(root, disk, edits, paths[1..]);
      assert paths == [paths[0]] + paths[1..];
      assert paths[0] in paths && PreviewFile(root, disk, edits, paths[0]).Ok? == FileAccepted(root, disk, edits, paths[0]);
    }
  }

  /** A patch is accepted exactly when all its paths are canonical and each of its files is, whatever the other files are. */
  lemma PreparedOkIff(root: Root, disk: Texts, edits: seq<Edit>)
    ensures Prepared(root, disk, edits).Ok? <==>
      && TrimSpace(root.given) != "" && AllCanonical(edits)
      && forall p :: p in Paths(edits) ==> FileAccepted(root, disk, edits, p)
  {
    hide PreviewAll, Paths, AllCanonical, FileAccepted;
    if AllCanonical(edits) {
      PreviewAllOk(root, disk, edits, Listing(Paths(edits)));
    }
  }

  /** Why the file a path names is refused: the path leads out of the root, the file cannot be read, or its edits are refused. */
  ghost function Refusal(root: Root, disk: Texts, edits: seq<Edit>, path: string): PatchError
    requires !FileAccepted(root, disk, edits, path)
  {
    var name := ResolvePath(root, path);
    if name == Err(Escape) then PathEscape
    else if name.Err? || name.value !in disk then Unreadable
    else Patched(disk[name.value], Group(edits, path)).error
  }

  lemma {:induction false} FirstRefused(root: Root, disk: Texts, edits: seq<Edit>, paths: seq<string>, i: nat)
    requires i < |paths| && !FileAccepted(root, disk, edits, paths[i])
    requires forall j :: 0 <= j < i ==> FileAccepted(root, disk, edits, paths[j])
    ensures PreviewAll(root, disk, edits, paths) == Err(Refusal(root, disk, edits, paths[i]))
    decreases i
  {
    hide Patched, Group, ResolvePath;
    if i > 0 {
      assert FileAccepted(root, disk, edits, paths[0]);
      FirstRefused(root, disk, edits, paths[1..], i - 1);
    }
  }

  /** A path without a canonical form refuses the patch before any file is read; else the first refused file, in path order, decides. */
  lemma PreparedRefused(root: Root, disk: Texts, edits: seq<Edit>, i: nat)
    ensures TrimSpace(root.given) == "" || !AllCanonical(edits) ==> Prepared(root, disk, edits) == Err(PathEscape)
    ensures TrimSpace(root.given) != "" && AllCanonical(edits) ==>
      var paths := Listing(Paths(edits));
      i < |paths| && !FileAccepted(root, disk, edits, paths[i])
      && (forall j :: 0 <= j < i ==> FileAccepted(root, disk, edits, paths[j])) ==>
        Prepared(root, disk, edits) == Err(Refusal(root, disk, edits, paths[i]))
  {
    hide PreviewAll, Paths, FileAccepted, Refusal, TrimSpace, AllCanonical, Listing;
    if TrimSpace(root.given) != "" && AllCanonical(edits) {
      var paths := Listing(Paths(edits));
      if i < |paths| && !FileAccepted(root, disk, edits, paths[i]) && forall j :: 0 <= j < i ==> FileAccepted(root, disk, edits, paths[j]) {
        FirstRefused(root, disk, edits, paths, i);
      }
    }
  }

  // ---------- Two paths of one file ----------

  /** The file a canonical path names: the path is made canonical once more when it is resolved. */
  function NameOf(path: string): string
  {
    match CanonicalRelative(path)
    case Some(name) => name
    case None => path
  }

  /** No two groups of the patch name the same file. */
  ghost predicate OneFileEach(edits: seq<Edit>)
    requires AllCanonical(edits)
  {
    forall p, q :: p in Paths(edits) && q in Paths(edits) && NameOf(p) == NameOf(q) ==> p == q
  }

  /** Which is so when no canonical path of the patch begins or ends with white space. */
  lemma TrimmedPathsSuffice(edits: seq<Edit>)
    requires AllCanonical(edits) && forall p :: p in Paths(edits) ==> TrimSpace(p) == p
    ensures OneFileEach(edits)
  {
    hide CanonicalRelative, TrimSpace;
    forall p | p in Paths(edits) ensures NameOf(p) == p {
      var e :| e in edits && CanonicalRelative(e.path) == Some(p);
      CanonicalTwiceIff(e.path);
    }
  }

  // ---------- Order of listing ----------

  lemma {:induction false} GroupMultiset(edits: seq<Edit>, path: string, e: Edit)
    ensures multiset(Group(edits, path))[e] ==
      if CanonicalRelative(e.path) == Some(path) then multiset(edits)[e] else 0
  {
    if edits != [] {
      GroupMultiset(edits[1..], path, e);
      assert edits == [edits[0]] + edits[1..];
    }
  }

  lemma GroupOrderFree(a: seq<Edit>, b: seq<Edit>, path: string)
    requires multiset(a) == multiset(b)
    ensures multiset(Group(a, path)) == multiset(Group(b, path))
  {
    forall e ensures multiset(Group(a, path))[e] == multiset(Group(b, path))[e] {
      GroupMultiset(a, path, e);
      GroupMultiset(b, path, e);
    }
  }

  lemma {:induction false} PreviewAllOrderFree(root: Root, disk: Texts, a: seq<Edit>, b: seq<Edit>, paths: seq<string>)
    requires multiset(a) == multiset(b)
    ensures PreviewAll(root, disk, a, paths).Ok? == PreviewAll(root, disk, b, paths).Ok?
    ensures PreviewAll(root, disk, a, paths).Ok? ==> PreviewAll(root, disk, a, paths) == PreviewAll(root, disk, b, paths)
    decreases |paths|
  {
    if paths != [] {
      PreviewAllOrderFree(root, disk, a, b, paths[1..]);
      GroupOrderFree(a, b, paths[0]);
      if Located(root, disk, paths[0]).Ok? {
        PatchedOrderFree(Located(root, disk, paths[0]).value, Group(a, paths[0]), Group(b, paths[0]));
      }
    }
  }

  /** A patch is accepted, and previewed to the same files, hashes and bytes, in whatever order its edits are listed. */
  lemma PreparedOrderFree(root: Root, disk: Texts, a: seq<Edit>, b: seq<Edit>)
    requires multiset(a) == multiset(b)
    ensures Prepared(root, disk, a).Ok? == Prepared(root, disk, b).Ok?
    ensures Prepared(root, disk, a).Ok? ==> Prepared(root, disk, a) == Prepared(root, disk, b)
  {
    hide PreviewAll, CanonicalRelative;
    assert forall e :: e in a <==> e in multiset(a);
    assert forall e :: e in b <==> e in multiset(b);
    if AllCanonical(a) && AllCanonical(b) {
      assert Paths(a) == Paths(b);
      PreviewAllOrderFree(root, disk, a, b, Listing(Paths(a)));
    }
  }
}
