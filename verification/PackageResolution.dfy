/**
 Resolving state and command references across the documents of a workspace.
 Definitions are scoped by package: the deepest directory of a definition file
 that contains the source.  Paths are absolute, clean lists of segments.
 */
module PackageResolution {
  import opened Wrappers
  import opened Text
  import opened LetterCase
  import opened Ordering

  type Path = seq<string>

  ghost predicate CleanPath(p: Path) { forall i :: 0 <= i < |p| ==> p[i] != "" }

  function LowerPath(p: Path): (r: Path)
    ensures |r| == |p| && forall i :: 0 <= i < |p| ==> r[i] == ToLower(p[i])
  {
    seq(|p|, i requires 0 <= i < |p| => ToLower(p[i]))
  }

  function PathText(p: Path): string
  {
    if p == [] then "" else "/" + p[0] + PathText(p[1..])
  }

  /** The path as written; the root directory is a single slash. */
  function PathString(p: Path): string { if p == [] then "/" else PathText(p) }

  function Dir(p: Path): Path { if p == [] then [] else p[..|p| - 1] }

  /** A path names its directory and, after a slash, its last segment. */
  lemma {:induction false} PathTextGrows(dir: Path, name: string)
    ensures PathText(dir + [name]) == PathText(dir) + "/" + name
    ensures PathString(dir + [name]) == (if dir == [] then "" else PathString(dir)) + "/" + name
    ensures Dir(dir + [name]) == dir && PathString([]) == "/"
  {
    if dir == [] {
      assert dir + [name] == [name] && [name][1..] == [];
      assert "/" + name + "" == "/" + name;
      assert "" + "/" + name == "/" + name;
    } else {
      PathTextGrows(dir[1..], name);
      assert (dir + [name])[1..] == dir[1..] + [name];
      assert ("/" + dir[0] + PathText(dir[1..])) + "/" + name == "/" + dir[0] + (PathText(dir[1..]) + "/" + name);
    }
  }

  // ---------- Documents ----------

  datatype SymbolKind = StateDef | StateController | CommandSymbol

  datatype Symbol = Symbol(kind: SymbolKind, name: string, line: nat, column: nat, id: string)

  datatype ReferenceKind = StateReference | CommandReference | OtherReference

  datatype Reference = Reference(kind: ReferenceKind, id: string, target: string, sourceSymbol: string, line: nat, isDynamic: bool)

  datatype Document = Document(path: Path, symbols: seq<Symbol>, references: seq<Reference>)

  datatype Indexed = Indexed(path: Path, symbol: Symbol)

  datatype Code =
    | DynamicReference | UndefinedState | AmbiguousState | UndefinedCommand | DuplicateDefinition

  datatype Diagnostic = Diagnostic(path: Path, line: nat, code: Code, related: string)

  datatype Classification = Exact | Ambiguous | Invalid | Dynamic

  datatype Resolution = Resolution(
    referenceId: string,
    sourcePath: Path,
    classification: Classification,
    target: Option<Indexed>,
    isDynamic: bool)

  // ---------- Package roots ----------

  /** `strings.EqualFold(filepath.Ext(path), ".def")`; no letter beyond ASCII folds to one of these. */
  predicate IsDefinitionFile(p: Path)
  {
    p != [] && var name := Lower(p[|p| - 1]); |name| >= 4 && name[|name| - 4..] == ".def"
  }

  /** A file is a definition file exactly when the last four bytes of its name are `.def` in any letter case. */
  lemma DefinitionFiles(dir: Path, stem: string, end: string)
    requires |end| == 4 || (|end| < 4 && stem == "")
    ensures IsDefinitionFile(dir + [stem + end]) <==> Lower(end) == ".def"
    ensures !IsDefinitionFile([])
  {
    var name := stem + end;
    assert Lower(name)[|stem|..] == Lower(end);
    assert (dir + [name])[|dir|] == name;
  }

  /** Longest first, then in byte order. */
  predicate RootLe(a: Path, b: Path)
  {
    |PathString(a)| > |PathString(b)| || (|PathString(a)| == |PathString(b)| && LexLe(PathString(a), PathString(b)))
  }

  lemma RootOrder()
    ensures TotalPreorder(RootLe)
  {
    forall a, b ensures RootLe(a, b) || RootLe(b, a) {
      LexTotal(PathString(a), PathString(b));
    }
    forall a, b, c | RootLe(a, b) && RootLe(b, c) ensures RootLe(a, c) {
      if |PathString(a)| == |PathString(b)| == |PathString(c)| {
        LexTransitive(PathString(a), PathString(b), PathString(c));
      }
    }
  }

  /** The directories of definition files, compared without case. */
  ghost function RootKeys(docs: seq<Document>): set<Path>
  {
    set d | d in docs && IsDefinitionFile(d.path) :: LowerPath(Dir(d.path))
  }

  ghost function KeysOf(roots: seq<Path>): set<Path> { set r | r in roots :: LowerPath(r) }

  /** No two roots differ in letter case only. */
  ghost predicate DistinctKeys(roots: seq<Path>)
  {
    forall i, j :: 0 <= i < j < |roots| ==> LowerPath(roots[i]) != LowerPath(roots[j])
  }

  ghost predicate IsRoot(docs: seq<Document>, r: Path)
  {
    exists d :: d in docs && IsDefinitionFile(d.path) && Dir(d.path) == r
  }

  /** Every package root once, up to letter case, the longest first. */
  ghost predicate AreRoots(docs: seq<Document>, roots: seq<Path>)
  {
    && KeysOf(roots) == RootKeys(docs) && DistinctKeys(roots) && Sorted(roots, RootLe)
    && forall r :: r in roots ==> IsRoot(docs, r)
  }

  method PackageRoots(docs: seq<Document>) returns (roots: seq<Path>)
    ensures AreRoots(docs, roots)
  {
    hide Collected, RootLe;
    roots := [];
    var seen: set<Path> := {};
    NothingCollected();
    for i := 0 to |docs|
      invariant seen == KeysOf(roots) && Collected(docs[..i], roots)
    {
      CollectedGrows(docs[..i], docs[i], roots);
      assert docs[..i + 1] == docs[..i] + [docs[i]];
      if IsDefinitionFile(docs[i].path) {
        var root := Dir(docs[i].path);
        if LowerPath(root) !in seen {
          seen := seen + {LowerPath(root)};
          roots := roots + [root];
        }
      }
    }
    assert docs[..|docs|] == docs;
    RootOrder();
    SortBySorted(roots, RootLe);
    SortedCollected(docs, roots, SortBy(roots, RootLe));
    roots := SortBy(roots, RootLe);
  }

  ghost predicate Collected(docs: seq<Document>, roots: seq<Path>)
  {
    KeysOf(roots) == RootKeys(docs) && DistinctKeys(roots) && forall r :: r in roots ==> IsRoot(docs, r)
  }

  lemma NothingCollected()
    ensures Collected([], []) && KeysOf([]) == {}
  {
  }

  /** What one more document does to the list of roots. */
  lemma CollectedGrows(docs: seq<Document>, d: Document, roots: seq<Path>)
    requires Collected(docs, roots)
    ensures var root := Dir(d.path);
      if IsDefinitionFile(d.path) && LowerPath(root) !in KeysOf(roots) then
        Collected(docs + [d], roots + [root]) && KeysOf(roots + [root]) == KeysOf(roots) + {LowerPath(root)}
      else Collected(docs + [d], roots)
  {
    hide IsDefinitionFile, Dir, LowerPath;
    KeysGrow(docs, d, roots);
    assert d in docs + [d];
    assert forall x :: x in docs ==> x in docs + [d];
    forall r | IsRoot(docs, r) ensures IsRoot(docs + [d], r) {
    }
    if IsDefinitionFile(d.path) {
      assert IsRoot(docs + [d], Dir(d.path));
      if LowerPath(Dir(d.path)) !in KeysOf(roots) {
        KeysDistinct(roots, Dir(d.path));
      }
    }
  }

  lemma SortedCollected(docs: seq<Document>, roots: seq<Path>, sorted: seq<Path>)
    requires Collected(docs, roots) && multiset(roots) == multiset(sorted) && Sorted(sorted, RootLe)
    ensures AreRoots(docs, sorted)
  {
    hide RootLe, LowerPath, IsRoot;
    SameElements(roots, sorted);
    SameDistinct(roots, sorted);
    forall r | r in sorted ensures IsRoot(docs, r) {
      assert r in multiset(sorted);
    }
  }

  lemma KeysDistinct(roots: seq<Path>, root: Path)
    requires DistinctKeys(roots) && LowerPath(root) !in KeysOf(roots)
    ensures DistinctKeys(roots + [root])
  {
    hide LowerPath;
    forall i | 0 <= i < |roots| ensures LowerPath(roots[i]) != LowerPath(root) {
      assert roots[i] in roots;
    }
  }

  /** Distinct keys are a matter of how often a root is listed, and of which roots are. */
  lemma SameDistinct(a: seq<Path>, b: seq<Path>)
    requires multiset(a) == multiset(b) && DistinctKeys(a)
    ensures DistinctKeys(b)
  {
    hide LowerPath;
    assert NoDuplicates(a);
    NoDuplicatesMultiset(a);
    NoDuplicatesMultiset(b);
    forall i, j | 0 <= i < j < |b| ensures LowerPath(b[i]) != LowerPath(b[j]) {
      assert b[i] in multiset(b) && b[j] in multiset(b);
      var k :| 0 <= k < |a| && a[k] == b[i];
      var l :| 0 <= l < |a| && a[l] == b[j];
    }
  }

  lemma KeysGrow(docs: seq<Document>, d: Document, roots: seq<Path>)
    ensures RootKeys(docs + [d]) == RootKeys(docs) + (if IsDefinitionFile(d.path) then {LowerPath(Dir(d.path))} else {})
    ensures KeysOf(roots + [Dir(d.path)]) == KeysOf(roots) + {LowerPath(Dir(d.path))}
  {
    hide IsDefinitionFile, Dir;
    var all := docs + [d];
    assert forall x :: x in all <==> x in docs || x == d;
    var more := roots + [Dir(d.path)];
    assert forall x :: x in more <==> x in roots || x == Dir(d.path);
  }

  lemma SameElements(a: seq<Path>, b: seq<Path>)
    requires multiset(a) == multiset(b)
    ensures KeysOf(a) == KeysOf(b)
  {
    assert forall x :: x in a <==> x in multiset(a);
    assert forall x :: x in b <==> x in multiset(b);
  }

  /** The root holds the path: they are equal, or the path lies below the root. */
  predicate Contains(root: Path, path: Path) { LowerPath(root) <= LowerPath(path) }

  /** The first listed root that holds the path, else the path's own directory. */
  function PackageRoot(path: Path, roots: seq<Path>): Path
  {
    if roots == [] then LowerPath(Dir(path))
    else if Contains(roots[0], path) then LowerPath(roots[0])
    else PackageRoot(path, roots[1..])
  }

  method FindPackageRoot(path: Path, roots: seq<Path>) returns (root: Path)
    ensures root == PackageRoot(path, roots)
  {
    assert roots[0..] == roots;
    for i := 0 to |roots|
      invariant PackageRoot(path, roots) == PackageRoot(path, roots[i..])
    {
      assert roots[i..][1..] == roots[i + 1..];
      if Contains(roots[i], path) {
        return LowerPath(roots[i]);
      }
    }
    return LowerPath(Dir(path));
  }

  lemma {:induction false} TextLength(p: Path, n: nat)
    requires CleanPath(p) && n <= |p|
    ensures |PathText(p[..n])| <= |PathText(p)|
    ensures n < |p| ==> |PathText(p[..n])| + 2 <= |PathText(p)|
  {
    if n > 0 {
      TextLength(p[1..], n - 1);
      assert p[..n][1..] == p[1..][..n - 1];
    } else if p != [] {
      assert |PathText(p)| >= 2;
    }
  }

  /** A longer root that holds the path is a deeper one. */
  lemma LongerIsDeeper(a: Path, b: Path, path: Path)
    requires CleanPath(a) && CleanPath(b) && a <= path && b <= path
    requires |PathString(a)| >= |PathString(b)|
    ensures b <= a
  {
    if |b| > |a| {
      assert b[..|a|] == a;
      TextLength(b, |a|);
    }
  }

  /** What a package root should be: the deepest known root that holds the path, or the path's directory when none does. */
  ghost predicate Deepest(path: Path, roots: seq<Path>)
  {
    var root := PackageRoot(path, roots);
    if exists r :: r in roots && Contains(r, path) then
      root in KeysOf(roots) && root <= LowerPath(path) &&
      forall r :: r in roots && Contains(r, path) ==> LowerPath(r) <= root
    else root == LowerPath(Dir(path))
  }

  /** A root below another one is listed before it. */
  ghost predicate DeeperFirst(roots: seq<Path>)
  {
    forall i, j :: 0 <= i < |roots| && 0 <= j < |roots| && LowerPath(roots[j]) < LowerPath(roots[i]) ==> i < j
  }

  /** The root found is the first listed one that holds the path. */
  lemma {:induction false} FirstHolds(path: Path, roots: seq<Path>) returns (i: nat)
    ensures i <= |roots| && forall j :: 0 <= j < i ==> !Contains(roots[j], path)
    ensures if i < |roots| then Contains(roots[i], path) && PackageRoot(path, roots) == LowerPath(roots[i])
            else PackageRoot(path, roots) == LowerPath(Dir(path))
  {
    i := 0;
    if roots != [] && !Contains(roots[0], path) {
      i := FirstHolds(path, roots[1..]);
      i := i + 1;
    }
  }

  lemma DeeperFirstFinds(path: Path, roots: seq<Path>)
    requires DeeperFirst(roots)
    ensures Deepest(path, roots)
  {
    hide LowerPath, PackageRoot;
    var i := FirstHolds(path, roots);
    if i < |roots| {
      assert roots[i] in roots;
      forall r | r in roots && Contains(r, path) ensures LowerPath(r) <= LowerPath(roots[i]) {
        var j :| 0 <= j < |roots| && roots[j] == r;
        PrefixesCompare(LowerPath(r), LowerPath(roots[i]), LowerPath(path));
      }
    }
  }

  lemma PrefixesCompare(a: Path, b: Path, c: Path)
    requires a <= c && b <= c
    ensures a <= b || b < a
  {
    assert a == c[..|a|] && b == c[..|b|];
  }

  /**
   The package root of every path is the deepest one exactly when, of two roots one
   below the other, the deeper is listed first.
   */
  lemma DeepestIff(roots: seq<Path>)
    requires DistinctKeys(roots)
    ensures (forall path :: Deepest(path, roots)) <==> DeeperFirst(roots)
  {
    hide LowerPath, PackageRoot, Deepest;
    if DeeperFirst(roots) {
      forall path ensures Deepest(path, roots) {
        DeeperFirstFinds(path, roots);
      }
    } else {
      var i, j :| 0 <= i < |roots| && 0 <= j < |roots| && LowerPath(roots[j]) < LowerPath(roots[i]) && j <= i;
      ShallowFound(roots, i, j);
    }
  }

  lemma ShallowFound(roots: seq<Path>, i: nat, j: nat)
    requires DistinctKeys(roots) && j <= i < |roots| && LowerPath(roots[j]) < LowerPath(roots[i])
    ensures !Deepest(roots[i], roots)
  {
    hide LowerPath, PackageRoot;
    var k := FirstHolds(roots[i], roots);
    assert Contains(roots[j], roots[i]) && Contains(roots[i], roots[i]) && roots[i] in roots;
    assert k <= j < i;
    assert LowerPath(roots[k]) != LowerPath(roots[i]);
  }

  /** Lower-casing changes neither the number of bytes of the path nor makes a segment vanish. */
  ghost predicate KeepsLength(p: Path)
  {
    CleanPath(LowerPath(p)) && |PathString(LowerPath(p))| == |PathString(p)|
  }

  /** Roots whose length lower-casing keeps are listed the deeper first, because the longer are. */
  lemma LongestIsDeepest(path: Path, roots: seq<Path>)
    requires Sorted(roots, RootLe) && forall r :: r in roots ==> KeepsLength(r)
    ensures Deepest(path, roots)
  {
    hide LowerPath, Deepest, PathString;
    forall i, j | 0 <= i < |roots| && 0 <= j < |roots| && LowerPath(roots[j]) < LowerPath(roots[i]) ensures i < j {
      assert roots[i] in roots && roots[j] in roots;
      var a, b := LowerPath(roots[j]), LowerPath(roots[i]);
      if j <= i {
        assert j < i ==> RootLe(roots[j], roots[i]);
        LongerIsDeeper(a, b, b);
      }
    }
    DeeperFirstFinds(path, roots);
  }

  /** Roots in ASCII always find the deepest. */
  lemma AsciiRootsAreDeepest(path: Path, roots: seq<Path>)
    requires Sorted(roots, RootLe) && forall r :: r in roots ==> CleanPath(r) && forall i :: 0 <= i < |r| ==> IsAscii(r[i])
    ensures Deepest(path, roots)
  {
    forall r | r in roots ensures KeepsLength(r) {
      AsciiKeepsLength(r);
    }
    LongestIsDeepest(path, roots);
  }

  lemma {:induction false} AsciiKeepsLength(p: Path)
    requires forall i :: 0 <= i < |p| ==> IsAscii(p[i])
    ensures |PathText(LowerPath(p))| == |PathText(p)| && |PathString(LowerPath(p))| == |PathString(p)|
    ensures CleanPath(p) ==> CleanPath(LowerPath(p))
  {
    forall i | 0 <= i < |p| ensures |ToLower(p[i])| == |p[i]| {
      ToLowerAscii(p[i]);
    }
    if p != [] {
      AsciiKeepsLength(p[1..]);
      assert LowerPath(p)[1..] == LowerPath(p[1..]);
    }
  }

  /**
   Where lower-casing changes the number of bytes a shallower root can be longer:
   three letters U+023A of two bytes each become three letters U+2C65 of three.  The
   package of a file in the deeper directory is taken to be the shallower one.
   */
  lemma ShallowerRootExample(docs: seq<Document>, roots: seq<Path>)
    requires ToLower(UPPER) == LOWER == ToLower(LOWER)
    requires |docs| == 2 && docs[0].path == [UPPER, "b", "x.def"] && docs[1].path == [LOWER, "y.def"] && AreRoots(docs, roots)
    ensures var path := [UPPER, "b", "c.cns"];
      && PackageRoot(path, roots) == [LOWER]
      && [LOWER, "b"] in KeysOf(roots) && [LOWER, "b"] < LowerPath(path)
      && !Deepest(path, roots)
  {
    hide LowerPath, PathString, IsDefinitionFile, RootKeys, IsRoot, Deepest, PackageRoot;
    var path, deep, shallow: Path := [UPPER, "b", "c.cns"], [UPPER, "b"], [LOWER];
    ExampleRoots(docs);
    ExampleKeys(path);
    TwoRoots(roots, deep, shallow);
    DistinctTwo(roots, deep, shallow);
    ShallowFirst(path, roots, deep, shallow);
  }

  lemma TwoRoots(roots: seq<Path>, deep: Path, shallow: Path)
    requires KeysOf(roots) == {LowerPath(deep), LowerPath(shallow)} && LowerPath(deep) != LowerPath(shallow)
    requires forall r :: r in roots ==> r == deep || r == shallow
    ensures deep in roots && shallow in roots
  {
    hide LowerPath;
    assert LowerPath(deep) in KeysOf(roots) && LowerPath(shallow) in KeysOf(roots);
  }

  lemma DistinctTwo(roots: seq<Path>, deep: Path, shallow: Path)
    requires Sorted(roots, RootLe) && |PathString(shallow)| > |PathString(deep)|
    requires deep in roots && forall r :: r in roots ==> r == deep || r == shallow
    requires shallow in roots
    ensures roots[0] == shallow
  {
    hide PathString, LexLe;
    var i :| 0 <= i < |roots| && roots[i] == shallow;
    assert i > 0 ==> RootLe(roots[0], roots[i]);
    assert roots[0] in roots;
  }

  lemma ShallowFirst(path: Path, roots: seq<Path>, deep: Path, shallow: Path)
    requires roots != [] && roots[0] == shallow && deep in roots
    requires LowerPath(shallow) < LowerPath(deep) < LowerPath(path)
    ensures PackageRoot(path, roots) == LowerPath(shallow) && LowerPath(deep) in KeysOf(roots) && !Deepest(path, roots)
  {
    hide LowerPath;
    assert Contains(deep, path);
  }

  const UPPER: string := "\U{C8}\U{BA}\U{C8}\U{BA}\U{C8}\U{BA}"
  const LOWER: string := "\U{E2}\U{B1}\U{A5}\U{E2}\U{B1}\U{A5}\U{E2}\U{B1}\U{A5}"

  lemma ExampleRoots(docs: seq<Document>)
    requires |docs| == 2 && docs[0].path == [UPPER, "b", "x.def"] && docs[1].path == [LOWER, "y.def"]
    ensures forall r :: IsRoot(docs, r) <==> r == [UPPER, "b"] || r == [LOWER]
    ensures RootKeys(docs) == {LowerPath([UPPER, "b"]), LowerPath([LOWER])}
  {
    hide IsDefinitionFile, LowerPath;
    assert docs == [docs[0], docs[1]];
    assert docs[0] in docs && docs[1] in docs;
    assert Dir(docs[0].path) == [UPPER, "b"] && Dir(docs[1].path) == [LOWER];
    DefinitionName(docs[0].path, "x");
    DefinitionName(docs[1].path, "y");
  }

  lemma DefinitionName(p: Path, stem: string)
    requires p != [] && |stem| == 1 && p[|p| - 1] == stem + ".def"
    ensures IsDefinitionFile(p)
  {
    var name := stem + ".def";
    assert Lower(name)[1..] == ".def";
  }

  lemma ExampleKeys(path: Path)
    requires ToLower(UPPER) == LOWER == ToLower(LOWER) && path == [UPPER, "b", "c.cns"]
    ensures LowerPath([UPPER, "b"]) == [LOWER, "b"] && LowerPath([LOWER]) == [LOWER]
    ensures LowerPath(path) == [LOWER, "b", "c.cns"]
    ensures |PathString([LOWER])| > |PathString([UPPER, "b"])|
  {
    ToLowerAscii("b");
    ToLowerAscii("c.cns");
    assert Lower("b") == "b" && Lower("c.cns") == "c.cns";
    assert [UPPER, "b"][1..] == ["b"] && ["b"][1..] == [] && [LOWER][1..] == [];
    assert PathText(["b"]) == "/" + "b" + "" && PathText([LOWER]) == "/" + LOWER + "";
    assert PathText([UPPER, "b"]) == "/" + UPPER + PathText(["b"]);
  }

  // ---------- Definitions in scope ----------

  predicate HasSegment(p: Path, name: string) { exists i :: 0 <= i < |p| && ToLower(p[i]) == name }

  predicate IsCharacterSource(p: Path) { HasSegment(p, "chars") }

  predicate IsGlobalRuntimeSource(p: Path) { HasSegment(p, "data") }

  predicate IsDefinition(s: Symbol, name: string)
  {
    (s.kind == StateDef || s.kind == CommandSymbol) && s.name == name
  }

  function SymbolDefinitions(path: Path, symbols: seq<Symbol>, name: string): seq<Indexed>
  {
    if symbols == [] then []
    else (if IsDefinition(symbols[0], name) then [Indexed(path, symbols[0])] else [])
         + SymbolDefinitions(path, symbols[1..], name)
  }

  function Definitions(docs: seq<Document>, name: string): seq<Indexed>
  {
    if docs == [] then []
    else SymbolDefinitions(docs[0].path, docs[0].symbols, name) + Definitions(docs[1..], name)
  }

  predicate IsDeclaration(s: Symbol, name: string)
  {
    s.name == name && match s.kind case StateDef => true case CommandSymbol => true case StateController => false
  }

  /** Some document declares the name, as a state or a command, and t is that declaration. */
  ghost predicate Declared(docs: seq<Document>, name: string, t: Indexed)
  {
    exists d, s :: d in docs && s in d.symbols && IsDeclaration(s, name) && t == Indexed(d.path, s)
  }

  /** Where t stands: the numbers of the document and of the symbol in it. */
  ghost function Places(docs: seq<Document>, t: Indexed): set<(nat, nat)>
  {
    set i: nat, j: nat | i < |docs| && j < |docs[i].symbols| && Indexed(docs[i].path, docs[i].symbols[j]) == t :: (i, j)
  }

  ghost function PlacesIn(d: Document, i: nat, t: Indexed): set<(nat, nat)>
  {
    set j: nat | j < |d.symbols| && Indexed(d.path, d.symbols[j]) == t :: (i, j)
  }

  lemma SameDeclaration(s: Symbol, name: string)
    ensures IsDefinition(s, name) <==> IsDeclaration(s, name)
  {
  }

  lemma {:induction false} SymbolsGrow(path: Path, symbols: seq<Symbol>, s: Symbol, name: string)
    ensures SymbolDefinitions(path, symbols + [s], name)
         == SymbolDefinitions(path, symbols, name) + (if IsDefinition(s, name) then [Indexed(path, s)] else [])
  {
    if symbols == [] {
      assert symbols + [s] == [s] && [s][1..] == [];
    } else {
      SymbolsGrow(path, symbols[1..], s, name);
      assert (symbols + [s])[1..] == symbols[1..] + [s];
    }
  }

  lemma {:induction false} DefinitionsGrow(docs: seq<Document>, d: Document, name: string)
    ensures Definitions(docs + [d], name) == Definitions(docs, name) + SymbolDefinitions(d.path, d.symbols, name)
  {
    hide SymbolDefinitions;
    if docs == [] {
      assert docs + [d] == [d] && [d][1..] == [];
      assert [] + SymbolDefinitions(d.path, d.symbols, name) == SymbolDefinitions(d.path, d.symbols, name) + [];
    } else {
      DefinitionsGrow(docs[1..], d, name);
      assert (docs + [d])[1..] == docs[1..] + [d];
    }
  }

  lemma {:induction false} CountIn(d: Document, i: nat, name: string, t: Indexed)
    ensures multiset(SymbolDefinitions(d.path, d.symbols, name))[t]
         == if IsDeclaration(t.symbol, name) then |PlacesIn(d, i, t)| else 0
    decreases |d.symbols|
  {
    hide IsDefinition, IsDeclaration, SymbolDefinitions, PlacesIn;
    var n := |d.symbols|;
    if n == 0 {
      NothingIn(d, i, name, t);
    } else {
      var before, last := d.(symbols := d.symbols[..n - 1]), d.symbols[n - 1];
      SameDeclaration(last, name);
      assert d.symbols == before.symbols + [last];
      CountIn(before, i, name, t);
      SymbolsGrow(d.path, before.symbols, last, name);
      PlacesGrow(before, last, i, t);
    }
  }

  lemma NothingIn(d: Document, i: nat, name: string, t: Indexed)
    requires d.symbols == []
    ensures SymbolDefinitions(d.path, d.symbols, name) == [] && PlacesIn(d, i, t) == {}
  {
  }

  lemma PlacesGrow(d: Document, s: Symbol, i: nat, t: Indexed)
    ensures var more := d.(symbols := d.symbols + [s]);
      |PlacesIn(more, i, t)| == |PlacesIn(d, i, t)| + if Indexed(d.path, s) == t then 1 else 0
  {
    var n, more := |d.symbols|, d.(symbols := d.symbols + [s]);
    assert (i, n) !in PlacesIn(d, i, t);
    assert PlacesIn(more, i, t) == PlacesIn(d, i, t) + (if Indexed(d.path, s) == t then {(i, n)} else {});
  }

  lemma {:induction false} CountDefinitions(docs: seq<Document>, name: string, t: Indexed)
    ensures multiset(Definitions(docs, name))[t] == if IsDeclaration(t.symbol, name) then |Places(docs, t)| else 0
    decreases |docs|
  {
    hide SymbolDefinitions, IsDeclaration;
    var n := |docs|;
    if n > 0 {
      var before, last := docs[..n - 1], docs[n - 1];
      assert docs == before + [last];
      CountDefinitions(before, name, t);
      DefinitionsGrow(before, last, name);
      CountIn(last, n - 1, name, t);
      assert Places(docs, t) == Places(before, t) + PlacesIn(last, n - 1, t);
    }
  }

  /** The definitions of a name are its declarations in the documents, each once for every place it stands at. */
  lemma DefinitionsAreDeclared(docs: seq<Document>, name: string, t: Indexed)
    ensures t in Definitions(docs, name) <==> Declared(docs, name, t)
    ensures multiset(Definitions(docs, name))[t] == if Declared(docs, name, t) then |Places(docs, t)| else 0
  {
    CountDefinitions(docs, name, t);
    assert t in Definitions(docs, name) <==> t in multiset(Definitions(docs, name));
    if Declared(docs, name, t) {
      var d, s :| d in docs && s in d.symbols && IsDeclaration(s, name) && t == Indexed(d.path, s);
      var i: nat :| i < |docs| && docs[i] == d;
      var j: nat :| j < |d.symbols| && d.symbols[j] == s;
      assert (i, j) in Places(docs, t);
    }
    if IsDeclaration(t.symbol, name) && Places(docs, t) != {} {
      var p :| p in Places(docs, t);
      assert docs[p.0] in docs && docs[p.0].symbols[p.1] in docs[p.0].symbols;
    }
  }

  /** By path, line, column and id. */
  predicate IndexedLe(a: Indexed, b: Indexed)
  {
    var p, q := PathString(a.path), PathString(b.path);
    if p != q then LexLe(p, q)
    else if a.symbol.line != b.symbol.line then a.symbol.line < b.symbol.line
    else if a.symbol.column != b.symbol.column then a.symbol.column < b.symbol.column
    else LexLe(a.symbol.id, b.symbol.id)
  }

  lemma IndexedOrder()
    ensures TotalPreorder(IndexedLe)
  {
    forall a, b ensures IndexedLe(a, b) || IndexedLe(b, a) {
      LexTotal(PathString(a.path), PathString(b.path));
      LexTotal(a.symbol.id, b.symbol.id);
    }
    forall a, b, c | IndexedLe(a, b) && IndexedLe(b, c) ensures IndexedLe(a, c) {
      IndexedTransitive(a, b, c);
    }
  }

  lemma IndexedTransitive(a: Indexed, b: Indexed, c: Indexed)
    requires IndexedLe(a, b) && IndexedLe(b, c)
    ensures IndexedLe(a, c)
  {
    var p, q, r := PathString(a.path), PathString(b.path), PathString(c.path);
    if p == q == r {
      if a.symbol.line == b.symbol.line == c.symbol.line && a.symbol.column == b.symbol.column == c.symbol.column {
        LexTransitive(a.symbol.id, b.symbol.id, c.symbol.id);
      }
    } else if p != q && q != r {
      LexTransitive(p, q, r);
      if p == r {
        LexAntisymmetric(p, q);
      }
    }
  }

  /** The index entry of a name: its definitions in order. */
  function Index(docs: seq<Document>, name: string): seq<Indexed> { SortBy(Definitions(docs, name), IndexedLe) }

  function Keep(xs: seq<Indexed>, p: Indexed -> bool): seq<Indexed>
  {
    if xs == [] then [] else (if p(xs[0]) then [xs[0]] else []) + Keep(xs[1..], p)
  }

  /** `targetsFor`: local definitions if any; else, for a character source, the ones outside `chars`; else all. */
  function TargetsFor(targets: seq<Indexed>, source: Path, roots: seq<Path>): seq<Indexed>
  {
    var own := PackageRoot(source, roots);
    var local := Keep(targets, (t: Indexed) => PackageRoot(t.path, roots) == own);
    if local != [] then local
    else if IsCharacterSource(source) then Keep(targets, (t: Indexed) => !IsCharacterSource(t.path))
    else targets
  }

  /** A segment of the path is the word, up to letter case. */
  ghost predicate Under(p: Path, word: string) { exists segment :: segment in p && ToLower(segment) == word }

  lemma UnderIs(p: Path)
    ensures IsCharacterSource(p) <==> Under(p, "chars")
    ensures IsGlobalRuntimeSource(p) <==> Under(p, "data")
  {
    forall segment | segment in p ensures exists i :: 0 <= i < |p| && p[i] == segment {
    }
    forall i | 0 <= i < |p| ensures p[i] in p {
    }
  }

  /** t is declared in the package of `source`. */
  ghost predicate DeclaredHere(docs: seq<Document>, name: string, source: Path, roots: seq<Path>, t: Indexed)
  {
    Declared(docs, name, t) && PackageRoot(t.path, roots) == PackageRoot(source, roots)
  }

  /** t is a declaration a reference from `source` may mean: one of its own package, if there is any. */
  ghost predicate InScope(docs: seq<Document>, name: string, source: Path, roots: seq<Path>, t: Indexed)
  {
    if exists u :: DeclaredHere(docs, name, source, roots, u) then DeclaredHere(docs, name, source, roots, t)
    else Declared(docs, name, t) && (Under(source, "chars") ==> !Under(t.path, "chars"))
  }

  lemma {:induction false} KeepIs(xs: seq<Indexed>, p: Indexed -> bool)
    ensures forall x :: x in Keep(xs, p) <==> x in xs && p(x)
    ensures forall x :: multiset(Keep(xs, p))[x] == if p(x) then multiset(xs)[x] else 0
  {
    if xs != [] {
      KeepIs(xs[1..], p);
      assert xs == [xs[0]] + xs[1..];
    }
  }

  lemma {:induction false} KeepSorted(xs: seq<Indexed>, p: Indexed -> bool)
    requires Sorted(xs, IndexedLe)
    ensures Sorted(Keep(xs, p), IndexedLe)
  {
    hide IndexedLe;
    if xs != [] {
      KeepSorted(xs[1..], p);
      KeepIs(xs[1..], p);
      var rest := Keep(xs[1..], p);
      forall i | 0 <= i < |rest| ensures IndexedLe(xs[0], rest[i]) {
        assert rest[i] in rest;
      }
    }
  }

  /** The targets are the definitions in scope, each as often as it is declared, in order. */
  lemma TargetsAreScope(docs: seq<Document>, name: string, source: Path, roots: seq<Path>)
    ensures var targets := TargetsFor(Index(docs, name), source, roots);
      && Sorted(targets, IndexedLe)
      && (forall t :: t in targets <==> InScope(docs, name, source, roots, t))
      && (forall t :: t in targets ==> multiset(targets)[t] == |Places(docs, t)|)
  {
    hide IndexedLe, PackageRoot, IsCharacterSource, Declared, Places, Under, Index, Keep, Sorted;
    var all, own := Index(docs, name), PackageRoot(source, roots);
    var isLocal := (t: Indexed) => PackageRoot(t.path, roots) == own;
    var isGlobal := (t: Indexed) => !IsCharacterSource(t.path);
    IndexIsDeclared(docs, name);
    KeepIs(all, isLocal);
    KeepIs(all, isGlobal);
    KeepSorted(all, isLocal);
    KeepSorted(all, isGlobal);
    UnderIs(source);
    forall t: Indexed ensures IsCharacterSource(t.path) <==> Under(t.path, "chars") {
      UnderIs(t.path);
    }
    var local := Keep(all, isLocal);
    forall t ensures t in local <==> DeclaredHere(docs, name, source, roots, t) {
    }
    if local != [] {
      assert local[0] in local;
    }
  }

  /** The index entry of a name lists its declarations in order. */
  lemma IndexIsDeclared(docs: seq<Document>, name: string)
    ensures var all := Index(docs, name);
      && Sorted(all, IndexedLe)
      && (forall t :: t in all <==> Declared(docs, name, t))
      && (forall t :: t in all ==> multiset(all)[t] == |Places(docs, t)|)
  {
    hide IndexedLe, Declared, Places, Definitions;
    IndexedOrder();
    SortBySorted(Definitions(docs, name), IndexedLe);
    var all := Index(docs, name);
    forall t ensures t in all <==> Declared(docs, name, t)
      ensures t in all ==> multiset(all)[t] == |Places(docs, t)|
    {
      DefinitionsAreDeclared(docs, name, t);
      assert t in all <==> t in multiset(all);
      assert t in Definitions(docs, name) <==> t in multiset(Definitions(docs, name));
    }
  }

  // ---------- Resolution ----------

  datatype Outcome = Outcome(resolution: Resolution, diagnostics: seq<Diagnostic>)

  function Complaint(doc: Document, r: Reference, c: Code): seq<Diagnostic>
  {
    [Diagnostic(doc.path, r.line, c, r.sourceSymbol)]
  }

  /** What one reference resolves to, given the definitions in scope. */
  function ResolveReference(doc: Document, r: Reference, targets: seq<Indexed>): Outcome
  {
    var res := Resolution(r.id, doc.path, Invalid, None, r.isDynamic);
    if r.kind != OtherReference && IsGlobalRuntimeSource(doc.path) then
      Outcome(res.(classification := Dynamic, isDynamic := true), Complaint(doc, r, DynamicReference))
    else if r.kind == StateReference then
      if r.isDynamic then Outcome(res.(classification := Dynamic), Complaint(doc, r, DynamicReference))
      else if targets == [] then Outcome(res, Complaint(doc, r, UndefinedState))
      else if |targets| > 1 then Outcome(res.(classification := Ambiguous), Complaint(doc, r, AmbiguousState))
      else Outcome(res.(classification := Exact, target := Some(targets[0])), [])
    else if r.kind == CommandReference then
      if targets == [] then Outcome(res, Complaint(doc, r, UndefinedCommand))
      else Outcome(res.(classification := Exact, target := Some(targets[0])), [])
    else Outcome(res, [])
  }

  function ResolveIn(docs: seq<Document>, roots: seq<Path>, doc: Document, r: Reference): Outcome
  {
    ResolveReference(doc, r, TargetsFor(Index(docs, r.target), doc.path, roots))
  }

  /** Never silent: a state or command reference is exact without a diagnostic, or not exact with exactly one. */
  lemma NeverSilent(docs: seq<Document>, roots: seq<Path>, doc: Document, r: Reference)
    requires r.kind != OtherReference
    ensures var o := ResolveIn(docs, roots, doc, r);
      if o.resolution.classification == Exact then o.diagnostics == [] && o.resolution.target.Some?
      else |o.diagnostics| == 1 && o.resolution.target.None?
  {
  }

  /** t is the only declaration in scope, and stands at one place. */
  ghost predicate OnlyInScope(docs: seq<Document>, name: string, source: Path, roots: seq<Path>, t: Indexed)
  {
    && InScope(docs, name, source, roots, t)
    && |Places(docs, t)| == 1
    && forall u :: InScope(docs, name, source, roots, u) ==> u == t
  }

  /** The path of t comes first, then its line, its column and its id. */
  ghost predicate NotAfter(t: Indexed, u: Indexed)
  {
    var p, q := PathString(t.path), PathString(u.path);
    && LexLe(p, q)
    && (p == q ==> t.symbol.line <= u.symbol.line)
    && (p == q && t.symbol.line == u.symbol.line ==> t.symbol.column <= u.symbol.column)
    && (p == q && t.symbol.line == u.symbol.line && t.symbol.column == u.symbol.column ==> LexLe(t.symbol.id, u.symbol.id))
  }

  lemma NotAfterIs(t: Indexed, u: Indexed)
    ensures IndexedLe(t, u) ==> NotAfter(t, u)
  {
    LexTotal(PathString(t.path), PathString(u.path));
    if IndexedLe(t, u) && PathString(t.path) != PathString(u.path) {
      assert LexLe(PathString(t.path), PathString(u.path));
    }
  }

  ghost predicate FirstInScope(docs: seq<Document>, name: string, source: Path, roots: seq<Path>, t: Indexed)
  {
    && InScope(docs, name, source, roots, t)
    && forall u :: InScope(docs, name, source, roots, u) ==> NotAfter(t, u)
  }

  ghost predicate SomethingInScope(docs: seq<Document>, name: string, source: Path, roots: seq<Path>)
  {
    exists t :: InScope(docs, name, source, roots, t)
  }

  ghost predicate OneInScope(docs: seq<Document>, name: string, source: Path, roots: seq<Path>)
  {
    exists t :: OnlyInScope(docs, name, source, roots, t)
  }

  /**
   The class of every reference, told from the documents: what is under `data` or
   computed is dynamic; a state with nothing in scope is invalid, with a single
   declaration exact and otherwise ambiguous; a command is exact as soon as one is in
   scope.  The target comes first by path, line, column and id.
   */
  lemma ExactIff(docs: seq<Document>, roots: seq<Path>, doc: Document, r: Reference)
    requires r.kind != OtherReference
    ensures var o := ResolveIn(docs, roots, doc, r).resolution;
      var some, one := SomethingInScope(docs, r.target, doc.path, roots), OneInScope(docs, r.target, doc.path, roots);
      var open := !Under(doc.path, "data") && !(r.kind == StateReference && r.isDynamic);
      && (o.classification == Dynamic <==> !open)
      && (o.classification == Invalid <==> open && !some)
      && (o.classification == Ambiguous <==> open && some && r.kind == StateReference && !one)
      && (o.classification == Exact <==> open && (if r.kind == StateReference then one else some))
      && (o.target.Some? <==> o.classification == Exact)
      && (o.target.Some? ==> FirstInScope(docs, r.target, doc.path, roots, o.target.value))
      && o.referenceId == r.id && o.sourcePath == doc.path && (o.isDynamic <==> r.isDynamic || Under(doc.path, "data"))
  {
    hide IndexedLe, InScope, OnlyInScope, FirstInScope, TargetsFor, Index, IsGlobalRuntimeSource, Sorted, Under;
    var targets := TargetsFor(Index(docs, r.target), doc.path, roots);
    TargetsAreScope(docs, r.target, doc.path, roots);
    SingleIff(docs, r.target, doc.path, roots, targets);
    UnderIs(doc.path);
    if targets != [] {
      FirstIsFirst(docs, r.target, doc.path, roots, targets);
      assert targets[0] in targets;
    }
  }

  /** A listing of the declarations in scope has one element exactly when a single one is in scope. */
  lemma SingleIff(docs: seq<Document>, name: string, source: Path, roots: seq<Path>, targets: seq<Indexed>)
    requires forall t :: t in targets <==> InScope(docs, name, source, roots, t)
    requires forall t :: t in targets ==> multiset(targets)[t] == |Places(docs, t)|
    ensures |targets| == 1 <==> OneInScope(docs, name, source, roots)
    ensures |targets| > 0 <==> SomethingInScope(docs, name, source, roots)
  {
    hide InScope, Places;
    if |targets| == 1 {
      assert multiset(targets)[targets[0]] == 1;
      assert OnlyInScope(docs, name, source, roots, targets[0]);
    } else if |targets| > 1 {
      assert targets == [targets[0], targets[1]] + targets[2..];
      assert targets[0] in targets && targets[1] in targets;
      assert targets[0] == targets[1] ==> multiset(targets)[targets[0]] >= 2;
    }
    if |targets| > 0 {
      assert targets[0] in targets;
    }
  }

  lemma FirstIsFirst(docs: seq<Document>, name: string, source: Path, roots: seq<Path>, targets: seq<Indexed>)
    requires forall t :: t in targets <==> InScope(docs, name, source, roots, t)
    requires targets != [] && Sorted(targets, IndexedLe)
    ensures FirstInScope(docs, name, source, roots, targets[0])
  {
    hide InScope, IndexedLe, NotAfter;
    assert targets[0] in targets;
    forall u | u in targets ensures NotAfter(targets[0], u) {
      var i :| 0 <= i < |targets| && targets[i] == u;
      IndexedOrder();
      assert IndexedLe(targets[0], targets[i]);
      NotAfterIs(targets[0], u);
    }
  }

  /** The diagnostic says why: nothing in scope, or more than one declaration of a state, or a target only known at run time. */
  lemma ComplaintsExplained(docs: seq<Document>, roots: seq<Path>, doc: Document, r: Reference)
    requires r.kind != OtherReference
    ensures var o := ResolveIn(docs, roots, doc, r);
      var code := match o.resolution.classification
        case Dynamic => DynamicReference
        case Ambiguous => AmbiguousState
        case _ => if r.kind == StateReference then UndefinedState else UndefinedCommand;
      o.diagnostics == if o.resolution.classification == Exact then [] else [Diagnostic(doc.path, r.line, code, r.sourceSymbol)]
  {
    hide TargetsFor, Index, IsGlobalRuntimeSource;
  }

  /** Any other reference is invalid, and nothing is reported. */
  lemma OtherReferencesPass(docs: seq<Document>, roots: seq<Path>, doc: Document, r: Reference)
    requires r.kind == OtherReference
    ensures ResolveIn(docs, roots, doc, r) == Outcome(Resolution(r.id, doc.path, Invalid, None, r.isDynamic), [])
  {
    hide TargetsFor, Index, IsGlobalRuntimeSource;
  }

  /** A character's reference resolves inside its own package when that declares the name, and otherwise outside `chars`. */
  lemma CharacterScope(docs: seq<Document>, roots: seq<Path>, doc: Document, r: Reference)
    requires r.kind != OtherReference && Under(doc.path, "chars")
    requires ResolveIn(docs, roots, doc, r).resolution.target.Some?
    ensures var t := ResolveIn(docs, roots, doc, r).resolution.target.value;
      && Declared(docs, r.target, t)
      && if exists u :: Declared(docs, r.target, u) && PackageRoot(u.path, roots) == PackageRoot(doc.path, roots)
         then PackageRoot(t.path, roots) == PackageRoot(doc.path, roots)
         else !Under(t.path, "chars")
  {
    hide Declared, PackageRoot, Under;
    ExactIff(docs, roots, doc, r);
    if u :| Declared(docs, r.target, u) && PackageRoot(u.path, roots) == PackageRoot(doc.path, roots) {
      assert DeclaredHere(docs, r.target, doc.path, roots, u);
    }
  }

  lemma IsDeclared(docs: seq<Document>, d: Document, s: Symbol)
    requires d in docs && s in d.symbols && s.kind != StateController
    ensures Declared(docs, s.name, Indexed(d.path, s))
  {
    assert IsDeclaration(s, s.name);
  }

  /** A command whose package declares it resolves exactly, to its own package. */
  lemma OwnCommandIsExact(docs: seq<Document>, roots: seq<Path>, doc: Document, r: Reference, d: Document, s: Symbol)
    requires r.kind == CommandReference && !Under(doc.path, "data")
    requires d in docs && s in d.symbols && s.kind == CommandSymbol && s.name == r.target
    requires PackageRoot(d.path, roots) == PackageRoot(doc.path, roots)
    ensures var o := ResolveIn(docs, roots, doc, r);
      && o.resolution.classification == Exact && o.diagnostics == [] && o.resolution.target.Some?
      && PackageRoot(o.resolution.target.value.path, roots) == PackageRoot(doc.path, roots)
  {
    hide PackageRoot, Under, NotAfter, Declared;
    var t := Indexed(d.path, s);
    IsDeclared(docs, d, s);
    assert DeclaredHere(docs, r.target, doc.path, roots, t);
    assert InScope(docs, r.target, doc.path, roots, t);
    ExactIff(docs, roots, doc, r);
    NeverSilent(docs, roots, doc, r);
    assert FirstInScope(docs, r.target, doc.path, roots, ResolveIn(docs, roots, doc, r).resolution.target.value);
  }

  // ---------- Duplicate definitions ----------

  ghost function DefinedNames(docs: seq<Document>): set<string>
  {
    set d, s | d in docs && s in d.symbols && (s.kind == StateDef || s.kind == CommandSymbol) :: s.name
  }

  /** The later definitions of a state in the file of its first one; a repeated command is not reported. */
  function DuplicatesIn(entry: seq<Indexed>, first: Indexed): seq<Diagnostic>
  {
    if entry == [] then []
    else (if entry[0].path == first.path then [Diagnostic(first.path, entry[0].symbol.line, DuplicateDefinition, first.symbol.id)] else [])
         + DuplicatesIn(entry[1..], first)
  }

  function DuplicatesOf(entry: seq<Indexed>): seq<Diagnostic>
  {
    if entry == [] || entry[0].symbol.kind == CommandSymbol then [] else DuplicatesIn(entry[1..], entry[0])
  }

  function DuplicateDiagnostics(docs: seq<Document>, names: seq<string>): seq<Diagnostic>
  {
    if names == [] then [] else DuplicatesOf(Index(docs, names[0])) + DuplicateDiagnostics(docs, names[1..])
  }

  /** The later definitions of a name in one file, by their places in its index entry. */
  ghost function Repeats(entry: seq<Indexed>, path: Path): set<nat>
  {
    set i: nat | 1 <= i < |entry| && entry[i].path == path
  }

  ghost predicate ReportsRepeat(entry: seq<Indexed>, first: Indexed, d: Diagnostic)
  {
    exists i :: 1 <= i < |entry| && entry[i].path == first.path
             && d == Diagnostic(first.path, entry[i].symbol.line, DuplicateDefinition, first.symbol.id)
  }

  function RepeatOf(first: Indexed, u: Indexed): Diagnostic
  {
    Diagnostic(first.path, u.symbol.line, DuplicateDefinition, first.symbol.id)
  }

  lemma {:induction false} RepeatsIn(entry: seq<Indexed>, first: Indexed)
    requires entry != []
    ensures forall d :: d in DuplicatesIn(entry[1..], first) <==> ReportsRepeat(entry, first, d)
    ensures |DuplicatesIn(entry[1..], first)| == |Repeats(entry, first.path)|
    decreases |entry|
  {
    hide DuplicatesIn, ReportsRepeat;
    var n := |entry| - 1;
    if n == 0 {
      NoRepeats(entry, first);
    } else {
      var before, last := entry[..n], entry[n];
      assert entry == before + [last] && entry[1..] == before[1..] + [last];
      RepeatsIn(before, first);
      DuplicatesInGrow(before[1..], last, first);
      assert Repeats(entry, first.path) == Repeats(before, first.path) + (if last.path == first.path then {n} else {});
      forall d ensures d in DuplicatesIn(entry[1..], first) <==> ReportsRepeat(entry, first, d) {
        RepeatsGrow(before, last, first, d);
      }
    }
  }

  lemma NoRepeats(entry: seq<Indexed>, first: Indexed)
    requires |entry| == 1
    ensures DuplicatesIn(entry[1..], first) == [] && Repeats(entry, first.path) == {}
    ensures forall d :: !ReportsRepeat(entry, first, d)
  {
  }

  lemma RepeatsGrow(before: seq<Indexed>, last: Indexed, first: Indexed, d: Diagnostic)
    requires before != []
    ensures ReportsRepeat(before + [last], first, d)
       <==> ReportsRepeat(before, first, d) || (last.path == first.path && d == RepeatOf(first, last))
  {
    var entry := before + [last];
    assert entry[|before|] == last;
    assert forall i :: 0 <= i < |before| ==> entry[i] == before[i];
  }

  lemma {:induction false} DuplicatesInGrow(entry: seq<Indexed>, last: Indexed, first: Indexed)
    ensures DuplicatesIn(entry + [last], first) == DuplicatesIn(entry, first)
         + (if last.path == first.path then [RepeatOf(first, last)] else [])
  {
    if entry == [] {
      assert entry + [last] == [last] && [last][1..] == [];
    } else {
      DuplicatesInGrow(entry[1..], last, first);
      assert (entry + [last])[1..] == entry[1..] + [last];
    }
  }

  /**
   A state declared again in the file of its first declaration is reported for every
   repetition, at its line and related to the first; a repeated command is not reported.
   */
  lemma DuplicatesReported(docs: seq<Document>, name: string)
    requires exists t :: Declared(docs, name, t)
    ensures var entry := Index(docs, name);
      && entry != [] && Declared(docs, name, entry[0])
      && (forall u :: Declared(docs, name, u) ==> NotAfter(entry[0], u))
      && if entry[0].symbol.kind == StateDef then
           && (forall d :: d in DuplicatesOf(entry) <==> ReportsRepeat(entry, entry[0], d))
           && |DuplicatesOf(entry)| == |Repeats(entry, entry[0].path)|
         else DuplicatesOf(entry) == []
  {
    hide Index, Declared, NotAfter, IndexedLe;
    var t :| Declared(docs, name, t);
    IndexIsDeclared(docs, name);
    var entry := Index(docs, name);
    assert t in entry && entry[0] in entry;
    forall u | Declared(docs, name, u) ensures NotAfter(entry[0], u) {
      var i :| 0 <= i < |entry| && entry[i] == u;
      IndexedOrder();
      assert IndexedLe(entry[0], entry[i]);
      NotAfterIs(entry[0], u);
    }
    DeclaredKind(docs, name, entry[0]);
    RepeatsIn(entry, entry[0]);
  }

  lemma DeclaredKind(docs: seq<Document>, name: string, t: Indexed)
    requires Declared(docs, name, t)
    ensures t.symbol.kind != StateController && t.symbol.name == name
  {
  }

  // ---------- The whole run ----------

  function OutcomesOf(docs: seq<Document>, roots: seq<Path>, doc: Document, refs: seq<Reference>): (os: seq<Outcome>)
    ensures |os| == |refs|
    ensures forall i :: 0 <= i < |refs| ==> os[i] == ResolveIn(docs, roots, doc, refs[i])
  {
    seq(|refs|, i requires 0 <= i < |refs| => ResolveIn(docs, roots, doc, refs[i]))
  }

  /** The outcome of every reference of the listed documents, in order. */
  function Outcomes(docs: seq<Document>, roots: seq<Path>, todo: seq<Document>): seq<Outcome>
  {
    if todo == [] then []
    else OutcomesOf(docs, roots, todo[0], todo[0].references) + Outcomes(docs, roots, todo[1..])
  }

  function ReferenceCount(docs: seq<Document>): nat
  {
    if docs == [] then 0 else |docs[0].references| + ReferenceCount(docs[1..])
  }

  /** Every reference yields exactly one resolution. */
  lemma {:induction false} OneResolutionEach(docs: seq<Document>, roots: seq<Path>, todo: seq<Document>)
    ensures |Outcomes(docs, roots, todo)| == ReferenceCount(todo)
  {
    if todo != [] {
      OneResolutionEach(docs, roots, todo[1..]);
    }
  }

  lemma {:induction false} OutcomesJoin(docs: seq<Document>, roots: seq<Path>, before: seq<Document>, after: seq<Document>)
    ensures Outcomes(docs, roots, before + after) == Outcomes(docs, roots, before) + Outcomes(docs, roots, after)
  {
    hide OutcomesOf, Outcomes, ResolveIn;
    if before == [] {
      assert before + after == after;
      NoOutcomes(docs, roots);
    } else {
      OutcomesJoin(docs, roots, before[1..], after);
      assert before + after == [before[0]] + (before[1..] + after) && before == [before[0]] + before[1..];
      OutcomesFirst(docs, roots, before[0], before[1..] + after);
      OutcomesFirst(docs, roots, before[0], before[1..]);
    }
  }

  lemma OutcomesFirst(docs: seq<Document>, roots: seq<Path>, d: Document, rest: seq<Document>)
    ensures Outcomes(docs, roots, [d] + rest) == OutcomesOf(docs, roots, d, d.references) + Outcomes(docs, roots, rest)
  {
    hide OutcomesOf, ResolveIn;
    assert ([d] + rest)[1..] == rest;
  }

  lemma NoOutcomes(docs: seq<Document>, roots: seq<Path>)
    ensures Outcomes(docs, roots, []) == []
  {
  }

  /** The outcome of reference k of a document stands after those of the documents before it. */
  lemma OutcomesInOrder(docs: seq<Document>, roots: seq<Path>, before: seq<Document>, d: Document, after: seq<Document>, k: nat)
    requires k < |d.references|
    ensures var all, n := Outcomes(docs, roots, before + [d] + after), ReferenceCount(before);
      n + k < |all| && all[n + k] == ResolveIn(docs, roots, d, d.references[k])
  {
    hide ResolveIn, Outcomes, ReferenceCount;
    OutcomesJoin(docs, roots, before + [d], after);
    OutcomesJoin(docs, roots, before, [d]);
    OneResolutionEach(docs, roots, before);
    OutcomesFirst(docs, roots, d, []);
    NoOutcomes(docs, roots);
    assert [d] + [] == [d];
  }

  function Resolutions(os: seq<Outcome>): (rs: seq<Resolution>)
    ensures |rs| == |os| && forall i :: 0 <= i < |os| ==> rs[i] == os[i].resolution
  {
    seq(|os|, i requires 0 <= i < |os| => os[i].resolution)
  }

  function Diagnostics(os: seq<Outcome>): seq<Diagnostic>
  {
    if os == [] then [] else os[0].diagnostics + Diagnostics(os[1..])
  }

  lemma {:induction false} DiagnosticsJoin(before: seq<Outcome>, after: seq<Outcome>)
    ensures Diagnostics(before + after) == Diagnostics(before) + Diagnostics(after)
  {
    hide Diagnostics;
    if before == [] {
      assert before + after == after;
      NoDiagnostics();
    } else {
      DiagnosticsJoin(before[1..], after);
      assert before + after == [before[0]] + (before[1..] + after) && before == [before[0]] + before[1..];
      DiagnosticsFirst(before[0], before[1..] + after);
      DiagnosticsFirst(before[0], before[1..]);
    }
  }

  lemma DiagnosticsFirst(o: Outcome, rest: seq<Outcome>)
    ensures Diagnostics([o] + rest) == o.diagnostics + Diagnostics(rest)
  {
    assert ([o] + rest)[1..] == rest;
  }

  lemma NoDiagnostics()
    ensures Diagnostics([]) == []
  {
  }

  lemma OneOutcome(o: Outcome)
    ensures Diagnostics([o]) == o.diagnostics
  {
    DiagnosticsFirst(o, []);
    assert [o] + [] == [o] && o.diagnostics + [] == o.diagnostics;
  }

  /** Every diagnostic of every outcome is listed, in order. */
  lemma DiagnosticsInOrder(before: seq<Outcome>, o: Outcome, after: seq<Outcome>)
    ensures Diagnostics(before + [o] + after) == Diagnostics(before) + o.diagnostics + Diagnostics(after)
  {
    hide Diagnostics;
    DiagnosticsJoin(before + [o], after);
    DiagnosticsJoin(before, [o]);
    OneOutcome(o);
  }

  lemma {:induction false} DiagnosticsGrow(os: seq<Outcome>, o: Outcome)
    ensures Diagnostics(os + [o]) == Diagnostics(os) + o.diagnostics
  {
    if os == [] {
      assert [o][1..] == [];
      assert o.diagnostics + [] == o.diagnostics && [] + o.diagnostics == o.diagnostics;
      assert [] + [o] == [o];
    } else {
      DiagnosticsGrow(os[1..], o);
      assert (os + [o])[1..] == os[1..] + [o];
    }
  }

  /** The outcomes up to document i, and the ones still to come. */
  ghost predicate Upto(docs: seq<Document>, roots: seq<Path>, i: nat, done: seq<Outcome>)
    requires i <= |docs|
  {
    Outcomes(docs, roots, docs) == done + Outcomes(docs, roots, docs[i..])
  }

  lemma UptoStep(docs: seq<Document>, roots: seq<Path>, i: nat, done: seq<Outcome>)
    requires i < |docs| && Upto(docs, roots, i, done)
    ensures Upto(docs, roots, i + 1, done + OutcomesOf(docs, roots, docs[i], docs[i].references))
  {
    hide OutcomesOf;
    assert docs[i..][0] == docs[i] && docs[i..][1..] == docs[i + 1..];
    var os, rest := OutcomesOf(docs, roots, docs[i], docs[i].references), Outcomes(docs, roots, docs[i + 1..]);
    assert (done + os) + rest == done + (os + rest);
  }

  lemma UptoEnds(docs: seq<Document>, roots: seq<Path>, done: seq<Outcome>)
    ensures Upto(docs, roots, 0, [])
    ensures Upto(docs, roots, |docs|, done) ==> done == Outcomes(docs, roots, docs)
  {
    assert docs[0..] == docs;
    assert [] + Outcomes(docs, roots, docs) == Outcomes(docs, roots, docs);
    assert done + [] == done;
  }

  /** The resolving loops, before the results are sorted for output. */
  method Resolve(docs: seq<Document>) returns (roots: seq<Path>, references: seq<Resolution>, diagnostics: seq<Diagnostic>)
    ensures AreRoots(docs, roots)
    ensures references == Resolutions(Outcomes(docs, roots, docs))
    ensures diagnostics == DuplicateDiagnostics(docs, Listing(DefinedNames(docs))) + Diagnostics(Outcomes(docs, roots, docs))
  {
    hide Upto, OutcomesOf, Outcomes, Resolutions, AreRoots, Diagnostics, DuplicateDiagnostics;
    roots := PackageRoots(docs);
    var duplicates := FindDuplicates(docs);
    references, diagnostics := NoResults();
    ghost var done: seq<Outcome> := [];
    UptoEnds(docs, roots, done);
    for i := 0 to |docs|
      invariant Upto(docs, roots, i, done)
      invariant references == Resolutions(done) && diagnostics == Diagnostics(done)
    {
      UptoStep(docs, roots, i, done);
      references, diagnostics := ResolveDocument(docs, roots, docs[i], done, references, diagnostics);
      done := done + OutcomesOf(docs, roots, docs[i], docs[i].references);
    }
    UptoEnds(docs, roots, done);
    diagnostics := duplicates + diagnostics;
  }

  /** The repetitions looked for are those of every declared name. */
  lemma NamesAreDeclared(docs: seq<Document>, name: string)
    ensures name in Listing(DefinedNames(docs)) <==> exists t :: Declared(docs, name, t)
  {
    if name in DefinedNames(docs) {
      var d, s :| d in docs && s in d.symbols && (s.kind == StateDef || s.kind == CommandSymbol) && s.name == name;
      IsDeclared(docs, d, s);
    }
    if t :| Declared(docs, name, t) {
      var d, s :| d in docs && s in d.symbols && IsDeclaration(s, name) && t == Indexed(d.path, s);
      assert s.name in DefinedNames(docs);
    }
  }

  /** Names are gone through in the order listed. */
  lemma {:induction false} DuplicatesGrow(docs: seq<Document>, names: seq<string>, name: string)
    ensures DuplicateDiagnostics(docs, names + [name]) == DuplicateDiagnostics(docs, names) + DuplicatesOf(Index(docs, name))
    ensures DuplicateDiagnostics(docs, []) == []
  {
    hide DuplicatesOf, Index;
    var last := DuplicatesOf(Index(docs, name));
    if names == [] {
      assert [] + [name] == [name] && [name][1..] == [];
      assert last + [] == last && [] + last == last;
    } else {
      DuplicatesGrow(docs, names[1..], name);
      assert (names + [name])[1..] == names[1..] + [name];
    }
  }

  method FindDuplicates(docs: seq<Document>) returns (ds: seq<Diagnostic>)
    ensures ds == DuplicateDiagnostics(docs, Listing(DefinedNames(docs)))
  {
    hide DuplicatesOf, Index, DefinedNames, Listing;
    var found := CollectNames(docs);
    var names := SortedKeys(found);
    ds := [];
    for i := 0 to |names|
      invariant ds == DuplicateDiagnostics(docs, names[..i])
    {
      var entry := Index(docs, names[i]);
      assert names[..i + 1] == names[..i] + [names[i]];
      DuplicatesGrow(docs, names[..i], names[i]);
      ds := ds + DuplicatesOf(entry);
    }
    assert names[..|names|] == names;
  }

  method CollectNames(docs: seq<Document>) returns (names: set<string>)
    ensures names == DefinedNames(docs)
  {
    names := {};
    for i := 0 to |docs|
      invariant names == DefinedNames(docs[..i])
    {
      ghost var before := names;
      for j := 0 to |docs[i].symbols|
        invariant names == before + set s | s in docs[i].symbols[..j] && (s.kind == StateDef || s.kind == CommandSymbol) :: s.name
      {
        var s := docs[i].symbols[j];
        assert docs[i].symbols[..j + 1] == docs[i].symbols[..j] + [s];
        if s.kind == StateDef || s.kind == CommandSymbol {
          names := names + {s.name};
        }
      }
      assert docs[i].symbols[..|docs[i].symbols|] == docs[i].symbols;
      assert docs[..i + 1] == docs[..i] + [docs[i]];
      assert forall d :: d in docs[..i + 1] <==> d in docs[..i] || d == docs[i];
    }
    assert docs[..|docs|] == docs;
  }

  method NoResults() returns (rs: seq<Resolution>, ds: seq<Diagnostic>)
    ensures rs == Resolutions([]) && ds == Diagnostics([])
  {
    rs, ds := [], [];
  }

  method ResolveDocument(docs: seq<Document>, roots: seq<Path>, doc: Document, ghost done: seq<Outcome>,
                         references: seq<Resolution>, diagnostics: seq<Diagnostic>)
    returns (rs: seq<Resolution>, ds: seq<Diagnostic>)
    requires references == Resolutions(done) && diagnostics == Diagnostics(done)
    ensures var all := done + OutcomesOf(docs, roots, doc, doc.references);
      rs == Resolutions(all) && ds == Diagnostics(all)
  {
    hide ResolveReference, TargetsFor, Index;
    rs, ds := references, diagnostics;
    ghost var os := OutcomesOf(docs, roots, doc, doc.references);
    assert done + os[..0] == done;
    for j := 0 to |doc.references|
      invariant rs == Resolutions(done + os[..j]) && ds == Diagnostics(done + os[..j])
    {
      var r := doc.references[j];
      var o := ResolveReference(doc, r, TargetsFor(Index(docs, r.target), doc.path, roots));
      assert o == os[j];
      assert done + os[..j + 1] == (done + os[..j]) + [o];
      DiagnosticsGrow(done + os[..j], o);
      rs, ds := rs + [o.resolution], ds + o.diagnostics;
    }
    assert os[..|os|] == os;
  }
}
