/**
 The paths of a patch: a relative path is cleaned, and resolved only when following
 its links does not lead out of the root.
 */
module PatchPaths {
  import opened Wrappers
  import opened Text

  /** The parts of s between slashes. */
  function Split(s: string): (parts: seq<string>)
    ensures |parts| > 0
  {
    if s == "" then [""]
    else
      var rest := Split(s[1..]);
      if s[0] == '/' then [""] + rest else [[s[0]] + rest[0]] + rest[1..]
  }

  /** One step of `filepath.Clean` on a relative path: `.` and empty parts vanish, `..` takes the part before it. */
  function CleanStep(kept: seq<string>, part: string): seq<string>
  {
    if part == "" || part == "." then kept
    else if part == ".." && kept != [] && kept[|kept| - 1] != ".." then kept[..|kept| - 1]
    else kept + [part]
  }

  function CleanParts(kept: seq<string>, parts: seq<string>): seq<string>
    decreases |parts|
  {
    if parts == [] then kept else CleanParts(CleanStep(kept, parts[0]), parts[1..])
  }

  function JoinPath(parts: seq<string>): string
  {
    if parts == [] then "" else if |parts| == 1 then parts[0] else parts[0] + "/" + JoinPath(parts[1..])
  }

  /** `canonicalRelative`: the clean form of a relative path that stays inside its root. */
  function CanonicalRelative(path: string): Option<string>
  {
    var p := TrimSpace(path);
    if p == "" || p[0] == '/' then None
    else
      var parts := CleanParts([], Split(p));
      if parts == [] || parts[0] == ".." then None else Some(JoinPath(parts))
  }

  // ---------- Clean paths ----------

  /** The name of a file or directory. */
  predicate Ordinary(part: string) { part != "" && part != "." && part != ".." && '/' !in part }

  predicate AllOrdinary(parts: seq<string>) { forall i :: 0 <= i < |parts| ==> Ordinary(parts[i]) }

  /** The parts of a clean path: `climbs` times `..`, then ordinary names. */
  ghost predicate CleanForm(kept: seq<string>, climbs: nat)
  {
    && climbs <= |kept|
    && (forall i :: 0 <= i < climbs ==> kept[i] == "..")
    && (forall i :: climbs <= i < |kept| ==> Ordinary(kept[i]))
  }

  lemma CleanStepForm(kept: seq<string>, part: string, climbs: nat) returns (c: nat)
    requires CleanForm(kept, climbs) && '/' !in part
    ensures CleanForm(CleanStep(kept, part), c)
  {
    c := if part == ".." && climbs == |kept| then climbs + 1 else climbs;
    if kept != [] {
      assert kept[|kept| - 1] == ".." <==> climbs == |kept|;
    }
  }

  lemma {:induction false} CleanPartsForm(kept: seq<string>, parts: seq<string>, climbs: nat) returns (c: nat)
    requires CleanForm(kept, climbs) && forall i :: 0 <= i < |parts| ==> '/' !in parts[i]
    ensures CleanForm(CleanParts(kept, parts), c)
    decreases |parts|
  {
    c := climbs;
    if parts != [] {
      c := CleanStepForm(kept, parts[0], climbs);
      c := CleanPartsForm(CleanStep(kept, parts[0]), parts[1..], c);
    }
  }

  lemma {:induction false} SplitParts(s: string)
    ensures forall i :: 0 <= i < |Split(s)| ==> '/' !in Split(s)[i]
  {
    if s != "" {
      SplitParts(s[1..]);
    }
  }

  /** A canonical path is a list of ordinary names: it never climbs out of the root. */
  lemma CanonicalStaysInside(path: string) returns (parts: seq<string>)
    requires CanonicalRelative(path).Some?
    ensures parts != [] && CanonicalRelative(path) == Some(JoinPath(parts))
    ensures AllOrdinary(parts) && Split(JoinPath(parts)) == parts == CleanParts([], Split(TrimSpace(path)))
  {
    parts := CleanParts([], Split(TrimSpace(path)));
    SplitParts(TrimSpace(path));
    var c := CleanPartsForm([], Split(TrimSpace(path)), 0);
    SplitJoin(parts);
  }

  lemma {:induction false} SplitJoin(parts: seq<string>)
    requires parts != [] && AllOrdinary(parts)
    ensures Split(JoinPath(parts)) == parts
  {
    if |parts| == 1 {
      SplitName(parts[0]);
    } else {
      SplitJoin(parts[1..]);
      SplitFirst(parts[0], JoinPath(parts[1..]));
    }
  }

  lemma {:induction false} SplitName(part: string)
    requires '/' !in part
    ensures Split(part) == [part]
  {
    if part != "" {
      SplitName(part[1..]);
      assert part[0] in part && part == [part[0]] + part[1..];
    }
  }

  lemma {:induction false} SplitFirst(part: string, rest: string)
    requires '/' !in part
    ensures Split(part + "/" + rest) == [part] + Split(rest)
  {
    var s := part + "/" + rest;
    if part == "" {
      assert s[1..] == rest;
    } else {
      SplitFirst(part[1..], rest);
      assert part[0] in part && part == [part[0]] + part[1..];
      assert s[1..] == part[1..] + "/" + rest;
    }
  }

  // ---------- Cleaning twice ----------

  lemma {:induction false} CleanOrdinary(kept: seq<string>, parts: seq<string>)
    requires AllOrdinary(parts)
    ensures CleanParts(kept, parts) == kept + parts
    decreases |parts|
  {
    if parts != [] {
      CleanOrdinary(kept + [parts[0]], parts[1..]);
      assert kept + [parts[0]] + parts[1..] == kept + parts;
    }
  }

  /** The bytes of the parts and of one slash each. */
  function Size(parts: seq<string>): nat
  {
    if parts == [] then 0 else Size(parts[..|parts| - 1]) + |parts[|parts| - 1]| + 1
  }

  lemma {:induction false} SizeJoin(a: seq<string>, b: seq<string>)
    ensures Size(a + b) == Size(a) + Size(b)
    decreases |b|
  {
    if b == [] {
      assert a + b == a;
    } else {
      SizeJoin(a, b[..|b| - 1]);
      assert (a + b)[..|a + b| - 1] == a + b[..|b| - 1];
    }
  }

  lemma SizeFirst(parts: seq<string>)
    requires parts != []
    ensures Size(parts) == |parts[0]| + 1 + Size(parts[1..])
  {
    SizeJoin([parts[0]], parts[1..]);
    assert [parts[0]] + parts[1..] == parts;
    assert [parts[0]][..0] == [];
  }

  lemma {:induction false} SizeSplit(s: string)
    ensures Size(Split(s)) == |s| + 1
  {
    SizeFirst(Split(s));
    if s != "" {
      SizeSplit(s[1..]);
      SizeFirst(Split(s[1..]));
      if s[0] == '/' {
        assert Split(s)[1..] == Split(s[1..]);
      } else {
        assert Split(s)[1..] == Split(s[1..])[1..];
      }
    }
  }

  lemma {:induction false} SizeClean(kept: seq<string>, parts: seq<string>)
    ensures Size(CleanParts(kept, parts)) <= Size(kept) + Size(parts)
    decreases |parts|
  {
    if parts != [] {
      var next := CleanStep(kept, parts[0]);
      SizeFirst(parts);
      SizeClean(next, parts[1..]);
      assert (kept + [parts[0]])[..|kept|] == kept;
    }
  }

  lemma {:induction false} TrimLeftLength(s: string)
    ensures |TrimLeft(s)| <= |s| && (|TrimLeft(s)| == |s| ==> TrimLeft(s) == s)
    decreases |s|
  {
    if BlankSize(s) > 0 {
      TrimLeftLength(s[BlankSize(s)..]);
    }
  }

  lemma {:induction false} TrimRightLength(s: string)
    ensures |TrimRight(s)| <= |s| && (|TrimRight(s)| == |s| ==> TrimRight(s) == s)
    decreases |s|
  {
    if BlankTail(s) > 0 {
      TrimRightLength(s[..|s| - BlankTail(s)]);
    }
  }

  lemma TrimLength(s: string)
    ensures |TrimSpace(s)| <= |s| && (|TrimSpace(s)| == |s| ==> TrimSpace(s) == s)
  {
    TrimLeftLength(s);
    TrimRightLength(TrimLeft(s));
  }

  lemma CanonicalShrinks(path: string)
    requires CanonicalRelative(path).Some?
    ensures |CanonicalRelative(path).value| <= |TrimSpace(path)|
  {
    hide CleanParts, Split, JoinPath, TrimSpace;
    var parts := CanonicalStaysInside(path);
    SizeSplit(TrimSpace(path));
    SizeClean([], Split(TrimSpace(path)));
    SizeSplit(JoinPath(parts));
    assert Size([]) == 0;
  }

  /**
   A canonical path need not be its own canonical path: cleaning can bring a blank
   to one of its ends, and the next call trims it off.  It is when it has none.
   */
  lemma CanonicalTwiceIff(path: string)
    requires CanonicalRelative(path).Some?
    ensures var rel := CanonicalRelative(path).value;
      CanonicalRelative(rel) == Some(rel) <==> TrimSpace(rel) == rel
  {
    var rel := CanonicalRelative(path).value;
    var parts := CanonicalStaysInside(path);
    TrimLength(rel);
    var trimmed := TrimSpace(rel);
    if trimmed == rel {
      CleanOrdinary([], parts);
      assert [] + parts == parts;
      assert rel[0] == parts[0][0];
    } else if CanonicalRelative(rel).Some? {
      CanonicalShrinks(rel);
    }
  }

  /** Text that is one white space: a blank, say, or the two bytes of U+00A0. */
  predicate IsWhite(w: string) { w != "" && BlankSize(w) == |w| }

  /** The path of "./", a white space and "x" is canonical, and its canonical path is resolved as "x". */
  lemma BlankPath(w: string)
    requires IsWhite(w)
    ensures CanonicalRelative("./" + w + "x") == Some(w + "x") && CanonicalRelative(w + "x") == Some("x") == CanonicalRelative("x")
  {
    hide TrimSpace;
    BlankPathTrims(w);
    assert '/' !in w && w[0] != '.' && (w + "x")[0] == w[0];
    assert Ordinary(w + "x");
    SplitName("x");
    SplitName(w + "x");
    assert "./" + w + "x" == "." + "/" + (w + "x");
    SplitFirst(".", w + "x");
    assert [".", w + "x"][1..] == [w + "x"];
    CleanOrdinary([], [w + "x"]);
    CleanOrdinary([], ["x"]);
    assert [] + [w + "x"] == [w + "x"] && [] + ["x"] == ["x"];
    assert CleanParts([], [".", w + "x"]) == CleanParts([], [w + "x"]);
  }

  lemma BlankPathTrims(w: string)
    requires IsWhite(w)
    ensures TrimSpace("./" + w + "x") == "./" + w + "x" && TrimSpace(w + "x") == TrimSpace("x") == "x"
  {
    var s := "./" + w + "x";
    assert BlankSize(s) == 0 && BlankTail(s) == 0;
    assert BlankSize("x") == 0 && BlankTail("x") == 0;
    assert BlankSize(w + "x") == |w| && (w + "x")[|w|..] == "x";
  }

  // ---------- Links ----------

  /**
   A root directory: the name it is given by, its absolute path with all links
   followed (None when that fails), and where the files below it lead when links
   are followed.  A file that is not listed cannot be followed.
   */
  datatype Root = Root(given: string, base: Option<seq<string>>, links: map<string, seq<string>>)

  /** `filepath.Rel` of two absolute paths. */
  function Rel(base: seq<string>, target: seq<string>): seq<string>
  {
    if base != [] && target != [] && base[0] == target[0] then Rel(base[1..], target[1..])
    else seq(|base|, _ => "..") + target
  }

  predicate Leaves(inside: seq<string>) { inside != [] && inside[0] == ".." }

  datatype PathError = Escape | NoRoot

  /** Where file `rel` below the root is. */
  function Followed(root: Root, rel: string): seq<string>
    requires root.base.Some?
  {
    if rel in root.links then root.links[rel] else root.base.value + Split(rel)
  }

  /** `resolvePath`: the file below the root that a path names. */
  function ResolvePath(root: Root, path: string): Result<string, PathError>
  {
    match CanonicalRelative(path)
    case None => Err(Escape)
    case Some(rel) =>
      if root.base.None? then Err(NoRoot)
      else if Leaves(Rel(root.base.value, Followed(root, rel))) then Err(Escape)
      else Ok(rel)
  }

  /** The absolute paths of a root are clean, as the system gives them. */
  ghost predicate CleanRoot(root: Root)
  {
    && (root.base.Some? ==> AllOrdinary(root.base.value))
    && forall rel :: rel in root.links ==> AllOrdinary(root.links[rel])
  }

  lemma {:induction false} RelLeaves(base: seq<string>, target: seq<string>)
    requires AllOrdinary(target)
    ensures Leaves(Rel(base, target)) <==> !(base <= target)
  {
    if base != [] && target != [] && base[0] == target[0] {
      RelLeaves(base[1..], target[1..]);
      assert base == [base[0]] + base[1..] && target == [target[0]] + target[1..];
    }
  }

  /** A path is resolved exactly when it is canonical and, with links followed, lies below the root. */
  lemma ResolvedIffInside(root: Root, path: string)
    requires CleanRoot(root)
    ensures ResolvePath(root, path).Ok? <==>
      && CanonicalRelative(path).Some? && root.base.Some?
      && root.base.value <= Followed(root, CanonicalRelative(path).value)
    ensures ResolvePath(root, path).Ok? ==> Some(ResolvePath(root, path).value) == CanonicalRelative(path)
    ensures ResolvePath(root, path) == Err(NoRoot) <==> CanonicalRelative(path).Some? && root.base.None?
  {
    if CanonicalRelative(path).Some? && root.base.Some? {
      var rel := CanonicalRelative(path).value;
      var parts := CanonicalStaysInside(path);
      RelLeaves(root.base.value, Followed(root, rel));
    }
  }
}
