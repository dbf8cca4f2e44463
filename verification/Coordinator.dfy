/**
 The analysis cache: a table of document records, a table of analysed roots, and
 the reverse index from documents to the roots that depend on them.  Calls run one
 at a time here; each sees one disk.
 */
module Coordinator {
  import opened Wrappers
  import opened Text
  import opened Hashing
  import opened Closure
  import opened Workspace

  datatype ServiceResult = ServiceResult(
    workspace: LoadResult,
    semantics: Semantics,
    diagnostics: multiset<Diagnostic>)

  /** What is remembered of a file: its hash when it could be read, and the size and time it had. */
  datatype DocumentEntry = DocumentEntry(hash: Hash, size: nat, mtime: int, loadErr: bool)

  datatype RootEntry = RootEntry(
    result: ServiceResult,
    valid: bool,
    dependencies: set<Path>,
    dependencyHashes: map<Path, Hash>)

  /** The answer of a load and a resolve done now, from scratch. */
  ghost function Fresh(env: Env, disk: Disk, root: Path): ServiceResult
  {
    Answer(env, Load(env, disk, root))
  }

  function Answer(env: Env, loaded: LoadResult): ServiceResult
  {
    var sem := env.resolve(loaded.documents);
    ServiceResult(loaded, sem, multiset(loaded.diagnostics) + multiset(sem.diagnostics))
  }

  /**
   What an answer holds: the resolver's word on the loaded documents, and every
   diagnostic as often as the loader and the resolver together give it.
   */
  ghost predicate Complete(env: Env, answer: ServiceResult)
  {
    && answer.semantics == env.resolve(answer.workspace.documents)
    && forall d :: answer.diagnostics[d] ==
         multiset(answer.workspace.diagnostics)[d] + multiset(answer.semantics.diagnostics)[d]
  }

  lemma FreshIsComplete(env: Env, disk: Disk, root: Path)
    ensures Complete(env, Fresh(env, disk, root)) && Fresh(env, disk, root).workspace == Load(env, disk, root)
  {
    hide Load;
  }

  /** The hash of a file now; none when it is missing or unreadable. */
  function HashNow(disk: Disk, p: Path): Hash
  {
    match ReadFile(disk, p)
    case None => NoHash
    case Some(text) => Digest(text)
  }

  /** The record `snapshot` makes of a file. */
  function Record(disk: Disk, p: Path): DocumentEntry
  {
    if p !in disk then DocumentEntry(NoHash, 0, 0, true)
    else DocumentEntry(HashNow(disk, p), |disk[p].bytes|, disk[p].mtime, !disk[p].readable)
  }

  /** A file that is readable on d and has the same size and modification time on e is readable with the same bytes there. */
  ghost predicate Visible(d: Disk, e: Disk)
  {
    forall p :: p in d && p in e && d[p].readable && |d[p].bytes| == |e[p].bytes| && d[p].mtime == e[p].mtime ==>
      e[p].readable && d[p].bytes == e[p].bytes
  }

  /** The same files exist and are readable, and a change of content shows in size or modification time. */
  ghost predicate Coherent(d: Disk, e: Disk) { SameFiles(d, e) && Visible(d, e) }

  /** A file that the load of `before` tried and could not read can be read now. */
  ghost predicate Appeared(env: Env, before: Disk, now: Disk, root: Path)
  {
    exists p :: p in Unread(env, before, root) && ReadFile(now, p).Some?
  }

  /** Every recorded hash is that of the file now. */
  ghost predicate HashesCurrent(entry: RootEntry, now: Disk)
  {
    forall p :: p in entry.dependencyHashes ==> HashNow(now, p) == entry.dependencyHashes[p]
  }

  /** An entry made from a load of `disk`, whatever became of its validity. */
  ghost predicate MadeFrom(env: Env, entry: RootEntry, disk: Disk, root: Path)
  {
    && entry.result == Fresh(env, disk, root)
    && entry.dependencies == entry.dependencyHashes.Keys == Loaded(Load(env, disk, root))
    && forall p :: p in entry.dependencies ==> entry.dependencyHashes[p] == HashNow(disk, p)
  }

  lemma MadeFromInvalidated(env: Env, entry: RootEntry, disk: Disk, root: Path, valid: bool)
    requires MadeFrom(env, entry, disk, root)
    ensures MadeFrom(env, entry.(valid := valid), disk, root)
  {
  }

  lemma SameDomain(env: Env, entry: RootEntry, disk: Disk, root: Path)
    requires MadeFrom(env, entry, disk, root)
    ensures entry.dependencies == entry.dependencyHashes.Keys
  {
  }

  /** `isExpired`. */
  predicate Expired(entry: DocumentEntry, file: FileState)
  {
    entry.loadErr || entry.size != |file.bytes| || entry.mtime != file.mtime
  }

  /** Equal hashes of readable files mean equal bytes: SHA-256 is injective. */
  lemma SameHashSameBytes(d: Disk, e: Disk, p: Path)
    requires HashNow(d, p) == HashNow(e, p) && HashNow(d, p) != NoHash
    ensures ReadFile(d, p) == ReadFile(e, p)
  {
  }

  /** The two loads load the same paths, in order, and report the same. */
  ghost predicate SameReport(env: Env, before: Disk, now: Disk, root: Path)
  {
    && LoadedPaths(Load(env, before, root)) == LoadedPaths(Load(env, now, root))
    && Load(env, before, root).diagnostics == Load(env, now, root).diagnostics
  }

  lemma CurrentReadsSame(env: Env, entry: RootEntry, before: Disk, now: Disk, root: Path)
    requires MadeFrom(env, entry, before, root) && HashesCurrent(entry, now)
    ensures forall p :: p in Loaded(Load(env, before, root)) ==> ReadFile(before, p) == ReadFile(now, p)
  {
    LoadReadable(env, before, root);
    forall p | p in Loaded(Load(env, before, root)) ensures ReadFile(before, p) == ReadFile(now, p) {
      SameHashSameBytes(before, now, p);
    }
  }

  /**
   When the recorded hashes are all current, and whatever else changed: the entry
   answers for the disk of now exactly when a load of now would load the same paths and
   report the same.
   */
  lemma EntryFreshIffSameReport(env: Env, entry: RootEntry, before: Disk, now: Disk, root: Path)
    requires MadeFrom(env, entry, before, root) && HashesCurrent(entry, now)
    ensures entry.result == Fresh(env, now, root) <==> SameReport(env, before, now, root)
  {
    hide Load;
    CurrentReadsSame(env, entry, before, now, root);
    LoadSameIff(env, before, now, root);
  }

  /**
   What the cache cannot see: an entry whose recorded hashes are all current answers
   for the disk of now exactly when no file its load missed has appeared, provided that
   the references still lead to the same paths.
   */
  lemma EntryFreshIff(env: Env, entry: RootEntry, before: Disk, now: Disk, root: Path)
    requires MadeFrom(env, entry, before, root) && SameLookups(env, before, now, root) && HashesCurrent(entry, now)
    ensures entry.result == Fresh(env, now, root) <==> !Appeared(env, before, now, root)
  {
    CurrentReadsSame(env, entry, before, now, root);
    LoadChangesIff(env, before, now, root);
  }

  /** An entry whose dependencies still hash the same answers for the disk of now, if the same files exist. */
  lemma EntryStillFresh(env: Env, entry: RootEntry, before: Disk, now: Disk, root: Path)
    requires MadeFrom(env, entry, before, root) && SameFiles(before, now) && HashesCurrent(entry, now)
    ensures entry.result == Fresh(env, now, root)
  {
    EntryFreshIff(env, entry, before, now, root);
  }

  // ---------- Invariants ----------

  /** The index is the exact inverse of the dependency sets, without empty entries: true whenever the lock is free. */
  ghost predicate IsInverse(roots: map<Path, RootEntry>, dependents: Graph)
  {
    && (forall d, r :: r in Successors(dependents, d) <==> r in roots && d in roots[r].dependencies)
    && NoEmptyEntry(dependents)
  }

  /** Every valid root recorded the hashes the document table holds. */
  ghost predicate InStep(roots: map<Path, RootEntry>, documents: map<Path, DocumentEntry>)
  {
    forall r, d :: r in roots && roots[r].valid && d in roots[r].dependencies ==>
      && d in roots[r].dependencyHashes && d in documents
      && documents[d].hash == roots[r].dependencyHashes[d]
  }

  /** Every record and every entry was made from a disk some call has seen: the one `origin` names. */
  ghost predicate Grounded(env: Env, observed: set<Disk>, origin: Origin,
                           roots: map<Path, RootEntry>, documents: map<Path, DocumentEntry>)
  {
    && (forall p :: p in documents ==> p in origin.documents && origin.documents[p] in observed
                                       && documents[p] == Record(origin.documents[p], p))
    && (forall r :: r in roots ==> r in origin.roots && origin.roots[r] in observed
                                   && MadeFrom(env, roots[r], origin.roots[r], r))
  }

  /** The disk each record and each entry was made from. */
  datatype Origin = Origin(documents: map<Path, Disk>, roots: map<Path, Disk>)

  lemma InverseInvalidated(was: map<Path, RootEntry>, now: map<Path, RootEntry>, hit: set<Path>, dependents: Graph)
    requires IsInverse(was, dependents) && InvalidatedAll(was, now, hit)
    ensures IsInverse(now, dependents)
  {
  }

  lemma InverseWithinRoots(roots: map<Path, RootEntry>, dependents: Graph, d: Path)
    requires IsInverse(roots, dependents)
    ensures Successors(dependents, d) <= roots.Keys
  {
  }

  ghost predicate NoEmptyEntry(g: Graph) { forall d :: d in g ==> g[d] != {} }

  /** h is g without `root` at the documents in `deps`. */
  ghost predicate Without(g: Graph, h: Graph, deps: set<Path>, root: Path)
  {
    NoEmptyEntry(h) && forall d, r :: r in Successors(h, d) <==> r in Successors(g, d) && !(d in deps && r == root)
  }

  /** h is g with `root` added at the documents in `deps`. */
  ghost predicate With(g: Graph, h: Graph, deps: set<Path>, root: Path)
  {
    NoEmptyEntry(h) && forall d, r :: r in Successors(h, d) <==> r in Successors(g, d) || (d in deps && r == root)
  }

  lemma InverseMoved(was: map<Path, RootEntry>, now: map<Path, RootEntry>, root: Path, g: Graph, cleared: Graph, h: Graph)
    requires IsInverse(was, g) && root in now && now == was[root := now[root]]
    requires Without(g, cleared, if root in was then was[root].dependencies else {}, root)
    requires With(cleared, h, now[root].dependencies, root)
    ensures IsInverse(now, h)
  {
  }

  /** `root` no longer depends on `dep`; an entry left empty goes away. */
  function RemovePair(g: Graph, dep: Path, root: Path): (r: Graph)
    ensures forall d :: Successors(r, d) == Successors(g, d) - (if d == dep then {root} else {})
    ensures NoEmptyEntry(g) ==> NoEmptyEntry(r)
  {
    if dep !in g then g
    else
      var left := g[dep] - {root};
      if left == {} then g - {dep} else g[dep := left]
  }

  /** `root` depends on `dep`. */
  function AddPair(g: Graph, dep: Path, root: Path): (r: Graph)
    ensures forall d :: Successors(r, d) == Successors(g, d) + (if d == dep then {root} else {})
    ensures NoEmptyEntry(g) ==> NoEmptyEntry(r)
  {
    g[dep := Successors(g, dep) + {root}]
  }

  /** Writing the record of `path` and invalidating what it reaches keeps the invariants. */
  lemma RecordKept(env: Env, observed: set<Disk>, origin: Origin, disk: Disk, path: Path, hit: set<Path>,
                   was: map<Path, RootEntry>, roots: map<Path, RootEntry>,
                   docs: map<Path, DocumentEntry>, documents: map<Path, DocumentEntry>)
    requires InStep(was, docs) && Grounded(env, observed, origin, was, docs) && disk in observed
    requires documents == docs[path := Record(disk, path)] && InvalidatedAll(was, roots, hit)
    requires path in hit || (if path in docs then docs[path].hash else NoHash) == documents[path].hash
    ensures InStep(roots, documents)
    ensures Grounded(env, observed, origin.(documents := origin.documents[path := disk]), roots, documents)
  {
    hide MadeFrom, Record;
    forall r | r in roots ensures MadeFrom(env, roots[r], origin.roots[r], r) {
      MadeFromInvalidated(env, was[r], origin.roots[r], r, roots[r].valid);
    }
    forall r, d | r in roots && roots[r].valid && d in roots[r].dependencies
      ensures d in roots[r].dependencyHashes && d in documents && documents[d].hash == roots[r].dependencyHashes[d]
    {
      assert was[r].valid && d in was[r].dependencyHashes && docs[d].hash == was[r].dependencyHashes[d];
      assert path in hit ==> d != path;
    }
  }

  /** Invalidating one root keeps the invariants. */
  lemma OneInvalidated(env: Env, observed: set<Disk>, origin: Origin, was: map<Path, RootEntry>, now: map<Path, RootEntry>,
                       documents: map<Path, DocumentEntry>, dependents: Graph, root: Path)
    requires IsInverse(was, dependents) && InStep(was, documents) && Grounded(env, observed, origin, was, documents)
    requires root in was && now == was[root := was[root].(valid := false)]
    ensures IsInverse(now, dependents)
    ensures InStep(now, documents)
    ensures Grounded(env, observed, origin, now, documents)
  {
    hide MadeFrom, Record;
    MadeFromInvalidated(env, was[root], origin.roots[root], root, false);
    SameDomain(env, was[root], origin.roots[root], root);
    OneInStep(was, now, documents, root);
  }

  lemma OneInStep(was: map<Path, RootEntry>, now: map<Path, RootEntry>, documents: map<Path, DocumentEntry>, root: Path)
    requires InStep(was, documents)
    requires root in now && now[root].dependencies == now[root].dependencyHashes.Keys
    requires now[root].valid ==>
      forall p :: p in now[root].dependencies ==> p in documents && documents[p].hash == now[root].dependencyHashes[p]
    requires now == was[root := now[root]]
    ensures InStep(now, documents)
  {
    forall r, d | r in now && now[r].valid && d in now[r].dependencies
      ensures d in now[r].dependencyHashes && d in documents && documents[d].hash == now[r].dependencyHashes[d]
    {
      if r != root {
        assert r in was && now[r] == was[r];
      }
    }
  }

  /** The entry made of a load of now and the hashes of now. */
  lemma MadeNow(env: Env, disk: Disk, root: Path, hashes: map<Path, Hash>)
    requires hashes.Keys == Loaded(Load(env, disk, root)) && forall p :: p in hashes ==> hashes[p] == HashNow(disk, p)
    ensures MadeFrom(env, RootEntry(Answer(env, Load(env, disk, root)), true, hashes.Keys, hashes), disk, root)
  {
  }

  lemma MadeHashes(env: Env, entry: RootEntry, disk: Disk, root: Path, path: Path)
    requires MadeFrom(env, entry, disk, root) && path in entry.dependencyHashes
    ensures path in entry.dependencies && entry.dependencyHashes[path] != NoHash
  {
    LoadReadable(env, disk, root);
  }

  lemma RecordHash(disk: Disk, path: Path)
    ensures Record(disk, path).hash != NoHash ==> !Record(disk, path).loadErr
  {
  }

  class Coordinator {
    const env: Env
    var roots: map<Path, RootEntry>
    var documents: map<Path, DocumentEntry>
    var dependents: map<Path, set<Path>>
    var inFlight: set<Path>
    /** The disks that calls have seen. */
    ghost var observed: set<Disk>
    ghost var origin: Origin

    constructor (env: Env)
      ensures this.env == env && Valid() && observed == {} && roots == map[] && documents == map[]
    {
      this.env := env;
      roots, documents, dependents, inFlight := map[], map[], map[], {};
      observed, origin := {}, Origin(map[], map[]);
    }

    ghost predicate Indexed()
      reads this`roots, this`dependents
    {
      IsInverse(roots, dependents)
    }

    /** Holds between calls. */
    ghost predicate Valid()
      reads this
    {
      IsInverse(roots, dependents) && InStep(roots, documents) && Grounded(env, observed, origin, roots, documents)
    }

    /** What a call needs of the disk it sees: changes since the disks seen before are visible. */
    ghost predicate Sees(disk: Disk)
      reads this`observed
    {
      disk in observed && forall d :: d in observed ==> Visible(d, disk)
    }

    // ---------- Operations ----------

    method Begin(root: Path)
      modifies this`inFlight
      ensures inFlight == old(inFlight) + {root}
    {
      inFlight := inFlight + {root};
    }

    method End(root: Path)
      modifies this`inFlight
      ensures inFlight == old(inFlight) - {root}
    {
      inFlight := inFlight - {root};
    }

    method MarkInvalid(root: Path)
      requires Valid()
      modifies this`roots
      ensures Valid()
      ensures roots == if root in old(roots) then old(roots)[root := old(roots)[root].(valid := false)] else old(roots)
    {
      hide IsInverse, InStep, Grounded;
      if root in roots {
        ghost var was := roots;
        roots := roots[root := roots[root].(valid := false)];
        OneInvalidated(env, observed, origin, was, roots, documents, dependents, root);
      }
    }

    /** Invalidates exactly the roots that depend on something reachable from `path` in the index. */
    method InvalidateDependents(path: Path) returns (ghost reach: set<Path>)
      requires Indexed()
      modifies this`roots
      ensures Indexed() && IsReach(dependents, {path}, reach)
      ensures InvalidatedAll(old(roots), roots, reach)
    {
      ghost var nodes := {path} + roots.Keys;
      var seen: set<Path> := {};
      var queue := [path];
      NothingInvalidated(roots);
      assert Waiting(queue) == {path};
      while |queue| > 0
        invariant Indexed()
        invariant Searching(dependents, {path}, seen, Waiting(queue))
        invariant seen <= nodes && Waiting(queue) <= nodes
        invariant InvalidatedAll(old(roots), roots, seen)
        decreases nodes - seen, |queue|
      {
        var current := queue[0];
        ghost var waiting, before := Waiting(queue), roots;
        WaitingFirst(queue);
        queue := queue[1..];
        if current in seen {
          assert seen + waiting == seen + Waiting(queue);
          continue;
        }
        InverseWithinRoots(roots, dependents, current);
        queue := InvalidateDirect(current, queue);
        InvalidatedTwice(old(roots), before, roots, seen, {current});
        SearchStep(dependents, {path}, seen, waiting, current, Waiting(queue));
        seen := seen + {current};
      }
      assert Waiting(queue) == {};
      SearchEnds(dependents, {path}, seen);
      reach := seen;
    }

    /** Invalidates the roots that depend on `current` and queues them. */
    method InvalidateDirect(current: Path, queue: seq<Path>) returns (q: seq<Path>)
      requires Indexed()
      modifies this`roots
      ensures Indexed() && InvalidatedAll(old(roots), roots, {current})
      ensures Waiting(q) == Waiting(queue) + Successors(dependents, current)
    {
      q := queue;
      var todo := if current in dependents then dependents[current] else {};
      while todo != {}
        invariant todo <= Successors(dependents, current)
        invariant roots.Keys == old(roots).Keys
        invariant forall r :: r in roots ==> roots[r] == old(roots)[r].(valid :=
          old(roots)[r].valid && (current !in old(roots)[r].dependencies || r in todo))
        invariant Waiting(q) == Waiting(queue) + (Successors(dependents, current) - todo)
        decreases todo
      {
        var root :| root in todo;
        assert root in roots && current in roots[root].dependencies;
        roots := roots[root := roots[root].(valid := false)];
        assert Waiting(q + [root]) == Waiting(q) + {root};
        q := q + [root];
        todo := todo - {root};
      }
      InverseInvalidated(old(roots), roots, {current}, dependents);
    }

    /** Writes the record of `path` and, when told to, invalidates what it reaches. */
    method WriteRecord(disk: Disk, path: Path, changed: bool) returns (ghost hit: set<Path>)
      requires Valid() && disk in observed
      requires !changed ==> (if path in documents then documents[path].hash else NoHash) == Record(disk, path).hash
      modifies this`documents, this`roots, this`origin
      ensures Valid() && InvalidatedAll(old(roots), roots, hit)
      ensures if changed then IsReach(dependents, {path}, hit) else hit == {}
      ensures documents == old(documents)[path := Record(disk, path)] && origin.roots == old(origin).roots
    {
      hit := {};
      NothingInvalidated(roots);
      documents := documents[path := Record(disk, path)];
      if changed {
        hit := InvalidateDependents(path);
      }
      RecordKept(env, observed, origin, disk, path, hit, old(roots), roots, old(documents), documents);
      origin := origin.(documents := origin.documents[path := disk]);
    }

    /**
     Re-reads a document when its record is missing or expired.  A change invalidates
     exactly the roots that depend on something the document reaches; without one
     nothing is invalidated.
     */
    method Snapshot(disk: Disk, path: Path) returns (hash: Hash, ok: bool, ghost hit: set<Path>)
      requires Valid() && Sees(disk)
      modifies this`documents, this`roots, this`origin
      ensures Valid() && InvalidatedAll(old(roots), roots, hit)
      ensures if Changed(old(documents), disk, path) then IsReach(dependents, {path}, hit) else hit == {}
      ensures path in old(documents) && !old(documents)[path].loadErr ==>
        (path in hit <==> old(documents)[path].hash != HashNow(disk, path))
      ensures path !in old(documents) ==> (path in hit <==> path in disk)
      ensures hash == HashNow(disk, path) && (ok <==> hash != NoHash)
      ensures path in documents && documents[path].hash == hash
      ensures documents == old(documents) || documents == old(documents)[path := Record(disk, path)]
      ensures origin.roots == old(origin).roots
    {
      if path !in disk {
        hit := WriteRecord(disk, path, path in documents && documents[path].hash != NoHash);
        return NoHash, false, hit;
      }
      if path in documents && !Expired(documents[path], disk[path]) {
        UnexpiredIsCurrent(disk, path);
        NothingInvalidated(roots);
        return documents[path].hash, true, {};
      }
      var now := HashNow(disk, path);
      var changed := path !in documents || documents[path].loadErr || documents[path].hash != now;
      hit := WriteRecord(disk, path, changed);
      return now, disk[path].readable, hit;
    }

    /** A record that has not expired has the hash the file has now. */
    lemma UnexpiredIsCurrent(disk: Disk, path: Path)
      requires Valid() && Sees(disk)
      requires path in disk && path in documents && !Expired(documents[path], disk[path])
      ensures documents[path].hash == HashNow(disk, path) != NoHash
    {
      assert Visible(origin.documents[path], disk);
    }

    /** Replaces the entry of a root and moves it in the index from its old dependencies to its new ones. */
    method StoreResult(root: Path, result: ServiceResult, hashes: map<Path, Hash>)
      requires Indexed()
      modifies this`roots, this`dependents
      ensures Indexed()
      ensures roots == old(roots)[root := RootEntry(result, true, hashes.Keys, hashes)]
    {
      var former := if root in roots then roots[root].dependencies else {};
      var todo := former;
      while todo != {}
        invariant todo <= former && roots == old(roots)
        invariant Without(old(dependents), dependents, former - todo, root)
        decreases todo
      {
        var dep :| dep in todo;
        todo := todo - {dep};
        dependents := RemovePair(dependents, dep, root);
      }
      ghost var cleared := dependents;
      todo := hashes.Keys;
      while todo != {}
        invariant todo <= hashes.Keys && roots == old(roots)
        invariant With(cleared, dependents, hashes.Keys - todo, root)
        decreases todo
      {
        var dep :| dep in todo;
        todo := todo - {dep};
        dependents := AddPair(dependents, dep, root);
      }
      roots := roots[root := RootEntry(result, true, hashes.Keys, hashes)];
      InverseMoved(old(roots), roots, root, old(dependents), cleared, dependents);
    }

    /**
     Answers from the cache exactly when the root is valid and every dependency still
     has its recorded hash.  The answer is the fresh one exactly when a load of now would
     load the same paths and report the same; where lookups lead to the same paths, that
     is when no file the recorded load missed has appeared.
     */
    method Hit(disk: Disk, root: Path) returns (cached: Option<ServiceResult>)
      requires Valid() && Sees(disk)
      modifies this`documents, this`roots, this`origin
      ensures Valid()
      ensures cached.Some? <==> root in old(roots) && old(roots)[root].valid && HashesCurrent(old(roots)[root], disk)
      ensures cached.Some? ==> cached.value == old(roots)[root].result
      ensures cached.Some? ==> AnswersFor(env, old(origin).roots, disk, root, cached.value)
      ensures cached.Some? ==> Complete(env, cached.value)
    {
      hide IsInverse, InStep, Grounded, MadeFrom;
      if root !in roots || !roots[root].valid {
        return None;
      }
      GroundedEntry(disk, root);
      var same := StillTheSame(disk, root);
      if !same {
        MarkInvalid(root);
        return None;
      }
      if !roots[root].valid {
        return None;
      }
      return Some(roots[root].result);
    }

    /** Compares the recorded hashes of a valid root with the files of now, in any order, until one differs. */
    method StillTheSame(disk: Disk, root: Path) returns (same: bool)
      requires Valid() && Sees(disk) && root in roots && roots[root].valid
      modifies this`documents, this`roots, this`origin
      ensures Valid() && root in roots
      ensures roots[root] == old(roots)[root].(valid := roots[root].valid)
      ensures same <==> HashesCurrent(old(roots)[root], disk)
      ensures same ==> roots[root].valid
    {
      hide IsInverse, InStep, Grounded;
      var hashes := roots[root].dependencyHashes;
      var todo := hashes.Keys;
      while todo != {}
        invariant Valid() && todo <= hashes.Keys
        invariant root in roots && roots[root] == old(roots)[root]
        invariant forall p :: p in hashes && p !in todo ==> HashNow(disk, p) == hashes[p]
        decreases todo
      {
        var path :| path in todo;
        todo := todo - {path};
        RecordedHash(root, path);
        ghost var before := documents;
        var hash, ok, hit := Snapshot(disk, path);
        if !ok || hash != hashes[path] {
          return false;
        }
        Unchanged(before, disk, path, hashes[path]);
      }
      return true;
    }

    /** What a valid root recorded is what the document table holds, and a hash of a file. */
    lemma RecordedHash(root: Path, path: Path)
      requires Valid() && root in roots && roots[root].valid && path in roots[root].dependencyHashes
      ensures path in documents && documents[path].hash == roots[root].dependencyHashes[path] != NoHash
      ensures !documents[path].loadErr
    {
      hide IsInverse, Fresh, Load;
      MadeHashes(env, roots[root], origin.roots[root], root, path);
      RecordHash(origin.documents[path], path);
    }

    lemma GroundedEntry(disk: Disk, root: Path)
      requires Valid() && root in roots
      ensures HashesCurrent(roots[root], disk) ==> AnswersFor(env, origin.roots, disk, root, roots[root].result)
      ensures Complete(env, roots[root].result)
    {
      var before := origin.roots[root];
      assert MadeFrom(env, roots[root], before, root);
      FreshIsComplete(env, before, root);
      if HashesCurrent(roots[root], disk) {
        EntryFreshIffSameReport(env, roots[root], before, disk, root);
        if SameLookups(env, before, disk, root) {
          EntryFreshIff(env, roots[root], before, disk, root);
        }
      }
    }

    /** Loads, records the hash of every document, resolves, and stores the answer. */
    method AnalyzeAnew(disk: Disk, root: Path) returns (r: Result<ServiceResult, AnalyzeError>)
      requires Valid() && Sees(disk)
      modifies this`documents, this`roots, this`dependents, this`origin
      ensures Valid()
      ensures r == Ok(Fresh(env, disk, root))
      ensures Complete(env, r.value) && r.value.workspace == Load(env, disk, root)
    {
      hide IsInverse, InStep, Grounded, MadeFrom, Load;
      var loaded := LoadWorkspace(env, disk, root);
      LoadReadable(env, disk, root);
      var hashes: map<Path, Hash> := map[];
      for i := 0 to |loaded.documents|
        invariant Valid()
        invariant hashes.Keys == set d | d in loaded.documents[..i] :: d.path
        invariant forall p :: p in hashes ==>
          hashes[p] == HashNow(disk, p) && p in documents && documents[p].hash == hashes[p]
      {
        var path := loaded.documents[i].path;
        assert path in Loaded(loaded);
        assert loaded.documents[..i + 1] == loaded.documents[..i] + [loaded.documents[i]];
        var hash, ok, hit := Snapshot(disk, path);
        if !ok {
          return Err(SnapshotFailed);
        }
        hashes := hashes[path := hash];
      }
      assert loaded.documents[..|loaded.documents|] == loaded.documents;
      var result := Answer(env, loaded);
      ghost var was := roots;
      StoreResult(root, result, hashes);
      MadeNow(env, disk, root, hashes);
      StoreKept(env, observed, origin, was, roots, documents, disk, root);
      origin := origin.(roots := origin.roots[root := disk]);
      return Ok(result);
    }

    /**
     One call.  Whether it hits or misses, the answer is that of a fresh load and
     resolve of the disk it sees, provided that disk is coherent with those seen
     before; where files came or went, it still is unless a load of now would load other
     paths or report something else.
     */
    method Analyze(disk: Disk, defPath: string) returns (r: Result<ServiceResult, AnalyzeError>)
      requires Valid() && forall d :: d in observed ==> Visible(d, disk)
      modifies this
      ensures Valid()
      ensures TrimSpace(defPath) == "" ==> r == Err(EmptyPath) && observed == old(observed)
      ensures TrimSpace(defPath) != "" ==> r.Ok? && observed == old(observed) + {disk} && Complete(env, r.value)
      ensures TrimSpace(defPath) != "" && (forall d :: d in old(observed) ==> Coherent(d, disk)) ==>
        r == Ok(Fresh(env, disk, TrimSpace(defPath)))
      ensures TrimSpace(defPath) != "" && r != Ok(Fresh(env, disk, TrimSpace(defPath))) ==>
        AnswersFor(env, old(origin).roots, disk, TrimSpace(defPath), r.value)
    {
      var root := TrimSpace(defPath);
      if root == "" {
        return Err(EmptyPath);
      }
      ghost var before := observed;
      observed := observed + {disk};
      Begin(root);
      var cached := Hit(disk, root);
      if cached.Some? {
        r := Ok(cached.value);
        CoherentAnswer(before, disk, root, old(origin).roots, cached.value);
      } else {
        r := AnalyzeAnew(disk, root);
      }
      End(root);
    }

    lemma CoherentAnswer(before: set<Disk>, disk: Disk, root: Path, origins: map<Path, Disk>, answer: ServiceResult)
      requires root in origins && origins[root] in before && AnswersFor(env, origins, disk, root, answer)
      ensures (forall d :: d in before ==> Coherent(d, disk)) ==> answer == Fresh(env, disk, root)
    {
    }
  }

  datatype AnalyzeError = EmptyPath | SnapshotFailed

  /** Storing an entry made from `disk` that agrees with the document table keeps the invariants. */
  lemma StoreKept(env: Env, observed: set<Disk>, origin: Origin, was: map<Path, RootEntry>, now: map<Path, RootEntry>,
                  documents: map<Path, DocumentEntry>, disk: Disk, root: Path)
    requires InStep(was, documents) && Grounded(env, observed, origin, was, documents) && disk in observed
    requires root in now && now == was[root := now[root]] && MadeFrom(env, now[root], disk, root)
    requires now[root].dependencies == now[root].dependencyHashes.Keys
    requires forall p :: p in now[root].dependencies ==>
      p in documents && documents[p].hash == now[root].dependencyHashes[p]
    ensures InStep(now, documents)
    ensures Grounded(env, observed, origin.(roots := origin.roots[root := disk]), now, documents)
  {
    hide MadeFrom, Record;
    OneInStep(was, now, documents, root);
  }

  /** The record of `path` no longer says what the disk holds there, or it holds nothing readable to compare with. */
  ghost predicate Changed(documents: map<Path, DocumentEntry>, disk: Disk, path: Path)
  {
    if path in disk then path !in documents || documents[path].loadErr || documents[path].hash != HashNow(disk, path)
    else path in documents && documents[path].hash != NoHash
  }

  lemma Unchanged(documents: map<Path, DocumentEntry>, disk: Disk, path: Path, hash: Hash)
    requires path in documents && documents[path].hash == hash == HashNow(disk, path) != NoHash && !documents[path].loadErr
    ensures !Changed(documents, disk, path)
  {
  }

  /**
   How good a cached answer is: it is the fresh one exactly when a load of now would load
   the same paths and report the same; with lookups unchanged, when no file its load
   missed has appeared.
   */
  ghost predicate AnswersFor(env: Env, origins: map<Path, Disk>, disk: Disk, root: Path, answer: ServiceResult)
  {
    && root in origins
    && (answer == Fresh(env, disk, root) <==> SameReport(env, origins[root], disk, root))
    && (SameLookups(env, origins[root], disk, root) ==>
          (answer == Fresh(env, disk, root) <==> !Appeared(env, origins[root], disk, root)))
  }

  /** A root analysed while its file was missing has no dependency to check; the file's appearance is not seen. */
  lemma AppearingRootExample(env: Env, entry: RootEntry, root: Path, file: FileState)
    requires MadeFrom(env, entry, map[], root) && file.readable
    ensures var now := map[root := file];
      Visible(map[], now) && HashesCurrent(entry, now) && entry.result != Fresh(env, now, root)
  {
    var now := map[root := file];
    assert root in Unread(env, map[], root) && ReadFile(now, root).Some?;
    EntryFreshIff(env, entry, map[], now, root);
  }

  /** Nor is that of a referenced source that was missing. */
  lemma AppearingSourceExample(env: Env, entry: RootEntry, root: Path, text: FileState, source: Path, file: FileState)
    requires source != root && text.readable && file.readable
    requires MadeFrom(env, entry, map[root := text], root) && source in Tried(env, map[root := text], root)
    requires SameLookups(env, map[root := text], map[root := text, source := file], root)
    ensures var now := map[root := text, source := file];
      Visible(map[root := text], now) && HashesCurrent(entry, now) && entry.result != Fresh(env, now, root)
  {
    var before, now := map[root := text], map[root := text, source := file];
    LoadReadable(env, before, root);
    assert source in Unread(env, before, root) && ReadFile(now, source).Some?;
    EntryFreshIff(env, entry, before, now, root);
  }

  /** One reference, which leads to `low`, and to `high` once that exists. */
  ghost predicate Shadows(env: Env, root: Path, ref: SourceRef, low: Path, high: Path)
  {
    && env.lookup({root, low}, root, ref.path) == Some(low) && env.lookup({root, low, high}, root, ref.path) == Some(high)
    && env.dedupKey(low) != env.dedupKey(root) && env.dedupKey(high) != env.dedupKey(root)
  }

  /** A file that appears where the profile looks first shadows the one that was loaded, whose hash stays current. */
  lemma ShadowingFileExample(env: Env, entry: RootEntry, root: Path, text: FileState, low: Path, source: FileState,
                             high: Path, file: FileState, ref: SourceRef)
    requires root != low && root != high && low != high && text.readable && source.readable && file.readable
    requires MadeFrom(env, entry, map[root := text, low := source], root)
    requires RootRefs(env, map[root := text, low := source], root) == [ref] && Shadows(env, root, ref, low, high)
    ensures var now := map[root := text, low := source, high := file];
      && Visible(map[root := text, low := source], now) && HashesCurrent(entry, now)
      && LoadedPaths(entry.result.workspace) == [root, low] && LoadedPaths(Load(env, now, root)) == [root, high]
      && entry.result != Fresh(env, now, root)
  {
    var before, now := map[root := text, low := source], map[root := text, low := source, high := file];
    hide Load;
    assert before.Keys == {root, low} && now.Keys == {root, low, high};
    assert RootRefs(env, now, root) == [ref];
    OneSource(env, before, root, ref, low);
    OneSource(env, now, root, ref, high);
    var paths := LoadedPaths(Load(env, before, root));
    forall p | p in Loaded(Load(env, before, root)) ensures p == root || p == low {
      var i :| 0 <= i < |paths| && paths[i] == p;
    }
    assert [root, low][1] != [root, high][1];
  }

  lemma OneSource(env: Env, disk: Disk, root: Path, ref: SourceRef, p: Path)
    requires ReadFile(disk, root).Some? && ReadFile(disk, p).Some? && RootRefs(env, disk, root) == [ref]
    requires env.lookup(disk.Keys, root, ref.path) == Some(p) && env.dedupKey(p) != env.dedupKey(root)
    ensures LoadedPaths(Load(env, disk, root)) == [root, p]
  {
    var doc := Document(root, env.parse(root, ReadFile(disk, root).value));
    var acc, seen := LoadResult([doc], doc.parsed.diagnostics), {env.dedupKey(root)};
    assert [ref][1..] == [];
    var end := AddSource(env, disk, root, ref, p, acc);
    assert LoadRefs(env, disk, root, [ref], seen, acc) == LoadRefs(env, disk, root, [], seen + {env.dedupKey(p)}, end) == end;
    assert end.documents == [doc, Document(p, env.parse(p, ReadFile(disk, p).value))];
  }

  lemma WaitingFirst(q: seq<Path>)
    requires q != []
    ensures Waiting(q) == {q[0]} + Waiting(q[1..])
  {
    assert q == [q[0]] + q[1..];
  }

  ghost function Waiting(q: seq<Path>): set<Path> { set p | p in q }

  /** An entry after the documents in `hit` were invalidated. */
  function Invalidated(entry: RootEntry, hit: set<Path>): RootEntry
  {
    entry.(valid := entry.valid && entry.dependencies !! hit)
  }

  /** `now` is `was` with exactly the entries invalidated that depend on a document in `hit`. */
  ghost predicate InvalidatedAll(was: map<Path, RootEntry>, now: map<Path, RootEntry>, hit: set<Path>)
  {
    now.Keys == was.Keys && forall r :: r in now ==> now[r] == Invalidated(was[r], hit)
  }

  lemma NothingInvalidated(was: map<Path, RootEntry>)
    ensures InvalidatedAll(was, was, {})
  {
  }

  lemma InvalidatedTwice(a: map<Path, RootEntry>, b: map<Path, RootEntry>, c: map<Path, RootEntry>, s: set<Path>, t: set<Path>)
    requires InvalidatedAll(a, b, s) && InvalidatedAll(b, c, t)
    ensures InvalidatedAll(a, c, s + t)
  {
    forall r | r in c ensures c[r] == Invalidated(a[r], s + t) {
      assert a[r].dependencies !! s + t <==> a[r].dependencies !! s && a[r].dependencies !! t;
    }
  }
}
