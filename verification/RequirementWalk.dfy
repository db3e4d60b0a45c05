/** The walk over Python requirement files that include one another. */
module RequirementWalk {
  import opened Wrappers

  type Path = string

  /** A line of a requirement file, comments and blanks aside. `Malformed` is an include whose
      argument is not one relative path; the target of an include is the resolved path. */
  datatype Line = Requirement(text: string) | Include(target: Path) | Malformed

  /** The readable files below the root. */
  type FileSystem = map<Path, seq<Line>>

  datatype Errore = NonEsiste | Ciclo | IncludeNonValido

  // ----- what a walk may reach

  ghost predicate Includes(fs: FileSystem, a: Path, b: Path) {
    a in fs && Include(b) in fs[a]
  }

  /** Each file includes the next. */
  ghost predicate Chain(fs: FileSystem, p: seq<Path>) {
    forall i :: 0 <= i < |p| - 1 ==> Includes(fs, p[i], p[i + 1])
  }

  ghost predicate ChainTo(fs: FileSystem, roots: set<Path>, p: seq<Path>, x: Path) {
    p != [] && p[0] in roots && p[|p| - 1] == x && Chain(fs, p)
  }

  ghost predicate Reachable(fs: FileSystem, roots: set<Path>, x: Path) {
    exists p :: ChainTo(fs, roots, p, x)
  }

  ghost predicate CycleAt(fs: FileSystem, p: seq<Path>) {
    |p| >= 2 && p[0] == p[|p| - 1] && Chain(fs, p)
  }

  ghost predicate CycleReachable(fs: FileSystem, roots: set<Path>) {
    exists p :: CycleAt(fs, p) && Reachable(fs, roots, p[0])
  }

  ghost predicate MissingReachable(fs: FileSystem, roots: set<Path>) {
    exists x :: Reachable(fs, roots, x) && x !in fs
  }

  ghost predicate MalformedReachable(fs: FileSystem, roots: set<Path>) {
    exists x :: Reachable(fs, roots, x) && x in fs && Malformed in fs[x]
  }

  /** What an error means. */
  ghost predicate Explains(fs: FileSystem, roots: set<Path>, e: Errore) {
    match e
    case NonEsiste => MissingReachable(fs, roots)
    case Ciclo => CycleReachable(fs, roots)
    case IncludeNonValido => MalformedReachable(fs, roots)
  }

  /** The requirements of a file, in order. */
  function Requirements(lines: seq<Line>): seq<string> {
    if lines == [] then []
    else
      var last := lines[|lines| - 1];
      Requirements(lines[..|lines| - 1]) + (if last.Requirement? then [last.text] else [])
  }

  /** The requirements of two parts are those of the first and then those of the second; an include
      is none. */
  lemma {:induction false} RequirementsInOrder(a: seq<Line>, b: seq<Line>, text: string, target: Path)
    ensures Requirements(a + b) == Requirements(a) + Requirements(b)
    ensures Requirements([Requirement(text)]) == [text]
    ensures Requirements([Include(target)]) == [] && Requirements([Malformed]) == []
    decreases |b|
  {
    if b == [] {
      assert a + b == a;
    } else {
      RequirementsInOrder(a, b[..|b| - 1], text, target);
      assert (a + b)[..|a + b| - 1] == a + b[..|b| - 1];
    }
  }

  lemma ChainExtends(fs: FileSystem, roots: set<Path>, p: seq<Path>, a: Path, b: Path)
    requires ChainTo(fs, roots, p, a) && Includes(fs, a, b)
    ensures ChainTo(fs, roots, p + [b], b)
  {
  }

  /** A file met again on the current chain closes a cycle. */
  lemma RevisitIsCycle(fs: FileSystem, roots: set<Path>, p: seq<Path>, x: Path)
    requires ChainTo(fs, roots, p, x) && x in Before(p)
    ensures Explains(fs, roots, Ciclo)
  {
    var i :| 0 <= i < |p| - 1 && p[i] == x;
    assert CycleAt(fs, p[i..]);
    assert ChainTo(fs, roots, p[..i + 1], x);
  }

  lemma BadFileIsReachable(fs: FileSystem, roots: set<Path>, p: seq<Path>, x: Path)
    requires ChainTo(fs, roots, p, x)
    ensures Reachable(fs, roots, x)
    ensures x !in fs ==> Explains(fs, roots, NonEsiste)
    ensures x in fs && Malformed in fs[x] ==> Explains(fs, roots, IncludeNonValido)
  {
  }

  /** The files on a chain before its end. */
  ghost function Before(p: seq<Path>): set<Path> {
    set i | 0 <= i < |p| - 1 :: p[i]
  }

  lemma BeforeExtends(p: seq<Path>, x: Path, b: Path)
    requires p != [] && p[|p| - 1] == x
    ensures Before(p + [b]) == Before(p) + {x}
  {
    var q := p + [b];
    assert forall y :: y in Before(q) <==> y in Before(p) || y == x by {
      forall y | y in Before(p) || y == x ensures y in Before(q) {
        var i :| 0 <= i < |p| && p[i] == y;
        assert q[i] == y;
      }
    }
  }

  // ----- a finished part

  /** The files of a finished part are readable, well formed, and include only files that
      rank below them. */
  ghost predicate Finished(fs: FileSystem, rank: map<Path, nat>) {
    forall x :: x in rank ==>
      x in fs && Malformed !in fs[x] && (forall y :: Includes(fs, x, y) ==> y in rank && rank[y] < rank[x])
  }

  lemma {:induction false} ChainDescends(fs: FileSystem, rank: map<Path, nat>, p: seq<Path>, i: nat)
    requires Finished(fs, rank) && Chain(fs, p) && p != [] && p[0] in rank && i < |p|
    ensures p[i] in rank && rank[p[i]] + i <= rank[p[0]]
    decreases i
  {
    if i > 0 {
      ChainDescends(fs, rank, p, i - 1);
      assert Includes(fs, p[i - 1], p[i]);
    }
  }

  /** A finished part holding the roots holds all that is reachable, and nothing is wrong in it. */
  lemma FinishedIsClean(fs: FileSystem, roots: set<Path>, rank: map<Path, nat>)
    requires Finished(fs, rank) && roots <= rank.Keys
    ensures forall x :: Reachable(fs, roots, x) ==> x in rank
    ensures !CycleReachable(fs, roots) && !MissingReachable(fs, roots) && !MalformedReachable(fs, roots)
  {
    forall x | Reachable(fs, roots, x) ensures x in rank {
      var p :| ChainTo(fs, roots, p, x);
      ChainDescends(fs, rank, p, |p| - 1);
    }
    forall p | CycleAt(fs, p) && Reachable(fs, roots, p[0]) ensures false {
      ChainDescends(fs, rank, p, |p| - 1);
    }
  }

  /** What `files` holds: finished, reachable files with their requirements, each ranked by
      when it was finished. */
  ghost predicate Sound(fs: FileSystem, roots: set<Path>, files: map<Path, seq<string>>, rank: map<Path, nat>) {
    && files.Keys == rank.Keys && Finished(fs, rank)
    && (forall x :: x in rank ==> rank[x] < |files|)
    && (forall x :: x in files ==> x in fs && files[x] == Requirements(fs[x]) && Reachable(fs, roots, x))
  }

  /** The first lines of a file hold no malformed include and only includes already collected. */
  ghost predicate Seen(lines: seq<Line>, i: nat, files: set<Path>)
    requires i <= |lines|
  {
    forall j :: 0 <= j < i ==> !lines[j].Malformed? && (lines[j].Include? ==> lines[j].target in files)
  }

  lemma SeenStep(lines: seq<Line>, i: nat, files: set<Path>, more: set<Path>)
    requires i < |lines| && Seen(lines, i, files) && files <= more
    requires !lines[i].Malformed? && (lines[i].Include? ==> lines[i].target in more)
    ensures Seen(lines, i + 1, more)
    ensures Requirements(lines[..i + 1])
         == Requirements(lines[..i]) + (if lines[i].Requirement? then [lines[i].text] else [])
  {
    assert lines[..i + 1][..i] == lines[..i];
  }

  lemma FinishOne(fs: FileSystem, rank: map<Path, nat>, path: Path, top: nat)
    requires Finished(fs, rank) && path in fs && path !in rank && Malformed !in fs[path]
    requires forall x :: x in rank ==> rank[x] < top
    requires forall y :: Includes(fs, path, y) ==> y in rank
    ensures Finished(fs, rank[path := top])
  {
  }

  /** A file whose lines have all been seen joins the finished ones. */
  lemma FileIsFinished(fs: FileSystem, roots: set<Path>, files: map<Path, seq<string>>, rank: map<Path, nat>,
                       path: Path)
    requires Sound(fs, roots, files, rank) && path in fs && path !in files && Reachable(fs, roots, path)
    requires Seen(fs[path], |fs[path]|, files.Keys)
    ensures Sound(fs, roots, files[path := Requirements(fs[path])], rank[path := |files|])
  {
    hide Reachable, Finished;
    FinishOne(fs, rank, path, |files|);
    assert files[path := Requirements(fs[path])].Keys == files.Keys + {path};
    assert |files.Keys + {path}| == |files.Keys| + 1;
  }

  // ----- the walk

  class Inventory {
    const fs: FileSystem
    ghost const roots: set<Path>
    var files: map<Path, seq<string>>
    var visiting: set<Path>
    /** When each file was finished. */
    ghost var rank: map<Path, nat>

    constructor (fs: FileSystem, ghost roots: set<Path>)
      ensures this.fs == fs && this.roots == roots && Valid() && visiting == {} && files == map[]
    {
      this.fs, this.roots := fs, roots;
      files, visiting, rank := map[], {}, map[];
    }

    ghost predicate Valid()
      reads this
    {
      Sound(fs, roots, files, rank)
    }

    /** `visit`, called along the chain of files being visited: it collects the file and those it
        includes, or reports what is wrong with a file the chain leads to. */
    method Visit(path: Path, ghost chain: seq<Path>) returns (r: Option<Errore>)
      requires Valid() && visiting <= fs.Keys && visiting !! files.Keys
      requires ChainTo(fs, roots, chain, path) && visiting == Before(chain)
      modifies this
      ensures r.None? ==> Valid() && path in files && old(files.Keys) <= files.Keys
      ensures r.None? ==> visiting == old(visiting) && visiting !! files.Keys
      ensures r.Some? ==> Explains(fs, roots, r.value)
      decreases fs.Keys - visiting
    {
      hide Sound, Explains, ChainTo, Reachable, Seen, Before, Requirements;
      BadFileIsReachable(fs, roots, chain, path);
      if path !in fs {
        return Some(NonEsiste);
      }
      if path in visiting {
        RevisitIsCycle(fs, roots, chain, path);
        return Some(Ciclo);
      }
      if path in files {
        return None;
      }
      visiting := visiting + {path};
      var lines: seq<string> := [];
      var i := 0;
      NothingSeen(fs[path], files.Keys);
      while i < |fs[path]|
        invariant i <= |fs[path]| && Valid()
        invariant visiting == old(visiting) + {path} && visiting !! files.Keys && old(files.Keys) <= files.Keys
        invariant lines == Requirements(fs[path][..i]) && Seen(fs[path], i, files.Keys)
      {
        var line := fs[path][i];
        ghost var before := files.Keys;
        match line {
          case Malformed =>
            return Some(IncludeNonValido);
          case Include(target) =>
            ChainLeads(fs, roots, chain, path, i);
            var e := Visit(target, chain + [target]);
            if e.Some? {
              return e;
            }
          case Requirement(text) =>
            lines := lines + [text];
        }
        SeenStep(fs[path], i, before, files.Keys);
        i := i + 1;
      }
      visiting := visiting - {path};
      assert fs[path][..i] == fs[path];
      FileIsFinished(fs, roots, files, rank, path);
      rank := rank[path := |files|];
      files := files[path := lines];
      return None;
    }
  }

  lemma NothingSeen(lines: seq<Line>, files: set<Path>)
    ensures Seen(lines, 0, files) && Requirements(lines[..0]) == []
  {
  }

  lemma ChainLeads(fs: FileSystem, roots: set<Path>, chain: seq<Path>, path: Path, i: nat)
    requires ChainTo(fs, roots, chain, path) && path in fs && i < |fs[path]| && fs[path][i].Include?
    ensures ChainTo(fs, roots, chain + [fs[path][i].target], fs[path][i].target)
    ensures Before(chain + [fs[path][i].target]) == Before(chain) + {path}
  {
    ChainExtends(fs, roots, chain, path, fs[path][i].target);
    BeforeExtends(chain, path, fs[path][i].target);
  }

  lemma RootLeads(fs: FileSystem, roots: set<Path>, x: Path)
    requires x in roots
    ensures ChainTo(fs, roots, [x], x) && Before([x]) == {}
  {
  }

  /** The walk has collected exactly what is reachable. */
  lemma CollectedAll(fs: FileSystem, roots: set<Path>, files: map<Path, seq<string>>, rank: map<Path, nat>)
    requires Sound(fs, roots, files, rank) && roots <= files.Keys
    ensures forall x :: x in files <==> Reachable(fs, roots, x)
    ensures forall x :: x in files ==> x in fs && files[x] == Requirements(fs[x])
    ensures forall e :: !Explains(fs, roots, e)
  {
    hide Reachable, Finished, Requirements;
    FinishedIsClean(fs, roots, rank);
  }

  lemma NoCycle(fs: FileSystem, roots: set<Path>)
    requires forall e :: !Explains(fs, roots, e)
    ensures !CycleReachable(fs, roots)
  {
    assert !Explains(fs, roots, Ciclo);
  }

  lemma OnlyCyclesExplain(fs: FileSystem, roots: set<Path>, e: Errore)
    requires Explains(fs, roots, e)
    ensures !MissingReachable(fs, roots) && !MalformedReachable(fs, roots) ==> e == Ciclo && CycleReachable(fs, roots)
  {
  }

  /** The files `python_inventory` collects. It fails exactly when a missing file, a cycle or a
      malformed include is reachable, and an error names something that is; otherwise it holds
      exactly the reachable files, each with its requirements. Among existing files with
      well-formed includes it fails exactly on a reachable cycle, and as one. */
  method Collect(fs: FileSystem, roots: seq<Path>) returns (r: Result<map<Path, seq<string>>, Errore>)
    ensures r.Ok? <==> forall e :: !Explains(fs, Elements(roots), e)
    ensures r.Err? ==> Explains(fs, Elements(roots), r.error)
    ensures !MissingReachable(fs, Elements(roots)) && !MalformedReachable(fs, Elements(roots))
        ==> (r == Err(Ciclo) <==> CycleReachable(fs, Elements(roots))) && (r.Err? ==> r.error == Ciclo)
    ensures r.Ok? ==> forall x :: x in r.value <==> Reachable(fs, Elements(roots), x)
    ensures r.Ok? ==> forall x :: x in r.value ==> x in fs && r.value[x] == Requirements(fs[x])
  {
    hide Sound, Explains, ChainTo, Reachable, Before, Requirements;
    ghost var start := Elements(roots);
    var inventory := new Inventory(fs, start);
    var i := 0;
    while i < |roots|
      invariant i <= |roots| && inventory.fs == fs && inventory.roots == start
      invariant inventory.Valid() && inventory.visiting == {}
      invariant forall j :: 0 <= j < i ==> roots[j] in inventory.files.Keys
    {
      RootLeads(fs, start, roots[i]);
      var e := inventory.Visit(roots[i], [roots[i]]);
      if e.Some? {
        OnlyCyclesExplain(fs, start, e.value);
        return Err(e.value);
      }
      i := i + 1;
    }
    CollectedAll(fs, start, inventory.files, inventory.rank);
    NoCycle(fs, start);
    return Ok(inventory.files);
  }

  ghost function Elements(s: seq<Path>): set<Path> { set x | x in s }
}
