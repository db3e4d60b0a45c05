/** Which code counts as a test: the bodies reached from tests only, and the files of test modules. */
module TestPropagation {
  import opened Wrappers

  // ----- bodies between braces

  /** The scan of `closing`: the position after the brace that brings the depth to zero. */
  function Scan(code: string, pos: nat, depth: nat): (end: int)
    requires pos <= |code| && depth >= 1
    ensures end == -1 || pos < end <= |code|
    decreases |code| - pos
  {
    if pos == |code| then -1
    else
      var now := depth + (if code[pos] == '{' then 1 else 0) - (if code[pos] == '}' then 1 else 0);
      if now == 0 then pos + 1 else Scan(code, pos + 1, now)
  }

  /** How many more braces open than close between two positions. */
  function Balance(code: string, pos: nat, end: nat): int
    requires pos <= end <= |code|
  {
    multiset(code[pos..end])['{'] as int - multiset(code[pos..end])['}'] as int
  }

  /** The first position after which `depth` open braces are all closed. */
  ghost predicate FirstClosed(code: string, pos: nat, depth: nat, end: int)
    requires pos <= |code|
  {
    && pos < end <= |code| && depth + Balance(code, pos, end) == 0
    && forall mid :: pos < mid < end ==> depth + Balance(code, pos, mid) > 0
  }

  function Change(c: char): int { if c == '{' then 1 else if c == '}' then -1 else 0 }

  lemma BalanceStep(code: string, pos: nat, end: nat)
    requires pos < end <= |code|
    ensures Balance(code, pos, end) == Change(code[pos]) + Balance(code, pos + 1, end)
  {
    assert code[pos..end] == [code[pos]] + code[pos + 1..end];
  }

  lemma BalanceNone(code: string, pos: nat)
    requires pos <= |code|
    ensures Balance(code, pos, pos) == 0
  {
  }

  lemma FirstClosedStep(code: string, pos: nat, depth: nat, end: int)
    requires pos < |code| && depth >= 1 && depth + Change(code[pos]) >= 1
    ensures FirstClosed(code, pos, depth, end) <==> FirstClosed(code, pos + 1, depth + Change(code[pos]), end)
  {
    hide Balance;
    BalanceNone(code, pos + 1);
    BalanceStep(code, pos, pos + 1);
    if pos < end <= |code| {
      forall mid | pos < mid <= end ensures Balance(code, pos, mid) == Change(code[pos]) + Balance(code, pos + 1, mid) {
        BalanceStep(code, pos, mid);
      }
      if FirstClosed(code, pos, depth, end) {
        var next := pos + 1;
        forall mid | next < mid < end ensures depth + Change(code[pos]) + Balance(code, next, mid) > 0 {
          assert depth + Balance(code, pos, mid) > 0;
        }
      }
    }
  }

  /** The scan ends where the braces are first all closed, or nowhere. */
  lemma {:induction false} ScanMeans(code: string, pos: nat, depth: nat, end: int)
    requires pos <= |code| && depth >= 1
    ensures FirstClosed(code, pos, depth, end) <==> end != -1 && Scan(code, pos, depth) == end
    decreases |code| - pos
  {
    hide Balance;
    if pos < |code| {
      BalanceNone(code, pos + 1);
      BalanceStep(code, pos, pos + 1);
      if depth + Change(code[pos]) >= 1 {
        FirstClosedStep(code, pos, depth, end);
        ScanMeans(code, pos + 1, depth + Change(code[pos]), end);
      }
    }
  }

  /** The brace at `opening` is closed just before `end`. */
  ghost predicate ClosedBefore(code: string, opening: nat, end: int)
    requires opening < |code|
  {
    FirstClosed(code, opening + 1, 1, end)
  }

  /** `closing`: the position after the brace that closes the one at `opening`, or nothing. */
  method Closing(code: string, opening: nat) returns (r: Option<nat>)
    requires opening < |code|
    ensures r.Some? ==> ClosedBefore(code, opening, r.value)
    ensures r.None? ==> forall end :: !ClosedBefore(code, opening, end)
  {
    var depth, end := 1, opening + 1;
    while end < |code|
      invariant opening + 1 <= end <= |code| && depth >= 1
      invariant Scan(code, opening + 1, 1) == Scan(code, end, depth)
    {
      depth := depth + (if code[end] == '{' then 1 else 0) - (if code[end] == '}' then 1 else 0);
      if depth == 0 {
        ScanMeans(code, opening + 1, 1, end + 1);
        return Some(end + 1);
      }
      end := end + 1;
    }
    forall e ensures !ClosedBefore(code, opening, e) { ScanMeans(code, opening + 1, 1, e); }
    return None;
  }

  /** A function body: an opening brace and the position after its closing one. */
  datatype Range = Range(start: nat, end: nat) {
    predicate Holds(pos: int) { start <= pos < end }

    predicate IsBody(code: string) {
      start < |code| && code[start] == '{' && Scan(code, start + 1, 1) == end
    }
  }

  /** From any position inside a scan, the rest of it ends at the same place. */
  lemma {:induction false} ScanPasses(code: string, pos: nat, depth: nat, q: nat) returns (there: nat)
    requires pos <= q < |code| && depth >= 1
    requires Scan(code, pos, depth) != -1 && q < Scan(code, pos, depth)
    ensures there >= 1 && Scan(code, q, there) == Scan(code, pos, depth)
    decreases q - pos
  {
    if q == pos {
      return depth;
    }
    var now := depth + (if code[pos] == '{' then 1 else 0) - (if code[pos] == '}' then 1 else 0);
    there := ScanPasses(code, pos + 1, now, q);
  }

  /** A shallower scan ends earlier. */
  lemma {:induction false} ScanShallower(code: string, pos: nat, depth: nat, less: nat)
    requires pos <= |code| && 1 <= less < depth && Scan(code, pos, depth) != -1
    ensures Scan(code, pos, less) != -1 && Scan(code, pos, less) < Scan(code, pos, depth)
    decreases |code| - pos
  {
    var change := (if code[pos] == '{' then 1 else 0) - (if code[pos] == '}' then 1 else 0);
    if less + change >= 1 {
      ScanShallower(code, pos + 1, depth + change, less + change);
    }
  }

  /** A body that begins inside another ends inside it. */
  lemma BodiesNest(code: string, outer: Range, inner: Range)
    requires outer.IsBody(code) && inner.IsBody(code) && outer.Holds(inner.start)
    ensures inner.end <= outer.end
  {
    if inner.start != outer.start {
      var depth := ScanPasses(code, outer.start + 1, 1, inner.start);
      ScanShallower(code, inner.start + 1, depth + 1, 1);
    }
  }

  // ----- helpers called from tests only

  /** A function: its body, whether its declaration lets it be a helper, and where it is called. */
  datatype Funzione = Funzione(body: Range, eligible: bool, calls: seq<nat>)

  predicate Covered(pos: int, ranges: seq<Range>) {
    exists i :: 0 <= i < |ranges| && ranges[i].Holds(pos)
  }

  predicate CalledInside(f: Funzione, ranges: seq<Range>) {
    f.eligible && f.calls != [] && forall i :: 0 <= i < |f.calls| ==> Covered(f.calls[i], ranges)
  }

  ghost predicate Inside(pos: int, s: set<Range>) { exists r :: r in s && r.Holds(pos) }

  /** An eligible function that is called, and only from inside the set. */
  ghost predicate OnlyCalledFrom(f: Funzione, s: set<Range>) {
    f.eligible && f.calls != [] && forall i :: 0 <= i < |f.calls| ==> Inside(f.calls[i], s)
  }

  /** The set holds the initial ranges and every helper called from inside it only. */
  ghost predicate Closed(functions: seq<Funzione>, initial: seq<Range>, s: set<Range>) {
    && (forall r :: r in initial ==> r in s)
    && (forall i :: 0 <= i < |functions| && OnlyCalledFrom(functions[i], s) ==> functions[i].body in s)
  }

  ghost predicate IsLeastClosed(functions: seq<Funzione>, initial: seq<Range>, s: set<Range>) {
    Closed(functions, initial, s) && forall t :: Closed(functions, initial, t) ==> s <= t
  }

  ghost predicate AreBodies(code: string, functions: seq<Funzione>, ranges: seq<Range>) {
    && (forall i :: 0 <= i < |functions| ==> functions[i].body.IsBody(code))
    && (forall i :: 0 <= i < |ranges| ==> ranges[i].IsBody(code))
  }

  /** Every range found so far is in every closed set. */
  ghost predicate InEveryClosed(functions: seq<Funzione>, initial: seq<Range>, ranges: seq<Range>) {
    forall t, r :: Closed(functions, initial, t) && r in ranges ==> r in t
  }

  lemma CoveredIsInside(pos: int, ranges: seq<Range>, s: set<Range>)
    requires Covered(pos, ranges) && forall r :: r in ranges ==> r in s
    ensures Inside(pos, s)
  {
    var i :| 0 <= i < |ranges| && ranges[i].Holds(pos);
    assert ranges[i] in s;
  }

  lemma HelperIsForced(functions: seq<Funzione>, initial: seq<Range>, ranges: seq<Range>, i: nat)
    requires i < |functions| && CalledInside(functions[i], ranges) && InEveryClosed(functions, initial, ranges)
    ensures forall t :: Closed(functions, initial, t) ==> functions[i].body in t
  {
    var f := functions[i];
    forall t | Closed(functions, initial, t) ensures f.body in t {
      forall j | 0 <= j < |f.calls| ensures Inside(f.calls[j], t) {
        CoveredIsInside(f.calls[j], ranges, t);
      }
      assert OnlyCalledFrom(f, t);
    }
  }

  /** Nothing more to add: every helper called from inside has its body covered. */
  ghost predicate Saturated(functions: seq<Funzione>, ranges: seq<Range>) {
    forall i :: 0 <= i < |functions| && CalledInside(functions[i], ranges) ==> Covered(functions[i].body.start, ranges)
  }

  /** The ranges and the helpers whose bodies they already cover. */
  ghost function Completed(functions: seq<Funzione>, ranges: seq<Range>): set<Range> {
    (set r | r in ranges) + (set i | 0 <= i < |functions| && CalledInside(functions[i], ranges) :: functions[i].body)
  }

  lemma CompletedCovers(code: string, functions: seq<Funzione>, ranges: seq<Range>, pos: int)
    requires AreBodies(code, functions, ranges) && Saturated(functions, ranges)
    ensures Inside(pos, Completed(functions, ranges)) <==> Covered(pos, ranges)
  {
    if Inside(pos, Completed(functions, ranges)) {
      var r :| r in Completed(functions, ranges) && r.Holds(pos);
      if r !in ranges {
        var i :| 0 <= i < |functions| && CalledInside(functions[i], ranges) && functions[i].body == r;
        var j :| 0 <= j < |ranges| && ranges[j].Holds(r.start);
        BodiesNest(code, ranges[j], r);
        assert ranges[j].Holds(pos);
      }
    }
    if Covered(pos, ranges) {
      CoveredIsInside(pos, ranges, Completed(functions, ranges));
    }
  }

  /** A saturated list of forced ranges covers what the least closed set covers. */
  lemma SaturatedIsLeast(code: string, functions: seq<Funzione>, initial: seq<Range>, ranges: seq<Range>)
    requires AreBodies(code, functions, ranges) && Saturated(functions, ranges)
    requires InEveryClosed(functions, initial, ranges) && forall r :: r in initial ==> r in ranges
    ensures IsLeastClosed(functions, initial, Completed(functions, ranges))
    ensures forall pos :: Inside(pos, Completed(functions, ranges)) <==> Covered(pos, ranges)
  {
    var s := Completed(functions, ranges);
    forall pos ensures Inside(pos, s) <==> Covered(pos, ranges) {
      CompletedCovers(code, functions, ranges, pos);
    }
    forall i | 0 <= i < |functions| && OnlyCalledFrom(functions[i], s) ensures functions[i].body in s {
      var f := functions[i];
      forall j | 0 <= j < |f.calls| ensures Covered(f.calls[j], ranges) {
        assert Inside(f.calls[j], s);
      }
      assert CalledInside(f, ranges);
    }
    forall t | Closed(functions, initial, t) ensures s <= t {
      forall i | 0 <= i < |functions| && CalledInside(functions[i], ranges) ensures functions[i].body in t {
        HelperIsForced(functions, initial, ranges, i);
      }
    }
  }

  /** The functions whose body is not covered yet: each round covers one more. */
  ghost function Uncovered(functions: seq<Funzione>, ranges: seq<Range>): set<int> {
    set i | 0 <= i < |functions| && !Covered(functions[i].body.start, ranges)
  }

  lemma CoveredGrows(pos: int, ranges: seq<Range>, added: seq<Range>)
    requires Covered(pos, ranges) || Covered(pos, added)
    ensures Covered(pos, ranges + added)
  {
    var all := ranges + added;
    if Covered(pos, ranges) {
      var i :| 0 <= i < |ranges| && ranges[i].Holds(pos);
      assert all[i].Holds(pos);
    } else {
      var i :| 0 <= i < |added| && added[i].Holds(pos);
      assert all[|ranges| + i].Holds(pos);
    }
  }

  lemma RoundCovers(functions: seq<Funzione>, ranges: seq<Range>, added: seq<Range>, k: int)
    requires 0 <= k < |functions| && !Covered(functions[k].body.start, ranges)
    requires functions[k].body in added && functions[k].body.Holds(functions[k].body.start)
    ensures Uncovered(functions, ranges + added) < Uncovered(functions, ranges)
  {
    forall i | i in Uncovered(functions, ranges + added) ensures i in Uncovered(functions, ranges) {
      if Covered(functions[i].body.start, ranges) {
        CoveredGrows(functions[i].body.start, ranges, added);
      }
    }
    assert Covered(functions[k].body.start, added);
    CoveredGrows(functions[k].body.start, ranges, added);
    assert k in Uncovered(functions, ranges) && k !in Uncovered(functions, ranges + added);
  }

  /** The function `k` is an uncovered helper called from inside only. */
  predicate Wanted(functions: seq<Funzione>, ranges: seq<Range>, k: int) {
    0 <= k < |functions| && !Covered(functions[k].body.start, ranges) && CalledInside(functions[k], ranges)
  }

  /** One round of the loop of `test_ranges`: the bodies of the wanted functions. */
  method Round(functions: seq<Funzione>, ranges: seq<Range>) returns (added: seq<Range>)
    ensures forall k :: Wanted(functions, ranges, k) ==> functions[k].body in added
    ensures forall r :: r in added ==> exists k :: Wanted(functions, ranges, k) && functions[k].body == r
  {
    added := [];
    var i := 0;
    while i < |functions|
      invariant i <= |functions|
      invariant forall k :: 0 <= k < i && Wanted(functions, ranges, k) ==> functions[k].body in added
      invariant forall r :: r in added ==> exists k :: Wanted(functions, ranges, k) && functions[k].body == r
    {
      var f := functions[i];
      if !Covered(f.body.start, ranges) && CalledInside(f, ranges) {
        assert Wanted(functions, ranges, i);
        added := added + [f.body];
      }
      i := i + 1;
    }
  }

  lemma NoneWanted(functions: seq<Funzione>, ranges: seq<Range>)
    requires forall k :: !Wanted(functions, ranges, k)
    ensures Saturated(functions, ranges)
  {
    forall i | 0 <= i < |functions| && CalledInside(functions[i], ranges)
      ensures Covered(functions[i].body.start, ranges)
    {
      assert !Wanted(functions, ranges, i);
    }
  }

  lemma AddedAreForced(code: string, functions: seq<Funzione>, initial: seq<Range>, ranges: seq<Range>,
                       added: seq<Range>)
    requires AreBodies(code, functions, ranges) && InEveryClosed(functions, initial, ranges)
    requires forall r :: r in added ==> exists k :: Wanted(functions, ranges, k) && functions[k].body == r
    ensures AreBodies(code, functions, ranges + added) && InEveryClosed(functions, initial, ranges + added)
  {
    forall r | r in added ensures r.IsBody(code) && forall t :: Closed(functions, initial, t) ==> r in t {
      var k :| Wanted(functions, ranges, k) && functions[k].body == r;
      HelperIsForced(functions, initial, ranges, k);
    }
    assert forall i :: 0 <= i < |added| ==> added[i] in added;
  }

  lemma RoundAdvances(code: string, functions: seq<Funzione>, ranges: seq<Range>, added: seq<Range>)
    requires AreBodies(code, functions, ranges) && added != []
    requires forall r :: r in added ==> exists k :: Wanted(functions, ranges, k) && functions[k].body == r
    ensures Uncovered(functions, ranges + added) < Uncovered(functions, ranges)
  {
    assert added[0] in added;
    var k :| Wanted(functions, ranges, k) && functions[k].body == added[0];
    RoundCovers(functions, ranges, added, k);
  }

  /** The loop of `test_ranges`: it ends, and covers exactly what the least closed set covers. */
  method Propagate(code: string, functions: seq<Funzione>, initial: seq<Range>) returns (ranges: seq<Range>)
    requires AreBodies(code, functions, initial)
    ensures initial <= ranges
    ensures exists s :: IsLeastClosed(functions, initial, s) && (forall r :: r in ranges ==> r in s)
                     && forall pos :: Inside(pos, s) <==> Covered(pos, ranges)
  {
    hide AreBodies, InEveryClosed, Saturated, Closed, IsLeastClosed, Uncovered, Inside, Covered, Wanted;
    ranges := initial;
    InitialIsForced(functions, initial);
    while true
      invariant initial <= ranges && AreBodies(code, functions, ranges) && InEveryClosed(functions, initial, ranges)
      decreases Uncovered(functions, ranges)
    {
      var added := Round(functions, ranges);
      if added == [] {
        NoneWanted(functions, ranges);
        assert forall r :: r in initial ==> r in ranges;
        SaturatedIsLeast(code, functions, initial, ranges);
        return;
      }
      RoundAdvances(code, functions, ranges, added);
      AddedAreForced(code, functions, initial, ranges, added);
      ranges := ranges + added;
    }
  }

  lemma InitialIsForced(functions: seq<Funzione>, initial: seq<Range>)
    ensures InEveryClosed(functions, initial, initial)
  {
  }

  // ----- the files of test modules

  type Path = string

  /** An external module declaration: whether it stands in test code or under `cfg(test)`, and
      the files it may name. */
  datatype Modulo = Modulo(marked: bool, candidates: seq<Path>)

  /** The files of the tree, each with the external modules it declares. */
  type Tree = map<Path, seq<Modulo>>

  /** The modules of a file name an existing file; in a test file every module counts. */
  predicate Declares(tree: Tree, modules: seq<Modulo>, test: bool, c: Path) {
    c in tree && exists m :: m in modules && (m.marked || test) && c in m.candidates
  }

  /** A set of test files that holds the given ones and the test modules of known and test files. */
  ghost predicate ClosedFiles(tree: Tree, known: set<Path>, tests: set<Path>, s: set<Path>) {
    && tests <= s
    && forall p, c :: (p in known || p in s) && p in tree && Declares(tree, tree[p], p in s, c) ==> c in s
  }

  ghost predicate IsLeastFiles(tree: Tree, known: set<Path>, tests: set<Path>, s: set<Path>) {
    ClosedFiles(tree, known, tests, s) && forall t :: ClosedFiles(tree, known, tests, t) ==> s <= t
  }

  /** The existing files that one file's modules name. */
  method ModulesOf(tree: Tree, modules: seq<Modulo>, test: bool) returns (found: set<Path>)
    ensures forall c :: c in found <==> Declares(tree, modules, test, c)
  {
    found := {};
    var i := 0;
    while i < |modules|
      invariant i <= |modules|
      invariant forall c :: c in found <==> Declares(tree, modules[..i], test, c)
    {
      var m := modules[i];
      ghost var before := found;
      if m.marked || test {
        var j := 0;
        while j < |m.candidates|
          invariant j <= |m.candidates|
          invariant forall c :: c in found <==> c in before || (c in tree && c in m.candidates[..j])
        {
          if m.candidates[j] in tree {
            found := found + {m.candidates[j]};
          }
          j := j + 1;
        }
        assert m.candidates[..j] == m.candidates;
      }
      assert modules[..i + 1] == modules[..i] + [m];
      i := i + 1;
    }
    assert modules[..i] == modules;
  }

  ghost predicate DeclaredBySome(tree: Tree, known: set<Path>, selected: set<Path>, c: Path) {
    exists p :: p in known && p in tree && Declares(tree, tree[p], p in selected, c)
  }

  /** One round of `test_files`: all that the known files declare, in whatever order they are read. */
  method Discover(tree: Tree, known: set<Path>, selected: set<Path>) returns (found: set<Path>)
    requires known <= tree.Keys
    ensures forall c :: c in found <==> DeclaredBySome(tree, known, selected, c)
  {
    found := {};
    var rest := known;
    while rest != {}
      invariant rest <= known
      invariant forall c :: c in found <==> DeclaredBySome(tree, known - rest, selected, c)
      decreases rest
    {
      var p :| p in rest;
      var here := ModulesOf(tree, tree[p], p in selected);
      assert known - (rest - {p}) == known - rest + {p};
      found := found + here;
      rest := rest - {p};
    }
    assert known - rest == known;
  }

  /** The loop of `test_files`: it ends with the least set of test files, which join the known ones. */
  method TestFiles(tree: Tree, known: set<Path>, tests: set<Path>) returns (selected: set<Path>, sources: set<Path>)
    requires tests <= known <= tree.Keys
    ensures IsLeastFiles(tree, known, tests, selected)
    ensures sources == known + selected
  {
    hide ClosedFiles, Declares;
    selected, sources := tests, known;
    TestsAreForced(tree, known, tests);
    while true
      invariant selected <= sources <= tree.Keys && sources == known + selected
      invariant tests <= selected && InEveryClosedFiles(tree, known, tests, selected)
      decreases tree.Keys - selected
    {
      var found := Discover(tree, sources, selected);
      RoundIsForced(tree, known, tests, selected, found);
      var added := found - selected;
      assert found <= selected + added;
      sources := sources + found;
      if added == {} {
        return;
      }
      selected := selected + added;
    }
  }

  ghost predicate InEveryClosedFiles(tree: Tree, known: set<Path>, tests: set<Path>, s: set<Path>) {
    forall t :: ClosedFiles(tree, known, tests, t) ==> s <= t
  }

  lemma TestsAreForced(tree: Tree, known: set<Path>, tests: set<Path>)
    ensures InEveryClosedFiles(tree, known, tests, tests)
  {
  }

  /** What a round finds exists and is in every closed set; when it finds nothing new, the set is closed. */
  lemma RoundIsForced(tree: Tree, known: set<Path>, tests: set<Path>, selected: set<Path>, found: set<Path>)
    requires tests <= selected && InEveryClosedFiles(tree, known, tests, selected)
    requires forall c :: c in found <==> DeclaredBySome(tree, known + selected, selected, c)
    ensures found <= tree.Keys && InEveryClosedFiles(tree, known, tests, selected + found)
    ensures found <= selected ==> ClosedFiles(tree, known, tests, selected)
  {
    forall t | ClosedFiles(tree, known, tests, t) ensures found <= t {
      forall c | c in found ensures c in t {
        var p :| p in known + selected && p in tree && Declares(tree, tree[p], p in selected, c);
        assert Declares(tree, tree[p], p in t, c);
      }
    }
    forall p, c | (p in known || p in selected) && p in tree && Declares(tree, tree[p], p in selected, c)
      ensures c in found
    {
      assert p in known + selected;
    }
  }
}
