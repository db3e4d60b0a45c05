/** The `use` trees of a Rust source: which names they give to a symbol. */
module UseTrees {
  import opened Brackets
  import opened Wrappers

  datatype Errore = Delimitatore(causa: Delimitatori) | FuoriIndice

  /** A path, possibly renamed or continued by a group of trees. */
  datatype UseTree =
    | Leaf(rooted: bool, segments: seq<string>, alias: Option<string>)
    | Branch(rooted: bool, segments: seq<string>, children: Siblings)

  /** Trees separated by commas; a comma may close the list. */
  datatype Siblings = NoTree | One(tree: UseTree) | Comma(tree: UseTree, rest: Siblings)

  /** A token that is neither punctuation of the grammar nor a keyword of it. */
  predicate Word(v: string) {
    !Opens(v) && !Closes(v) && v != "," && v != ":" && v != ";" && v != "as" && v != "use"
  }

  predicate Words(vs: seq<string>) { forall i :: 0 <= i < |vs| ==> Word(vs[i]) }

  predicate TreeOk(t: UseTree) {
    match t
    case Leaf(_, segments, alias) => Words(segments) && (alias.Some? ==> Word(alias.value))
    case Branch(_, segments, children) => Words(segments) && SiblingsOk(children)
  }

  predicate SiblingsOk(ts: Siblings) {
    match ts
    case NoTree => true
    case One(t) => TreeOk(t)
    case Comma(t, rest) => TreeOk(t) && SiblingsOk(rest)
  }

  // ----- printing

  const PATH_SEP := [":", ":"]

  function PathTokens(segments: seq<string>): seq<string> {
    if segments == [] then []
    else if |segments| == 1 then segments
    else [segments[0]] + PATH_SEP + PathTokens(segments[1..])
  }

  function RootTokens(rooted: bool): seq<string> { if rooted then PATH_SEP else [] }

  function AliasTokens(alias: Option<string>): seq<string> {
    if alias.Some? then ["as", alias.value] else []
  }

  function TreeTokens(t: UseTree): seq<string> {
    match t
    case Leaf(rooted, segments, alias) =>
      RootTokens(rooted) + PathTokens(segments) + AliasTokens(alias)
    case Branch(rooted, segments, children) =>
      RootTokens(rooted) + PathTokens(segments)
      + (RootTokens(segments != []) + (["{"] + SiblingsTokens(children) + ["}"]))
  }

  function SiblingsTokens(ts: Siblings): seq<string> {
    match ts
    case NoTree => []
    case One(t) => TreeTokens(t)
    case Comma(t, rest) => TreeTokens(t) + ([","] + SiblingsTokens(rest))
  }

  // ----- what a tree renames

  /** A path to a target, or to the target itself by a final `self`. */
  predicate Denotes(path: seq<string>, targets: set<seq<string>>) {
    if path != [] && path[|path| - 1] == "self" then exists t :: t in targets && path == t + ["self"]
    else path in targets
  }

  function WithoutSelf(path: seq<string>): seq<string> {
    if path != [] && path[|path| - 1] == "self" then path[..|path| - 1] else path
  }

  lemma WithoutSelfDenotes(path: seq<string>, targets: set<seq<string>>)
    ensures WithoutSelf(path) in targets <==> Denotes(path, targets)
  {
    if path != [] && path[|path| - 1] == "self" {
      assert path == path[..|path| - 1] + ["self"];
      forall t | path == t + ["self"] ensures t == path[..|path| - 1] { assert |t| == |path| - 1; }
    }
  }

  /** The aliases whose fully expanded path is a target. */
  function TreeAliases(t: UseTree, prefix: seq<string>, targets: set<seq<string>>): set<string> {
    match t
    case Leaf(_, segments, alias) =>
      if alias.Some? && Denotes(prefix + segments, targets) then {alias.value} else {}
    case Branch(_, segments, children) => SiblingsAliases(children, prefix + segments, targets)
  }

  function SiblingsAliases(ts: Siblings, prefix: seq<string>, targets: set<seq<string>>): set<string> {
    match ts
    case NoTree => {}
    case One(t) => TreeAliases(t, prefix, targets)
    case Comma(t, rest) => TreeAliases(t, prefix, targets) + SiblingsAliases(rest, prefix, targets)
  }

  function Targets(symbol: string): (targets: set<seq<string>>)
    ensures forall path :: path in targets <==>
              && path != [] && path[0] in {"std", "core"}
              && path[1..] == if symbol == "matches" then ["matches"] else ["result", "Result", "Err"]
  {
    var tail := if symbol == "matches" then ["matches"] else ["result", "Result", "Err"];
    assert forall path: seq<string>, root: string :: path == [root] + tail <==>
      path != [] && path[0] == root && path[1..] == tail;
    {["std"] + tail, ["core"] + tail}
  }

  // ----- the walk

  /** The rest of a `walk` from a position, with the path read so far; nothing when it
      runs past the last token. */
  function Walk(values: seq<string>, b: Matching, i: nat, end: nat, prefix: seq<string>, path: seq<string>,
                targets: set<seq<string>>, names: set<string>): Option<set<string>>
    requires Proper(values, b) && end <= |values|
    decreases |values| - i
  {
    if i >= end then Some(names)
    else
      var v := values[i];
      if v == "{" then
        OpeningIsMatched(values, b, i);
        match Walk(values, b, i + 1, b[i], path, path, targets, names)
        case None => None
        case Some(inside) => Walk(values, b, b[i] + 1, end, prefix, path, targets, inside)
      else if v == "," then Walk(values, b, i + 1, end, prefix, prefix, targets, names)
      else if v == "as" then
        if WithoutSelf(path) !in targets then Walk(values, b, i + 2, end, prefix, path, targets, names)
        else if i + 1 < |values| then Walk(values, b, i + 2, end, prefix, path, targets, names + {values[i + 1]})
        else None
      else if v == ":" then Walk(values, b, i + 1, end, prefix, path, targets, names)
      else Walk(values, b, i + 1, end, prefix, path + [v], targets, names)
  }

  lemma OpeningIsMatched(values: seq<string>, b: Matching, i: nat)
    requires Proper(values, b) && i < |values| && Opens(values[i])
    ensures i in b && i < b[i] < |values|
  {
    hide Opens, Closes, OpenerOf, Ends, OneStart, Nested;
  }

  /** `walk`. */
  method WalkTree(values: seq<string>, brackets: Matching, start: nat, end: nat, prefix: seq<string>,
                  targets: set<seq<string>>, found: set<string>) returns (r: Option<set<string>>)
    requires Proper(values, brackets) && end <= |values|
    ensures r == Walk(values, brackets, start, end, prefix, prefix, targets, found)
    decreases |values| - start
  {
    hide Proper;
    var names, path, i := found, prefix, start;
    while i < end
      invariant start <= i
      invariant Walk(values, brackets, start, end, prefix, prefix, targets, found)
             == Walk(values, brackets, i, end, prefix, path, targets, names)
    {
      var v := values[i];
      if v == "{" {
        OpeningIsMatched(values, brackets, i);
        var stop := brackets[i];
        var inside := WalkTree(values, brackets, i + 1, stop, path, targets, names);
        if inside.None? {
          return None;
        }
        names, i := inside.value, stop + 1;
      } else if v == "," {
        path, i := prefix, i + 1;
      } else if v == "as" {
        var target := if path != [] && path[|path| - 1] == "self" then path[..|path| - 1] else path;
        if target in targets {
          if i + 1 >= |values| {
            return None;
          }
          names := names + {values[i + 1]};
        }
        i := i + 2;
      } else if v == ":" {
        i := i + 1;
      } else {
        path, i := path + [v], i + 1;
      }
    }
    return Some(names);
  }

  function NextSemicolon(values: seq<string>, j: nat): (end: nat)
    requires j <= |values|
    ensures j <= end <= |values|
    decreases |values| - j
  {
    if j == |values| || values[j] == ";" then j else NextSemicolon(values, j + 1)
  }

  /** The walks of all the `use` tokens from a position on. */
  function Uses(values: seq<string>, b: Matching, i: nat, targets: set<seq<string>>,
                names: set<string>): Option<set<string>>
    requires Proper(values, b) && i <= |values|
    decreases |values| - i
  {
    if i == |values| then Some(names)
    else if values[i] == "use" then
      match Walk(values, b, i + 1, NextSemicolon(values, i + 1), [], [], targets, names)
      case None => None
      case Some(more) => Uses(values, b, i + 1, targets, more)
    else Uses(values, b, i + 1, targets, names)
  }

  /** `aliases`. */
  method Aliases(values: seq<string>, symbol: string) returns (r: Result<set<string>, Errore>)
    ensures match r
            case Ok(names) =>
              exists m :: Proper(values, m) && Uses(values, m, 0, Targets(symbol), {symbol}) == Some(names)
            case Err(Delimitatore(_)) => !exists m :: Proper(values, m)
            case Err(FuoriIndice) =>
              exists m :: Proper(values, m) && Uses(values, m, 0, Targets(symbol), {symbol}) == None
  {
    hide Proper, Walk, Targets;
    var targets, names := Targets(symbol), {symbol};
    var matched := Pairs(values);
    if matched.Err? {
      return Err(Delimitatore(matched.error));
    }
    var brackets := matched.value;
    var i := 0;
    while i < |values|
      invariant i <= |values|
      invariant Uses(values, brackets, 0, targets, {symbol}) == Uses(values, brackets, i, targets, names)
    {
      if values[i] == "use" {
        var end := i + 1;
        while end < |values| && values[end] != ";"
          invariant i + 1 <= end <= |values|
          invariant NextSemicolon(values, i + 1) == NextSemicolon(values, end)
        {
          end := end + 1;
        }
        var found := WalkTree(values, brackets, i + 1, end, [], targets, names);
        if found.None? {
          return Err(FuoriIndice);
        }
        names := found.value;
      }
      i := i + 1;
    }
    return Ok(names);
  }

  // ----- one step of the walk

  lemma WalkDone(values: seq<string>, b: Matching, end: nat, prefix: seq<string>, path: seq<string>,
                 targets: set<seq<string>>, names: set<string>)
    requires Proper(values, b) && end <= |values|
    ensures Walk(values, b, end, end, prefix, path, targets, names) == Some(names)
  {
    hide Proper;
  }

  lemma StepColon(values: seq<string>, b: Matching, i: nat, end: nat, prefix: seq<string>, path: seq<string>,
                  targets: set<seq<string>>, names: set<string>)
    requires Proper(values, b) && end <= |values| && i < end && values[i] == ":"
    ensures Walk(values, b, i, end, prefix, path, targets, names)
         == Walk(values, b, i + 1, end, prefix, path, targets, names)
  {
    hide Proper;
  }

  lemma StepWord(values: seq<string>, b: Matching, i: nat, end: nat, prefix: seq<string>, path: seq<string>,
                 targets: set<seq<string>>, names: set<string>)
    requires Proper(values, b) && end <= |values| && i < end && Word(values[i])
    ensures Walk(values, b, i, end, prefix, path, targets, names)
         == Walk(values, b, i + 1, end, prefix, path + [values[i]], targets, names)
  {
    hide Proper;
  }

  lemma StepComma(values: seq<string>, b: Matching, i: nat, end: nat, prefix: seq<string>, path: seq<string>,
                  targets: set<seq<string>>, names: set<string>)
    requires Proper(values, b) && end <= |values| && i < end && values[i] == ","
    ensures Walk(values, b, i, end, prefix, path, targets, names)
         == Walk(values, b, i + 1, end, prefix, prefix, targets, names)
  {
    hide Proper;
  }

  lemma StepAs(values: seq<string>, b: Matching, i: nat, end: nat, prefix: seq<string>, path: seq<string>,
               targets: set<seq<string>>, names: set<string>)
    requires Proper(values, b) && end <= |values| && i + 1 < end && values[i] == "as"
    ensures Walk(values, b, i, end, prefix, path, targets, names)
         == Walk(values, b, i + 2, end, prefix, path, targets,
                 names + (if WithoutSelf(path) in targets then {values[i + 1]} else {}))
  {
    hide Proper;
    assert names + {} == names;
  }

  lemma StepGroup(values: seq<string>, b: Matching, i: nat, end: nat, prefix: seq<string>, path: seq<string>,
                  targets: set<seq<string>>, names: set<string>, stop: nat, inside: set<string>)
    requires Proper(values, b) && end <= |values| && i < end && values[i] == "{"
    requires i in b && b[i] == stop && stop < |values|
    requires Walk(values, b, i + 1, stop, path, path, targets, names) == Some(inside)
    ensures Walk(values, b, i, end, prefix, path, targets, names)
         == Walk(values, b, stop + 1, end, prefix, path, targets, inside)
  {
    hide Proper;
  }

  lemma WalkSep(values: seq<string>, b: Matching, i: nat, end: nat, prefix: seq<string>, path: seq<string>,
                targets: set<seq<string>>, names: set<string>, present: bool)
    requires Proper(values, b) && end <= |values| && StandsAt(values, i, RootTokens(present))
    requires i + |RootTokens(present)| <= end
    ensures Walk(values, b, i, end, prefix, path, targets, names)
         == Walk(values, b, i + |RootTokens(present)|, end, prefix, path, targets, names)
  {
    hide Proper, Walk, StandsAt;
    if present {
      assert RootTokens(present) == [":"] + [":"];
      StandsSplit(values, i, [":"], [":"]);
      StandsOne(values, i, ":");
      StandsOne(values, i + 1, ":");
      StepColon(values, b, i, end, prefix, path, targets, names);
      StepColon(values, b, i + 1, end, prefix, path, targets, names);
    }
  }

  /** Walking over a path appends its segments. */
  lemma {:induction false} WalkPath(values: seq<string>, b: Matching, i: nat, end: nat, prefix: seq<string>,
                                    path: seq<string>,
                                    targets: set<seq<string>>, names: set<string>, segments: seq<string>)
    requires Proper(values, b) && end <= |values| && Words(segments)
    requires StandsAt(values, i, PathTokens(segments)) && i + |PathTokens(segments)| <= end
    ensures Walk(values, b, i, end, prefix, path, targets, names)
         == Walk(values, b, i + |PathTokens(segments)|, end, prefix, path + segments, targets, names)
    decreases |segments|
  {
    hide Proper, Walk, StandsAt, Word;
    if segments == [] {
      assert path + segments == path;
    } else {
      var head, tail := segments[0], segments[1..];
      if |segments| == 1 {
        assert segments == [head];
        StandsOne(values, i, head);
        StepWord(values, b, i, end, prefix, path, targets, names);
      } else {
        assert PathTokens(segments) == [head] + (PATH_SEP + PathTokens(tail));
        StandsSplit(values, i, [head], PATH_SEP + PathTokens(tail));
        StandsOne(values, i, head);
        StandsSplit(values, i + 1, PATH_SEP, PathTokens(tail));
        StepWord(values, b, i, end, prefix, path, targets, names);
        WalkSep(values, b, i + 1, end, prefix, path + [head], targets, names, true);
        WalkPath(values, b, i + 3, end, prefix, path + [head], targets, names, tail);
        assert path + [head] + tail == path + segments;
      }
    }
  }

  // ----- printed trees nest properly

  ghost predicate PlainText(text: seq<string>) {
    forall v :: v in text ==> !Opens(v) && !Closes(v)
  }

  lemma PlainTextWindow(values: seq<string>, a: nat, text: seq<string>)
    requires StandsAt(values, a, text) && PlainText(text)
    ensures ProperOn(values, a, a + |text|, map[])
  {
    hide Opens, Closes, ProperOn;
    forall k | a <= k < a + |text| ensures !Opens(values[k]) && !Closes(values[k]) {
      assert values[a..a + |text|][k - a] == text[k - a];
    }
    PlainWindow(values, a, a + |text|);
  }

  lemma {:induction false} PathIsPlain(segments: seq<string>)
    requires Words(segments)
    ensures PlainText(PathTokens(segments))
    decreases |segments|
  {
    if |segments| > 1 {
      PathIsPlain(segments[1..]);
    }
  }

  /** What stands before the alias or the group of a tree. */
  function HeadTokens(rooted: bool, segments: seq<string>, group: bool): seq<string> {
    RootTokens(rooted) + PathTokens(segments) + RootTokens(group && segments != [])
  }

  lemma HeadIsPlain(rooted: bool, segments: seq<string>, group: bool)
    requires Words(segments)
    ensures PlainText(HeadTokens(rooted, segments, group))
  {
    PathIsPlain(segments);
  }

  lemma LeafIsPlain(t: UseTree)
    requires t.Leaf? && TreeOk(t)
    ensures PlainText(TreeTokens(t))
  {
    PathIsPlain(t.segments);
  }

  lemma BranchTokens(t: UseTree)
    requires t.Branch?
    ensures TreeTokens(t) == HeadTokens(t.rooted, t.segments, true) + GroupTokens(t.children)
  {
  }

  function GroupTokens(ts: Siblings): seq<string> {
    ["{"] + SiblingsTokens(ts) + ["}"]
  }

  lemma GroupStands(values: seq<string>, a: nat, ts: Siblings)
    requires StandsAt(values, a, GroupTokens(ts))
    ensures var stop := a + 1 + |SiblingsTokens(ts)|;
            && stop < |values| && values[a] == "{" && values[stop] == "}"
            && StandsAt(values, a + 1, SiblingsTokens(ts))
  {
    hide StandsAt;
    var text := SiblingsTokens(ts);
    StandsSplit(values, a, ["{"] + text, ["}"]);
    StandsSplit(values, a, ["{"], text);
    StandsOne(values, a, "{");
    StandsOne(values, a + 1 + |text|, "}");
  }

  lemma {:induction false} TreeWindow(values: seq<string>, a: nat, t: UseTree) returns (w: Matching)
    requires TreeOk(t) && StandsAt(values, a, TreeTokens(t))
    ensures a + |TreeTokens(t)| <= |values| && ProperOn(values, a, a + |TreeTokens(t)|, w)
    decreases t
  {
    hide StandsAt, ProperOn, Opens, Closes, PlainText, Word;
    StandsFits(values, a, TreeTokens(t));
    match t
    case Leaf(_, _, _) =>
      LeafIsPlain(t);
      PlainTextWindow(values, a, TreeTokens(t));
      w := map[];
    case Branch(rooted, segments, children) =>
      var head := HeadTokens(rooted, segments, true);
      BranchTokens(t);
      StandsSplit(values, a, head, GroupTokens(children));
      HeadIsPlain(rooted, segments, true);
      PlainTextWindow(values, a, head);
      var group := GroupWindow(values, a + |head|, children);
      JoinWindows(values, a, a + |head|, a + |TreeTokens(t)|, map[], group);
      w := map[] + group;
  }

  lemma {:induction false} GroupWindow(values: seq<string>, a: nat, ts: Siblings) returns (w: Matching)
    requires SiblingsOk(ts) && StandsAt(values, a, GroupTokens(ts))
    ensures a + |GroupTokens(ts)| <= |values| && ProperOn(values, a, a + |GroupTokens(ts)|, w)
    ensures a in w && w[a] == a + 1 + |SiblingsTokens(ts)|
    decreases ts, 1
  {
    hide StandsAt, ProperOn;
    GroupStands(values, a, ts);
    var stop := a + 1 + |SiblingsTokens(ts)|;
    var inside := SiblingsWindow(values, a + 1, ts);
    WrapWindow(values, a, stop, inside);
    w := inside[a := stop];
  }

  lemma {:induction false} SiblingsWindow(values: seq<string>, a: nat, ts: Siblings) returns (w: Matching)
    requires SiblingsOk(ts) && StandsAt(values, a, SiblingsTokens(ts))
    ensures a + |SiblingsTokens(ts)| <= |values| && ProperOn(values, a, a + |SiblingsTokens(ts)|, w)
    decreases ts, 0
  {
    hide StandsAt, ProperOn, Opens, Closes, PlainText, Word;
    StandsFits(values, a, SiblingsTokens(ts));
    match ts
    case NoTree =>
      PlainWindow(values, a, a);
      w := map[];
    case One(t) => w := TreeWindow(values, a, t);
    case Comma(t, rest) =>
      var n := |TreeTokens(t)|;
      StandsSplit(values, a, TreeTokens(t), [","] + SiblingsTokens(rest));
      StandsSplit(values, a + n, [","], SiblingsTokens(rest));
      var left := TreeWindow(values, a, t);
      CommaIsPlain();
      PlainTextWindow(values, a + n, [","]);
      JoinWindows(values, a, a + n, a + n + 1, left, map[]);
      var right := SiblingsWindow(values, a + n + 1, rest);
      JoinWindows(values, a, a + n + 1, a + |SiblingsTokens(ts)|, left + map[], right);
      w := left + map[] + right;
  }

  lemma CommaIsPlain()
    ensures PlainText([","])
  {
  }

  /** The group of a printed tree is matched where it was printed to end. */
  lemma GroupMatched(values: seq<string>, b: Matching, a: nat, ts: Siblings)
    requires Proper(values, b) && SiblingsOk(ts) && StandsAt(values, a, GroupTokens(ts))
    ensures a in b && b[a] == a + 1 + |SiblingsTokens(ts)|
  {
    hide Proper, ProperOn, StandsAt;
    var w := GroupWindow(values, a, ts);
    WindowMatched(values, a, a + |GroupTokens(ts)|, w, b, a);
  }

  // ----- the walk over a printed tree

  lemma WalkHead(values: seq<string>, b: Matching, i: nat, end: nat, prefix: seq<string>, targets: set<seq<string>>,
                 names: set<string>, rooted: bool, segments: seq<string>, group: bool)
    requires Proper(values, b) && end <= |values| && Words(segments)
    requires StandsAt(values, i, HeadTokens(rooted, segments, group))
             && i + |HeadTokens(rooted, segments, group)| <= end
    ensures Walk(values, b, i, end, prefix, prefix, targets, names)
         == Walk(values, b, i + |HeadTokens(rooted, segments, group)|, end, prefix, prefix + segments, targets, names)
  {
    hide Proper, Walk, StandsAt, Word, PathTokens;
    var root, path, sep := RootTokens(rooted), PathTokens(segments), RootTokens(group && segments != []);
    StandsSplit(values, i, root + path, sep);
    StandsSplit(values, i, root, path);
    WalkSep(values, b, i, end, prefix, prefix, targets, names, rooted);
    WalkPath(values, b, i + |root|, end, prefix, prefix, targets, names, segments);
    WalkSep(values, b, i + |root + path|, end, prefix, prefix + segments, targets, names, group && segments != []);
  }

  lemma WalkAlias(values: seq<string>, b: Matching, i: nat, end: nat, prefix: seq<string>, path: seq<string>,
                  targets: set<seq<string>>, names: set<string>, alias: Option<string>)
    requires Proper(values, b) && end <= |values|
    requires StandsAt(values, i, AliasTokens(alias)) && i + |AliasTokens(alias)| <= end
    ensures Walk(values, b, i, end, prefix, path, targets, names)
         == Walk(values, b, i + |AliasTokens(alias)|, end, prefix, path, targets,
                 names + (if alias.Some? && Denotes(path, targets) then {alias.value} else {}))
  {
    hide Proper, Walk, StandsAt, WithoutSelf, Denotes;
    WithoutSelfDenotes(path, targets);
    if alias.Some? {
      assert AliasTokens(alias) == ["as"] + [alias.value];
      StandsSplit(values, i, ["as"], [alias.value]);
      StandsOne(values, i, "as");
      StandsOne(values, i + 1, alias.value);
      StepAs(values, b, i, end, prefix, path, targets, names);
    } else {
      assert names + {} == names;
    }
  }

  lemma WalkLeaf(values: seq<string>, b: Matching, i: nat, end: nat, prefix: seq<string>, targets: set<seq<string>>,
                 names: set<string>, t: UseTree)
    requires Proper(values, b) && end <= |values| && t.Leaf? && TreeOk(t)
    requires StandsAt(values, i, TreeTokens(t)) && i + |TreeTokens(t)| <= end
    ensures Walk(values, b, i, end, prefix, prefix, targets, names)
         == Walk(values, b, i + |TreeTokens(t)|, end, prefix, prefix + t.segments, targets,
                 names + TreeAliases(t, prefix, targets))
  {
    hide Proper, Walk, StandsAt, Word, Denotes, PathTokens;
    var head := HeadTokens(t.rooted, t.segments, false);
    assert TreeTokens(t) == head + AliasTokens(t.alias);
    StandsSplit(values, i, head, AliasTokens(t.alias));
    WalkHead(values, b, i, end, prefix, targets, names, t.rooted, t.segments, false);
    WalkAlias(values, b, i + |head|, end, prefix, prefix + t.segments, targets, names, t.alias);
  }

  /** Walking over a printed tree adds exactly its aliases. */
  lemma {:induction false} WalkPrintedTree(values: seq<string>, b: Matching, i: nat, end: nat, prefix: seq<string>,
                                           targets: set<seq<string>>, names: set<string>, t: UseTree)
    requires Proper(values, b) && end <= |values| && TreeOk(t)
    requires StandsAt(values, i, TreeTokens(t)) && i + |TreeTokens(t)| <= end
    ensures Walk(values, b, i, end, prefix, prefix, targets, names)
         == Walk(values, b, i + |TreeTokens(t)|, end, prefix, prefix + t.segments, targets,
                 names + TreeAliases(t, prefix, targets))
    decreases t
  {
    hide Proper, Walk, StandsAt, Word, Denotes;
    match t
    case Leaf(_, _, _) => WalkLeaf(values, b, i, end, prefix, targets, names, t);
    case Branch(rooted, segments, children) =>
      var head := HeadTokens(rooted, segments, true);
      var q := i + |head|;
      var stop := q + 1 + |SiblingsTokens(children)|;
      BranchTokens(t);
      StandsSplit(values, i, head, GroupTokens(children));
      WalkHead(values, b, i, end, prefix, targets, names, rooted, segments, true);
      GroupStands(values, q, children);
      GroupMatched(values, b, q, children);
      WalkPrintedSiblings(values, b, q + 1, stop, prefix + segments, targets, names, children);
      StepGroup(values, b, q, end, prefix, prefix + segments, targets, names, stop,
                names + SiblingsAliases(children, prefix + segments, targets));
  }

  lemma {:induction false} WalkPrintedSiblings(values: seq<string>, b: Matching, i: nat, end: nat, prefix: seq<string>,
                                               targets: set<seq<string>>, names: set<string>, ts: Siblings)
    requires Proper(values, b) && end <= |values| && SiblingsOk(ts)
    requires StandsAt(values, i, SiblingsTokens(ts)) && i + |SiblingsTokens(ts)| == end
    ensures Walk(values, b, i, end, prefix, prefix, targets, names)
         == Some(names + SiblingsAliases(ts, prefix, targets))
    decreases ts
  {
    hide Proper, Walk, StandsAt, Word, Denotes, TreeAliases;
    match ts
    case NoTree =>
      WalkDone(values, b, end, prefix, prefix, targets, names);
      assert names + {} == names;
    case One(t) =>
      WalkPrintedTree(values, b, i, end, prefix, targets, names, t);
      WalkDone(values, b, end, prefix, prefix + t.segments, targets, names + TreeAliases(t, prefix, targets));
    case Comma(t, rest) =>
      var n := |TreeTokens(t)|;
      StandsSplit(values, i, TreeTokens(t), [","] + SiblingsTokens(rest));
      StandsSplit(values, i + n, [","], SiblingsTokens(rest));
      StandsOne(values, i + n, ",");
      var found := names + TreeAliases(t, prefix, targets);
      WalkPrintedTree(values, b, i, end, prefix, targets, names, t);
      StepComma(values, b, i + n, end, prefix, prefix + t.segments, targets, found);
      WalkPrintedSiblings(values, b, i + n + 1, end, prefix, targets, found, rest);
      assert found + SiblingsAliases(rest, prefix, targets) == names + SiblingsAliases(ts, prefix, targets);
  }

  // ----- a whole source

  /** A source: `use` declarations among tokens that declare none. */
  datatype Chunk = Other(tokens: seq<string>) | Use(tree: UseTree)

  predicate ChunkOk(c: Chunk) {
    match c
    case Other(tokens) => "use" !in tokens
    case Use(tree) => TreeOk(tree)
  }

  predicate SourceOk(chunks: seq<Chunk>) { forall i :: 0 <= i < |chunks| ==> ChunkOk(chunks[i]) }

  function ChunkTokens(c: Chunk): seq<string> {
    match c
    case Other(tokens) => tokens
    case Use(tree) => ["use"] + (TreeTokens(tree) + [";"])
  }

  function SourceTokens(chunks: seq<Chunk>): seq<string> {
    if chunks == [] then [] else ChunkTokens(chunks[0]) + SourceTokens(chunks[1..])
  }

  function SourceAliases(chunks: seq<Chunk>, targets: set<seq<string>>): set<string> {
    if chunks == [] then {}
    else (match chunks[0] case Other(_) => {} case Use(tree) => TreeAliases(tree, [], targets))
         + SourceAliases(chunks[1..], targets)
  }

  ghost predicate Without(v: string, text: seq<string>) { forall i :: 0 <= i < |text| ==> text[i] != v }

  /** The tokens that end a `use` declaration or begin another one. */
  predicate Boundary(v: string) { v == ";" || v == "use" }

  lemma {:induction false} PathHasNoBoundary(v: string, segments: seq<string>)
    requires Words(segments) && Boundary(v)
    ensures Without(v, PathTokens(segments))
    decreases |segments|
  {
    if |segments| > 1 {
      PathHasNoBoundary(v, segments[1..]);
    }
  }

  lemma WithoutJoin(v: string, left: seq<string>, right: seq<string>)
    requires Without(v, left) && Without(v, right)
    ensures Without(v, left + right)
  {
  }

  lemma PunctuationIsNoBoundary(v: string, present: bool)
    requires Boundary(v)
    ensures Without(v, RootTokens(present)) && Without(v, ["{"]) && Without(v, ["}"]) && Without(v, [","])
  {
  }

  lemma HeadHasNoBoundary(v: string, rooted: bool, segments: seq<string>, group: bool)
    requires Words(segments) && Boundary(v)
    ensures Without(v, HeadTokens(rooted, segments, group))
  {
    hide Without, RootTokens, PathTokens;
    PunctuationIsNoBoundary(v, rooted);
    PunctuationIsNoBoundary(v, group && segments != []);
    PathHasNoBoundary(v, segments);
    WithoutJoin(v, RootTokens(rooted), PathTokens(segments));
    WithoutJoin(v, RootTokens(rooted) + PathTokens(segments), RootTokens(group && segments != []));
  }

  lemma LeafHasNoBoundary(v: string, t: UseTree)
    requires t.Leaf? && TreeOk(t) && Boundary(v)
    ensures Without(v, TreeTokens(t))
  {
    hide HeadTokens;
    HeadHasNoBoundary(v, t.rooted, t.segments, false);
    assert TreeTokens(t) == HeadTokens(t.rooted, t.segments, false) + AliasTokens(t.alias) by { HeadOfLeaf(t); }
    WithoutJoin(v, HeadTokens(t.rooted, t.segments, false), AliasTokens(t.alias));
  }

  lemma HeadOfLeaf(t: UseTree)
    requires t.Leaf?
    ensures TreeTokens(t) == HeadTokens(t.rooted, t.segments, false) + AliasTokens(t.alias)
  {
  }

  lemma {:induction false} TreeHasNoBoundary(v: string, t: UseTree)
    requires TreeOk(t) && Boundary(v)
    ensures Without(v, TreeTokens(t))
    decreases t
  {
    hide Without, HeadTokens, TreeTokens, Word, Boundary;
    match t
    case Leaf(_, _, _) => LeafHasNoBoundary(v, t);
    case Branch(rooted, segments, children) =>
      var text := SiblingsTokens(children);
      HeadHasNoBoundary(v, rooted, segments, true);
      SiblingsHaveNoBoundary(v, children);
      PunctuationIsNoBoundary(v, true);
      WithoutJoin(v, ["{"], text);
      WithoutJoin(v, ["{"] + text, ["}"]);
      WithoutJoin(v, HeadTokens(rooted, segments, true), GroupTokens(children));
      BranchTokens(t);
  }

  lemma {:induction false} SiblingsHaveNoBoundary(v: string, ts: Siblings)
    requires SiblingsOk(ts) && Boundary(v)
    ensures Without(v, SiblingsTokens(ts))
    decreases ts
  {
    hide TreeTokens, Word, Boundary;
    match ts
    case NoTree =>
    case One(t) => TreeHasNoBoundary(v, t);
    case Comma(t, rest) =>
      TreeHasNoBoundary(v, t);
      SiblingsHaveNoBoundary(v, rest);
      PunctuationIsNoBoundary(v, true);
      WithoutJoin(v, [","], SiblingsTokens(rest));
      WithoutJoin(v, TreeTokens(t), [","] + SiblingsTokens(rest));
  }

  /** Text that declares nothing is passed over. */
  lemma {:induction false} UsesSkip(values: seq<string>, b: Matching, i: nat, text: seq<string>,
                                    targets: set<seq<string>>, names: set<string>)
    requires Proper(values, b) && StandsAt(values, i, text) && Without("use", text)
    ensures i + |text| <= |values| && Uses(values, b, i, targets, names) == Uses(values, b, i + |text|, targets, names)
    decreases |text|
  {
    hide Proper, Walk, StandsAt;
    StandsFits(values, i, text);
    if text != [] {
      assert text == [text[0]] + text[1..];
      StandsSplit(values, i, [text[0]], text[1..]);
      StandsOne(values, i, text[0]);
      UsesSkip(values, b, i + 1, text[1..], targets, names);
    }
  }

  lemma {:induction false} SemicolonFound(values: seq<string>, i: nat, text: seq<string>)
    requires StandsAt(values, i, text + [";"]) && Without(";", text)
    ensures i + |text| < |values| && NextSemicolon(values, i) == i + |text|
    decreases |text|
  {
    hide StandsAt;
    StandsSplit(values, i, text, [";"]);
    StandsOne(values, i + |text|, ";");
    if text != [] {
      assert text == [text[0]] + text[1..];
      assert text + [";"] == [text[0]] + (text[1..] + [";"]);
      StandsSplit(values, i, [text[0]], text[1..] + [";"]);
      StandsOne(values, i, text[0]);
      SemicolonFound(values, i + 1, text[1..]);
    }
  }

  lemma UsesDeclaration(values: seq<string>, b: Matching, i: nat, tree: UseTree, targets: set<seq<string>>,
                        names: set<string>)
    requires Proper(values, b) && StandsAt(values, i, ChunkTokens(Use(tree))) && TreeOk(tree)
    ensures i + |ChunkTokens(Use(tree))| <= |values|
    ensures Uses(values, b, i, targets, names)
         == Uses(values, b, i + |ChunkTokens(Use(tree))|, targets, names + TreeAliases(tree, [], targets))
  {
    hide Proper, StandsAt, TreeTokens, TreeAliases;
    var text := TreeTokens(tree);
    StandsFits(values, i, ChunkTokens(Use(tree)));
    StandsSplit(values, i, ["use"], text + [";"]);
    StandsOne(values, i, "use");
    StandsSplit(values, i + 1, text, [";"]);
    TreeHasNoBoundary(";", tree);
    TreeHasNoBoundary("use", tree);
    SemicolonFound(values, i + 1, text);
    DeclarationWalked(values, b, i + 1, tree, targets, names);
    UsesSkip(values, b, i + 1, text + [";"], targets, names + TreeAliases(tree, [], targets));
  }

  lemma DeclarationWalked(values: seq<string>, b: Matching, i: nat, tree: UseTree, targets: set<seq<string>>,
                          names: set<string>)
    requires Proper(values, b) && StandsAt(values, i, TreeTokens(tree)) && TreeOk(tree)
    ensures i + |TreeTokens(tree)| <= |values|
    ensures Walk(values, b, i, i + |TreeTokens(tree)|, [], [], targets, names)
         == Some(names + TreeAliases(tree, [], targets))
  {
    hide Proper, Walk, StandsAt, TreeTokens, TreeAliases;
    var end := i + |TreeTokens(tree)|;
    StandsFits(values, i, TreeTokens(tree));
    WalkPrintedTree(values, b, i, end, [], targets, names, tree);
    WalkDone(values, b, end, [], [] + tree.segments, targets, names + TreeAliases(tree, [], targets));
  }

  lemma {:induction false} UsesOfSource(values: seq<string>, b: Matching, i: nat, chunks: seq<Chunk>,
                                        targets: set<seq<string>>, names: set<string>)
    requires Proper(values, b) && SourceOk(chunks)
    requires StandsAt(values, i, SourceTokens(chunks)) && i + |SourceTokens(chunks)| == |values|
    ensures Uses(values, b, i, targets, names) == Some(names + SourceAliases(chunks, targets))
    decreases |chunks|
  {
    hide Proper, StandsAt, Walk, TreeTokens, TreeAliases;
    if chunks == [] {
      assert names + {} == names;
    } else {
      var c, rest := chunks[0], chunks[1..];
      var next := i + |ChunkTokens(c)|;
      StandsSplit(values, i, ChunkTokens(c), SourceTokens(rest));
      StandsFits(values, i, ChunkTokens(c));
      match c {
        case Other(tokens) =>
          UsesSkip(values, b, i, tokens, targets, names);
          UsesOfSource(values, b, next, rest, targets, names);
          assert SourceAliases(chunks, targets) == SourceAliases(rest, targets);
        case Use(tree) =>
          var found := names + TreeAliases(tree, [], targets);
          UsesDeclaration(values, b, i, tree, targets, names);
          UsesOfSource(values, b, next, rest, targets, found);
          assert found + SourceAliases(rest, targets) == names + SourceAliases(chunks, targets);
      }
    }
  }

  /** `aliases` over the tokens of a source finds the symbol and exactly the names its `use`
      declarations give to it. */
  lemma AliasesAreExact(chunks: seq<Chunk>, m: Matching, symbol: string)
    requires SourceOk(chunks) && Proper(SourceTokens(chunks), m)
    ensures Uses(SourceTokens(chunks), m, 0, Targets(symbol), {symbol})
         == Some({symbol} + SourceAliases(chunks, Targets(symbol)))
  {
    hide Proper, Uses, Targets;
    var values := SourceTokens(chunks);
    assert values[0..|values|] == values;
    UsesOfSource(values, m, 0, chunks, Targets(symbol), {symbol});
  }
}
