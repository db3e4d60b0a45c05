/** Delimiters of a Rust token sequence: which closing token ends which opening one. */
module Brackets {
  import opened Wrappers

  predicate Opens(v: string) { v == "(" || v == "[" || v == "{" }

  predicate Closes(v: string) { v == ")" || v == "]" || v == "}" }

  function OpenerOf(v: string): string
    requires Closes(v)
  {
    if v == ")" then "(" else if v == "]" then "[" else "{"
  }

  lemma Exclusive(v: string)
    ensures !(Opens(v) && Closes(v))
  {
  }

  datatype Delimitatori = NonBilanciati | NonTerminato

  type Matching = map<int, int>

  // ----- proper nesting, stated without an algorithm

  ghost predicate Ends(m: Matching, c: int) {
    exists k :: k in m && m[k] == c
  }

  /** Every pair goes forward, inside the window, between delimiters of the same kind. */
  ghost predicate KindsAgree(values: seq<string>, b: nat, m: Matching)
    requires b <= |values|
  {
    forall k :: k in m ==> 0 <= k < m[k] < b && Closes(values[m[k]]) && OpenerOf(values[m[k]]) == values[k]
  }

  /** A closing token ends one pair only. */
  ghost predicate OneStart(m: Matching) {
    forall j, k :: j in m && k in m && m[j] == m[k] ==> j == k
  }

  /** A pair that begins inside another ends inside it. */
  ghost predicate Nested(m: Matching) {
    forall j, k :: j in m && k in m && j < k < m[j] ==> m[k] < m[j]
  }

  /** `m` pairs all the delimiters of `values[a..b]`, properly nested. */
  ghost predicate ProperOn(values: seq<string>, a: nat, b: nat, m: Matching)
    requires a <= b <= |values|
  {
    && (forall k {:trigger k in m} {:trigger Opens(values[k])} :: k in m <==> a <= k < b && Opens(values[k]))
    && (forall c {:trigger Closes(values[c])} :: a <= c < b && Closes(values[c]) ==> Ends(m, c))
    && KindsAgree(values, b, m) && OneStart(m) && Nested(m)
  }

  ghost predicate Proper(values: seq<string>, m: Matching) {
    ProperOn(values, 0, |values|, m)
  }

  /** The opening position that a closing one ends. */
  ghost function StartOf(m: Matching, c: int): (k: int)
    requires Ends(m, c)
    ensures k in m && m[k] == c
  {
    var k :| k in m && m[k] == c; k
  }

  lemma PairEnds(m: Matching, k: int)
    requires k in m
    ensures Ends(m, m[k])
  {
  }

  /** Inside a window that nests by itself every matching of the whole agrees with it. */
  lemma {:induction false} WindowAgrees(values: seq<string>, a: nat, b: nat, w: Matching, m: Matching, c: nat)
    requires a <= b <= |values| && ProperOn(values, a, b, w) && Proper(values, m)
    requires a <= c < b && Closes(values[c])
    ensures StartOf(m, c) == StartOf(w, c)
  {
    hide Opens, Closes, OpenerOf, Ends;
    var k, k' := StartOf(w, c), StartOf(m, c);
    if k' < k {
      assert k in m && m[k] < c;
      WindowAgrees(values, a, b, w, m, m[k]);
    } else if k < k' {
      assert k' in w && w[k'] < c;
      WindowAgrees(values, a, b, w, m, w[k']);
    }
  }

  /** An opening token whose window nests by itself is matched with the token after it. */
  lemma WindowMatched(values: seq<string>, a: nat, b: nat, w: Matching, m: Matching, k: nat)
    requires a <= b <= |values| && ProperOn(values, a, b, w) && Proper(values, m) && k in w
    ensures k in m && m[k] == w[k]
  {
    hide Opens, Closes, OpenerOf, Ends;
    PairEnds(w, k);
    WindowAgrees(values, a, b, w, m, w[k]);
  }

  /** There is at most one properly nested matching. */
  lemma MatchingIsUnique(values: seq<string>, m: Matching, w: Matching)
    requires Proper(values, m) && Proper(values, w)
    ensures m == w
  {
    hide Opens, Closes, OpenerOf, Ends, KindsAgree, OneStart, Nested;
    assert forall k :: k in m <==> k in w;
    forall k | k in w ensures k in m && m[k] == w[k] {
      hide ProperOn;
      WindowMatched(values, 0, |values|, w, m, k);
    }
  }

  // ----- the scan

  /** The delimiters still open stand in order before position `i`. */
  ghost predicate StackInOrder(i: nat, stack: seq<int>) {
    && (forall x, y :: 0 <= x < y < |stack| ==> stack[x] < stack[y])
    && (forall x :: 0 <= x < |stack| ==> 0 <= stack[x] < i)
  }

  /** Every opening token before `i` is paired or still open, never both. */
  ghost predicate Opened(values: seq<string>, i: nat, stack: seq<int>, m: Matching)
    requires i <= |values|
  {
    && (forall k :: k in m ==> 0 <= k < i && Opens(values[k]) && k !in stack)
    && (forall k :: k in stack ==> 0 <= k < i && Opens(values[k]))
    && (forall k {:trigger Opens(values[k])} :: 0 <= k < i && Opens(values[k]) ==> k in m || k in stack)
  }

  ghost predicate Closed(values: seq<string>, i: nat, m: Matching)
    requires i <= |values|
  {
    forall c {:trigger Closes(values[c])} :: 0 <= c < i && Closes(values[c]) ==> Ends(m, c)
  }

  /** A pair that began before an open delimiter ended before it. */
  ghost predicate NoStraddle(stack: seq<int>, m: Matching) {
    forall k, x :: k in m && 0 <= x < |stack| && k < stack[x] ==> m[k] < stack[x]
  }

  /** The state of `pairs` before position `i`: the delimiters still open and the pairs closed. */
  ghost predicate Scanned(values: seq<string>, i: nat, stack: seq<int>, m: Matching)
    requires i <= |values|
  {
    && StackInOrder(i, stack) && Opened(values, i, stack, m) && Closed(values, i, m)
    && KindsAgree(values, i, m) && OneStart(m) && Nested(m) && NoStraddle(stack, m)
  }

  lemma PushKeeps(values: seq<string>, i: nat, stack: seq<int>, m: Matching)
    requires i < |values| && Scanned(values, i, stack, m) && Opens(values[i])
    ensures Scanned(values, i + 1, stack + [i], m)
  {
    hide Opens, Closes, OpenerOf, Ends;
    Exclusive(values[i]);
    assert forall k :: k in stack + [i] <==> k in stack || k == i;
  }

  lemma SkipKeeps(values: seq<string>, i: nat, stack: seq<int>, m: Matching)
    requires i < |values| && Scanned(values, i, stack, m) && !Opens(values[i]) && !Closes(values[i])
    ensures Scanned(values, i + 1, stack, m)
  {
    hide Opens, Closes, OpenerOf, Ends;
  }

  lemma RestBelow(i: nat, rest: seq<int>, start: int)
    requires StackInOrder(i, rest + [start])
    ensures StackInOrder(i, rest) && start < i && start !in rest
    ensures forall x :: 0 <= x < |rest| ==> rest[x] < start
  {
    var stack := rest + [start];
    assert stack[|rest|] == start;
    assert forall x :: 0 <= x < |rest| ==> stack[x] == rest[x];
  }

  lemma PopOpened(values: seq<string>, i: nat, rest: seq<int>, start: int, m: Matching)
    requires i < |values| && StackInOrder(i, rest + [start]) && Opened(values, i, rest + [start], m)
    requires !Opens(values[i])
    ensures Opened(values, i + 1, rest, m[start := i])
  {
    hide Opens, Closes, OpenerOf, Ends;
    var stack := rest + [start];
    assert stack[|rest|] == start;
    assert forall k :: k in stack <==> k in rest || k == start;
    RestBelow(i, rest, start);
  }

  lemma PopClosed(values: seq<string>, i: nat, start: int, m: Matching)
    requires i < |values| && Closed(values, i, m) && start !in m
    ensures Closed(values, i + 1, m[start := i])
  {
    hide Opens, Closes, OpenerOf, Ends;
    var m' := m[start := i];
    PairEnds(m', start);
    forall c | Ends(m, c) ensures Ends(m', c) {
      PairEnds(m', StartOf(m, c));
    }
  }

  lemma PopNested(values: seq<string>, i: nat, rest: seq<int>, start: int, m: Matching)
    requires i < |values| && StackInOrder(i, rest + [start]) && start !in m
    requires KindsAgree(values, i, m) && OneStart(m) && Nested(m) && NoStraddle(rest + [start], m)
    ensures OneStart(m[start := i]) && Nested(m[start := i]) && NoStraddle(rest, m[start := i])
  {
    hide Opens, Closes, OpenerOf, Ends;
    var stack := rest + [start];
    assert stack[|rest|] == start;
    assert forall x :: 0 <= x < |rest| ==> stack[x] == rest[x];
    RestBelow(i, rest, start);
  }

  lemma PopKeeps(values: seq<string>, i: nat, rest: seq<int>, start: int, m: Matching)
    requires i < |values| && Scanned(values, i, rest + [start], m)
    requires Closes(values[i]) && 0 <= start < |values| && OpenerOf(values[i]) == values[start]
    ensures Scanned(values, i + 1, rest, m[start := i])
  {
    hide Opens, Closes, OpenerOf, Ends, OneStart, Nested, NoStraddle;
    Exclusive(values[i]);
    var stack := rest + [start];
    assert stack[|rest|] == start && start in stack;
    RestBelow(i, rest, start);
    PopOpened(values, i, rest, start, m);
    PopClosed(values, i, start, m);
    PopNested(values, i, rest, start, m);
  }

  /** What the scan has found so far is part of any proper matching. */
  ghost predicate PartOf(i: nat, stack: seq<int>, m: Matching, whole: Matching) {
    && (forall k :: k in m ==> k in whole && whole[k] == m[k])
    && (forall x :: 0 <= x < |stack| ==> stack[x] in whole && whole[stack[x]] >= i)
  }

  /** In a proper matching the next closing token ends the innermost open delimiter. */
  lemma ClosesInnermost(values: seq<string>, i: nat, stack: seq<int>, m: Matching, whole: Matching)
    requires i < |values| && Scanned(values, i, stack, m) && Closes(values[i])
    requires Proper(values, whole) && PartOf(i, stack, m, whole)
    ensures stack != [] && stack[|stack| - 1] in whole && whole[stack[|stack| - 1]] == i
    ensures 0 <= stack[|stack| - 1] < |values| && OpenerOf(values[i]) == values[stack[|stack| - 1]]
  {
    hide Opens, Closes, OpenerOf, Ends;
    var k := StartOf(whole, i);
    assert k in m || k in stack;
    var x :| 0 <= x < |stack| && stack[x] == k;
    var top := stack[|stack| - 1];
    assert top in stack && top in whole && whole[top] >= i;
    if x < |stack| - 1 {
      assert false;
    }
  }

  lemma PopStaysPart(values: seq<string>, i: nat, rest: seq<int>, start: int, m: Matching, whole: Matching)
    requires i < |values| && Scanned(values, i, rest + [start], m) && Closes(values[i])
    requires Proper(values, whole) && PartOf(i, rest + [start], m, whole)
    ensures PartOf(i + 1, rest, m[start := i], whole)
  {
    hide Opens, Closes, OpenerOf, Ends, Opened, Closed, KindsAgree, Nested, NoStraddle;
    ClosesInnermost(values, i, rest + [start], m, whole);
    var stack := rest + [start];
    assert stack[|rest|] == start;
    RestBelow(i, rest, start);
    forall x | 0 <= x < |rest| ensures rest[x] in whole && whole[rest[x]] >= i + 1 {
      assert stack[x] == rest[x];
    }
  }

  lemma OthersStayPart(values: seq<string>, i: nat, stack: seq<int>, m: Matching, whole: Matching)
    requires i < |values| && Scanned(values, i, stack, m) && !Closes(values[i])
    requires Proper(values, whole) && PartOf(i, stack, m, whole)
    ensures PartOf(i + 1, if Opens(values[i]) then stack + [i] else stack, m, whole)
  {
    hide Opens, Closes, OpenerOf, Ends;
    forall x | 0 <= x < |stack| ensures whole[stack[x]] != i {
      assert Closes(values[whole[stack[x]]]);
    }
  }

  ghost predicate PartOfAll(values: seq<string>, i: nat, stack: seq<int>, m: Matching) {
    forall whole :: Proper(values, whole) ==> PartOf(i, stack, m, whole)
  }

  /** The same however the tokens go on. */
  ghost predicate PartOfEvery(values: seq<string>, i: nat, stack: seq<int>, m: Matching) {
    forall tail :: PartOfAll(values + tail, i, stack, m)
  }

  /** Some tokens to come make the sequence nest properly. */
  ghost predicate Completable(values: seq<string>) {
    exists tail, m :: Proper(values + tail, m)
  }

  /** The state of the scan depends on the tokens read only. */
  lemma ScannedExtends(values: seq<string>, tail: seq<string>, i: nat, stack: seq<int>, m: Matching)
    requires i <= |values| && Scanned(values, i, stack, m)
    ensures Scanned(values + tail, i, stack, m)
  {
    hide Opens, Closes, OpenerOf, Ends, OneStart, Nested, NoStraddle;
    var all := values + tail;
    assert forall k :: 0 <= k < i ==> all[k] == values[k];
  }

  lemma PopStaysPartOfEvery(values: seq<string>, i: nat, rest: seq<int>, start: int, m: Matching)
    requires i < |values| && Scanned(values, i, rest + [start], m) && Closes(values[i])
    requires PartOfEvery(values, i, rest + [start], m)
    ensures PartOfEvery(values, i + 1, rest, m[start := i])
  {
    hide Opens, Closes, OpenerOf, Ends, Scanned, Proper, PartOf;
    forall tail, whole | Proper(values + tail, whole) ensures PartOf(i + 1, rest, m[start := i], whole) {
      ScannedExtends(values, tail, i, rest + [start], m);
      assert PartOfAll(values + tail, i, rest + [start], m);
      PopStaysPart(values + tail, i, rest, start, m, whole);
    }
  }

  lemma OthersStayPartOfEvery(values: seq<string>, i: nat, stack: seq<int>, m: Matching)
    requires i < |values| && Scanned(values, i, stack, m) && !Closes(values[i]) && PartOfEvery(values, i, stack, m)
    ensures PartOfEvery(values, i + 1, if Opens(values[i]) then stack + [i] else stack, m)
  {
    hide Opens, Closes, OpenerOf, Ends, Scanned, Proper, PartOf;
    var next := if Opens(values[i]) then stack + [i] else stack;
    forall tail, whole | Proper(values + tail, whole) ensures PartOf(i + 1, next, m, whole) {
      ScannedExtends(values, tail, i, stack, m);
      assert PartOfAll(values + tail, i, stack, m);
      OthersStayPart(values + tail, i, stack, m, whole);
    }
  }

  /** A closing token that does not end the innermost open delimiter is beyond repair. */
  lemma MismatchRefutes(values: seq<string>, i: nat, stack: seq<int>, m: Matching)
    requires i < |values| && Scanned(values, i, stack, m) && Closes(values[i]) && PartOfEvery(values, i, stack, m)
    requires stack == [] || stack[|stack| - 1] >= |values| || values[stack[|stack| - 1]] != OpenerOf(values[i])
    ensures !Completable(values)
  {
    TopIsRead(values, i, stack, m);
    hide Opens, Closes, OpenerOf, Ends, Scanned, Proper, PartOf;
    forall tail, whole | Proper(values + tail, whole) ensures false {
      ScannedExtends(values, tail, i, stack, m);
      assert PartOfAll(values + tail, i, stack, m);
      ClosesInnermost(values + tail, i, stack, m, whole);
    }
  }

  lemma TopIsRead(values: seq<string>, i: nat, stack: seq<int>, m: Matching)
    requires i <= |values| && Scanned(values, i, stack, m)
    ensures stack != [] ==> 0 <= stack[|stack| - 1] < i
  {
    hide Opened, Closed, KindsAgree, OneStart, Nested, NoStraddle;
  }

  lemma CompleteAlready(values: seq<string>, m: Matching)
    requires Proper(values, m)
    ensures Completable(values)
  {
    assert values + [] == values;
  }

  lemma OpenRefutes(values: seq<string>, stack: seq<int>, m: Matching)
    requires PartOfEvery(values, |values|, stack, m) && stack != []
    ensures !exists whole :: Proper(values, whole)
  {
    hide Opens, Closes, OpenerOf, Ends, Proper, PartOf;
    assert values + [] == values;
    assert PartOfAll(values + [], |values|, stack, m);
    forall whole | Proper(values, whole) ensures false {
      NothingLeftOpen(values, stack, m, whole);
    }
  }

  /** Delimiters still open can be closed, innermost first. */
  lemma {:induction false} OpenIsCompletable(values: seq<string>, stack: seq<int>, m: Matching)
    requires Scanned(values, |values|, stack, m)
    ensures Completable(values)
    decreases |stack|
  {
    hide Opens, Closes, OpenerOf, CloserOf, Scanned, Proper;
    if stack == [] {
      ScannedIsProper(values, m);
      CompleteAlready(values, m);
    } else {
      var rest, start := stack[..|stack| - 1], stack[|stack| - 1];
      assert stack == rest + [start];
      TopOpens(values, rest, start, m);
      CloserCloses(values[start]);
      var longer := values + [CloserOf(values[start])];
      ScannedExtends(values, [CloserOf(values[start])], |values|, stack, m);
      PopKeeps(longer, |values|, rest, start, m);
      OpenIsCompletable(longer, rest, m[start := |values|]);
      var tail, whole :| Proper(longer + tail, whole);
      assert longer + tail == values + ([CloserOf(values[start])] + tail);
    }
  }

  lemma TopOpens(values: seq<string>, rest: seq<int>, start: int, m: Matching)
    requires Scanned(values, |values|, rest + [start], m)
    ensures 0 <= start < |values| && Opens(values[start])
  {
    hide Opens, Closes, OpenerOf, Ends, Closed, KindsAgree, OneStart, Nested, NoStraddle;
    var stack := rest + [start];
    assert stack[|rest|] == start && start in stack;
  }

  /** `pairs`: succeeds exactly when the tokens nest properly, and then returns their one matching;
      a sequence refused as unterminated could still be completed, one refused as unbalanced not. */
  method Pairs(values: seq<string>) returns (r: Result<Matching, Delimitatori>)
    ensures r.Ok? <==> exists m :: Proper(values, m)
    ensures r.Ok? ==> Proper(values, r.value)
    ensures r == Err(NonBilanciati) <==> !Completable(values)
  {
    hide Opens, Closes, OpenerOf, Ends, Proper, PartOf, PartOfAll, Opened, Closed, KindsAgree, OneStart, Nested;
    hide NoStraddle, PartOfEvery, Completable;
    var stack: seq<int>, result: Matching := [], map[];
    var i := 0;
    NothingScanned(values);
    while i < |values|
      invariant i <= |values| && Scanned(values, i, stack, result)
      invariant PartOfEvery(values, i, stack, result)
    {
      var v := values[i];
      if Opens(v) {
        Exclusive(v);
        PushKeeps(values, i, stack, result);
        OthersStayPartOfEvery(values, i, stack, result);
        stack := stack + [i];
      } else if Closes(v) {
        if stack == [] || values[stack[|stack| - 1]] != OpenerOf(v) {
          MismatchRefutes(values, i, stack, result);
          NotEvenNow(values);
          return Err(NonBilanciati);
        }
        var rest, start := stack[..|stack| - 1], stack[|stack| - 1];
        assert stack == rest + [start];
        PopKeeps(values, i, rest, start, result);
        PopStaysPartOfEvery(values, i, rest, start, result);
        stack := rest;
        result := result[start := i];
      } else {
        SkipKeeps(values, i, stack, result);
        OthersStayPartOfEvery(values, i, stack, result);
      }
      i := i + 1;
    }
    OpenIsCompletable(values, stack, result);
    if stack != [] {
      OpenRefutes(values, stack, result);
      return Err(NonTerminato);
    }
    ScannedIsProper(values, result);
    return Ok(result);
  }

  lemma NotEvenNow(values: seq<string>)
    requires !Completable(values)
    ensures !exists whole :: Proper(values, whole)
  {
    hide ProperOn, Proper;
    forall whole | Proper(values, whole) ensures false {
      CompleteAlready(values, whole);
    }
  }

  lemma NothingScanned(values: seq<string>)
    ensures Scanned(values, 0, [], map[])
    ensures PartOfEvery(values, 0, [], map[])
  {
  }

  lemma NothingLeftOpen(values: seq<string>, stack: seq<int>, m: Matching, whole: Matching)
    requires stack != [] && Proper(values, whole)
    ensures !PartOf(|values|, stack, m, whole)
  {
    hide Opens, Closes, OpenerOf, Ends;
    var s := stack[0];
    assert s in whole ==> whole[s] < |values|;
  }

  lemma ScannedIsProper(values: seq<string>, m: Matching)
    requires Scanned(values, |values|, [], m)
    ensures Proper(values, m)
  {
    hide Opens, Closes, OpenerOf, Ends;
  }

  // ----- windows put together

  lemma PlainWindow(values: seq<string>, a: nat, b: nat)
    requires a <= b <= |values| && forall k :: a <= k < b ==> !Opens(values[k]) && !Closes(values[k])
    ensures ProperOn(values, a, b, map[])
  {
    hide Opens, Closes, OpenerOf, Ends;
  }

  /** Two matchings of neighbouring windows, seen through their union. */
  ghost predicate Neighbours(b: nat, left: Matching, right: Matching) {
    && (forall k :: k in left ==> k < b && left[k] < b)
    && (forall k :: k in right ==> b <= k && b <= right[k])
  }

  lemma JoinNested(b: nat, left: Matching, right: Matching)
    requires Neighbours(b, left, right) && OneStart(left) && Nested(left) && OneStart(right) && Nested(right)
    ensures OneStart(left + right) && Nested(left + right)
  {
    var m := left + right;
    forall j, k | j in m && k in m ensures m[j] == m[k] ==> j == k {
      assert (j in left || j in right) && (k in left || k in right);
    }
    forall j, k | j in m && k in m && j < k < m[j] ensures m[k] < m[j] {
      assert (j in left || j in right) && (k in left || k in right);
    }
  }

  lemma JoinWindows(values: seq<string>, a: nat, b: nat, c: nat, left: Matching, right: Matching)
    requires a <= b <= c <= |values| && ProperOn(values, a, b, left) && ProperOn(values, b, c, right)
    ensures ProperOn(values, a, c, left + right)
  {
    hide Opens, Closes, OpenerOf, Ends, OneStart, Nested;
    var m := left + right;
    assert forall k :: k in m <==> k in left || k in right;
    assert forall k :: k in left ==> k !in right && m[k] == left[k];
    JoinNested(b, left, right);
    forall k | a <= k < c && Closes(values[k]) ensures Ends(m, k) {
      PairEnds(m, if k < b then StartOf(left, k) else StartOf(right, k));
    }
  }

  lemma WrapNested(a: nat, b: nat, inside: Matching)
    requires a < b && OneStart(inside) && Nested(inside)
    requires forall k :: k in inside ==> a < k && inside[k] < b
    ensures OneStart(inside[a := b]) && Nested(inside[a := b])
  {
  }

  lemma WrapEnds(values: seq<string>, a: nat, b: nat, inside: Matching, c: int)
    requires a < b < |values| && ProperOn(values, a + 1, b, inside)
    requires a < c <= b && Closes(values[c])
    ensures Ends(inside[a := b], c)
  {
    hide Opens, Closes, OpenerOf, Ends, OneStart, Nested;
    PairEnds(inside[a := b], if c == b then a else StartOf(inside, c));
  }

  lemma WrapWindow(values: seq<string>, a: nat, b: nat, inside: Matching)
    requires a < b < |values| && ProperOn(values, a + 1, b, inside)
    requires Opens(values[a]) && Closes(values[b]) && OpenerOf(values[b]) == values[a]
    ensures ProperOn(values, a, b + 1, inside[a := b])
  {
    hide Opens, Closes, OpenerOf, Ends, OneStart, Nested;
    Exclusive(values[a]);
    Exclusive(values[b]);
    WrapNested(a, b, inside);
    forall c | a <= c < b + 1 && Closes(values[c]) ensures Ends(inside[a := b], c) {
      WrapEnds(values, a, b, inside, c);
    }
  }

  function Restrict(m: Matching, lo: nat, hi: nat): Matching {
    map k | k in m && lo <= k < hi :: m[k]
  }

  /** A window that no pair crosses nests by itself. */
  lemma SubWindow(values: seq<string>, a: nat, b: nat, m: Matching, lo: nat, hi: nat)
    requires a <= lo <= hi <= b <= |values| && ProperOn(values, a, b, m)
    requires forall k :: k in m && lo <= k < hi ==> m[k] < hi
    requires forall k :: k in m && lo <= m[k] < hi ==> lo <= k
    ensures ProperOn(values, lo, hi, Restrict(m, lo, hi))
  {
    hide Opens, Closes, OpenerOf, Ends;
    var w := Restrict(m, lo, hi);
    forall c | lo <= c < hi && Closes(values[c]) ensures Ends(w, c) {
      PairEnds(w, StartOf(m, c));
    }
  }

  // ----- the grammar of bracketed sequences

  /** A bracketed sequence: ordinary tokens and delimited groups, one after another. */
  datatype Forest =
    | Empty
    | Token(value: string, rest: Forest)
    | Group(open: string, inside: Forest, rest: Forest)
  {
    predicate WellFormed() {
      match this
      case Empty => true
      case Token(v, rest) => v !in {"(", "[", "{", ")", "]", "}"} && rest.WellFormed()
      case Group(open, inside, rest) => open in {"(", "[", "{"} && inside.WellFormed() && rest.WellFormed()
    }

    function Tokens(): seq<string> {
      match this
      case Empty => []
      case Token(v, rest) => [v] + rest.Tokens()
      case Group(open, inside, rest) => [open] + inside.Tokens() + [CloserOf(open)] + rest.Tokens()
    }
  }

  function CloserOf(open: string): string {
    if open == "(" then ")" else if open == "[" then "]" else "}"
  }

  lemma Delimiters(v: string)
    ensures Opens(v) <==> v in {"(", "[", "{"}
    ensures Opens(v) || Closes(v) <==> v in {"(", "[", "{", ")", "]", "}"}
  {
  }

  lemma CloserCloses(open: string)
    requires Opens(open)
    ensures Closes(CloserOf(open)) && OpenerOf(CloserOf(open)) == open
  {
  }

  lemma OpenerOpens(close: string)
    requires Closes(close)
    ensures Opens(OpenerOf(close)) && CloserOf(OpenerOf(close)) == close
  {
  }

  /** The tokens of a text stand at a position. */
  ghost predicate StandsAt(values: seq<string>, a: nat, text: seq<string>) {
    a + |text| <= |values| && values[a..a + |text|] == text
  }

  lemma StandsFits(values: seq<string>, a: nat, text: seq<string>)
    requires StandsAt(values, a, text)
    ensures a + |text| <= |values|
  {
  }

  lemma StandsSplit(values: seq<string>, a: nat, left: seq<string>, right: seq<string>)
    ensures StandsAt(values, a, left + right) <==> StandsAt(values, a, left) && StandsAt(values, a + |left|, right)
  {
    var text := left + right;
    if a + |text| <= |values| {
      var window := values[a..a + |text|];
      assert window == values[a..a + |left|] + values[a + |left|..a + |text|];
      assert text[..|left|] == left && text[|left|..] == right;
      assert window[..|left|] == values[a..a + |left|];
      assert window[|left|..] == values[a + |left|..a + |left| + |right|];
    }
  }

  lemma StandsOne(values: seq<string>, a: nat, v: string)
    ensures StandsAt(values, a, [v]) <==> a < |values| && values[a] == v
  {
    if a < |values| {
      assert values[a..a + 1] == [values[a]];
    }
  }

  lemma {:induction false} ForestWindow(values: seq<string>, a: nat, f: Forest) returns (w: Matching)
    requires f.WellFormed() && StandsAt(values, a, f.Tokens())
    ensures ProperOn(values, a, a + |f.Tokens()|, w)
    decreases f
  {
    hide Opens, Closes, OpenerOf, CloserOf, ProperOn, StandsAt;
    assert a + |f.Tokens()| <= |values| by { StandsFits(values, a, f.Tokens()); }
    match f
    case Empty =>
      PlainWindow(values, a, a);
      w := map[];
    case Token(v, rest) =>
      StandsSplit(values, a, [v], rest.Tokens());
      StandsOne(values, a, v);
      Delimiters(v);
      PlainWindow(values, a, a + 1);
      var right := ForestWindow(values, a + 1, rest);
      JoinWindows(values, a, a + 1, a + |f.Tokens()|, map[], right);
      w := map[] + right;
    case Group(open, inside, rest) =>
      var i, n := inside.Tokens(), |inside.Tokens()|;
      StandsSplit(values, a, [open] + i + [CloserOf(open)], rest.Tokens());
      StandsSplit(values, a, [open] + i, [CloserOf(open)]);
      StandsSplit(values, a, [open], i);
      StandsOne(values, a, open);
      StandsOne(values, a + 1 + n, CloserOf(open));
      Delimiters(open);
      CloserCloses(open);
      var m := ForestWindow(values, a + 1, inside);
      var right := ForestWindow(values, a + n + 2, rest);
      WrapWindow(values, a, a + 1 + n, m);
      JoinWindows(values, a, a + n + 2, a + |f.Tokens()|, m[a := a + 1 + n], right);
      w := m[a := a + 1 + n] + right;
  }

  lemma NothingEnds(m: Matching, c: int)
    requires forall k :: k in m ==> m[k] != c
    ensures !Ends(m, c)
  {
  }

  /** The first token of a properly nested window closes nothing. */
  lemma FirstDoesNotClose(values: seq<string>, a: nat, b: nat, m: Matching)
    requires a < b <= |values| && ProperOn(values, a, b, m)
    ensures !Closes(values[a])
  {
    hide Opens, Closes, OpenerOf, Ends;
    NothingEnds(m, a);
  }

  lemma TailWindow(values: seq<string>, a: nat, b: nat, m: Matching)
    requires a < b <= |values| && ProperOn(values, a, b, m) && !Opens(values[a])
    ensures ProperOn(values, a + 1, b, Restrict(m, a + 1, b))
  {
    hide Opens, Closes, OpenerOf, Ends;
    SubWindow(values, a, b, m, a + 1, b);
  }

  /** No pair crosses the ends of a group. */
  lemma GroupIsolated(values: seq<string>, a: nat, b: nat, m: Matching)
    requires a < b <= |values| && ProperOn(values, a, b, m) && Opens(values[a])
    ensures a in m && a < m[a] < b && Closes(values[m[a]]) && OpenerOf(values[m[a]]) == values[a]
    ensures forall k :: k in m ==> m[k] < b
    ensures forall k :: k in m && a + 1 <= k < m[a] ==> m[k] < m[a]
    ensures forall k :: k in m && a + 1 <= m[k] < m[a] ==> a + 1 <= k
    ensures forall k :: k in m && m[a] + 1 <= m[k] < b ==> m[a] + 1 <= k
  {
    hide Opens, Closes, OpenerOf, Ends;
    assert a in m;
    Exclusive(values[m[a]]);
    forall k | k in m && m[a] + 1 <= m[k] < b ensures m[a] + 1 <= k {
      assert k != a && k != m[a];
    }
  }

  lemma InsideWindow(values: seq<string>, a: nat, b: nat, m: Matching, c: nat)
    requires a < b <= |values| && ProperOn(values, a, b, m) && Opens(values[a]) && a in m && m[a] == c && a < c < b
    ensures ProperOn(values, a + 1, c, Restrict(m, a + 1, c))
  {
    hide Opens, Closes, OpenerOf, Ends, ProperOn, Restrict;
    GroupIsolated(values, a, b, m);
    SubWindow(values, a, b, m, a + 1, c);
  }

  lemma AfterWindow(values: seq<string>, a: nat, b: nat, m: Matching, c: nat)
    requires a < b <= |values| && ProperOn(values, a, b, m) && Opens(values[a]) && a in m && m[a] == c && a < c < b
    ensures ProperOn(values, c + 1, b, Restrict(m, c + 1, b))
  {
    hide Opens, Closes, OpenerOf, Ends, ProperOn, Restrict;
    GroupIsolated(values, a, b, m);
    SubWindow(values, a, b, m, c + 1, b);
  }

  lemma GroupSlices(values: seq<string>, a: nat, c: nat, b: nat)
    requires a < c < b <= |values|
    ensures values[a..b] == [values[a]] + values[a + 1..c] + [values[c]] + values[c + 1..b]
  {
    assert values[a..c] == [values[a]] + values[a + 1..c];
    assert values[c..b] == [values[c]] + values[c + 1..b];
    assert values[a..b] == values[a..c] + values[c..b];
  }

  /** A properly nested window is generated by the grammar. */
  lemma {:induction false} WindowForest(values: seq<string>, a: nat, b: nat, m: Matching) returns (f: Forest)
    requires a <= b <= |values| && ProperOn(values, a, b, m)
    ensures f.WellFormed() && f.Tokens() == values[a..b]
    decreases b - a
  {
    hide Opens, Closes, OpenerOf, CloserOf, ProperOn;
    if a == b {
      return Empty;
    }
    FirstDoesNotClose(values, a, b, m);
    Delimiters(values[a]);
    if Opens(values[a]) {
      GroupIsolated(values, a, b, m);
      var c := m[a];
      InsideWindow(values, a, b, m, c);
      AfterWindow(values, a, b, m, c);
      OpenerOpens(values[c]);
      var inside := WindowForest(values, a + 1, c, Restrict(m, a + 1, c));
      var rest := WindowForest(values, c + 1, b, Restrict(m, c + 1, b));
      f := Group(values[a], inside, rest);
      GroupSlices(values, a, c, b);
    } else {
      TailWindow(values, a, b, m);
      var rest := WindowForest(values, a + 1, b, Restrict(m, a + 1, b));
      f := Token(values[a], rest);
      assert values[a..b] == [values[a]] + values[a + 1..b];
    }
  }

  /** Proper matchings exist exactly for the sequences of the grammar. */
  lemma ProperIffGenerated(values: seq<string>)
    ensures (exists m :: Proper(values, m)) <==> exists f: Forest :: f.WellFormed() && f.Tokens() == values
  {
    hide ProperOn;
    if m :| Proper(values, m) {
      var f := WindowForest(values, 0, |values|, m);
      assert f.Tokens() == values;
    }
    if f: Forest :| f.WellFormed() && f.Tokens() == values {
      assert values[0..|values|] == values;
      var m := ForestWindow(values, 0, f);
      assert Proper(values, m);
    }
  }
}
