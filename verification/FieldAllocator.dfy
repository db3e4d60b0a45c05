/** `FieldAllocator`: column identities of a plan. The class updates its fields as the
    source does; every method is specified by a step of the value-level machine below,
    and the properties are proved of that machine over whole runs. */
module FieldIdentity {
  import opened Integers
  import opened Wrappers

  const ID_LIMIT := 0x1_0000_0000

  type FieldId = x: int | 0 <= x < ID_LIMIT

  const MAX_ID: FieldId := 0xFFFF_FFFF

  type Pair = (string, string)

  datatype AllocError = IdsExhausted | AmbiguousRename

  // ----- simultaneous rename

  function Sources(pairs: seq<Pair>): (s: set<string>)
    ensures forall n :: n in s <==> exists i :: 0 <= i < |pairs| && pairs[i].0 == n
  {
    set i | 0 <= i < |pairs| :: pairs[i].0
  }

  function Targets(pairs: seq<Pair>): (t: set<string>)
    ensures forall n :: n in t <==> exists i :: 0 <= i < |pairs| && pairs[i].1 == n
  {
    set i | 0 <= i < |pairs| :: pairs[i].1
  }

  predicate Unambiguous(pairs: seq<Pair>) {
    forall i, j :: 0 <= i < j < |pairs| ==> pairs[i].0 != pairs[j].0 && pairs[i].1 != pairs[j].1
  }

  /** The bound name whose identity `n` receives from some pair. */
  function Incoming(m: map<string, FieldId>, pairs: seq<Pair>, n: string): (r: Option<string>)
    ensures r.Some? <==> exists i :: 0 <= i < |pairs| && pairs[i].1 == n && pairs[i].0 in m
    ensures r.Some? ==> r.value in m && exists i :: 0 <= i < |pairs| && pairs[i] == (r.value, n)
  {
    if pairs == [] then None
    else if pairs[|pairs| - 1].1 == n && pairs[|pairs| - 1].0 in m then Some(pairs[|pairs| - 1].0)
    else Incoming(m, pairs[..|pairs| - 1], n)
  }

  /** The name whose identity is bound to `n` after the rename. */
  function OriginName(m: map<string, FieldId>, pairs: seq<Pair>, n: string): (r: Option<string>)
    ensures r.Some? ==> r.value in m
  {
    if Incoming(m, pairs, n).Some? then Incoming(m, pairs, n)
    else if n in m && n !in Sources(pairs) then Some(n)
    else None
  }

  /** The simultaneous substitution read from the original map. */
  function Substituted(m: map<string, FieldId>, pairs: seq<Pair>): (r: map<string, FieldId>)
    ensures forall n :: n in r <==> OriginName(m, pairs, n).Some?
    ensures forall n :: n in r ==> r[n] == m[OriginName(m, pairs, n).value]
  {
    map n | n in m.Keys + Targets(pairs) && OriginName(m, pairs, n).Some? :: m[OriginName(m, pairs, n).value]
  }

  function Renamed(m: map<string, FieldId>, old_: string, new_: string): map<string, FieldId> {
    if old_ in m then (m - {old_})[new_ := m[old_]] else m
  }

  lemma IncomingIs(m: map<string, FieldId>, pairs: seq<Pair>, i: nat)
    requires Unambiguous(pairs) && i < |pairs|
    ensures Incoming(m, pairs, pairs[i].1) == if pairs[i].0 in m then Some(pairs[i].0) else None
  {
    var r := Incoming(m, pairs, pairs[i].1);
    if r.Some? {
      var j :| 0 <= j < |pairs| && pairs[j] == (r.value, pairs[i].1);
      assert j == i;
    }
  }

  /** Every bound source moves with its original identity, whatever chain or cycle it is in. */
  lemma MovesSimultaneously(m: map<string, FieldId>, pairs: seq<Pair>, i: nat)
    requires Unambiguous(pairs) && i < |pairs| && pairs[i].0 in m
    ensures pairs[i].1 in Substituted(m, pairs) && Substituted(m, pairs)[pairs[i].1] == m[pairs[i].0]
  {
    IncomingIs(m, pairs, i);
  }

  /** Names that are neither a bound source nor the target of one keep their binding. */
  lemma OthersKept(m: map<string, FieldId>, pairs: seq<Pair>, n: string)
    requires n !in Sources(pairs) && forall i :: 0 <= i < |pairs| && pairs[i].0 in m ==> pairs[i].1 != n
    ensures n in Substituted(m, pairs) <==> n in m
    ensures n in m ==> Substituted(m, pairs)[n] == m[n]
  {
  }

  /** The order of the pairs is irrelevant. */
  lemma OrderIrrelevant(m: map<string, FieldId>, pairs: seq<Pair>, other: seq<Pair>)
    requires Unambiguous(pairs) && Unambiguous(other) && forall p :: p in pairs <==> p in other
    ensures Substituted(m, pairs) == Substituted(m, other)
  {
    forall n ensures OriginName(m, pairs, n) == OriginName(m, other, n) {
      SameIncoming(m, pairs, other, n);
      SameIncoming(m, other, pairs, n);
      SourcesWithin(pairs, other);
      SourcesWithin(other, pairs);
    }
  }

  lemma SourcesWithin(pairs: seq<Pair>, other: seq<Pair>)
    requires forall p :: p in pairs ==> p in other
    ensures Sources(pairs) <= Sources(other)
  {
    forall n | n in Sources(pairs) ensures n in Sources(other) {
      var i :| 0 <= i < |pairs| && pairs[i].0 == n;
      assert pairs[i] in other;
    }
  }

  lemma SameIncoming(m: map<string, FieldId>, pairs: seq<Pair>, other: seq<Pair>, n: string)
    requires Unambiguous(other) && forall p :: p in pairs ==> p in other
    ensures Incoming(m, pairs, n).Some? ==> Incoming(m, other, n) == Incoming(m, pairs, n)
  {
    var r := Incoming(m, pairs, n);
    if r.Some? {
      var i :| 0 <= i < |pairs| && pairs[i] == (r.value, n);
      assert pairs[i] in other;
      var j :| 0 <= j < |other| && other[j] == pairs[i];
      IncomingIs(m, other, j);
    }
  }

  /** A pair with an absent source changes nothing. */
  lemma AbsentSource(m: map<string, FieldId>, pairs: seq<Pair>, absent: Pair)
    requires absent.0 !in m
    ensures Substituted(m, pairs + [absent]) == Substituted(m, pairs)
  {
    var all := pairs + [absent];
    assert all[..|all| - 1] == pairs;
    forall n ensures OriginName(m, all, n) == OriginName(m, pairs, n) {
      assert Incoming(m, all, n) == Incoming(m, pairs, n);
      if n in m {
        assert n in Sources(all) <==> n in Sources(pairs) by {
          assert forall i :: 0 <= i < |pairs| ==> all[i] == pairs[i];
        }
      }
    }
  }

  /** A source that no bound source moves to loses its name: identities are moved, not copied. */
  lemma SourceLeft(m: map<string, FieldId>, pairs: seq<Pair>, n: string)
    requires n in Sources(pairs) && forall i :: 0 <= i < |pairs| && pairs[i].0 in m ==> pairs[i].1 != n
    ensures n !in Substituted(m, pairs)
  {
    assert OriginName(m, pairs, n).None?;
  }

  ghost predicate Injective(m: map<string, FieldId>) {
    forall a, b :: a in m && b in m && m[a] == m[b] ==> a == b
  }

  /** No binding is copied: a name is the origin of at most one name. */
  lemma OriginUnique(m: map<string, FieldId>, pairs: seq<Pair>, a: string, b: string)
    requires Unambiguous(pairs) && OriginName(m, pairs, a).Some? && OriginName(m, pairs, a) == OriginName(m, pairs, b)
    ensures a == b
  {
    var x := OriginName(m, pairs, a).value;
    if x in Sources(pairs) {
      var i :| 0 <= i < |pairs| && pairs[i] == (x, a);
      var j :| 0 <= j < |pairs| && pairs[j] == (x, b);
      assert i == j;
    }
  }

  /** One identity per name before, one identity per name after. */
  lemma InjectivityKept(m: map<string, FieldId>, pairs: seq<Pair>)
    requires Unambiguous(pairs) && Injective(m)
    ensures Injective(Substituted(m, pairs))
  {
    var r := Substituted(m, pairs);
    forall a, b | a in r && b in r && r[a] == r[b] ensures a == b {
      OriginUnique(m, pairs, a, b);
    }
  }

  /** One pair is `rename`. */
  lemma SinglePair(m: map<string, FieldId>, old_: string, new_: string)
    ensures Substituted(m, [(old_, new_)]) == Renamed(m, old_, new_)
  {
    var pairs := [(old_, new_)];
    var r := Renamed(m, old_, new_);
    assert pairs[0] == (old_, new_);
    forall n ensures n in Substituted(m, pairs) <==> n in r
             ensures n in r ==> Substituted(m, pairs)[n] == r[n] {
      if n == new_ { IncomingIs(m, pairs, 0); }
    }
  }

  function Swapped(pairs: seq<Pair>): (r: seq<Pair>)
    ensures |r| == |pairs| && forall i :: 0 <= i < |r| ==> r[i] == (pairs[i].1, pairs[i].0)
  {
    seq(|pairs|, i requires 0 <= i < |pairs| => (pairs[i].1, pairs[i].0))
  }

  /** The targets that are bound are all sources as well: nothing is overwritten. */
  ghost predicate NothingOverwritten(m: map<string, FieldId>, pairs: seq<Pair>) {
    forall i :: 0 <= i < |pairs| && pairs[i].1 in m ==> pairs[i].1 in Sources(pairs)
  }

  /** After the rename a target is bound exactly when its own source was, if nothing is overwritten. */
  lemma TargetBound(m: map<string, FieldId>, pairs: seq<Pair>, i: nat)
    requires Unambiguous(pairs) && i < |pairs| && NothingOverwritten(m, pairs)
    ensures pairs[i].1 in Substituted(m, pairs) <==> pairs[i].0 in m
  {
    IncomingIs(m, pairs, i);
  }

  predicate AgreeAt(a: map<string, FieldId>, b: map<string, FieldId>, n: string) {
    (n in a <==> n in b) && (n in a && n in b ==> a[n] == b[n])
  }

  lemma AgreeEverywhere(a: map<string, FieldId>, b: map<string, FieldId>)
    requires forall n :: AgreeAt(a, b, n)
    ensures a == b
  {
    forall n ensures n in a <==> n in b { assert AgreeAt(a, b, n); }
    forall n | n in a ensures n in b && a[n] == b[n] { assert AgreeAt(a, b, n); }
  }

  /** A source gets back the binding it had, or none if it had none. */
  lemma SourceRestored(m: map<string, FieldId>, pairs: seq<Pair>, i: nat)
    requires Unambiguous(pairs) && NothingOverwritten(m, pairs) && i < |pairs|
    ensures AgreeAt(Substituted(Substituted(m, pairs), Swapped(pairs)), m, pairs[i].0)
  {
    var n := pairs[i].0;
    var r := Substituted(m, pairs);
    var back := Swapped(pairs);
    TargetBound(m, pairs, i);
    IncomingIs(m, pairs, i);
    assert back[i] == (pairs[i].1, n);
    IncomingIs(r, back, i);
    if n !in m && n in r {
      var j :| 0 <= j < |pairs| && pairs[j].1 == n && pairs[j].0 in m;
      assert back[j].0 == n;
      assert n in Sources(back);
    }
  }

  lemma OtherRestored(m: map<string, FieldId>, pairs: seq<Pair>, n: string)
    requires Unambiguous(pairs) && NothingOverwritten(m, pairs) && n !in Sources(pairs)
    ensures AgreeAt(Substituted(Substituted(m, pairs), Swapped(pairs)), m, n)
  {
    var r := Substituted(m, pairs);
    var back := Swapped(pairs);
    assert forall i :: 0 <= i < |back| ==> back[i].1 != n;
    assert Incoming(r, back, n).None?;
    if n in m {
      assert n !in Targets(pairs);
      assert n !in Sources(back);
    } else if n in r {
      var j :| 0 <= j < |pairs| && pairs[j].1 == n && pairs[j].0 in m;
      assert back[j].0 == n;
      assert n in Sources(back);
    }
  }

  /** A bound target that is no source loses its binding for good. */
  lemma OverwrittenLost(m: map<string, FieldId>, pairs: seq<Pair>, i: nat)
    requires Unambiguous(pairs) && i < |pairs| && pairs[i].1 !in Sources(pairs)
    ensures pairs[i].1 !in Substituted(Substituted(m, pairs), Swapped(pairs))
  {
    var n := pairs[i].1;
    var r := Substituted(m, pairs);
    var back := Swapped(pairs);
    assert back[i].0 == n;
    assert n in Sources(back);
    assert forall j :: 0 <= j < |back| ==> back[j].1 != n;
    assert OriginName(r, back, n).None?;
  }

  lemma NameRestored(m: map<string, FieldId>, pairs: seq<Pair>, n: string)
    requires Unambiguous(pairs) && NothingOverwritten(m, pairs)
    ensures AgreeAt(Substituted(Substituted(m, pairs), Swapped(pairs)), m, n)
  {
    if n in Sources(pairs) {
      var i :| 0 <= i < |pairs| && pairs[i].0 == n;
      SourceRestored(m, pairs, i);
    } else {
      OtherRestored(m, pairs, n);
    }
  }

  lemma BackRestores(m: map<string, FieldId>, pairs: seq<Pair>)
    requires Unambiguous(pairs) && NothingOverwritten(m, pairs)
    ensures Substituted(Substituted(m, pairs), Swapped(pairs)) == m
  {
    forall n ensures AgreeAt(Substituted(Substituted(m, pairs), Swapped(pairs)), m, n) {
      NameRestored(m, pairs, n);
    }
    AgreeEverywhere(Substituted(Substituted(m, pairs), Swapped(pairs)), m);
  }

  /** Renaming back restores the map exactly when nothing was overwritten. */
  lemma RenameBackExactly(m: map<string, FieldId>, pairs: seq<Pair>)
    requires Unambiguous(pairs)
    ensures Substituted(Substituted(m, pairs), Swapped(pairs)) == m <==> NothingOverwritten(m, pairs)
  {
    if NothingOverwritten(m, pairs) {
      BackRestores(m, pairs);
    } else {
      var i :| 0 <= i < |pairs| && pairs[i].1 in m && pairs[i].1 !in Sources(pairs);
      OverwrittenLost(m, pairs, i);
    }
  }

  /** Renaming `a` over a bound `b` and back loses what `b` was bound to. */
  lemma RenameBackFails()
    ensures var m: map<string, FieldId> := map["a" := 1, "b" := 2];
            && Unambiguous([("a", "b")]) && Injective(m)
            && Substituted(Substituted(m, [("a", "b")]), Swapped([("a", "b")])) != m
  {
    hide Substituted, Swapped;
    var m: map<string, FieldId> := map["a" := 1, "b" := 2];
    var pairs := [("a", "b")];
    assert pairs[0].1 == "b" && "b" != "a";
    assert !NothingOverwritten(m, pairs);
    RenameBackExactly(m, pairs);
  }

  // ----- the machine

  /** The cursor and the name bindings. */
  datatype State = State(next: int, byName: map<string, FieldId>)

  datatype Op =
    | Alloc
    | Observe(id: FieldId)
    | Intern(name: string)
    | BindFields(fields: map<string, FieldId>)
    | Rename(old_: string, new_: string)
    | RenameMany(pairs: seq<Pair>)
    | Derive(name: string)

  /** What a call returns: nothing, an identity, or an error. */
  datatype Answer = Done | Id(id: FieldId) | Failed(error: AllocError)

  /** The cursor after observing the identities of `ids`. */
  function Past(next: int, ids: set<FieldId>): (r: int)
    ensures r >= next && forall id :: id in ids ==> id < r
    ensures r == next || (r - 1 >= 0 && r <= ID_LIMIT && (r - 1) as FieldId in ids)
  {
    if ids == {} then next else
      var top := Top(ids);
      Max(next, top + 1)
  }

  function Top(ids: set<FieldId>): (t: FieldId)
    requires ids != {}
    ensures t in ids && forall id :: id in ids ==> id <= t
  {
    TopExists(ids);
    var t :| t in ids && AtLeastAll(t, ids);
    t
  }

  predicate AtLeastAll(t: FieldId, ids: set<FieldId>) {
    forall id :: id in ids ==> id <= t
  }

  lemma {:induction false} TopExists(ids: set<FieldId>)
    requires ids != {}
    ensures exists t :: t in ids && AtLeastAll(t, ids)
    decreases |ids|
  {
    var x :| x in ids;
    var rest := ids - {x};
    if rest == {} {
      assert ids == {x} + rest;
      assert AtLeastAll(x, ids);
    } else {
      TopExists(rest);
      var t :| t in rest && AtLeastAll(t, rest);
      assert forall id :: id in ids ==> id == x || id in rest;
      assert AtLeastAll(if t < x then x else t, ids);
    }
  }

  function Step(s: State, op: Op): (State, Answer) {
    match op
    case Alloc =>
      if 0 <= s.next < ID_LIMIT then (s.(next := s.next + 1), Id(s.next)) else (s, Failed(IdsExhausted))
    case Observe(id) => (s.(next := Max(s.next, id + 1)), Done)
    case Intern(name) =>
      if name in s.byName then (s, Id(s.byName[name]))
      else if 0 <= s.next < ID_LIMIT then (State(s.next + 1, s.byName[name := s.next]), Id(s.next))
      else (s, Failed(IdsExhausted))
    case BindFields(fields) => (State(Past(s.next, fields.Values), fields), Done)
    case Rename(o, n) => (s.(byName := Renamed(s.byName, o, n)), Done)
    case RenameMany(pairs) =>
      if Unambiguous(pairs) then (s.(byName := Substituted(s.byName, pairs)), Done) else (s, Failed(AmbiguousRename))
    case Derive(name) =>
      if 0 <= s.next < ID_LIMIT then (State(s.next + 1, s.byName[name := s.next]), Id(s.next))
      else (s, Failed(IdsExhausted))
  }

  /** Whether the call asks for an identity never used before. */
  predicate AsksFresh(s: State, op: Op) {
    op.Alloc? || op.Derive? || (op.Intern? && op.name !in s.byName)
  }

  /** The identities a call brings into use: handed out, observed or bound. */
  function Used(s: State, op: Op): set<FieldId> {
    match op
    case Observe(id) => {id}
    case BindFields(fields) => fields.Values
    case _ => match Step(s, op).1 case Id(id) => {id} case _ => {}
  }

  /** A run from a new allocator: the state reached and every identity used on the way. */
  datatype Config = Config(state: State, used: set<FieldId>)

  function Run(start: FieldId, ops: seq<Op>): Config {
    if ops == [] then Config(State(start, map[]), {})
    else
      var c := Run(start, ops[..|ops| - 1]);
      var op := ops[|ops| - 1];
      Config(Step(c.state, op).0, c.used + Used(c.state, op))
  }

  /** Used identities lie below the cursor, which is the start or just past one of them. */
  ghost predicate Inv(start: FieldId, c: Config) {
    && start <= c.state.next <= ID_LIMIT
    && (forall id :: id in c.used ==> id < c.state.next)
    && c.state.byName.Values <= c.used
    && (c.state.next == start || c.state.next - 1 in c.used)
  }

  lemma {:induction false} StepKeepsInv(start: FieldId, c: Config, op: Op)
    requires Inv(start, c)
    ensures Inv(start, Config(Step(c.state, op).0, c.used + Used(c.state, op)))
  {
    var s := Step(c.state, op).0;
    match op
    case Intern(name) =>
      if name in c.state.byName { assert c.state.byName[name] in c.state.byName.Values; }
      if name in s.byName { BindingValues(c.state.byName, name, s.byName); }
    case Derive(name) =>
      if c.state.next < ID_LIMIT { BindingValues(c.state.byName, name, s.byName); }
    case Rename(o, n) =>
      forall v | v in s.byName.Values ensures v in c.state.byName.Values {
        var k :| k in s.byName && s.byName[k] == v;
        if o in c.state.byName && k == n { assert c.state.byName[o] == v; }
      }
    case RenameMany(pairs) =>
      forall v | v in s.byName.Values ensures v in c.state.byName.Values {
        var k :| k in s.byName && s.byName[k] == v;
        if Unambiguous(pairs) { assert c.state.byName[OriginName(c.state.byName, pairs, k).value] == v; }
      }
    case _ =>
  }

  lemma BindingValues(m: map<string, FieldId>, name: string, r: map<string, FieldId>)
    requires name in r && (r == m || r == m[name := r[name]])
    ensures r.Values <= m.Values + {r[name]}
  {
    forall v | v in r.Values ensures v in m.Values + {r[name]} {
      var k :| k in r && r[k] == v;
      if k != name { assert m[k] == v; }
    }
  }

  lemma {:induction false} RunInv(start: FieldId, ops: seq<Op>)
    ensures Inv(start, Run(start, ops))
  {
    if ops != [] {
      RunInv(start, ops[..|ops| - 1]);
      StepKeepsInv(start, Run(start, ops[..|ops| - 1]), ops[|ops| - 1]);
    }
  }

  /** In every run a fresh identity was never handed out, observed or bound before, and
      asking for one fails exactly when the largest identity has been used. */
  lemma {:induction false} FreshnessOverRuns(start: FieldId, ops: seq<Op>, op: Op)
    requires AsksFresh(Run(start, ops).state, op)
    ensures var c := Run(start, ops);
            match Step(c.state, op).1
            case Id(id) => id !in c.used && id >= start && MAX_ID !in c.used
            case Failed(e) => e == IdsExhausted && MAX_ID in c.used
            case Done => false
  {
    RunInv(start, ops);
    var c := Run(start, ops);
    if c.state.next == ID_LIMIT {
      assert c.state.next - 1 == MAX_ID;
    }
  }

  /** Two fresh identities of one run are different. */
  lemma {:induction false} FreshTwice(start: FieldId, ops: seq<Op>, i: nat, j: nat)
    requires i < j < |ops|
    requires AsksFresh(Run(start, ops[..i]).state, ops[i]) && AsksFresh(Run(start, ops[..j]).state, ops[j])
    requires Step(Run(start, ops[..i]).state, ops[i]).1.Id? && Step(Run(start, ops[..j]).state, ops[j]).1.Id?
    ensures Step(Run(start, ops[..i]).state, ops[i]).1 != Step(Run(start, ops[..j]).state, ops[j]).1
  {
    FreshnessOverRuns(start, ops[..j], ops[j]);
    assert ops[..i + 1][..i] == ops[..i] && ops[..i + 1][i] == ops[i];
    UsedGrows(start, ops[..j], i + 1);
    assert ops[..j][..i + 1] == ops[..i + 1];
  }

  lemma {:induction false} UsedGrows(start: FieldId, ops: seq<Op>, k: nat)
    requires k <= |ops|
    ensures Run(start, ops[..k]).used <= Run(start, ops).used
    decreases |ops|
  {
    if k < |ops| {
      var init := ops[..|ops| - 1];
      UsedGrows(start, init, k);
      assert init[..k] == ops[..k];
    } else {
      assert ops[..k] == ops;
    }
  }

  /** The call does not rename, derive or bind the name to anything but `id`. */
  predicate Leaves(op: Op, name: string, id: FieldId) {
    match op
    case Rename(o, n) => o != name && n != name
    case RenameMany(pairs) => name !in Sources(pairs) && name !in Targets(pairs)
    case Derive(n) => n != name
    case BindFields(fields) => name in fields && fields[name] == id
    case _ => true
  }

  predicate BoundTo(s: State, name: string, id: FieldId) {
    name in s.byName && s.byName[name] == id
  }

  lemma StepLeavesBound(s: State, op: Op, name: string, id: FieldId)
    requires BoundTo(s, name, id) && Leaves(op, name, id)
    ensures BoundTo(Step(s, op).0, name, id)
  {
    if op.RenameMany? && Unambiguous(op.pairs) {
      OthersKept(s.byName, op.pairs, name);
    }
  }

  lemma {:induction false} StaysBound(start: FieldId, ops: seq<Op>, i: nat, name: string, id: FieldId)
    requires i <= |ops| && BoundTo(Run(start, ops[..i]).state, name, id)
    requires forall k :: i <= k < |ops| ==> Leaves(ops[k], name, id)
    ensures BoundTo(Run(start, ops).state, name, id)
    decreases |ops|
  {
    if i == |ops| {
      assert ops[..i] == ops;
    } else {
      var init := ops[..|ops| - 1];
      assert init[..i] == ops[..i];
      StaysBound(start, init, i, name, id);
      StepLeavesBound(Run(start, init).state, ops[|ops| - 1], name, id);
    }
  }

  /** At position k of the run, interning the name answers `id` and changes nothing. */
  ghost predicate Remembered(start: FieldId, ops: seq<Op>, k: nat, name: string, id: FieldId)
    requires k <= |ops|
  {
    Step(Run(start, ops[..k]).state, Intern(name)) == (Run(start, ops[..k]).state, Id(id))
  }

  /** At position k of the run, interning the name answers an identity never used in the run, or
      fails because the largest one has been used. */
  ghost predicate Forgotten(start: FieldId, ops: seq<Op>, k: nat, name: string)
    requires k <= |ops|
  {
    var c := Run(start, ops[..k]);
    match Step(c.state, Intern(name)).1
    case Id(id) => id !in c.used
    case Failed(e) => e == IdsExhausted && MAX_ID in c.used
    case Done => false
  }

  lemma {:induction false} BoundIsRemembered(start: FieldId, ops: seq<Op>, i: nat, j: nat, name: string, id: FieldId)
    requires i < j <= |ops| && BoundTo(Step(Run(start, ops[..i]).state, ops[i]).0, name, id)
    requires forall k :: i < k < j ==> Leaves(ops[k], name, id)
    ensures Remembered(start, ops, j, name, id)
  {
    assert ops[..i + 1][..i] == ops[..i] && ops[..i + 1][i] == ops[i];
    assert BoundTo(Run(start, ops[..i + 1]).state, name, id);
    assert ops[..j][..i + 1] == ops[..i + 1];
    StaysBound(start, ops[..j], i + 1, name, id);
  }

  /** After a name has been interned, interning it again answers the same identity, whatever
      happens to the other names in between. */
  lemma {:induction false} InternIsStable(start: FieldId, ops: seq<Op>, i: nat, j: nat, name: string, id: FieldId)
    requires i < j <= |ops| && ops[i] == Intern(name)
    requires Step(Run(start, ops[..i]).state, ops[i]).1 == Id(id)
    requires forall k :: i < k < j ==> Leaves(ops[k], name, id)
    ensures Remembered(start, ops, j, name, id)
  {
    BoundIsRemembered(start, ops, i, j, name, id);
  }

  /** After a name has been derived, interning it answers the derived identity. */
  lemma {:induction false} DeriveIsRemembered(start: FieldId, ops: seq<Op>, i: nat, j: nat, name: string, id: FieldId)
    requires i < j <= |ops| && ops[i] == Derive(name)
    requires Step(Run(start, ops[..i]).state, ops[i]).1 == Id(id)
    requires forall k :: i < k < j ==> Leaves(ops[k], name, id)
    ensures Remembered(start, ops, j, name, id)
  {
    BoundIsRemembered(start, ops, i, j, name, id);
  }

  /** The call gives the name no binding. */
  predicate LeavesUnbound(op: Op, name: string) {
    match op
    case Intern(n) => n != name
    case Derive(n) => n != name
    case Rename(_, n) => n != name
    case RenameMany(pairs) => name !in Targets(pairs)
    case BindFields(fields) => name !in fields
    case _ => true
  }

  lemma {:induction false} StaysUnbound(start: FieldId, ops: seq<Op>, i: nat, name: string)
    requires i <= |ops| && name !in Run(start, ops[..i]).state.byName
    requires forall k :: i <= k < |ops| ==> LeavesUnbound(ops[k], name)
    ensures name !in Run(start, ops).state.byName
    decreases |ops|
  {
    if i == |ops| {
      assert ops[..i] == ops;
    } else {
      var init := ops[..|ops| - 1];
      assert init[..i] == ops[..i];
      StaysUnbound(start, init, i, name);
    }
  }

  lemma {:induction false} UnboundIsForgotten(start: FieldId, ops: seq<Op>, i: nat, j: nat, name: string)
    requires i < j <= |ops| && name !in Step(Run(start, ops[..i]).state, ops[i]).0.byName
    requires forall k :: i < k < j ==> LeavesUnbound(ops[k], name)
    ensures Forgotten(start, ops, j, name)
  {
    assert ops[..i + 1][..i] == ops[..i] && ops[..i + 1][i] == ops[i];
    assert ops[..j][..i + 1] == ops[..i + 1];
    StaysUnbound(start, ops[..j], i + 1, name);
    FreshnessOverRuns(start, ops[..j], Intern(name));
  }

  /** Binding fields drops every earlier binding: a field keeps the identity it was bound with, and
      any other name, however it was bound before, gets an identity never used. */
  lemma {:induction false} BindReplacesAll(start: FieldId, ops: seq<Op>, i: nat, j: nat,
                                           fields: map<string, FieldId>, name: string)
    requires i < j <= |ops| && ops[i] == BindFields(fields)
    ensures name in fields && (forall k :: i < k < j ==> Leaves(ops[k], name, fields[name])) ==>
              Remembered(start, ops, j, name, fields[name])
    ensures name !in fields && (forall k :: i < k < j ==> LeavesUnbound(ops[k], name)) ==>
              Forgotten(start, ops, j, name)
  {
    if name in fields {
      if forall k :: i < k < j ==> Leaves(ops[k], name, fields[name]) {
        BoundIsRemembered(start, ops, i, j, name, fields[name]);
      }
    } else if forall k :: i < k < j ==> LeavesUnbound(ops[k], name) {
      UnboundIsForgotten(start, ops, i, j, name);
    }
  }

  /** A rename moves the identity: the new name answers it and the old name forgets it. */
  lemma {:induction false} RenameMoves(start: FieldId, ops: seq<Op>, i: nat, j: nat, old_: string, new_: string,
                                       id: FieldId)
    requires i < j <= |ops| && ops[i] == Rename(old_, new_) && old_ != new_
    requires Remembered(start, ops, i, old_, id)
    requires forall k :: i < k < j ==> Leaves(ops[k], new_, id) && LeavesUnbound(ops[k], old_)
    ensures Remembered(start, ops, j, new_, id) && Forgotten(start, ops, j, old_)
  {
    BoundIsRemembered(start, ops, i, j, new_, id);
    UnboundIsForgotten(start, ops, i, j, old_);
  }

  /** So does renaming many names at once, through chains and cycles: every new name answers the
      identity its old name had, and an old name that is no new one forgets it. */
  lemma {:induction false} RenameManyMoves(start: FieldId, ops: seq<Op>, i: nat, j: nat, k: nat, id: FieldId)
    requires i < j <= |ops| && ops[i].RenameMany? && Unambiguous(ops[i].pairs) && k < |ops[i].pairs|
    requires Remembered(start, ops, i, ops[i].pairs[k].0, id)
    ensures (forall t :: i < t < j ==> Leaves(ops[t], ops[i].pairs[k].1, id)) ==>
              Remembered(start, ops, j, ops[i].pairs[k].1, id)
    ensures ops[i].pairs[k].0 !in Targets(ops[i].pairs)
            && (forall t :: i < t < j ==> LeavesUnbound(ops[t], ops[i].pairs[k].0)) ==>
              Forgotten(start, ops, j, ops[i].pairs[k].0)
  {
    var pairs, m := ops[i].pairs, Run(start, ops[..i]).state.byName;
    MovesSimultaneously(m, pairs, k);
    if forall t :: i < t < j ==> Leaves(ops[t], pairs[k].1, id) {
      BoundIsRemembered(start, ops, i, j, pairs[k].1, id);
    }
    if pairs[k].0 !in Targets(pairs) && forall t :: i < t < j ==> LeavesUnbound(ops[t], pairs[k].0) {
      SourceLeft(m, pairs, pairs[k].0);
      UnboundIsForgotten(start, ops, i, j, pairs[k].0);
    }
  }

  // ----- the class

  class FieldAllocator {
    var next: int
    var byName: map<string, FieldId>
    var publicRewrites: map<FieldId, Option<string>>

    ghost predicate Valid()
      reads this
    {
      0 <= next <= ID_LIMIT
    }

    ghost function Value(): State
      reads this
    {
      State(next, byName)
    }

    constructor (start: FieldId)
      ensures Valid() && Value() == State(start, map[]) && publicRewrites == map[]
    {
      next, byName, publicRewrites := start, map[], map[];
    }

    /** `public_identity`. */
    function PublicIdentity(field: FieldId): Option<Option<string>>
      reads this
    {
      if field in publicRewrites then Some(publicRewrites[field]) else None
    }

    /** `record_public_identity`: a later record replaces an earlier one, other columns keep theirs. */
    method RecordPublicIdentity(field: FieldId, original: Option<string>)
      modifies `publicRewrites
      ensures PublicIdentity(field) == Some(original)
      ensures forall f :: f != field ==> PublicIdentity(f) == old(PublicIdentity(f))
    {
      publicRewrites := publicRewrites[field := original];
    }

    /** `inherit_public_identity`: a copy keeps the public provenance of its source. */
    method InheritPublicIdentity(source: FieldId, output: FieldId)
      modifies `publicRewrites
      ensures source in old(publicRewrites) ==> PublicIdentity(output) == old(PublicIdentity(source))
      ensures source !in old(publicRewrites) ==> PublicIdentity(output) == old(PublicIdentity(output))
      ensures forall f :: f != output ==> PublicIdentity(f) == old(PublicIdentity(f))
    {
      if source in publicRewrites {
        publicRewrites := publicRewrites[output := publicRewrites[source]];
      }
    }

    method AllocId() returns (r: Result<FieldId, AllocError>)
      requires Valid()
      modifies `next
      ensures Valid() && (Value(), Answered(r)) == Step(old(Value()), Alloc)
      ensures r.Err? ==> Value() == old(Value())
    {
      if next >= ID_LIMIT {
        return Err(IdsExhausted);
      }
      r := Ok(next);
      next := next + 1;
    }

    /** `peek`: at exhaustion it repeats the last identity. */
    function Peek(): (id: FieldId)
      requires Valid()
      reads this
      ensures next < ID_LIMIT ==> Step(Value(), Alloc).1 == Id(id)
      ensures next == ID_LIMIT ==> id == MAX_ID
    {
      if next < ID_LIMIT then next else MAX_ID
    }

    method ObserveId(id: FieldId)
      requires Valid()
      modifies `next
      ensures Valid() && Value() == Step(old(Value()), Observe(id)).0
    {
      next := Max(next, id + 1);
    }

    method InternName(name: string) returns (r: Result<FieldId, AllocError>)
      requires Valid()
      modifies `next, `byName
      ensures Valid() && (Value(), Answered(r)) == Step(old(Value()), Intern(name))
      ensures r.Err? ==> Value() == old(Value())
    {
      if name in byName {
        return Ok(byName[name]);
      }
      r := AllocId();
      if r.Ok? {
        byName := byName[name := r.value];
      }
    }

    method DeriveName(name: string) returns (r: Result<FieldId, AllocError>)
      requires Valid()
      modifies `next, `byName
      ensures Valid() && (Value(), Answered(r)) == Step(old(Value()), Derive(name))
      ensures r.Err? ==> Value() == old(Value())
    {
      r := AllocId();
      if r.Ok? {
        byName := byName[name := r.value];
      }
    }

    /** `bind_fields`: earlier bindings are dropped, each given identity is observed. */
    method Bind(fields: map<string, FieldId>)
      requires Valid()
      modifies `next, `byName
      ensures Valid() && Value() == Step(old(Value()), BindFields(fields)).0
    {
      byName := map[];
      var todo := fields.Keys;
      ghost var seen: set<FieldId> := {};
      while todo != {}
        invariant Valid() && todo <= fields.Keys
        invariant byName == fields - todo
        invariant seen == byName.Values && next == Past(old(next), seen)
        decreases |todo|
      {
        var name :| name in todo;
        BindOne(fields, name, todo);
        PastInsert(old(next), seen, fields[name]);
        seen := seen + {fields[name]};
        todo := todo - {name};
      }
      assert byName == fields;
    }

    method BindOne(fields: map<string, FieldId>, name: string, ghost todo: set<string>)
      requires Valid() && name in todo && todo <= fields.Keys && byName == fields - todo
      modifies `next, `byName
      ensures Valid() && next == Max(old(next), fields[name] as int + 1)
      ensures byName == fields - (todo - {name}) && byName.Values == old(byName).Values + {fields[name]}
    {
      BoundStep(fields, todo, name);
      InsertedValue(byName, name, fields[name]);
      ObserveId(fields[name]);
      byName := byName[name := fields[name]];
    }

    method RenameOne(old_: string, new_: string)
      requires Valid()
      modifies `byName
      ensures Valid() && Value() == Step(old(Value()), Rename(old_, new_)).0
    {
      if old_ in byName {
        var id := byName[old_];
        byName := byName - {old_};
        byName := byName[new_ := id];
      }
    }

    /** `rename_many`: the checks, the identities read first, then removals and insertions. */
    method RenameAll(pairs: seq<Pair>) returns (r: Result<(), AllocError>)
      requires Valid()
      modifies `byName
      ensures Valid() && Value() == Step(old(Value()), RenameMany(pairs)).0
      ensures r == if Unambiguous(pairs) then Ok(()) else Err(AmbiguousRename)
      ensures r.Err? ==> Value() == old(Value())
    {
      var ok := CheckPairs(pairs);
      if !ok {
        return Err(AmbiguousRename);
      }
      ghost var m := byName;
      var original := OriginalIds(byName, pairs);
      RemoveMoved(pairs, original);
      InsertMoved(pairs, original, m);
      forall n ensures n in byName <==> OriginName(m, pairs, n).Some?
               ensures n in byName ==> byName[n] == m[OriginName(m, pairs, n).value] {
        TouchedMeans(m, pairs, n);
      }
      assert byName == Substituted(m, pairs);
      return Ok(());
    }

    /** The first loop: every pair with a bound source removes both its names. */
    method RemoveMoved(pairs: seq<Pair>, original: seq<Option<FieldId>>)
      requires original == OriginalIds(byName, pairs)
      modifies `byName
      ensures forall n :: n in byName <==> n in old(byName) && !Touched(old(byName), pairs, n)
      ensures forall n :: n in byName ==> byName[n] == old(byName)[n]
    {
      ghost var m := byName;
      for k := 0 to |pairs|
        invariant forall n :: n in byName <==> n in m && !Touched(m, pairs[..k], n)
        invariant forall n :: n in byName ==> byName[n] == m[n]
      {
        forall n ensures Touched(m, pairs[..k + 1], n) <==>
                   Touched(m, pairs[..k], n) || (pairs[k].0 in m && (pairs[k].0 == n || pairs[k].1 == n)) {
          TouchedStep(m, pairs, k, n);
        }
        if original[k].Some? {
          byName := byName - {pairs[k].0};
          byName := byName - {pairs[k].1};
        }
      }
      assert pairs[..|pairs|] == pairs;
    }

    /** The second loop: every identity read at the start is bound to its new name. */
    method InsertMoved(pairs: seq<Pair>, original: seq<Option<FieldId>>, ghost m: map<string, FieldId>)
      requires original == OriginalIds(m, pairs)
      modifies `byName
      ensures forall n :: n in byName <==> Incoming(m, pairs, n).Some? || n in old(byName)
      ensures forall n :: n in byName ==>
                byName[n] == if Incoming(m, pairs, n).Some? then m[Incoming(m, pairs, n).value] else old(byName)[n]
    {
      ghost var start := byName;
      for k := 0 to |pairs|
        invariant forall n :: n in byName <==> Incoming(m, pairs[..k], n).Some? || n in start
        invariant forall n :: n in byName ==>
          byName[n] == if Incoming(m, pairs[..k], n).Some? then m[Incoming(m, pairs[..k], n).value] else start[n]
      {
        forall n ensures Incoming(m, pairs[..k + 1], n) ==
                   if pairs[k].1 == n && pairs[k].0 in m then Some(pairs[k].0) else Incoming(m, pairs[..k], n) {
          IncomingStep(m, pairs, k, n);
        }
        if original[k].Some? {
          byName := byName[pairs[k].1 := original[k].value];
        }
      }
      assert pairs[..|pairs|] == pairs;
    }
  }

  /** `original`: the identity each source has before anything moves. */
  function OriginalIds(m: map<string, FieldId>, pairs: seq<Pair>): (r: seq<Option<FieldId>>)
    ensures |r| == |pairs|
    ensures forall i :: 0 <= i < |pairs| ==> r[i] == if pairs[i].0 in m then Some(m[pairs[i].0]) else None
  {
    seq(|pairs|, i requires 0 <= i < |pairs| => if pairs[i].0 in m then Some(m[pairs[i].0]) else None)
  }

  lemma IncomingStep(m: map<string, FieldId>, pairs: seq<Pair>, k: nat, n: string)
    requires k < |pairs|
    ensures Incoming(m, pairs[..k + 1], n)
         == if pairs[k].1 == n && pairs[k].0 in m then Some(pairs[k].0) else Incoming(m, pairs[..k], n)
  {
    assert pairs[..k + 1][..k] == pairs[..k];
  }

  function Answered(r: Result<FieldId, AllocError>): Answer {
    match r case Ok(id) => Id(id) case Err(e) => Failed(e)
  }

  method CheckPairs(pairs: seq<Pair>) returns (ok: bool)
    ensures ok <==> Unambiguous(pairs)
  {
    var sources: set<string>, targets: set<string> := {}, {};
    for k := 0 to |pairs|
      invariant Unambiguous(pairs[..k])
      invariant sources == Sources(pairs[..k]) && targets == Targets(pairs[..k])
    {
      if pairs[k].0 in sources || pairs[k].1 in targets {
        var i :| 0 <= i < k && (pairs[..k][i].0 == pairs[k].0 || pairs[..k][i].1 == pairs[k].1);
        assert pairs[i].0 == pairs[k].0 || pairs[i].1 == pairs[k].1;
        return false;
      }
      sources, targets := sources + {pairs[k].0}, targets + {pairs[k].1};
      ghost var next := pairs[..k + 1];
      assert next[..k] == pairs[..k] && next[k] == pairs[k];
      assert forall i :: 0 <= i < k ==> next[i] == pairs[..k][i];
    }
    assert pairs[..|pairs|] == pairs;
    return true;
  }

  /** A pair with a bound source removes `n`. */
  ghost predicate Touched(m: map<string, FieldId>, pairs: seq<Pair>, n: string) {
    exists i :: 0 <= i < |pairs| && pairs[i].0 in m && (pairs[i].0 == n || pairs[i].1 == n)
  }

  lemma TouchedStep(m: map<string, FieldId>, pairs: seq<Pair>, k: nat, n: string)
    requires k < |pairs|
    ensures Touched(m, pairs[..k + 1], n) <==>
            Touched(m, pairs[..k], n) || (pairs[k].0 in m && (pairs[k].0 == n || pairs[k].1 == n))
  {
    var a, b := pairs[..k], pairs[..k + 1];
    assert b[k] == pairs[k];
    if Touched(m, a, n) {
      var i :| 0 <= i < |a| && a[i].0 in m && (a[i].0 == n || a[i].1 == n);
      assert b[i] == a[i];
    }
    if i :| 0 <= i < |b| && b[i].0 in m && (b[i].0 == n || b[i].1 == n) {
      if i < k { assert a[i] == b[i]; }
    }
  }

  lemma TouchedMeans(m: map<string, FieldId>, pairs: seq<Pair>, n: string)
    ensures n in m && !Touched(m, pairs, n) <==> n in m && n !in Sources(pairs) && Incoming(m, pairs, n).None?
  {
  }

  lemma BoundStep(fields: map<string, FieldId>, todo: set<string>, name: string)
    requires name in todo && todo <= fields.Keys
    ensures fields - (todo - {name}) == (fields - todo)[name := fields[name]]
    ensures name !in fields - todo
  {
  }

  lemma InsertedValue(m: map<string, FieldId>, name: string, id: FieldId)
    requires name !in m
    ensures m[name := id].Values == m.Values + {id}
  {
    var r := m[name := id];
    forall v | v in m.Values + {id} ensures v in r.Values {
      if v == id {
        assert r[name] == id;
      } else {
        var k :| k in m && m[k] == v;
        assert r[k] == v;
      }
    }
  }

  lemma PastInsert(next: int, ids: set<FieldId>, id: FieldId)
    ensures Past(next, ids + {id}) == Max(Past(next, ids), id + 1)
  {
    var all := ids + {id};
    assert id in all;
    if ids != {} {
      assert Top(ids) in all;
    }
  }
}
