/** `GeometryTypesProperty`: the canonical printer of a list of geometry types and its
    fail-closed parser. */
module GeometryTypes {
  import opened Wrappers

  /** In the declared order, which is the canonical one. */
  datatype GeometryType =
    | Point | LineString | Polygon | MultiPoint | MultiLineString | MultiPolygon | GeometryCollection
    | CircularString | CompoundCurve | CurvePolygon | MultiCurve | MultiSurface | PolyhedralSurface
    | Tin | Triangle | Unknown
  {
    function Rank(): nat {
      match this
      case Point => 0 case LineString => 1 case Polygon => 2 case MultiPoint => 3
      case MultiLineString => 4 case MultiPolygon => 5 case GeometryCollection => 6
      case CircularString => 7 case CompoundCurve => 8 case CurvePolygon => 9
      case MultiCurve => 10 case MultiSurface => 11 case PolyhedralSurface => 12
      case Tin => 13 case Triangle => 14 case Unknown => 15
    }

    function AsStr(): string {
      match this
      case Point => "point" case LineString => "linestring" case Polygon => "polygon"
      case MultiPoint => "multipoint" case MultiLineString => "multilinestring"
      case MultiPolygon => "multipolygon" case GeometryCollection => "geometrycollection"
      case CircularString => "circularstring" case CompoundCurve => "compoundcurve"
      case CurvePolygon => "curvepolygon" case MultiCurve => "multicurve"
      case MultiSurface => "multisurface" case PolyhedralSurface => "polyhedralsurface"
      case Tin => "tin" case Triangle => "triangle" case Unknown => "unknown"
    }
  }

  const ALL := [Point, LineString, Polygon, MultiPoint, MultiLineString, MultiPolygon, GeometryCollection,
                CircularString, CompoundCurve, CurvePolygon, MultiCurve, MultiSurface, PolyhedralSurface,
                Tin, Triangle, Unknown]

  /** `FromStr`: the first variant with this text. */
  function ParseFrom(text: string, i: nat): (r: Option<GeometryType>)
    requires i <= 16
    ensures r.Some? ==> r.value.AsStr() == text
    decreases 16 - i
  {
    if i == 16 then None
    else if ALL[i].AsStr() == text then Some(ALL[i])
    else ParseFrom(text, i + 1)
  }

  function Parse(text: string): Option<GeometryType> { ParseFrom(text, 0) }

  lemma AllByRank(t: GeometryType)
    ensures t.Rank() < 16 && ALL[t.Rank()] == t
  {
  }

  /** Texts are told apart by their length, or by one letter where lengths agree. */
  lemma TextsDiffer(a: GeometryType, b: GeometryType)
    requires a.AsStr() == b.AsStr()
    ensures a == b
  {
    assert |a.AsStr()| == |b.AsStr()|;
    assert a.AsStr()[0] == b.AsStr()[0] && a.AsStr()[2] == b.AsStr()[2];
    if |a.AsStr()| > 6 {
      assert a.AsStr()[5] == b.AsStr()[5] && a.AsStr()[6] == b.AsStr()[6];
    }
  }

  lemma {:induction false} ParseFinds(t: GeometryType, i: nat)
    requires i <= t.Rank()
    ensures ParseFrom(t.AsStr(), i) == Some(t)
    decreases 16 - i
  {
    AllByRank(t);
    if ALL[i].AsStr() == t.AsStr() {
      TextsDiffer(ALL[i], t);
    } else {
      ParseFinds(t, i + 1);
    }
  }

  predicate NoComma(s: string) { forall i :: 0 <= i < |s| ==> s[i] != ',' }

  lemma TextsHaveNoComma(t: GeometryType)
    ensures NoComma(t.AsStr()) && t.AsStr() != ""
  {
    hide GeometryType.AsStr;
    if t.Rank() < 8 { FirstTextsPlain(t); } else { LastTextsPlain(t); }
  }

  lemma FirstTextsPlain(t: GeometryType)
    requires t.Rank() < 8
    ensures NoComma(t.AsStr()) && t.AsStr() != ""
  {
  }

  lemma LastTextsPlain(t: GeometryType)
    requires t.Rank() >= 8
    ensures NoComma(t.AsStr()) && t.AsStr() != ""
  {
  }

  // ----- splitting and joining

  /** `split(',')`: always at least one token. */
  function Split(s: string): (tokens: seq<string>)
    ensures tokens != []
  {
    if s == "" then [""]
    else
      var rest := Split(s[1..]);
      if s[0] == ',' then [""] + rest else [[s[0]] + rest[0]] + rest[1..]
  }

  function Join(tokens: seq<string>): string {
    if tokens == [] then "" else if |tokens| == 1 then tokens[0] else tokens[0] + "," + Join(tokens[1..])
  }

  lemma {:induction false} JoinPrefix(c: char, tokens: seq<string>)
    requires tokens != []
    ensures Join([[c] + tokens[0]] + tokens[1..]) == [c] + Join(tokens)
  {
    var t := [[c] + tokens[0]] + tokens[1..];
    if |tokens| > 1 {
      assert t[1..] == tokens[1..];
    }
  }

  lemma {:induction false} JoinSplit(s: string)
    ensures Join(Split(s)) == s
  {
    if s != "" {
      JoinSplit(s[1..]);
      var rest := Split(s[1..]);
      if s[0] == ',' {
        assert ([""] + rest)[1..] == rest;
      } else {
        JoinPrefix(s[0], rest);
      }
      assert s == [s[0]] + s[1..];
    }
  }

  lemma {:induction false} SplitToken(token: string, s: string)
    requires NoComma(token)
    ensures Split(token + "," + s) == [token] + Split(s)
    ensures Split(token) == [token]
  {
    if token == "" {
      assert ("" + "," + s)[1..] == s;
    } else {
      SplitToken(token[1..], s);
      assert (token + "," + s)[1..] == token[1..] + "," + s;
      assert token == [token[0]] + token[1..];
    }
  }

  lemma {:induction false} SplitJoin(tokens: seq<string>)
    requires tokens != [] && forall i :: 0 <= i < |tokens| ==> NoComma(tokens[i])
    ensures Split(Join(tokens)) == tokens
  {
    SplitToken(tokens[0], Join(tokens[1..]));
    if |tokens| > 1 {
      SplitJoin(tokens[1..]);
      assert tokens == [tokens[0]] + tokens[1..];
    }
  }

  // ----- the property

  datatype TypesDeclaration = Exact | Mixed | Unresolved

  datatype PropertyError =
    ExactWithoutTypes | UnresolvedWithTypes | UnknownTypeInList | DuplicateTypeInList | NonCanonicalOrder

  datatype GeometryTypesProperty = GeometryTypesProperty(declaration: TypesDeclaration, types: seq<GeometryType>) {
    /** What the constructors guarantee. */
    predicate Valid() {
      Ascending(types) && (declaration.Exact? ==> types != []) && (declaration.Unresolved? ==> types == [])
    }
  }

  predicate Ascending(types: seq<GeometryType>) {
    forall i, j :: 0 <= i < j < |types| ==> types[i].Rank() < types[j].Rank()
  }

  function CheckCoherence(declaration: TypesDeclaration, len: nat): Result<(), PropertyError> {
    if declaration.Exact? && len == 0 then Err(ExactWithoutTypes)
    else if declaration.Unresolved? && len > 0 then Err(UnresolvedWithTypes)
    else Ok(())
  }

  /** `sort_unstable` then `dedup`: the given types once each, ascending. */
  function Normalized(types: seq<GeometryType>, i: nat): (r: seq<GeometryType>)
    requires i <= 16
    ensures Ascending(r)
    ensures forall t :: t in r <==> t in types && t.Rank() < i
  {
    if i == 0 then [] else
      assert forall t: GeometryType :: t.Rank() == i - 1 ==> t == ALL[i - 1] by {
        forall t: GeometryType | t.Rank() == i - 1 ensures t == ALL[i - 1] { AllByRank(t); }
      }
      AllRank(i - 1);
      Normalized(types, i - 1) + (if ALL[i - 1] in types then [ALL[i - 1]] else [])
  }

  lemma AllRank(i: nat)
    requires i < 16
    ensures ALL[i].Rank() == i
  {
  }

  /** `new`. */
  function New(declaration: TypesDeclaration,
               types: seq<GeometryType>): (r: Result<GeometryTypesProperty, PropertyError>)
    ensures r == Err(ExactWithoutTypes) <==> declaration.Exact? && types == []
    ensures r == Err(UnresolvedWithTypes) <==> declaration.Unresolved? && types != []
    ensures r.Ok? <==> (declaration.Exact? ==> types != []) && (declaration.Unresolved? ==> types == [])
    ensures r.Ok? ==> r.value.Valid() && r.value.declaration == declaration
    ensures r.Ok? ==> forall t :: t in r.value.types <==> t in types
  {
    var normal := Normalized(types, 16);
    assert forall t: GeometryType :: t in normal <==> t in types by {
      forall t: GeometryType ensures t.Rank() < 16 { AllByRank(t); }
    }
    assert normal == [] <==> types == [] by {
      if types != [] { assert types[0] in normal; }
      if normal != [] { assert normal[0] in types; }
    }
    match CheckCoherence(declaration, |normal|)
    case Err(e) => Err(e)
    case Ok(_) => Ok(GeometryTypesProperty(declaration, normal))
  }

  function Texts(types: seq<GeometryType>): (tokens: seq<string>)
    ensures |tokens| == |types| && forall i :: 0 <= i < |types| ==> tokens[i] == types[i].AsStr()
  {
    seq(|types|, i requires 0 <= i < |types| => types[i].AsStr())
  }

  lemma NothingJoined(tokens: seq<string>)
    ensures Join(tokens[..0]) == ""
  {
  }

  lemma FirstTexts(types: seq<GeometryType>, k: nat)
    requires k < |types|
    ensures Texts(types)[..k + 1] == Texts(types)[..k] + [types[k].AsStr()]
  {
    hide GeometryType.AsStr;
  }

  /** The next name joined to those before it. */
  lemma JoinNext(types: seq<GeometryType>, k: nat)
    requires k < |types|
    ensures Join(Texts(types)[..k + 1])
         == (if k == 0 then "" else Join(Texts(types)[..k]) + ",") + types[k].AsStr()
  {
    hide GeometryType.AsStr, Texts, Join;
    FirstTexts(types, k);
    JoinLast(Texts(types)[..k], types[k].AsStr());
    assert k > 0 ==> Texts(types)[..k] != [];
    assert "" + types[k].AsStr() == types[k].AsStr();
  }

  /** `to_canonical_list`. */
  method ToCanonicalList(p: GeometryTypesProperty) returns (list: string)
    ensures list == Join(Texts(p.types))
  {
    hide GeometryType.AsStr, Join, Texts;
    list := "";
    NothingJoined(Texts(p.types));
    for index := 0 to |p.types|
      invariant list == Join(Texts(p.types)[..index]) && (index == 0 ==> list == "")
    {
      JoinNext(p.types, index);
      if index > 0 {
        list := list + ",";
      }
      list := list + p.types[index].AsStr();
    }
    assert Texts(p.types)[..|p.types|] == Texts(p.types);
  }

  lemma {:induction false} JoinLast(tokens: seq<string>, t: string)
    ensures Join(tokens + [t]) == if tokens == [] then t else Join(tokens) + "," + t
  {
    if |tokens| > 1 {
      JoinLast(tokens[1..], t);
      assert (tokens + [t])[1..] == tokens[1..] + [t];
    }
  }

  /** One token after the types already parsed. */
  function ParseToken(parsed: seq<GeometryType>, token: string): Result<seq<GeometryType>, PropertyError> {
    match Parse(token)
    case None => Err(UnknownTypeInList)
    case Some(t) =>
      if parsed != [] && parsed[|parsed| - 1] == t then Err(DuplicateTypeInList)
      else if parsed != [] && parsed[|parsed| - 1].Rank() > t.Rank() then Err(NonCanonicalOrder)
      else Ok(parsed + [t])
  }

  function ParseTokens(tokens: seq<string>): Result<seq<GeometryType>, PropertyError> {
    if tokens == [] then Ok([])
    else
      match ParseTokens(tokens[..|tokens| - 1])
      case Err(e) => Err(e)
      case Ok(parsed) => ParseToken(parsed, tokens[|tokens| - 1])
  }

  function FromList(declaration: TypesDeclaration, list: string): Result<GeometryTypesProperty, PropertyError> {
    if list == "" then
      match CheckCoherence(declaration, 0) case Err(e) => Err(e)
      case Ok(_) => Ok(GeometryTypesProperty(declaration, []))
    else
      match ParseTokens(Split(list))
      case Err(e) => Err(e)
      case Ok(parsed) =>
        match CheckCoherence(declaration, |parsed|)
        case Err(e) => Err(e)
        case Ok(_) => Ok(GeometryTypesProperty(declaration, parsed))
  }

  /** `from_canonical_list`: stops at the first token that is not canonical. */
  method FromCanonicalList(declaration: TypesDeclaration, list: string)
    returns (r: Result<GeometryTypesProperty, PropertyError>)
    ensures r == FromList(declaration, list)
  {
    hide Parse, Split;
    var parsed: seq<GeometryType> := [];
    if list != "" {
      var tokens := Split(list);
      for k := 0 to |tokens|
        invariant ParseTokens(tokens[..k]) == Ok(parsed)
      {
        assert tokens[..k + 1][..k] == tokens[..k];
        match Parse(tokens[k]) {
          case None =>
            FirstErrorStays(tokens, k + 1);
            return Err(UnknownTypeInList);
          case Some(t) =>
            if parsed != [] {
              var last := parsed[|parsed| - 1];
              if last == t {
                FirstErrorStays(tokens, k + 1);
                return Err(DuplicateTypeInList);
              }
              if last.Rank() > t.Rank() {
                FirstErrorStays(tokens, k + 1);
                return Err(NonCanonicalOrder);
              }
            }
            parsed := parsed + [t];
        }
      }
      assert tokens[..|tokens|] == tokens;
    }
    match CheckCoherence(declaration, |parsed|)
    case Err(e) => return Err(e);
    case Ok(_) => return Ok(GeometryTypesProperty(declaration, parsed));
  }

  lemma {:induction false} FirstErrorStays(tokens: seq<string>, k: nat)
    requires k <= |tokens| && ParseTokens(tokens[..k]).Err?
    ensures ParseTokens(tokens) == ParseTokens(tokens[..k])
    decreases |tokens|
  {
    if k == |tokens| {
      assert tokens[..k] == tokens;
    } else {
      var init := tokens[..|tokens| - 1];
      assert init[..k] == tokens[..k];
      FirstErrorStays(init, k);
    }
  }

  /** Why a token cannot follow the types: no type has that text, or the text repeats the last type
      or names an earlier one. */
  ghost predicate Unfit(types: seq<GeometryType>, token: string, e: PropertyError) {
    match e
    case UnknownTypeInList => forall t: GeometryType :: t.AsStr() != token
    case DuplicateTypeInList => types != [] && types[|types| - 1].AsStr() == token
    case NonCanonicalOrder =>
      types != [] && exists t: GeometryType :: t.AsStr() == token && t.Rank() < types[|types| - 1].Rank()
    case _ => false
  }

  /** The tokens start with canonical ones, and the next one is unfit. */
  ghost predicate FirstBad(tokens: seq<string>, types: seq<GeometryType>, e: PropertyError) {
    && |types| < |tokens| && Ascending(types) && Texts(types) == tokens[..|types|]
    && Unfit(types, tokens[|types|], e)
  }

  lemma BadToken(types: seq<GeometryType>, token: string)
    requires ParseToken(types, token).Err?
    ensures Unfit(types, token, ParseToken(types, token).error)
  {
    hide GeometryType.AsStr, ParseFrom, GeometryType.Rank;
    if Parse(token).None? {
      forall t: GeometryType ensures t.AsStr() != token {
        ParseFinds(t, 0);
      }
    }
  }

  /** A refused list is refused for its first token that is not canonical. */
  lemma {:induction false} RefusedAtFirstBad(tokens: seq<string>)
    requires ParseTokens(tokens).Err?
    ensures exists types :: FirstBad(tokens, types, ParseTokens(tokens).error)
  {
    hide Unfit, ParseToken, Texts, Ascending;
    var init := tokens[..|tokens| - 1];
    if ParseTokens(init).Ok? {
      ParsedTokens(init);
      BadToken(ParseTokens(init).value, tokens[|init|]);
      assert FirstBad(tokens, ParseTokens(init).value, ParseTokens(tokens).error);
    } else {
      RefusedAtFirstBad(init);
      var types :| FirstBad(init, types, ParseTokens(init).error);
      StillBad(tokens, types, ParseTokens(tokens).error);
    }
  }

  lemma StillBad(tokens: seq<string>, types: seq<GeometryType>, e: PropertyError)
    requires tokens != [] && FirstBad(tokens[..|tokens| - 1], types, e)
    ensures FirstBad(tokens, types, e)
  {
    hide Unfit, Texts, Ascending;
    var init := tokens[..|tokens| - 1];
    assert init[..|types|] == tokens[..|types|];
  }

  // ----- printer and parser undo each other

  lemma TokenParsed(parsed: seq<GeometryType>, t: GeometryType)
    requires Ascending(parsed + [t])
    ensures ParseToken(parsed, t.AsStr()) == Ok(parsed + [t])
  {
    ParseFinds(t, 0);
    var all := parsed + [t];
    if parsed != [] {
      assert all[|parsed| - 1].Rank() < all[|parsed|].Rank();
    }
  }

  lemma TextsLast(types: seq<GeometryType>)
    requires types != []
    ensures var n := |types| - 1;
            && Texts(types)[..n] == Texts(types[..n]) && Texts(types)[n] == types[n].AsStr()
            && types == types[..n] + [types[n]]
  {
  }

  lemma {:induction false} ParseTexts(types: seq<GeometryType>)
    requires Ascending(types)
    ensures ParseTokens(Texts(types)) == Ok(types)
  {
    if types != [] {
      var n := |types| - 1;
      ParseTexts(types[..n]);
      TextsLast(types);
      TokenParsed(types[..n], types[n]);
    }
  }

  lemma RankInjective(a: GeometryType, b: GeometryType)
    requires a.Rank() == b.Rank()
    ensures a == b
  {
    AllByRank(a);
    AllByRank(b);
  }

  lemma ParsedToken(parsed: seq<GeometryType>, token: string)
    requires Ascending(parsed) && ParseToken(parsed, token).Ok?
    ensures var types := ParseToken(parsed, token).value;
            Ascending(types) && Texts(types) == Texts(parsed) + [token]
  {
    var t := Parse(token).value;
    if parsed != [] {
      var last := parsed[|parsed| - 1];
      if last.Rank() == t.Rank() { RankInjective(last, t); }
      assert forall i :: 0 <= i < |parsed| ==> parsed[i].Rank() <= last.Rank();
    }
  }

  lemma NoTypes()
    ensures Ascending([]) && Texts([]) == []
  {
  }

  lemma {:induction false} ParsedTokens(tokens: seq<string>)
    requires ParseTokens(tokens).Ok?
    ensures Ascending(ParseTokens(tokens).value) && Texts(ParseTokens(tokens).value) == tokens
  {
    hide ParseToken, Parse, Ascending, Texts;
    NoTypes();
    if tokens != [] {
      var n := |tokens| - 1;
      ParsedTokens(tokens[..n]);
      ParsedToken(ParseTokens(tokens[..n]).value, tokens[n]);
      assert tokens == tokens[..n] + [tokens[n]];
    }
  }

  /** Every property printed canonically is read back as itself. */
  lemma PrintThenParse(p: GeometryTypesProperty)
    requires p.Valid()
    ensures FromList(p.declaration, Join(Texts(p.types))) == Ok(p)
  {
    if p.types != [] {
      forall i | 0 <= i < |p.types| ensures NoComma(Texts(p.types)[i]) {
        TextsHaveNoComma(p.types[i]);
      }
      SplitJoin(Texts(p.types));
      ParseTexts(p.types);
      TextsHaveNoComma(p.types[0]);
      assert Join(Texts(p.types)) != "";
    }
  }

  /** An accepted text is exactly what printing the result gives, so it lists distinct types in order. */
  lemma ParseThenPrint(declaration: TypesDeclaration, list: string)
    requires FromList(declaration, list).Ok?
    ensures var p := FromList(declaration, list).value;
            p.Valid() && p.declaration == declaration && Join(Texts(p.types)) == list
  {
    if list != "" {
      ParsedTokens(Split(list));
      JoinSplit(list);
    }
  }

  /** The accepted texts are exactly the canonical ones. */
  lemma AcceptedExactlyCanonical(declaration: TypesDeclaration, list: string)
    ensures FromList(declaration, list).Ok? <==>
            exists p: GeometryTypesProperty :: p.Valid() && p.declaration == declaration && Join(Texts(p.types)) == list
  {
    if FromList(declaration, list).Ok? {
      ParseThenPrint(declaration, list);
    }
    forall p: GeometryTypesProperty | p.Valid() && p.declaration == declaration && Join(Texts(p.types)) == list
      ensures FromList(declaration, list).Ok?
    {
      PrintThenParse(p);
    }
  }

  lemma SameLast(a: seq<GeometryType>, b: seq<GeometryType>)
    requires Ascending(a) && Ascending(b) && a != [] && b != [] && forall t :: t in a <==> t in b
    ensures a[|a| - 1] == b[|b| - 1]
  {
    var x, y := a[|a| - 1], b[|b| - 1];
    assert x in b && y in a;
    var i :| 0 <= i < |b| && b[i] == x;
    var j :| 0 <= j < |a| && a[j] == y;
    RankInjective(x, y);
  }

  lemma WithoutLast(a: seq<GeometryType>)
    requires Ascending(a) && a != []
    ensures forall t :: t in a[..|a| - 1] <==> t in a && t != a[|a| - 1]
  {
    var n := |a| - 1;
    assert forall i :: 0 <= i < n ==> a[..n][i] == a[i];
    forall t | t in a && t != a[n] ensures t in a[..n] {
      var i :| 0 <= i < |a| && a[i] == t;
      assert a[..n][i] == t;
    }
  }

  lemma NonEmptyHolds(b: seq<GeometryType>)
    ensures b != [] ==> exists t :: t in b
  {
    if b != [] { assert b[0] in b; }
  }

  /** Equal ascending lists from equal element sets: one declaration has one serialisation. */
  lemma {:induction false} AscendingUnique(a: seq<GeometryType>, b: seq<GeometryType>)
    requires Ascending(a) && Ascending(b) && forall t :: t in a <==> t in b
    ensures a == b
  {
    NonEmptyHolds(b);
    if a == [] {
      assert b == [];
    } else {
      assert a[0] in b;
      SameLast(a, b);
      WithoutLast(a);
      WithoutLast(b);
      var a', b' := a[..|a| - 1], b[..|b| - 1];
      forall t ensures t in a' <==> t in b' {
        assert t in a <==> t in b;
      }
      AscendingUnique(a', b');
      assert a == a' + [a[|a| - 1]] && b == b' + [b[|b| - 1]];
    }
  }

  /** The texts of all types in their declared order. */
  const NAMES := ["point", "linestring", "polygon", "multipoint", "multilinestring", "multipolygon",
                  "geometrycollection", "circularstring", "compoundcurve", "curvepolygon", "multicurve",
                  "multisurface", "polyhedralsurface", "tin", "triangle", "unknown"]

  /** The list of all names in that order is canonical and read as all the types in theirs. */
  lemma EveryNameIsRead()
    ensures FromList(Mixed, Join(NAMES)) == Ok(GeometryTypesProperty(Mixed, [
              Point, LineString, Polygon, MultiPoint, MultiLineString, MultiPolygon, GeometryCollection,
              CircularString, CompoundCurve, CurvePolygon, MultiCurve, MultiSurface, PolyhedralSurface,
              Tin, Triangle, Unknown]))
  {
    forall i | 0 <= i < 16 ensures ALL[i].Rank() == i && Texts(ALL)[i] == NAMES[i] { AllRank(i); }
    assert Texts(ALL) == NAMES;
    PrintThenParse(GeometryTypesProperty(Mixed, ALL));
  }

  /** `new` depends only on which types are given, and leaves a property as it is. */
  lemma NewIsCanonical(declaration: TypesDeclaration, types: seq<GeometryType>, other: seq<GeometryType>)
    requires forall t :: t in types <==> t in other
    ensures New(declaration, types) == New(declaration, other)
    ensures New(declaration, types).Ok? ==>
            New(declaration, New(declaration, types).value.types) == New(declaration, types)
  {
    AscendingUnique(Normalized(types, 16), Normalized(other, 16));
    AscendingUnique(Normalized(types, 16), Normalized(Normalized(types, 16), 16));
  }
}
