/** `DataContract`: structural validation, and re-identification of columns with explicit
    provenance (`from_source`, `new`, `rebuild`, `field_origins`). */
module DataContracts {
  import opened FieldIdentity
  import opened GeometryTypes
  import opened Integers
  import opened Wrappers

  const EXTENSION_KEY := "ARROW:extension:name"
  const WKB_EXTENSION := "geoarrow.wkb"
  const TYPES_KEY := "plenora.geometry.types"
  const TYPES_DECLARATION_KEY := "plenora.geometry.types_declaration"
  const DIMENSIONS_KEY := "plenora.geometry.dimensions"
  const ENCODING_KEY := "plenora.geometry.encoding"
  const CRS_RESOLUTION_KEY := "plenora.geometry.crs_resolution"

  datatype Dimensions = Xy | Xyz | Xym | Xyzm | UnknownDimensions
  datatype Encoding = Wkb | Ewkb

  /** A schema field; `binary` tells the physical type `Binary` from every other. */
  datatype Field = Field(name: string, nullable: bool, binary: bool, metadata: map<string, string>)

  /** A geometry column; `types` is the declared value at any confidence. */
  datatype GeometryColumn = GeometryColumn(fieldId: FieldId, name: string, nullable: bool, dimensions: Dimensions,
                                           encoding: Option<Encoding>, types: Option<GeometryTypesProperty>)

  /** `sortedBy` holds the keys of a declared order at any confidence. */
  datatype DataContract = DataContract(schema: seq<Field>, fieldIds: map<string, FieldId>,
                                       geometries: seq<GeometryColumn>, activeGeometry: Option<FieldId>,
                                       sortedBy: Option<seq<FieldId>>)

  datatype FieldOrigin = Preserved(id: FieldId) | New

  datatype ContractError = SchemaError | Exhausted

  // ----- canonical metadata

  function ParseDimensions(text: string): Option<Dimensions> {
    if text == "xy" then Some(Xy) else if text == "xyz" then Some(Xyz) else if text == "xym" then Some(Xym)
    else if text == "xyzm" then Some(Xyzm) else if text == "unknown" then Some(UnknownDimensions) else None
  }

  function ParseEncoding(text: string): Option<Encoding> {
    if text == "wkb" then Some(Wkb) else if text == "ewkb" then Some(Ewkb) else None
  }

  predicate IsCrsResolution(text: string) {
    text == "resolved" || text == "declared_unresolved" || text == "missing"
  }

  function DeclarationText(d: TypesDeclaration): string {
    match d case Exact => "exact" case Mixed => "mixed" case Unresolved => "unresolved"
  }

  function ParseDeclaration(text: string): Option<TypesDeclaration> {
    if text == "exact" then Some(Exact) else if text == "mixed" then Some(Mixed)
    else if text == "unresolved" then Some(Unresolved) else None
  }

  /** `canonical_geometry_types_from_metadata`. */
  function CanonicalTypes(metadata: map<string, string>): Result<Option<GeometryTypesProperty>, ContractError> {
    if TYPES_DECLARATION_KEY in metadata && ParseDeclaration(metadata[TYPES_DECLARATION_KEY]).None?
      then Err(SchemaError)
    else if TYPES_KEY in metadata && metadata[TYPES_KEY] == "" then Err(SchemaError)
    else if TYPES_DECLARATION_KEY !in metadata then (if TYPES_KEY in metadata then Err(SchemaError) else Ok(None))
    else
      var declaration := ParseDeclaration(metadata[TYPES_DECLARATION_KEY]).value;
      match FromList(declaration, if TYPES_KEY in metadata then metadata[TYPES_KEY] else "")
      case Err(_) => Err(SchemaError)
      case Ok(p) => Ok(Some(p))
  }

  /** `validate_declared_types` accepts. */
  predicate DeclaredTypesAgree(g: GeometryColumn, metadata: map<string, string>) {
    && (DIMENSIONS_KEY in metadata ==> ParseDimensions(metadata[DIMENSIONS_KEY]) == Some(g.dimensions))
    && (ENCODING_KEY in metadata ==>
          ParseEncoding(metadata[ENCODING_KEY]).Some?
          && (g.encoding.Some? ==> g.encoding == ParseEncoding(metadata[ENCODING_KEY])))
    && (CRS_RESOLUTION_KEY in metadata ==> IsCrsResolution(metadata[CRS_RESOLUTION_KEY]))
    && TypesAgree(g, CanonicalTypes(metadata))
  }

  predicate TypesAgree(g: GeometryColumn, types: Result<Option<GeometryTypesProperty>, ContractError>) {
    match types
    case Err(_) => false
    case Ok(None) => true
    case Ok(Some(parsed)) =>
      g.types.Some? && !parsed.declaration.Unresolved? ==>
        parsed.declaration == g.types.value.declaration
        && Join(Texts(parsed.types)) == Join(Texts(g.types.value.types))
  }

  function DimensionsText(d: Dimensions): string {
    match d case Xy => "xy" case Xyz => "xyz" case Xym => "xym" case Xyzm => "xyzm" case UnknownDimensions => "unknown"
  }

  function EncodingText(e: Encoding): string { match e case Wkb => "wkb" case Ewkb => "ewkb" }

  /** The two keys of the types are those a property is emitted with. */
  predicate SameKeys(metadata: map<string, string>, p: GeometryTypesProperty) {
    && TYPES_DECLARATION_KEY in metadata && metadata[TYPES_DECLARATION_KEY] == DeclarationText(p.declaration)
    && (TYPES_KEY in metadata <==> p.types != [])
    && (TYPES_KEY in metadata ==> metadata[TYPES_KEY] == Join(Texts(p.types)))
  }

  /** What the field of a geometry may say about it: nothing, or its own dimensions, its own encoding
      or any if it declares none, some CRS resolution, and the property it declares, or any valid one
      if it declares none or the field leaves the types unresolved. */
  ghost predicate Agrees(g: GeometryColumn, metadata: map<string, string>) {
    && (DIMENSIONS_KEY in metadata ==> metadata[DIMENSIONS_KEY] == DimensionsText(g.dimensions))
    && (ENCODING_KEY in metadata ==>
          exists e: Encoding ::
            metadata[ENCODING_KEY] == EncodingText(e) && (g.encoding.Some? ==> g.encoding.value == e))
    && (CRS_RESOLUTION_KEY in metadata ==>
          metadata[CRS_RESOLUTION_KEY] in {"resolved", "declared_unresolved", "missing"})
    && TypesAllowed(g, metadata)
  }

  ghost predicate TypesAllowed(g: GeometryColumn, metadata: map<string, string>) {
    || (TYPES_DECLARATION_KEY !in metadata && TYPES_KEY !in metadata)
    || exists p: GeometryTypesProperty ::
         && p.Valid() && SameKeys(metadata, p)
         && (g.types.Some? && !p.declaration.Unresolved? ==> p == g.types.value)
  }

  lemma DeclarationRead(text: string, d: TypesDeclaration)
    ensures ParseDeclaration(text) == Some(d) <==> text == DeclarationText(d)
  {
  }

  /** What the two keys of the types are read as: a property exactly when they are the ones it is
      emitted with, nothing exactly when both are absent, and an error otherwise. */
  lemma CanonicalTypesMean(metadata: map<string, string>, p: GeometryTypesProperty)
    ensures CanonicalTypes(metadata) == Ok(None) <==> TYPES_DECLARATION_KEY !in metadata && TYPES_KEY !in metadata
    ensures CanonicalTypes(metadata) == Ok(Some(p)) <==> p.Valid() && SameKeys(metadata, p)
  {
    hide FromList, Join, Texts, ParseDeclaration, DeclarationText;
    PrintIsEmpty(p.types);
    if TYPES_DECLARATION_KEY in metadata {
      DeclarationRead(metadata[TYPES_DECLARATION_KEY], p.declaration);
      if p.Valid() { PrintThenParse(p); }
      var d := ParseDeclaration(metadata[TYPES_DECLARATION_KEY]);
      var list := if TYPES_KEY in metadata then metadata[TYPES_KEY] else "";
      if d.Some? && FromList(d.value, list).Ok? { ParseThenPrint(d.value, list); }
    }
  }

  lemma PrintIsEmpty(types: seq<GeometryType>)
    ensures Join(Texts(types)) == "" <==> types == []
  {
    if types != [] { NonEmptyPrint(types); }
  }

  /** Lists of types print alike only when they are equal. */
  lemma PrintInjective(a: seq<GeometryType>, b: seq<GeometryType>)
    requires Join(Texts(a)) == Join(Texts(b))
    ensures a == b
  {
    hide Join, GeometryType.AsStr;
    PrintIsEmpty(a);
    PrintIsEmpty(b);
    if a != [] && b != [] {
      forall t: GeometryType ensures NoComma(t.AsStr()) { TextsHaveNoComma(t); }
      SplitJoin(Texts(a));
      SplitJoin(Texts(b));
      assert |a| == |b|;
      forall i | 0 <= i < |a| ensures a[i] == b[i] {
        assert Texts(a)[i] == Texts(b)[i];
        TextsDiffer(a[i], b[i]);
      }
    }
  }

  lemma TypesAgreeMeans(g: GeometryColumn, metadata: map<string, string>)
    ensures TypesAgree(g, CanonicalTypes(metadata)) <==> TypesAllowed(g, metadata)
  {
    hide Join, Texts, SameKeys, CanonicalTypes, GeometryTypesProperty.Valid;
    CanonicalTypesMean(metadata, GeometryTypesProperty(Mixed, []));
    if p: GeometryTypesProperty :| p.Valid() && SameKeys(metadata, p)
                                   && (g.types.Some? && !p.declaration.Unresolved? ==> p == g.types.value) {
      CanonicalTypesMean(metadata, p);
    }
    match CanonicalTypes(metadata)
    case Ok(Some(p)) =>
      CanonicalTypesMean(metadata, p);
      if g.types.Some? && Join(Texts(p.types)) == Join(Texts(g.types.value.types)) {
        PrintInjective(p.types, g.types.value.types);
      }
    case _ =>
  }

  /** `validate_declared_types` accepts exactly what does not contradict the geometry. */
  lemma DeclaredTypesMean(g: GeometryColumn, metadata: map<string, string>)
    ensures DeclaredTypesAgree(g, metadata) <==> Agrees(g, metadata)
  {
    hide TypesAgree, TypesAllowed, ParseDimensions, DimensionsText, ParseEncoding, EncodingText;
    TypesAgreeMeans(g, metadata);
    SmallTables(g, metadata);
  }

  lemma SmallTables(g: GeometryColumn, metadata: map<string, string>)
    ensures DIMENSIONS_KEY in metadata ==>
              (ParseDimensions(metadata[DIMENSIONS_KEY]) == Some(g.dimensions) <==>
               metadata[DIMENSIONS_KEY] == DimensionsText(g.dimensions))
    ensures ENCODING_KEY in metadata ==>
              forall e ::
                ParseEncoding(metadata[ENCODING_KEY]) == Some(e) <==> metadata[ENCODING_KEY] == EncodingText(e)
  {
  }

  /** The two canonical keys as they are emitted: an empty list is an absent key. */
  function Emitted(p: GeometryTypesProperty): map<string, string> {
    map[TYPES_DECLARATION_KEY := DeclarationText(p.declaration)]
    + (if p.types == [] then map[] else map[TYPES_KEY := Join(Texts(p.types))])
  }

  /** Emitting a declared property and validating against it always agrees. */
  lemma EmittedAgrees(g: GeometryColumn)
    requires g.types.Some? && g.types.value.Valid()
    ensures CanonicalTypes(Emitted(g.types.value)) == Ok(g.types)
    ensures Agrees(g, Emitted(g.types.value))
  {
    DeclaredTypesMean(g, Emitted(g.types.value));
    var p := g.types.value;
    PrintThenParse(p);
    KeysDiffer();
    if p.types != [] {
      NonEmptyPrint(p.types);
    }
  }

  /** The keys and texts of an emitted property, spelled out. */
  lemma EmittedTexts()
    ensures Emitted(GeometryTypesProperty(Exact, [Point, Polygon]))
         == map["plenora.geometry.types_declaration" := "exact", "plenora.geometry.types" := "point,polygon"]
    ensures Emitted(GeometryTypesProperty(Mixed, [])) == map["plenora.geometry.types_declaration" := "mixed"]
    ensures Emitted(GeometryTypesProperty(Unresolved, [])) == map["plenora.geometry.types_declaration" := "unresolved"]
  {
    KeysDiffer();
    var t := Texts([Point, Polygon]);
    assert t == ["point", "polygon"];
    assert t[1..] == ["polygon"];
    assert "point" + "," + "polygon" == "point,polygon";
  }

  lemma KeysDiffer()
    ensures TYPES_KEY != TYPES_DECLARATION_KEY
    ensures DIMENSIONS_KEY !in {TYPES_KEY, TYPES_DECLARATION_KEY}
    ensures ENCODING_KEY !in {TYPES_KEY, TYPES_DECLARATION_KEY}
    ensures CRS_RESOLUTION_KEY !in {TYPES_KEY, TYPES_DECLARATION_KEY}
  {
    assert |TYPES_KEY| == 22 && |TYPES_DECLARATION_KEY| == 34 && |DIMENSIONS_KEY| == 27
        && |ENCODING_KEY| == 25 && |CRS_RESOLUTION_KEY| == 31;
  }

  lemma NonEmptyPrint(types: seq<GeometryType>)
    requires types != []
    ensures Join(Texts(types)) != ""
  {
    TextsHaveNoComma(types[0]);
  }

  /** The two sources contradict each other exactly when they declare different properties. */
  lemma AgreementIsEquality(a: GeometryTypesProperty, b: GeometryTypesProperty)
    ensures a.declaration == b.declaration && Join(Texts(a.types)) == Join(Texts(b.types)) <==> a == b
  {
    if Join(Texts(a.types)) == Join(Texts(b.types)) { PrintInjective(a.types, b.types); }
  }

  // ----- schema lookups

  /** `index_of`: the first field with the name. */
  function IndexOf(schema: seq<Field>, name: string): (r: Option<nat>)
    ensures r.Some? ==> r.value < |schema| && schema[r.value].name == name
    ensures r.Some? ==> forall i :: 0 <= i < r.value ==> schema[i].name != name
    ensures r.None? ==> forall i :: 0 <= i < |schema| ==> schema[i].name != name
  {
    if schema == [] then None
    else if schema[0].name == name then Some(0)
    else match IndexOf(schema[1..], name) case None => None case Some(k) => Some(k + 1)
  }

  /** The first geometry with the name. */
  function FindGeometry(geometries: seq<GeometryColumn>, name: string): (r: Option<nat>)
    ensures r.Some? ==> r.value < |geometries| && geometries[r.value].name == name
    ensures r.Some? ==> forall k :: 0 <= k < r.value ==> geometries[k].name != name
    ensures r.None? ==> forall k :: 0 <= k < |geometries| ==> geometries[k].name != name
  {
    if geometries == [] then None
    else if geometries[0].name == name then Some(0)
    else match FindGeometry(geometries[1..], name) case None => None case Some(k) => Some(k + 1)
  }

  function Extension(f: Field): Option<string> {
    if EXTENSION_KEY in f.metadata then Some(f.metadata[EXTENSION_KEY]) else None
  }

  // ----- validation

  predicate DistinctNames(schema: seq<Field>) {
    forall i, j :: 0 <= i < j < |schema| ==> schema[i].name != schema[j].name
  }

  /** The schema position of every geometry, -1 for one the schema does not have. */
  function Positions(schema: seq<Field>, geometries: seq<GeometryColumn>): (p: seq<int>)
    ensures |p| == |geometries|
    ensures forall k :: 0 <= k < |p| ==>
              p[k] == match IndexOf(schema, geometries[k].name) case None => -1 case Some(i) => i
  {
    seq(|geometries|, k requires 0 <= k < |geometries| =>
      match IndexOf(schema, geometries[k].name) case None => -1 case Some(i) => i)
  }

  predicate IncreasingUpTo(p: seq<int>, n: nat)
    requires n <= |p|
  {
    && (forall k :: 0 <= k < n ==> p[k] >= 0)
    && (forall j, k :: 0 <= j < k < n ==> p[j] < p[k])
  }

  predicate InSchemaOrder(schema: seq<Field>, geometries: seq<GeometryColumn>) {
    IncreasingUpTo(Positions(schema, geometries), |geometries|)
  }

  predicate DistinctUpTo(geometries: seq<GeometryColumn>, n: nat)
    requires n <= |geometries|
  {
    forall j, k :: 0 <= j < k < n ==>
      geometries[j].fieldId != geometries[k].fieldId && geometries[j].name != geometries[k].name
  }

  predicate DistinctGeometries(geometries: seq<GeometryColumn>) {
    DistinctUpTo(geometries, |geometries|)
  }

  predicate Named(geometries: seq<GeometryColumn>, name: string) {
    exists k :: 0 <= k < |geometries| && geometries[k].name == name
  }

  predicate NoGeometryOmitted(schema: seq<Field>, geometries: seq<GeometryColumn>) {
    forall i :: 0 <= i < |schema| && DeclaresWkb(schema[i].metadata) ==> Named(geometries, schema[i].name)
  }

  predicate DeclaresWkb(metadata: map<string, string>) {
    "ARROW:extension:name" in metadata && metadata["ARROW:extension:name"] == "geoarrow.wkb"
  }

  ghost predicate RegistryCoherent(c: DataContract) {
    && (forall n :: n in c.fieldIds ==> IndexOf(c.schema, n).Some?)
    && Injective(c.fieldIds)
  }

  /** The field of a geometry can hold it and does not contradict it. */
  ghost predicate ColumnMatches(schema: seq<Field>, g: GeometryColumn) {
    && IndexOf(schema, g.name).Some?
    && var field := schema[IndexOf(schema, g.name).value];
       && ("ARROW:extension:name" in field.metadata ==> DeclaresWkb(field.metadata))
       && field.nullable == g.nullable && field.binary && Agrees(g, field.metadata)
  }

  ghost predicate GeometryCoherent(c: DataContract, g: GeometryColumn) {
    g.name in c.fieldIds && c.fieldIds[g.name] == g.fieldId && ColumnMatches(c.schema, g)
  }

  predicate OrderCoherent(c: DataContract, keys: seq<FieldId>) {
    && keys != []
    && (forall i, j :: 0 <= i < j < |keys| ==> keys[i] != keys[j])
    && (forall i :: 0 <= i < |keys| ==> keys[i] in c.fieldIds.Values)
  }

  predicate HasGeometry(geometries: seq<GeometryColumn>, id: FieldId) {
    exists k :: 0 <= k < |geometries| && geometries[k].fieldId == id
  }

  /** What `validate` promises. */
  ghost predicate ValidContract(c: DataContract) {
    && DistinctNames(c.schema)
    && InSchemaOrder(c.schema, c.geometries) && DistinctGeometries(c.geometries)
    && NoGeometryOmitted(c.schema, c.geometries)
    && RegistryCoherent(c)
    && (forall k :: 0 <= k < |c.geometries| ==> GeometryCoherent(c, c.geometries[k]))
    && (c.sortedBy.Some? ==> OrderCoherent(c, c.sortedBy.value))
    && (c.activeGeometry.Some? ==> HasGeometry(c.geometries, c.activeGeometry.value))
  }

  method CheckNames(schema: seq<Field>) returns (ok: bool)
    ensures ok <==> DistinctNames(schema)
  {
    var seen: set<string> := {};
    for i := 0 to |schema|
      invariant forall n :: n in seen <==> exists k :: 0 <= k < i && schema[k].name == n
      invariant DistinctNames(schema[..i])
    {
      if schema[i].name in seen {
        var k :| 0 <= k < i && schema[k].name == schema[i].name;
        return false;
      }
      seen := seen + {schema[i].name};
    }
    assert schema[..|schema|] == schema;
    return true;
  }

  ghost function IdsBefore(geometries: seq<GeometryColumn>, k: nat): set<FieldId>
    requires k <= |geometries|
  {
    if k == 0 then {} else IdsBefore(geometries, k - 1) + {geometries[k - 1].fieldId}
  }

  ghost function NamesBefore(geometries: seq<GeometryColumn>, k: nat): set<string>
    requires k <= |geometries|
  {
    if k == 0 then {} else NamesBefore(geometries, k - 1) + {geometries[k - 1].name}
  }

  lemma {:induction false} BeforeMeans(geometries: seq<GeometryColumn>, k: nat)
    requires k <= |geometries|
    ensures forall id :: id in IdsBefore(geometries, k) <==> exists j :: 0 <= j < k && geometries[j].fieldId == id
    ensures forall n :: n in NamesBefore(geometries, k) <==> exists j :: 0 <= j < k && geometries[j].name == n
  {
    if k > 0 {
      BeforeMeans(geometries, k - 1);
    }
  }

  lemma DistinctPrefix(geometries: seq<GeometryColumn>, k: nat)
    requires k <= |geometries|
    ensures DistinctGeometries(geometries) ==> DistinctUpTo(geometries, k)
  {
  }

  lemma DistinctStep(geometries: seq<GeometryColumn>, k: nat)
    requires k < |geometries| && DistinctUpTo(geometries, k)
    ensures DistinctUpTo(geometries, k + 1) <==>
            geometries[k].fieldId !in IdsBefore(geometries, k) && geometries[k].name !in NamesBefore(geometries, k)
  {
    BeforeMeans(geometries, k);
  }

  lemma NothingOrdered(p: seq<int>, geometries: seq<GeometryColumn>)
    ensures IncreasingUpTo(p, 0) && DistinctUpTo(geometries, 0)
  {
  }

  /** The geometries of `validate_geometry_identities`: present, in schema order, no identity or name twice. */
  method CheckGeometryOrder(schema: seq<Field>, geometries: seq<GeometryColumn>) returns (ok: bool)
    ensures ok <==> InSchemaOrder(schema, geometries) && DistinctGeometries(geometries)
  {
    hide IncreasingUpTo, DistinctUpTo, Positions;
    var ids: set<FieldId>, names: set<string> := {}, {};
    var previous := -1;
    var p := Positions(schema, geometries);
    NothingOrdered(p, geometries);
    for k := 0 to |geometries|
      invariant ids == IdsBefore(geometries, k) && names == NamesBefore(geometries, k)
      invariant IncreasingUpTo(p, k) && DistinctUpTo(geometries, k)
      invariant previous == if k == 0 then -1 else p[k - 1]
    {
      IncreasingPrefix(p, k);
      DistinctPrefix(geometries, k + 1);
      DistinctStep(geometries, k);
      if p[k] < 0 || previous >= p[k] {
        return false;
      }
      previous := p[k];
      if geometries[k].fieldId in ids || geometries[k].name in names {
        return false;
      }
      ids, names := ids + {geometries[k].fieldId}, names + {geometries[k].name};
      IncreasingStep(p, k);
    }
    return true;
  }

  method CheckNoneOmitted(schema: seq<Field>, geometries: seq<GeometryColumn>) returns (ok: bool)
    ensures ok <==> NoGeometryOmitted(schema, geometries)
  {
    for i := 0 to |schema|
      invariant forall j :: 0 <= j < i && Extension(schema[j]) == Some(WKB_EXTENSION) ==>
                  Named(geometries, schema[j].name)
    {
      if Extension(schema[i]) == Some(WKB_EXTENSION) && !Named(geometries, schema[i].name) {
        return false;
      }
    }
    return true;
  }

  /** `validate_geometry_identities`. */
  method ValidateGeometryIdentities(schema: seq<Field>, geometries: seq<GeometryColumn>) returns (ok: bool)
    ensures ok <==>
            InSchemaOrder(schema, geometries) && DistinctGeometries(geometries) && NoGeometryOmitted(schema, geometries)
  {
    ok := CheckGeometryOrder(schema, geometries);
    if ok {
      ok := CheckNoneOmitted(schema, geometries);
    }
  }

  /** Positions that grow step by step grow throughout. */
  lemma IncreasingStep(p: seq<int>, k: nat)
    requires k < |p| && IncreasingUpTo(p, k) && p[k] >= 0 && (k > 0 ==> p[k - 1] < p[k])
    ensures IncreasingUpTo(p, k + 1)
  {
    forall j | 0 <= j < k ensures p[j] < p[k] {
      if j < k - 1 { assert p[j] < p[k - 1]; }
    }
  }

  /** The identities the registry gives to some of its names. */
  ghost function IdentitiesOf(m: map<string, FieldId>, names: set<string>): (ids: set<FieldId>)
    ensures forall n :: n in names && n in m ==> m[n] in ids
  {
    set n | n in names && n in m :: m[n]
  }

  lemma IncreasingPrefix(p: seq<int>, k: nat)
    requires k < |p|
    ensures IncreasingUpTo(p, |p|) ==> p[k] >= 0 && (k > 0 ==> p[k - 1] < p[k])
  {
  }

  /** The names already checked: all in the schema, no identity twice. */
  ghost predicate Checked(c: DataContract, done: set<string>) {
    && (forall n :: n in done ==> n in c.fieldIds && IndexOf(c.schema, n).Some?)
    && (forall a, b :: a in done && b in done && a in c.fieldIds && b in c.fieldIds ==>
          c.fieldIds[a] != c.fieldIds[b] || a == b)
  }

  lemma IdentitiesStep(m: map<string, FieldId>, done: set<string>, n: string)
    requires n in m
    ensures IdentitiesOf(m, done + {n}) == IdentitiesOf(m, done) + {m[n]}
  {
  }

  lemma CheckedStep(c: DataContract, done: set<string>, n: string)
    requires Checked(c, done) && n in c.fieldIds && n !in done
    requires IndexOf(c.schema, n).Some? && c.fieldIds[n] !in IdentitiesOf(c.fieldIds, done)
    ensures Checked(c, done + {n})
  {
  }

  lemma CheckedTwice(c: DataContract, done: set<string>, n: string)
    requires n in c.fieldIds && n !in done && c.fieldIds[n] in IdentitiesOf(c.fieldIds, done)
    ensures !RegistryCoherent(c)
  {
    var m :| m in done && m in c.fieldIds && c.fieldIds[m] == c.fieldIds[n];
  }

  lemma CheckedAll(c: DataContract, done: set<string>)
    requires Checked(c, done) && done == c.fieldIds.Keys
    ensures RegistryCoherent(c)
  {
  }

  method CheckRegistry(c: DataContract) returns (ok: bool)
    ensures ok <==> RegistryCoherent(c)
  {
    var identities: set<FieldId> := {};
    var todo := c.fieldIds.Keys;
    while todo != {}
      invariant todo <= c.fieldIds.Keys
      invariant Checked(c, c.fieldIds.Keys - todo) && identities == IdentitiesOf(c.fieldIds, c.fieldIds.Keys - todo)
      decreases |todo|
    {
      var n :| n in todo;
      ghost var done := c.fieldIds.Keys - todo;
      if IndexOf(c.schema, n).None? {
        return false;
      }
      if c.fieldIds[n] in identities {
        CheckedTwice(c, done, n);
        return false;
      }
      CheckedStep(c, done, n);
      IdentitiesStep(c.fieldIds, done, n);
      assert c.fieldIds.Keys - (todo - {n}) == done + {n};
      identities, todo := identities + {c.fieldIds[n]}, todo - {n};
    }
    CheckedAll(c, c.fieldIds.Keys - todo);
    return true;
  }

  method CheckGeometries(c: DataContract) returns (ok: bool)
    ensures ok <==> forall k :: 0 <= k < |c.geometries| ==> GeometryCoherent(c, c.geometries[k])
  {
    for k := 0 to |c.geometries|
      invariant forall j :: 0 <= j < k ==> GeometryCoherent(c, c.geometries[j])
    {
      var g := c.geometries[k];
      if g.name !in c.fieldIds || c.fieldIds[g.name] != g.fieldId {
        return false;
      }
      var position := IndexOf(c.schema, g.name);
      if position.None? {
        return false;
      }
      var field := c.schema[position.value];
      if Extension(field).Some? && Extension(field) != Some(WKB_EXTENSION) {
        return false;
      }
      DeclaredTypesMean(g, field.metadata);
      if field.nullable != g.nullable || !field.binary || !DeclaredTypesAgree(g, field.metadata) {
        return false;
      }
    }
    return true;
  }

  method CheckOrder(c: DataContract, keys: seq<FieldId>) returns (ok: bool)
    ensures ok <==> OrderCoherent(c, keys)
  {
    if keys == [] {
      return false;
    }
    var ids: set<FieldId> := {};
    for i := 0 to |keys|
      invariant forall id :: id in ids <==> exists k :: 0 <= k < i && keys[k] == id
      invariant forall j, k :: 0 <= j < k < i ==> keys[j] != keys[k]
      invariant forall k :: 0 <= k < i ==> keys[k] in c.fieldIds.Values
    {
      if keys[i] in ids || keys[i] !in c.fieldIds.Values {
        return false;
      }
      ids := ids + {keys[i]};
    }
    return true;
  }

  /** `validate`. */
  method Validate(c: DataContract) returns (r: Result<(), ContractError>)
    ensures r == if ValidContract(c) then Ok(()) else Err(SchemaError)
  {
    var names := CheckNames(c.schema);
    if !names { return Err(SchemaError); }
    var geometries := ValidateGeometryIdentities(c.schema, c.geometries);
    if !geometries { return Err(SchemaError); }
    var registry := CheckRegistry(c);
    if !registry { return Err(SchemaError); }
    var columns := CheckGeometries(c);
    if !columns { return Err(SchemaError); }
    if c.sortedBy.Some? {
      var order := CheckOrder(c, c.sortedBy.value);
      if !order { return Err(SchemaError); }
    }
    if c.activeGeometry.Some? && !HasGeometry(c.geometries, c.activeGeometry.value) {
      return Err(SchemaError);
    }
    return Ok(());
  }

  // ----- re-identification on values

  /** A result together with the cursor the allocator is left at. */
  datatype Outcome<T> = Outcome(result: Result<T, ContractError>, next: int)

  /** The identities given so far and where each geometry identity went. */
  datatype Assignment = Assignment(fieldIds: map<string, FieldId>, mapping: map<FieldId, FieldId>)

  /** The cursor after observing the preserved identities of the first k origins. */
  function ObservedCursor(next: int, origins: seq<FieldOrigin>, k: nat): (r: int)
    requires k <= |origins|
    ensures r >= next && forall i :: 0 <= i < k && origins[i].Preserved? ==> origins[i].id < r
    ensures next <= ID_LIMIT ==> r <= ID_LIMIT
  {
    if k == 0 then next
    else
      match origins[k - 1]
      case Preserved(id) => Max(ObservedCursor(next, origins, k - 1), id as int + 1)
      case New => ObservedCursor(next, origins, k - 1)
  }

  predicate DistinctIds(geometries: seq<GeometryColumn>, n: nat)
    requires n <= |geometries|
  {
    forall j, k :: 0 <= j < k < n ==> geometries[j].fieldId != geometries[k].fieldId
  }

  function IdentityMapping(geometries: seq<GeometryColumn>, n: nat): (m: map<FieldId, FieldId>)
    requires n <= |geometries|
    ensures forall id :: id in m <==> exists k :: 0 <= k < n && geometries[k].fieldId == id
    ensures forall id :: id in m ==> m[id] == id
  {
    if n == 0 then map[] else IdentityMapping(geometries, n - 1)[geometries[n - 1].fieldId := geometries[n - 1].fieldId]
  }

  /** One field: its identity, or the reason there is none. */
  function AssignField(field: Field, origin: FieldOrigin, geometries: seq<GeometryColumn>, a: Assignment, next: int)
    : Outcome<Assignment>
  {
    var g := FindGeometry(geometries, field.name);
    match origin
    case Preserved(id) =>
      if g.Some? && geometries[g.value].fieldId != id then Outcome(Err(SchemaError), next)
      else Outcome(Ok(a.(fieldIds := a.fieldIds[field.name := id])), next)
    case New =>
      if !(0 <= next < ID_LIMIT) then Outcome(Err(Exhausted), next)
      else Outcome(Ok(Assignment(a.fieldIds[field.name := next],
                                 if g.Some? then a.mapping[geometries[g.value].fieldId := next] else a.mapping)),
                   next + 1)
  }

  function Assign(schema: seq<Field>, origins: seq<FieldOrigin>, geometries: seq<GeometryColumn>, k: nat, next: int)
    : Outcome<Assignment>
    requires k <= |schema| == |origins|
  {
    if k == 0 then Outcome(Ok(Assignment(map[], IdentityMapping(geometries, |geometries|))), next)
    else
      var before := Assign(schema, origins, geometries, k - 1, next);
      match before.result
      case Err(e) => before
      case Ok(a) => AssignField(schema[k - 1], origins[k - 1], geometries, a, before.next)
  }

  predicate AllNamed(geometries: seq<GeometryColumn>, fieldIds: map<string, FieldId>) {
    forall k :: 0 <= k < |geometries| ==> geometries[k].name in fieldIds
  }

  function Reidentified(geometries: seq<GeometryColumn>, fieldIds: map<string, FieldId>): (r: seq<GeometryColumn>)
    requires AllNamed(geometries, fieldIds)
    ensures |r| == |geometries|
    ensures forall k :: 0 <= k < |r| ==> r[k] == geometries[k].(fieldId := fieldIds[geometries[k].name])
  {
    seq(|geometries|, k requires 0 <= k < |geometries| => geometries[k].(fieldId := fieldIds[geometries[k].name]))
  }

  /** `DataContract::new` on values. */
  ghost function Construct(schema: seq<Field>, origins: seq<FieldOrigin>, geometries: seq<GeometryColumn>,
                           active: Option<FieldId>, sortedBy: Option<seq<FieldId>>, next: int): Outcome<DataContract>
  {
    if |origins| != |schema| then Outcome(Err(SchemaError), next)
    else
      var observed := ObservedCursor(next, origins, |origins|);
      if !DistinctIds(geometries, |geometries|) then Outcome(Err(SchemaError), observed)
      else
        var given := Assign(schema, origins, geometries, |schema|, observed);
        match given.result
        case Err(e) => Outcome(Err(e), given.next)
        case Ok(a) => Outcome(Completed(schema, geometries, active, sortedBy, a), given.next)
  }

  /** The active reference follows its geometry, every geometry takes its field's identity. */
  ghost function Completed(schema: seq<Field>, geometries: seq<GeometryColumn>, active: Option<FieldId>,
                           sortedBy: Option<seq<FieldId>>, a: Assignment): Result<DataContract, ContractError>
  {
    if active.Some? && active.value !in a.mapping then Err(SchemaError)
    else if !AllNamed(geometries, a.fieldIds) then Err(SchemaError)
    else
      var output := DataContract(schema, a.fieldIds, Reidentified(geometries, a.fieldIds),
                                 if active.Some? then Some(a.mapping[active.value]) else None, sortedBy);
      if ValidContract(output) then Ok(output) else Err(SchemaError)
  }

  /** `rebuild` on values. */
  ghost function Rebuilt(self: DataContract, schema: seq<Field>, origins: seq<FieldOrigin>,
                         geometries: seq<GeometryColumn>,
                         active: Option<FieldId>, sortedBy: Option<seq<FieldId>>, next: int): Outcome<DataContract>
  {
    if !ValidContract(self) then Outcome(Err(SchemaError), next)
    else Construct(schema, origins, geometries, active, sortedBy, Past(next, self.fieldIds.Values))
  }

  /** `field_origins`: a field without an identity stays new. */
  function FieldOrigins(c: DataContract): (r: seq<FieldOrigin>)
    ensures |r| == |c.schema|
    ensures forall i :: 0 <= i < |r| ==>
              r[i] == if c.schema[i].name in c.fieldIds then Preserved(c.fieldIds[c.schema[i].name]) else New
  {
    seq(|c.schema|, i requires 0 <= i < |c.schema| =>
      if c.schema[i].name in c.fieldIds then Preserved(c.fieldIds[c.schema[i].name]) else New)
  }

  // ----- what re-identification preserves

  /** How many of the first i origins are new. */
  function NewBefore(origins: seq<FieldOrigin>, i: nat): nat
    requires i <= |origins|
  {
    if i == 0 then 0 else NewBefore(origins, i - 1) + (if origins[i - 1].New? then 1 else 0)
  }

  /** The identity field i must have: its own, or the next one never used. */
  ghost predicate GivenId(schema: seq<Field>, origins: seq<FieldOrigin>, start: int, ids: map<string, FieldId>, i: nat)
    requires i < |schema| == |origins|
  {
    && schema[i].name in ids
    && ids[schema[i].name] as int == if origins[i].Preserved? then origins[i].id else start + NewBefore(origins, i)
  }

  /** The state of the assignment loop after k fields. */
  ghost predicate AssignedUpTo(schema: seq<Field>, origins: seq<FieldOrigin>, geometries: seq<GeometryColumn>,
                               start: int,
                               k: nat, a: Assignment, next: int)
    requires k <= |schema| == |origins|
  {
    && next == start + NewBefore(origins, k)
    && (forall n :: n in a.fieldIds <==> exists i :: 0 <= i < k && schema[i].name == n)
    && (forall i :: 0 <= i < k ==> GivenId(schema, origins, start, a.fieldIds, i))
    && MappingFollows(geometries, a)
  }

  /** A geometry identity maps to the identity of the geometry's field once that is known. */
  ghost predicate MappingFollows(geometries: seq<GeometryColumn>, a: Assignment) {
    && (forall id :: id in a.mapping <==> HasGeometry(geometries, id))
    && (forall j :: 0 <= j < |geometries| ==> Follows(geometries[j], a))
  }

  ghost predicate Follows(g: GeometryColumn, a: Assignment) {
    && g.fieldId in a.mapping
    && a.mapping[g.fieldId] == if g.name in a.fieldIds then a.fieldIds[g.name] else g.fieldId
  }

  lemma FindDistinct(geometries: seq<GeometryColumn>, j: nat)
    requires j < |geometries| && DistinctGeometries(geometries)
    ensures FindGeometry(geometries, geometries[j].name) == Some(j)
  {
    var g := FindGeometry(geometries, geometries[j].name);
  }

  lemma AssignFieldStep(schema: seq<Field>, origins: seq<FieldOrigin>, geometries: seq<GeometryColumn>, start: int,
                        k: nat, a: Assignment, next: int)
    requires k < |schema| == |origins| && DistinctNames(schema) && DistinctGeometries(geometries)
    requires AssignedUpTo(schema, origins, geometries, start, k, a, next)
    requires AssignField(schema[k], origins[k], geometries, a, next).result.Ok?
    ensures var r := AssignField(schema[k], origins[k], geometries, a, next);
            AssignedUpTo(schema, origins, geometries, start, k + 1, r.result.value, r.next)
  {
    var name := schema[k].name;
    var b := AssignField(schema[k], origins[k], geometries, a, next).result.value;
    assert name !in a.fieldIds;
    assert b.fieldIds == a.fieldIds[name := b.fieldIds[name]];
    forall i | 0 <= i < k + 1 ensures GivenId(schema, origins, start, b.fieldIds, i) {
      if i < k { assert GivenId(schema, origins, start, a.fieldIds, i); }
    }
    MappingStep(schema[k], origins[k], geometries, a, next);
  }

  lemma MappingStep(field: Field, origin: FieldOrigin, geometries: seq<GeometryColumn>, a: Assignment, next: int)
    requires DistinctGeometries(geometries) && field.name !in a.fieldIds
    requires AssignField(field, origin, geometries, a, next).result.Ok?
    requires MappingFollows(geometries, a)
    ensures MappingFollows(geometries, AssignField(field, origin, geometries, a, next).result.value)
  {
    var b := AssignField(field, origin, geometries, a, next).result.value;
    forall j | 0 <= j < |geometries| ensures Follows(geometries[j], b) {
      assert Follows(geometries[j], a);
      FindDistinct(geometries, j);
    }
  }

  lemma {:induction false} AssignMeaning(schema: seq<Field>, origins: seq<FieldOrigin>, geometries: seq<GeometryColumn>,
                                         k: nat, start: int)
    requires k <= |schema| == |origins| && DistinctNames(schema) && DistinctGeometries(geometries)
    requires Assign(schema, origins, geometries, k, start).result.Ok?
    ensures var r := Assign(schema, origins, geometries, k, start);
            AssignedUpTo(schema, origins, geometries, start, k, r.result.value, r.next)
  {
    if k == 0 {
      var a := Assignment(map[], IdentityMapping(geometries, |geometries|));
      forall j | 0 <= j < |geometries| ensures Follows(geometries[j], a) {
      }
    } else {
      AssignMeaning(schema, origins, geometries, k - 1, start);
      var before := Assign(schema, origins, geometries, k - 1, start);
      AssignFieldStep(schema, origins, geometries, start, k - 1, before.result.value, before.next);
    }
  }

  /** The assignment a successful construction went through. */
  ghost function Given(schema: seq<Field>, origins: seq<FieldOrigin>, geometries: seq<GeometryColumn>, next: int)
    : Outcome<Assignment>
    requires |origins| == |schema|
  {
    Assign(schema, origins, geometries, |schema|, ObservedCursor(next, origins, |origins|))
  }

  lemma ConstructGives(schema: seq<Field>, origins: seq<FieldOrigin>, geometries: seq<GeometryColumn>,
                       active: Option<FieldId>, sortedBy: Option<seq<FieldId>>, next: int)
    requires Construct(schema, origins, geometries, active, sortedBy, next).result.Ok?
    ensures |origins| == |schema| && Given(schema, origins, geometries, next).result.Ok?
    ensures DistinctNames(schema) && DistinctGeometries(geometries)
    ensures var given := Given(schema, origins, geometries, next);
            Construct(schema, origins, geometries, active, sortedBy, next)
            == Outcome(Completed(schema, geometries, active, sortedBy, given.result.value), given.next)
  {
    var c := Construct(schema, origins, geometries, active, sortedBy, next).result.value;
    assert ValidContract(c);
    forall j, k | 0 <= j < k < |geometries|
      ensures geometries[j].fieldId != geometries[k].fieldId && geometries[j].name != geometries[k].name
    {
      assert c.geometries[j].name != c.geometries[k].name;
    }
  }

  /** A successful construction is valid, gives every field the identity its origin calls for,
      and gives new fields the identities right after everything observed. */
  lemma ConstructKeepsIdentities(schema: seq<Field>, origins: seq<FieldOrigin>, geometries: seq<GeometryColumn>,
                                 active: Option<FieldId>, sortedBy: Option<seq<FieldId>>, next: int)
    requires Construct(schema, origins, geometries, active, sortedBy, next).result.Ok?
    ensures |origins| == |schema|
    ensures var out := Construct(schema, origins, geometries, active, sortedBy, next);
            var c, start := out.result.value, ObservedCursor(next, origins, |origins|);
            && ValidContract(c) && c.schema == schema && c.sortedBy == sortedBy
            && (forall n :: n in c.fieldIds <==> exists i :: 0 <= i < |schema| && schema[i].name == n)
            && (forall i :: 0 <= i < |schema| ==> GivenId(schema, origins, start, c.fieldIds, i))
            && out.next == start + NewBefore(origins, |origins|)
  {
    ConstructGives(schema, origins, geometries, active, sortedBy, next);
    AssignMeaning(schema, origins, geometries, |schema|, ObservedCursor(next, origins, |origins|));
  }

  /** Every new identity differs from every other field's and from all identities below the
      cursor, which includes the preserved ones. */
  lemma NewIdentitiesAreFresh(schema: seq<Field>, origins: seq<FieldOrigin>, geometries: seq<GeometryColumn>,
                              active: Option<FieldId>, sortedBy: Option<seq<FieldId>>, next: int, i: nat, j: nat)
    requires Construct(schema, origins, geometries, active, sortedBy, next).result.Ok?
    requires i < |schema| && j < |schema| && i != j
    ensures |origins| == |schema|
    ensures var ids := Construct(schema, origins, geometries, active, sortedBy, next).result.value.fieldIds;
            && schema[i].name in ids && schema[j].name in ids && ids[schema[i].name] != ids[schema[j].name]
            && (origins[i].New? ==> ids[schema[i].name] >= next)
            && (origins[i].New? ==>
                  forall k :: 0 <= k < |origins| && origins[k].Preserved? ==> ids[schema[i].name] > origins[k].id)
  {
    ConstructKeepsIdentities(schema, origins, geometries, active, sortedBy, next);
    var c := Construct(schema, origins, geometries, active, sortedBy, next).result.value;
    assert GivenId(schema, origins, ObservedCursor(next, origins, |origins|), c.fieldIds, i);
    assert GivenId(schema, origins, ObservedCursor(next, origins, |origins|), c.fieldIds, j);
    assert schema[i].name != schema[j].name;
    assert Injective(c.fieldIds);
  }

  /** Geometries keep everything but their identity, and the active reference still names
      the column it named before. */
  lemma ActiveFollowsItsColumn(schema: seq<Field>, origins: seq<FieldOrigin>, geometries: seq<GeometryColumn>,
                               active: Option<FieldId>, sortedBy: Option<seq<FieldId>>, next: int)
    requires Construct(schema, origins, geometries, active, sortedBy, next).result.Ok?
    ensures var c := Construct(schema, origins, geometries, active, sortedBy, next).result.value;
            && |c.geometries| == |geometries|
            && (forall k :: 0 <= k < |geometries| ==>
                  geometries[k].name in c.fieldIds
                  && c.geometries[k] == geometries[k].(fieldId := c.fieldIds[geometries[k].name]))
            && (active.None? <==> c.activeGeometry.None?)
            && (active.Some? ==> exists k :: 0 <= k < |geometries| && geometries[k].fieldId == active.value
                                  && c.activeGeometry == Some(c.geometries[k].fieldId))
  {
    ConstructGives(schema, origins, geometries, active, sortedBy, next);
    AssignMeaning(schema, origins, geometries, |schema|, ObservedCursor(next, origins, |origins|));
    var c := Construct(schema, origins, geometries, active, sortedBy, next).result.value;
    var a := Given(schema, origins, geometries, next).result.value;
    assert MappingFollows(geometries, a);
    if active.Some? {
      var k :| 0 <= k < |geometries| && geometries[k].fieldId == active.value;
      assert Follows(geometries[k], a);
      assert c.activeGeometry == Some(c.geometries[k].fieldId);
    }
  }

  // ----- when construction succeeds

  /** The identity field i is to have, read from the origins and the observed cursor alone. */
  function IdOf(origins: seq<FieldOrigin>, start: int, i: nat): int
    requires i < |origins|
  {
    if origins[i].Preserved? then origins[i].id else start + NewBefore(origins, i)
  }

  /** A preserved field that is a geometry carries the geometry's identity. */
  predicate ProvenanceCoherent(schema: seq<Field>, origins: seq<FieldOrigin>, geometries: seq<GeometryColumn>, i: nat)
    requires i < |schema| == |origins|
  {
    var g := FindGeometry(geometries, schema[i].name);
    origins[i].Preserved? && g.Some? ==> geometries[g.value].fieldId == origins[i].id
  }

  predicate PreservedDistinct(origins: seq<FieldOrigin>) {
    forall i, j :: 0 <= i < j < |origins| && origins[i].Preserved? && origins[j].Preserved? ==>
      origins[i].id != origins[j].id
  }

  /** The declared order names distinct identities that some field is to have. */
  predicate OrderKnown(origins: seq<FieldOrigin>, start: int, keys: seq<FieldId>) {
    && keys != []
    && (forall i, j :: 0 <= i < j < |keys| ==> keys[i] != keys[j])
    && (forall i :: 0 <= i < |keys| ==> WillBeGiven(origins, start, keys[i]))
  }

  predicate WillBeGiven(origins: seq<FieldOrigin>, start: int, id: FieldId) {
    exists i :: 0 <= i < |origins| && IdOf(origins, start, i) == id
  }

  /** What the caller of `new` has to bring, all of it readable before the call. */
  ghost predicate Constructible(schema: seq<Field>, origins: seq<FieldOrigin>, geometries: seq<GeometryColumn>,
                          active: Option<FieldId>, sortedBy: Option<seq<FieldId>>, next: int)
  {
    && |origins| == |schema| && DistinctNames(schema) && PreservedDistinct(origins)
    && InSchemaOrder(schema, geometries) && DistinctGeometries(geometries) && NoGeometryOmitted(schema, geometries)
    && (forall k :: 0 <= k < |geometries| ==> ColumnMatches(schema, geometries[k]))
    && CoherentUpTo(schema, origins, geometries, |schema|)
    && (active.Some? ==> HasGeometry(geometries, active.value))
    && var start := ObservedCursor(next, origins, |origins|);
       && start + NewBefore(origins, |origins|) <= ID_LIMIT
       && (sortedBy.Some? ==> OrderKnown(origins, start, sortedBy.value))
  }

  predicate CoherentUpTo(schema: seq<Field>, origins: seq<FieldOrigin>, geometries: seq<GeometryColumn>, k: nat)
    requires k <= |schema| == |origins|
  {
    forall i :: 0 <= i < k ==> ProvenanceCoherent(schema, origins, geometries, i)
  }

  lemma CoherentStep(schema: seq<Field>, origins: seq<FieldOrigin>, geometries: seq<GeometryColumn>, k: nat)
    requires k < |schema| == |origins|
    ensures CoherentUpTo(schema, origins, geometries, k + 1) <==>
            CoherentUpTo(schema, origins, geometries, k) && ProvenanceCoherent(schema, origins, geometries, k)
  {
    hide ProvenanceCoherent;
  }

  /** The loop over the fields gets to field k exactly when the geometries met so far carry the
      preserved identities and the new ones fit below the limit. */
  lemma {:induction false} AssignSucceeds(schema: seq<Field>, origins: seq<FieldOrigin>,
                                          geometries: seq<GeometryColumn>,
                                          k: nat, start: int)
    requires k <= |schema| == |origins| && 0 <= start <= ID_LIMIT
    ensures var r := Assign(schema, origins, geometries, k, start);
            && (r.result.Ok? <==>
                 CoherentUpTo(schema, origins, geometries, k) && start + NewBefore(origins, k) <= ID_LIMIT)
            && (r.result.Ok? ==> r.next == start + NewBefore(origins, k))
  {
    if k > 0 {
      AssignSucceeds(schema, origins, geometries, k - 1, start);
      CoherentStep(schema, origins, geometries, k - 1);
      hide CoherentUpTo;
    }
  }

  /** The loop reaches new field k with every identity used up. */
  predicate RunsOutAt(schema: seq<Field>, origins: seq<FieldOrigin>, geometries: seq<GeometryColumn>, start: int,
                      k: nat)
    requires k < |schema| == |origins|
  {
    origins[k].New? && CoherentUpTo(schema, origins, geometries, k) && start + NewBefore(origins, k) == ID_LIMIT
  }

  predicate RunsOut(schema: seq<Field>, origins: seq<FieldOrigin>, geometries: seq<GeometryColumn>, k: nat, start: int)
    requires k <= |schema| == |origins|
  {
    exists j :: 0 <= j < k && RunsOutAt(schema, origins, geometries, start, j)
  }

  lemma {:induction false} AssignRunsOut(schema: seq<Field>, origins: seq<FieldOrigin>,
                                         geometries: seq<GeometryColumn>, k: nat, start: int)
    requires k <= |schema| == |origins| && 0 <= start <= ID_LIMIT
    ensures Assign(schema, origins, geometries, k, start).result == Err(Exhausted) <==>
            RunsOut(schema, origins, geometries, k, start)
  {
    if k > 0 {
      hide CoherentUpTo, FindGeometry;
      AssignRunsOut(schema, origins, geometries, k - 1, start);
      AssignSucceeds(schema, origins, geometries, k - 1, start);
      assert Assign(schema, origins, geometries, k, start).result == Err(Exhausted) <==>
             Assign(schema, origins, geometries, k - 1, start).result == Err(Exhausted)
             || RunsOutAt(schema, origins, geometries, start, k - 1);
    }
  }

  lemma {:induction false} NewBeforeGrows(origins: seq<FieldOrigin>, i: nat, j: nat)
    requires i < j <= |origins|
    ensures NewBefore(origins, i) <= NewBefore(origins, j)
    ensures origins[i].New? ==> NewBefore(origins, i) < NewBefore(origins, j)
    decreases j
  {
    if i + 1 < j {
      NewBeforeGrows(origins, i, j - 1);
    }
  }

  /** Two fields are to have the same identity only if both preserve it. */
  lemma SameIdPreserved(origins: seq<FieldOrigin>, start: int, i: nat, j: nat)
    requires i < j < |origins|
    requires forall k :: 0 <= k < |origins| && origins[k].Preserved? ==> origins[k].id < start
    ensures IdOf(origins, start, i) == IdOf(origins, start, j) <==>
            origins[i].Preserved? && origins[j].Preserved? && origins[i].id == origins[j].id
  {
    NewBeforeGrows(origins, i, j);
  }

  /** The assignment loop has given every field its identity. */
  ghost predicate AllGiven(schema: seq<Field>, origins: seq<FieldOrigin>, start: int, ids: map<string, FieldId>) {
    && |origins| == |schema| && DistinctNames(schema)
    && (forall i :: 0 <= i < |origins| && origins[i].Preserved? ==> origins[i].id < start)
    && (forall n :: n in ids <==> exists i :: 0 <= i < |schema| && schema[i].name == n)
    && (forall i :: 0 <= i < |schema| ==> GivenId(schema, origins, start, ids, i))
  }

  /** No identity is given twice exactly when none is preserved twice. */
  lemma GivenOnce(schema: seq<Field>, origins: seq<FieldOrigin>, start: int, ids: map<string, FieldId>)
    requires AllGiven(schema, origins, start, ids)
    ensures Injective(ids) <==> PreservedDistinct(origins)
  {
    if PreservedDistinct(origins) {
      forall a, b | a in ids && b in ids && ids[a] == ids[b] ensures a == b {
        var i :| 0 <= i < |schema| && schema[i].name == a;
        var j :| 0 <= j < |schema| && schema[j].name == b;
        assert GivenId(schema, origins, start, ids, i) && GivenId(schema, origins, start, ids, j);
        if i < j { SameIdPreserved(origins, start, i, j); } else if j < i { SameIdPreserved(origins, start, j, i); }
      }
    }
    if Injective(ids) {
      forall i, j | 0 <= i < j < |origins| && origins[i].Preserved? && origins[j].Preserved?
        ensures origins[i].id != origins[j].id
      {
        assert GivenId(schema, origins, start, ids, i) && GivenId(schema, origins, start, ids, j);
        assert schema[i].name != schema[j].name;
      }
    }
  }

  lemma GivenValues(schema: seq<Field>, origins: seq<FieldOrigin>, start: int, ids: map<string, FieldId>, id: FieldId)
    requires AllGiven(schema, origins, start, ids)
    ensures id in ids.Values <==> WillBeGiven(origins, start, id)
  {
    if id in ids.Values {
      var n :| n in ids && ids[n] == id;
      var i :| 0 <= i < |schema| && schema[i].name == n;
      assert GivenId(schema, origins, start, ids, i);
      assert IdOf(origins, start, i) == id;
    }
    if i :| 0 <= i < |origins| && IdOf(origins, start, i) == id {
      assert GivenId(schema, origins, start, ids, i);
      assert ids[schema[i].name] == id;
    }
  }

  lemma PositionsByName(schema: seq<Field>, a: seq<GeometryColumn>, b: seq<GeometryColumn>)
    requires |a| == |b| && forall k :: 0 <= k < |a| ==> a[k].name == b[k].name
    ensures InSchemaOrder(schema, a) <==> InSchemaOrder(schema, b)
    ensures NoGeometryOmitted(schema, a) <==> NoGeometryOmitted(schema, b)
  {
    assert Positions(schema, a) == Positions(schema, b);
    assert forall n :: Named(a, n) <==> Named(b, n);
  }

  /** With every field identified, the output is valid exactly when the parts the caller brought fit. */
  lemma OutputIsValid(schema: seq<Field>, origins: seq<FieldOrigin>, geometries: seq<GeometryColumn>, start: int,
                      c: DataContract)
    requires AllGiven(schema, origins, start, c.fieldIds) && c.schema == schema
    requires AllNamed(geometries, c.fieldIds) && c.geometries == Reidentified(geometries, c.fieldIds)
    requires DistinctGeometries(geometries)
    requires c.activeGeometry.Some? ==> HasGeometry(c.geometries, c.activeGeometry.value)
    ensures ValidContract(c) <==>
            && PreservedDistinct(origins) && InSchemaOrder(schema, geometries) && NoGeometryOmitted(schema, geometries)
            && (forall k :: 0 <= k < |geometries| ==> ColumnMatches(schema, geometries[k]))
            && (c.sortedBy.Some? ==> OrderKnown(origins, start, c.sortedBy.value))
  {
    hide ColumnMatches;
    GivenOnce(schema, origins, start, c.fieldIds);
    PositionsByName(schema, geometries, c.geometries);
    if c.sortedBy.Some? {
      forall i | 0 <= i < |c.sortedBy.value|
        ensures c.sortedBy.value[i] in c.fieldIds.Values <==> WillBeGiven(origins, start, c.sortedBy.value[i])
      {
        GivenValues(schema, origins, start, c.fieldIds, c.sortedBy.value[i]);
      }
    }
    forall k | 0 <= k < |geometries|
      ensures GeometryCoherent(c, c.geometries[k]) <==> ColumnMatches(schema, geometries[k])
    {
      assert c.geometries[k] == geometries[k].(fieldId := c.fieldIds[geometries[k].name]);
      ColumnIgnoresId(schema, geometries[k], c.fieldIds[geometries[k].name]);
    }
    if Injective(c.fieldIds) {
      assert DistinctGeometries(c.geometries);
    }
    forall n | n in c.fieldIds ensures IndexOf(schema, n).Some? {
      var i :| 0 <= i < |schema| && schema[i].name == n;
    }
  }

  lemma ColumnIgnoresId(schema: seq<Field>, g: GeometryColumn, id: FieldId)
    ensures ColumnMatches(schema, g.(fieldId := id)) <==> ColumnMatches(schema, g)
  {
    hide SameKeys, GeometryTypesProperty.Valid;
  }

  /** The active reference of the output names one of its geometries. */
  lemma ActiveIsGeometry(geometries: seq<GeometryColumn>, a: Assignment, id: FieldId)
    requires MappingFollows(geometries, a) && AllNamed(geometries, a.fieldIds)
    ensures id in a.mapping <==> HasGeometry(geometries, id)
    ensures id in a.mapping ==> HasGeometry(Reidentified(geometries, a.fieldIds), a.mapping[id])
  {
    if id in a.mapping {
      var k :| 0 <= k < |geometries| && geometries[k].fieldId == id;
      assert Follows(geometries[k], a);
      assert Reidentified(geometries, a.fieldIds)[k].fieldId == a.mapping[id];
    }
  }

  lemma OrderedAreNamed(schema: seq<Field>, origins: seq<FieldOrigin>, geometries: seq<GeometryColumn>, start: int,
                        ids: map<string, FieldId>)
    requires AllGiven(schema, origins, start, ids) && InSchemaOrder(schema, geometries)
    ensures AllNamed(geometries, ids)
  {
    forall k | 0 <= k < |geometries| ensures geometries[k].name in ids {
      assert Positions(schema, geometries)[k] >= 0;
      assert schema[IndexOf(schema, geometries[k].name).value].name == geometries[k].name;
    }
  }

  /** What remains after the loop succeeds exactly when the caller's parts fit. */
  lemma CompletedSucceeds(schema: seq<Field>, origins: seq<FieldOrigin>, geometries: seq<GeometryColumn>,
                          active: Option<FieldId>, sortedBy: Option<seq<FieldId>>, start: int, a: Assignment)
    requires AllGiven(schema, origins, start, a.fieldIds) && MappingFollows(geometries, a)
    requires DistinctGeometries(geometries)
    ensures Completed(schema, geometries, active, sortedBy, a).Ok? <==>
            && PreservedDistinct(origins) && InSchemaOrder(schema, geometries) && NoGeometryOmitted(schema, geometries)
            && (forall k :: 0 <= k < |geometries| ==> ColumnMatches(schema, geometries[k]))
            && (active.Some? ==> HasGeometry(geometries, active.value))
            && (sortedBy.Some? ==> OrderKnown(origins, start, sortedBy.value))
  {
    hide ColumnMatches, OrderKnown, PreservedDistinct, NoGeometryOmitted, AllGiven, MappingFollows, ValidContract;
    if InSchemaOrder(schema, geometries) {
      OrderedAreNamed(schema, origins, geometries, start, a.fieldIds);
    }
    if AllNamed(geometries, a.fieldIds) {
      if active.Some? { ActiveIsGeometry(geometries, a, active.value); }
      if active.Some? ==> active.value in a.mapping {
        var c := DataContract(schema, a.fieldIds, Reidentified(geometries, a.fieldIds),
                              if active.Some? then Some(a.mapping[active.value]) else None, sortedBy);
        OutputIsValid(schema, origins, geometries, start, c);
      }
    }
  }

  lemma LoopGivesAll(schema: seq<Field>, origins: seq<FieldOrigin>, geometries: seq<GeometryColumn>, next: int)
    requires |origins| == |schema| && DistinctNames(schema) && DistinctGeometries(geometries)
    requires Given(schema, origins, geometries, next).result.Ok?
    ensures var a := Given(schema, origins, geometries, next).result.value;
            && AllGiven(schema, origins, ObservedCursor(next, origins, |origins|), a.fieldIds)
            && MappingFollows(geometries, a)
  {
    AssignMeaning(schema, origins, geometries, |schema|, ObservedCursor(next, origins, |origins|));
  }

  /** `new` succeeds exactly on what a caller can check before the call. */
  lemma ConstructSucceeds(schema: seq<Field>, origins: seq<FieldOrigin>, geometries: seq<GeometryColumn>,
                          active: Option<FieldId>, sortedBy: Option<seq<FieldId>>, next: int)
    requires 0 <= next <= ID_LIMIT
    ensures Construct(schema, origins, geometries, active, sortedBy, next).result.Ok? <==>
            Constructible(schema, origins, geometries, active, sortedBy, next)
  {
    hide ColumnMatches, OrderKnown, PreservedDistinct, NoGeometryOmitted, InSchemaOrder, AllGiven, MappingFollows;
    hide Completed;
    if Construct(schema, origins, geometries, active, sortedBy, next).result.Ok? {
      ConstructGives(schema, origins, geometries, active, sortedBy, next);
    }
    if |origins| == |schema| && DistinctNames(schema) && DistinctGeometries(geometries) {
      var start := ObservedCursor(next, origins, |origins|);
      AssignSucceeds(schema, origins, geometries, |schema|, start);
      if Given(schema, origins, geometries, next).result.Ok? {
        LoopGivesAll(schema, origins, geometries, next);
        CompletedSucceeds(schema, origins, geometries, active, sortedBy, start,
                          Given(schema, origins, geometries, next).result.value);
      }
    }
  }

  /** `new` runs out of identities exactly when the loop reaches a new field with none left;
      every other refusal is a schema error. */
  lemma ConstructRunsOut(schema: seq<Field>, origins: seq<FieldOrigin>, geometries: seq<GeometryColumn>,
                         active: Option<FieldId>, sortedBy: Option<seq<FieldId>>, next: int)
    requires 0 <= next <= ID_LIMIT
    ensures Construct(schema, origins, geometries, active, sortedBy, next).result == Err(Exhausted) <==>
            && |origins| == |schema| && DistinctIds(geometries, |geometries|)
            && RunsOut(schema, origins, geometries, |schema|, ObservedCursor(next, origins, |origins|))
  {
    hide RunsOut, ValidContract, DistinctIds;
    if |origins| == |schema| {
      AssignRunsOut(schema, origins, geometries, |schema|, ObservedCursor(next, origins, |origins|));
    }
  }

  // ----- rebuilding in place

  ghost predicate FullyIdentified(c: DataContract) {
    forall i :: 0 <= i < |c.schema| ==> c.schema[i].name in c.fieldIds
  }

  lemma {:induction false} ObservedAlready(next: int, origins: seq<FieldOrigin>, k: nat)
    requires k <= |origins| && forall i :: 0 <= i < k && origins[i].Preserved? ==> origins[i].id < next
    ensures ObservedCursor(next, origins, k) == next
  {
    if k > 0 { ObservedAlready(next, origins, k - 1); }
  }

  ghost predicate SameUpTo(c: DataContract, k: nat, ids: map<string, FieldId>)
    requires k <= |c.schema|
  {
    && (forall n :: n in ids <==> exists i :: 0 <= i < k && c.schema[i].name == n)
    && (forall n :: n in ids ==> n in c.fieldIds && ids[n] == c.fieldIds[n])
  }

  /** The part of validity the assignment loop relies on. */
  ghost predicate GeometriesRegistered(c: DataContract) {
    forall j :: 0 <= j < |c.geometries| ==>
      c.geometries[j].name in c.fieldIds && c.fieldIds[c.geometries[j].name] == c.geometries[j].fieldId
  }

  lemma ValidIsRegistered(c: DataContract)
    requires ValidContract(c)
    ensures GeometriesRegistered(c)
  {
    forall j | 0 <= j < |c.geometries|
      ensures c.geometries[j].name in c.fieldIds && c.fieldIds[c.geometries[j].name] == c.geometries[j].fieldId
    {
      assert GeometryCoherent(c, c.geometries[j]);
    }
  }

  lemma SameUpToStep(c: DataContract, k: nat, ids: map<string, FieldId>)
    requires FullyIdentified(c) && k < |c.schema| && SameUpTo(c, k, ids)
    ensures SameUpTo(c, k + 1, ids[c.schema[k].name := c.fieldIds[c.schema[k].name]])
  {
  }

  lemma PreservedField(c: DataContract, k: nat, a: Assignment, next: int)
    requires GeometriesRegistered(c) && FullyIdentified(c) && k < |c.schema|
    ensures AssignField(c.schema[k], FieldOrigins(c)[k], c.geometries, a, next)
         == Outcome(Ok(a.(fieldIds := a.fieldIds[c.schema[k].name := c.fieldIds[c.schema[k].name]])), next)
  {
  }

  ghost predicate Kept(c: DataContract, k: nat, r: Outcome<Assignment>, next: int)
    requires k <= |c.schema|
  {
    && r.next == next && r.result.Ok? && SameUpTo(c, k, r.result.value.fieldIds)
    && r.result.value.mapping == IdentityMapping(c.geometries, |c.geometries|)
  }

  lemma KeptStep(c: DataContract, k: nat, r: Outcome<Assignment>, next: int)
    requires GeometriesRegistered(c) && FullyIdentified(c) && k < |c.schema| && Kept(c, k, r, next)
    ensures Kept(c, k + 1, AssignField(c.schema[k], FieldOrigins(c)[k], c.geometries, r.result.value, r.next), next)
  {
    PreservedField(c, k, r.result.value, next);
    SameUpToStep(c, k, r.result.value.fieldIds);
  }

  lemma NothingKept(c: DataContract)
    ensures SameUpTo(c, 0, map[])
  {
  }

  lemma {:induction false} AssignPreserved(c: DataContract, k: nat, next: int)
    requires GeometriesRegistered(c) && FullyIdentified(c) && k <= |c.schema|
    ensures Kept(c, k, Assign(c.schema, FieldOrigins(c), c.geometries, k, next), next)
  {
    hide FieldOrigins, GeometriesRegistered, FullyIdentified, AssignField, SameUpTo, IdentityMapping;
    if k == 0 {
      NothingKept(c);
    } else {
      AssignPreserved(c, k - 1, next);
      KeptStep(c, k - 1, Assign(c.schema, FieldOrigins(c), c.geometries, k - 1, next), next);
    }
  }

  lemma SameGeometries(c: DataContract)
    requires ValidContract(c)
    ensures AllNamed(c.geometries, c.fieldIds) && Reidentified(c.geometries, c.fieldIds) == c.geometries
    ensures DistinctIds(c.geometries, |c.geometries|)
  {
    ValidIsRegistered(c);
  }

  lemma CompletedSame(c: DataContract)
    requires ValidContract(c)
    ensures Completed(c.schema, c.geometries, c.activeGeometry, c.sortedBy,
                      Assignment(c.fieldIds, IdentityMapping(c.geometries, |c.geometries|))) == Ok(c)
  {
    SameGeometries(c);
    if c.activeGeometry.Some? {
      assert HasGeometry(c.geometries, c.activeGeometry.value);
    }
  }

  lemma OriginsObserved(c: DataContract, next: int)
    ensures var start := Past(next, c.fieldIds.Values);
            ObservedCursor(start, FieldOrigins(c), |FieldOrigins(c)|) == start
  {
    var start := Past(next, c.fieldIds.Values);
    var origins := FieldOrigins(c);
    forall i | 0 <= i < |origins| && origins[i].Preserved? ensures origins[i].id < start {
      assert origins[i].id in c.fieldIds.Values;
    }
    ObservedAlready(start, origins, |origins|);
  }

  /** Rebuilding a valid, fully identified contract from its own origins changes nothing and
      allocates nothing. */
  lemma RebuildIsIdentity(c: DataContract, next: int)
    requires ValidContract(c) && FullyIdentified(c)
    ensures Rebuilt(c, c.schema, FieldOrigins(c), c.geometries, c.activeGeometry, c.sortedBy, next)
         == Outcome(Ok(c), Past(next, c.fieldIds.Values))
  {
    var start := Past(next, c.fieldIds.Values);
    OriginsObserved(c, next);
    SameGeometries(c);
    ValidIsRegistered(c);
    AssignPreserved(c, |c.schema|, start);
    RegistryIsSchema(c, Assign(c.schema, FieldOrigins(c), c.geometries, |c.schema|, start).result.value.fieldIds);
    CompletedSame(c);
  }

  lemma RegistryIsSchema(c: DataContract, ids: map<string, FieldId>)
    requires ValidContract(c) && FullyIdentified(c) && SameUpTo(c, |c.schema|, ids)
    ensures ids == c.fieldIds
  {
    forall n | n in c.fieldIds ensures n in ids {
      assert IndexOf(c.schema, n).Some?;
    }
  }

  /** A partially identified contract keeps the identities it has; the missing ones are fresh. */
  lemma RebuildKeepsKnownIds(c: DataContract, next: int, i: nat)
    requires ValidContract(c) && i < |c.schema|
    requires Rebuilt(c, c.schema, FieldOrigins(c), c.geometries, c.activeGeometry, c.sortedBy, next).result.Ok?
    ensures var ids := Rebuilt(c, c.schema, FieldOrigins(c), c.geometries, c.activeGeometry, c.sortedBy, next)
                         .result.value.fieldIds;
            && c.schema[i].name in ids
            && if c.schema[i].name in c.fieldIds then ids[c.schema[i].name] == c.fieldIds[c.schema[i].name]
               else ids[c.schema[i].name] !in c.fieldIds.Values
  {
    var start := Past(next, c.fieldIds.Values);
    var origins := FieldOrigins(c);
    ConstructKeepsIdentities(c.schema, origins, c.geometries, c.activeGeometry, c.sortedBy, start);
    var ids := Construct(c.schema, origins, c.geometries, c.activeGeometry, c.sortedBy, start).result.value.fieldIds;
    assert GivenId(c.schema, origins, ObservedCursor(start, origins, |origins|), ids, i);
  }

  // ----- the operations

  /** `DataContract::new`: observes, maps geometry identities, assigns field by field. */
  method NewContract(schema: seq<Field>, origins: seq<FieldOrigin>, geometries: seq<GeometryColumn>,
                     active: Option<FieldId>, sortedBy: Option<seq<FieldId>>, allocator: FieldAllocator)
    returns (r: Result<DataContract, ContractError>)
    requires allocator.Valid()
    modifies allocator`next
    ensures allocator.Valid()
    ensures Outcome(r, allocator.next) == Construct(schema, origins, geometries, active, sortedBy, old(allocator.next))
  {
    if |origins| != |schema| {
      return Err(SchemaError);
    }
    for k := 0 to |origins|
      invariant allocator.Valid() && allocator.next == ObservedCursor(old(allocator.next), origins, k)
    {
      if origins[k].Preserved? {
        allocator.ObserveId(origins[k].id);
      }
    }
    var distinct := CheckGeometryIds(geometries);
    if !distinct {
      return Err(SchemaError);
    }
    var given := AssignAll(schema, origins, geometries, allocator);
    if given.Err? {
      return Err(given.error);
    }
    var a := given.value;
    if active.Some? && active.value !in a.mapping {
      return Err(SchemaError);
    }
    if !AllNamed(geometries, a.fieldIds) {
      return Err(SchemaError);
    }
    var output := DataContract(schema, a.fieldIds, Reidentified(geometries, a.fieldIds),
                               if active.Some? then Some(a.mapping[active.value]) else None, sortedBy);
    var valid := Validate(output);
    if valid.Err? {
      return Err(SchemaError);
    }
    return Ok(output);
  }

  method CheckGeometryIds(geometries: seq<GeometryColumn>) returns (ok: bool)
    ensures ok <==> DistinctIds(geometries, |geometries|)
  {
    for k := 0 to |geometries|
      invariant DistinctIds(geometries, k)
    {
      if geometries[k].fieldId in IdentityMapping(geometries, k) {
        return false;
      }
    }
    return true;
  }

  /** The loop over the fields. */
  method AssignAll(schema: seq<Field>, origins: seq<FieldOrigin>, geometries: seq<GeometryColumn>,
                   allocator: FieldAllocator)
    returns (r: Result<Assignment, ContractError>)
    requires allocator.Valid() && |origins| == |schema|
    modifies allocator`next
    ensures allocator.Valid()
    ensures Outcome(r, allocator.next) == Assign(schema, origins, geometries, |schema|, old(allocator.next))
  {
    var fieldIds: map<string, FieldId> := map[];
    var mapping := IdentityMapping(geometries, |geometries|);
    for k := 0 to |schema|
      invariant allocator.Valid()
      invariant Outcome(Ok(Assignment(fieldIds, mapping)), allocator.next)
             == Assign(schema, origins, geometries, k, old(allocator.next))
    {
      ghost var before := Assignment(fieldIds, mapping);
      ghost var cursor := allocator.next;
      var step := AssignOne(schema[k], origins[k], geometries, before, fieldIds, mapping, allocator);
      assert Outcome(step, allocator.next) == Assign(schema, origins, geometries, k + 1, old(allocator.next));
      if step.Err? {
        ErrorStays(schema, origins, geometries, k + 1, old(allocator.next));
        return step;
      }
      fieldIds, mapping := step.value.fieldIds, step.value.mapping;
    }
    return Ok(Assignment(fieldIds, mapping));
  }

  method AssignOne(field: Field, origin: FieldOrigin, geometries: seq<GeometryColumn>, ghost before: Assignment,
                   fieldIds: map<string, FieldId>, mapping: map<FieldId, FieldId>, allocator: FieldAllocator)
    returns (r: Result<Assignment, ContractError>)
    requires allocator.Valid() && before == Assignment(fieldIds, mapping)
    modifies allocator`next
    ensures allocator.Valid()
    ensures Outcome(r, allocator.next) == AssignField(field, origin, geometries, before, old(allocator.next))
  {
    var g := FindGeometry(geometries, field.name);
    match origin {
      case Preserved(id) =>
        if g.Some? && geometries[g.value].fieldId != id {
          return Err(SchemaError);
        }
        return Ok(Assignment(fieldIds[field.name := id], mapping));
      case New =>
        var id := allocator.AllocId();
        if id.Err? {
          return Err(Exhausted);
        }
        var next := if g.Some? then mapping[geometries[g.value].fieldId := id.value] else mapping;
        return Ok(Assignment(fieldIds[field.name := id.value], next));
    }
  }

  lemma {:induction false} ErrorStays(schema: seq<Field>, origins: seq<FieldOrigin>, geometries: seq<GeometryColumn>,
                                      k: nat, next: int)
    requires k <= |schema| == |origins| && Assign(schema, origins, geometries, k, next).result.Err?
    ensures Assign(schema, origins, geometries, |schema|, next) == Assign(schema, origins, geometries, k, next)
    decreases |schema| - k
  {
    if k < |schema| {
      ErrorStays(schema, origins, geometries, k + 1, next);
    }
  }

  /** Observes every identity of a registry. */
  method ObserveAll(ids: set<FieldId>, allocator: FieldAllocator)
    requires allocator.Valid()
    modifies allocator`next
    ensures allocator.Valid() && allocator.next == Past(old(allocator.next), ids)
  {
    var todo := ids;
    while todo != {}
      invariant allocator.Valid() && todo <= ids
      invariant allocator.next == Past(old(allocator.next), ids - todo)
      decreases |todo|
    {
      var id :| id in todo;
      PastInsert(old(allocator.next), ids - todo, id);
      assert ids - (todo - {id}) == ids - todo + {id};
      allocator.ObserveId(id);
      todo := todo - {id};
    }
    assert ids - todo == ids;
  }

  /** `rebuild`. */
  method Rebuild(self: DataContract, schema: seq<Field>, origins: seq<FieldOrigin>, geometries: seq<GeometryColumn>,
                 active: Option<FieldId>, sortedBy: Option<seq<FieldId>>, allocator: FieldAllocator)
    returns (r: Result<DataContract, ContractError>)
    requires allocator.Valid()
    modifies allocator`next
    ensures allocator.Valid()
    ensures Outcome(r, allocator.next)
         == Rebuilt(self, schema, origins, geometries, active, sortedBy, old(allocator.next))
  {
    var valid := Validate(self);
    if valid.Err? {
      return Err(SchemaError);
    }
    ObserveAll(self.fieldIds.Values, allocator);
    r := NewContract(schema, origins, geometries, active, sortedBy, allocator);
  }

  /** The registry `from_source` collects; a repeated name keeps its last geometry. */
  function SourceRegistry(geometries: seq<GeometryColumn>, k: nat): (m: map<string, FieldId>)
    requires k <= |geometries|
    ensures forall n :: n in m <==> exists j :: 0 <= j < k && geometries[j].name == n
  {
    if k == 0 then map[] else SourceRegistry(geometries, k - 1)[geometries[k - 1].name := geometries[k - 1].fieldId]
  }

  /** `from_source`: only the geometries are identified, by the reader's own identities. */
  method FromSource(schema: seq<Field>, geometries: seq<GeometryColumn>, active: Option<FieldId>,
                    sortedBy: Option<seq<FieldId>>) returns (r: Result<DataContract, ContractError>)
    ensures r.Ok? ==> ValidContract(r.value) && r.value.schema == schema && r.value.geometries == geometries
                      && r.value.activeGeometry == active && r.value.sortedBy == sortedBy
    ensures r.Ok? ==> forall n :: n in r.value.fieldIds <==> Named(geometries, n)
    ensures r.Err? <==>
      !ValidContract(DataContract(schema, SourceRegistry(geometries, |geometries|), geometries, active, sortedBy))
  {
    var contract := DataContract(schema, SourceRegistry(geometries, |geometries|), geometries, active, sortedBy);
    var valid := Validate(contract);
    if valid.Err? {
      return Err(SchemaError);
    }
    return Ok(contract);
  }

  /** A rebuild starts from a valid contract, and from any origins the new identities are none of its
      registry's. */
  lemma RebuildAvoidsRegistry(c: DataContract, schema: seq<Field>, origins: seq<FieldOrigin>,
                              geometries: seq<GeometryColumn>, active: Option<FieldId>,
                              sortedBy: Option<seq<FieldId>>, next: int, i: nat)
    requires Rebuilt(c, schema, origins, geometries, active, sortedBy, next).result.Ok?
    requires i < |schema|
    ensures ValidContract(c) && |origins| == |schema|
    ensures var ids := Rebuilt(c, schema, origins, geometries, active, sortedBy, next).result.value.fieldIds;
            && schema[i].name in ids
            && (origins[i].New? ==> ids[schema[i].name] !in c.fieldIds.Values && ids[schema[i].name] >= next)
  {
    var start := Past(next, c.fieldIds.Values);
    ConstructKeepsIdentities(schema, origins, geometries, active, sortedBy, start);
    var ids := Construct(schema, origins, geometries, active, sortedBy, start).result.value.fieldIds;
    assert GivenId(schema, origins, ObservedCursor(start, origins, |origins|), ids, i);
  }

  /** A source contract rebuilt from its own origins keeps its geometries' identities. */
  lemma SourceRebuildKeepsGeometries(c: DataContract, next: int, k: nat)
    requires ValidContract(c) && k < |c.geometries|
    requires Rebuilt(c, c.schema, FieldOrigins(c), c.geometries, c.activeGeometry, c.sortedBy, next).result.Ok?
    ensures var d := Rebuilt(c, c.schema, FieldOrigins(c), c.geometries, c.activeGeometry, c.sortedBy, next)
                         .result.value;
            |d.geometries| == |c.geometries| && d.geometries[k] == c.geometries[k]
  {
    var start := Past(next, c.fieldIds.Values);
    ActiveFollowsItsColumn(c.schema, FieldOrigins(c), c.geometries, c.activeGeometry, c.sortedBy, start);
    var i := IndexOf(c.schema, c.geometries[k].name).value;
    RebuildKeepsKnownIds(c, next, i);
    ValidIsRegistered(c);
  }
}
