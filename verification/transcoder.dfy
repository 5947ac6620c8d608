/** `geojson_to_ndjson` (ogr2bqjson.py:538-596) without the file I/O: from
    the parsed lines of a GeoJSONSeq file to the output rows and the schema
    map, or the error of the first line that raises. `json.dumps` is the
    parameter `dumps`; nothing is assumed about it. The column spec is a
    map as `get_columns` returns it, each key once, so `Get` finds the one
    value Python's `in` and indexing see. */
module Transcoder {
  import opened Wrappers
  import opened Json
  import opened Dicts
  import opened ColumnTypes

  /** The member of a line that holds its properties. */
  const PropertiesKey := "properties"

  /** Column-spec keys the transcoder looks at; any other key is ignored. */
  const GeometryKey := "geometry"
  const GeojsonKey := "geojson"
  const GeojsonGeometryKey := "geojson_geometry"

  /** One line of the GeoJSONSeq file after `ndjson.loads(line)[0]`: the
      members of the feature object, in document order. */
  datatype Feature = Feature(members: Dict<string, Value>)

  /** What parsing a line gives and the model relies on: keys are unique,
      as in every parsed JSON object, also inside an object `properties`,
      and `properties` is not a non-empty array (indexing a list by its own
      items is not modelled). */
  predicate Parsed(f: Feature) {
    && Unique(f.members)
    && match Get(f.members, PropertiesKey)
       case None => true
       case Some(p) => (p.JObject? ==> Unique(p.members)) && (p.JArray? ==> p.items == [])
  }

  /** Why `geojson_to_ndjson` stops on a line. */
  datatype LineError =
    | PropertiesTypeError  // `for key in properties` on null, a boolean or a number, or `properties[key]` on a non-empty string
    | GeometryKeyError     // `line_item['geometry']` on a line without one

  /** The column spec asks for the geometry (ogr2bqjson.py:578, 582). */
  predicate NeedsGeometry(columns: Dict<string, string>) {
    Get(columns, GeometryKey).Some? || Get(columns, GeojsonGeometryKey).Some?
  }

  /** The error one line raises, if any: the properties are read first
      (ogr2bqjson.py:571-576), the geometry only when a column needs it. */
  function LineProblem(f: Feature, columns: Dict<string, string>): Option<LineError> {
    var props := Get(f.members, PropertiesKey);
    if props.Some? && NotPropertyMap(props.value) then Some(PropertiesTypeError)
    else if NeedsGeometry(columns) && Get(f.members, GeometryKey).None? then Some(GeometryKeyError)
    else None
  }

  /** The `properties` values the loop at ogr2bqjson.py:573-574 raises a
      `TypeError` on: nothing to iterate, or a string with characters to
      index by. */
  predicate NotPropertyMap(p: Value) {
    p.JNull? || p.JBool? || p.JInt? || p.JFloat? || (p.JString? && p.s != [])
  }

  /** A line the program converts under the column spec `columns`. */
  predicate WellFormed(f: Feature, columns: Dict<string, string>) {
    Parsed(f) && LineProblem(f, columns).None?
  }

  /** `line_item.get('properties', {})`, iterated: an absent member, an
      empty array and an empty string give no properties. */
  function Properties(f: Feature): (props: Dict<string, Value>)
    ensures Parsed(f) ==> Unique(props)
    // an object's members, in order
    ensures Get(f.members, PropertiesKey).Some? && Get(f.members, PropertiesKey).value.JObject? ==>
              props == Get(f.members, PropertiesKey).value.members
    // nothing to iterate
    ensures Get(f.members, PropertiesKey).None? ==> props == []
    ensures Get(f.members, PropertiesKey) == Some(JArray([])) || Get(f.members, PropertiesKey) == Some(JString([])) ==>
              props == []
  {
    match Get(f.members, PropertiesKey)
    case Some(p) => if p.JObject? then p.members else []
    case None => []
  }

  /** `line_item['geometry']`. */
  function Geometry(f: Feature): Value
    requires Get(f.members, GeometryKey).Some?
  {
    Get(f.members, GeometryKey).value
  }

  /** The output names a column spec gives the three geographic columns. */
  function GeoNames(columns: Dict<string, string>): (names: set<string>)
    ensures forall n :: n in names <==>
              Get(columns, GeometryKey) == Some(n) || Get(columns, GeojsonKey) == Some(n)
              || Get(columns, GeojsonGeometryKey) == Some(n)
  {
    (if Get(columns, GeometryKey).Some? then {Get(columns, GeometryKey).value} else {})
    + (if Get(columns, GeojsonKey).Some? then {Get(columns, GeojsonKey).value} else {})
    + (if Get(columns, GeojsonGeometryKey).Some? then {Get(columns, GeojsonGeometryKey).value} else {})
  }

  /** The configured output names of the geographic columns, in the order
      the program assigns them: `geometry`, `geojson`, `geojson_geometry`. */
  function GeoNameSeq(columns: Dict<string, string>): seq<string> {
    OptionSeq(Get(columns, GeometryKey)) + OptionSeq(Get(columns, GeojsonKey))
    + OptionSeq(Get(columns, GeojsonGeometryKey))
  }

  function OptionSeq(o: Option<string>): seq<string> {
    if o.Some? then [o.value] else []
  }

  /** `if name is configured: d[name] = v`. */
  function PutNamed<V>(d: Dict<string, V>, name: Option<string>, v: V): Dict<string, V> {
    if name.Some? then Put(d, name.value, v) else d
  }

  /** Assigns the three geographic columns, in the program's order
      (`geometry`, `geojson`, `geojson_geometry`), under the names the
      column spec gives them; unconfigured ones are skipped. Used both for
      a row (ogr2bqjson.py:578-583) and for the schema (586-591). */
  function PutGeo<V>(d: Dict<string, V>, columns: Dict<string, string>, geometry: V, geojson: V, geojsonGeometry: V): Dict<string, V> {
    var d := PutNamed(d, Get(columns, GeometryKey), geometry);
    var d := PutNamed(d, Get(columns, GeojsonKey), geojson);
    PutNamed(d, Get(columns, GeojsonGeometryKey), geojsonGeometry)
  }

  /** `json.dumps(line_item['geometry'])`; on a line without a geometry no
      column holds it, and `null` stands in. */
  function GeometryText(f: Feature, dumps: Value -> string): Value {
    match Get(f.members, GeometryKey)
    case Some(g) => JString(dumps(g))
    case None => JNull
  }

  /** One output row (ogr2bqjson.py:569-584): the feature's properties copied
      key by key, then the configured geographic columns, each holding
      serialised JSON text. Every property of the feature is there
      unchanged, and no other key, except where a geographic column's name
      takes over; property keys keep their order at the front of the row. */
  function BuildRow(f: Feature, columns: Dict<string, string>, dumps: Value -> string): (row: Dict<string, Value>)
    requires WellFormed(f, columns)
    ensures forall k :: k !in GeoNames(columns) ==> Get(row, k) == Get(Properties(f), k)
    ensures forall k :: k in Keys(row) <==> k in Keys(Properties(f)) || k in GeoNames(columns)
    ensures Unique(row)
    ensures |Properties(f)| <= |row| && Keys(row)[..|Properties(f)|] == Keys(Properties(f))
  {
    var props := Properties(f);
    PutAllCopies([], props);
    assert [] + props == props;
    var geometryText := GeometryText(f, dumps);
    PutGeoFacts(props, columns, geometryText, JString(dumps(JObject(f.members))), geometryText);
    PutGeo(PutAll([], props), columns, geometryText, JString(dumps(JObject(f.members))), geometryText)
  }

  /** The key order of a row: the feature's property keys, then each
      configured geographic name not among them, in the order `geometry`,
      `geojson`, `geojson_geometry`. */
  lemma RowKeyOrder(f: Feature, columns: Dict<string, string>, dumps: Value -> string)
    requires WellFormed(f, columns)
    ensures Keys(BuildRow(f, columns, dumps)) == AppendNew(Keys(Properties(f)), GeoNameSeq(columns))
  {
    var props := Properties(f);
    PutAllCopies([], props);
    assert [] + props == props;
    var geometryText := GeometryText(f, dumps);
    PutGeoKeys(PutAll([], props), columns, geometryText, JString(dumps(JObject(f.members))), geometryText);
  }

  /** `schema[key] = get_column_type(value, schema.get(key))` for every
      property of one feature, in order (ogr2bqjson.py:573-576). */
  function AddTypes(schema: Dict<string, ColType>, props: Dict<string, Value>): (r: Dict<string, ColType>)
    ensures Unique(schema) ==> Unique(r)
    decreases |props|
  {
    if props == [] then schema
    else
      var (k, v) := props[0];
      AddTypes(Put(schema, k, GetColumnType(v, Get(schema, k))), props[1..])
  }

  /** The schema map after the loop over all lines, before the geographic
      columns are added. */
  function PropertySchema(schema: Dict<string, ColType>, features: seq<Feature>): (r: Dict<string, ColType>)
    ensures Unique(schema) ==> Unique(r)
    decreases |features|
  {
    if features == [] then schema
    else PropertySchema(AddTypes(schema, Properties(features[0])), features[1..])
  }

  /** The geographic columns' types (ogr2bqjson.py:586-591), assigned after
      the property types and so overriding them: GEOGRAPHY under the
      `geometry` name and STRING under the other two, the later assignment
      winning where names coincide. They come after the property columns,
      unless a property already holds the name, and nothing else changes. */
  function AddGeoTypes(schema: Dict<string, ColType>, columns: Dict<string, string>): (r: Dict<string, ColType>)
    ensures Unique(schema) ==> Unique(r)
    ensures forall k :: k !in GeoNames(columns) ==> Get(r, k) == Get(schema, k)
    ensures forall k :: k in Keys(r) <==> k in Keys(schema) || k in GeoNames(columns)
    ensures |schema| <= |r| && Keys(r)[..|schema|] == Keys(schema)
    ensures var g, j, gg := Get(columns, GeometryKey), Get(columns, GeojsonKey), Get(columns, GeojsonGeometryKey);
      && (gg.Some? ==> Get(r, gg.value) == Some(String))
      && (j.Some? ==> Get(r, j.value) == Some(String))
      && (g.Some? && g != j && g != gg ==> Get(r, g.value) == Some(Geography))
  {
    PutGeoFacts(schema, columns, Geography, String, String);
    PutGeo(schema, columns, Geography, String, String)
  }

  /** What `geojson_to_ndjson` produces: the rows written to the ndjson
      file and the schema map it returns. */
  datatype Conversion = Conversion(rows: seq<Dict<string, Value>>, schema: Dict<string, ColType>)

  function GeojsonToNdjson(features: seq<Feature>, columns: Dict<string, string>, dumps: Value -> string): (c: Conversion)
    requires forall i :: 0 <= i < |features| ==> WellFormed(features[i], columns)
    ensures |c.rows| == |features|
    ensures forall i :: 0 <= i < |features| ==> c.rows[i] == BuildRow(features[i], columns, dumps)
    ensures Unique(c.schema)
  {
    var none: Dict<string, ColType> := [];
    assert Unique(none);
    var schema := AddGeoTypes(PropertySchema(none, features), columns);
    Conversion(seq(|features|, i requires 0 <= i < |features| => BuildRow(features[i], columns, dumps)), schema)
  }

  /** The index of the first line that raises, or `|features|` if none does. */
  function FirstFailing(features: seq<Feature>, columns: Dict<string, string>): (i: nat)
    ensures i <= |features|
    ensures forall j :: 0 <= j < i ==> LineProblem(features[j], columns).None?
    ensures i < |features| ==> LineProblem(features[i], columns).Some?
    decreases |features|
  {
    if features == [] || LineProblem(features[0], columns).Some? then 0
    else
      var k := FirstFailing(features[1..], columns);
      assert forall j :: 1 <= j < |features| ==> features[j] == features[1..][j - 1];
      1 + k
  }

  /** `geojson_to_ndjson` on the lines as read: the first line that raises
      ends the conversion with its error and nothing is written
      (ogr2bqjson.py:567-594); otherwise the rows and schema above. */
  function Transcode(features: seq<Feature>, columns: Dict<string, string>, dumps: Value -> string): (r: Result<Conversion, LineError>)
    requires forall i :: 0 <= i < |features| ==> Parsed(features[i])
    ensures r.Success? <==> forall i :: 0 <= i < |features| ==> LineProblem(features[i], columns).None?
    ensures r.Success? ==> r.value == GeojsonToNdjson(features, columns, dumps)
    ensures r.Failure? ==> exists i :: 0 <= i < |features| && LineProblem(features[i], columns) == Some(r.error)
                             && forall j :: 0 <= j < i ==> LineProblem(features[j], columns).None?
  {
    var i := FirstFailing(features, columns);
    if i < |features| then Failure(LineProblem(features[i], columns).value)
    else Success(GeojsonToNdjson(features, columns, dumps))
  }

  /** `"properties": null`, which GeoJSON allows, stops the conversion:
      `for key in None` raises. */
  lemma NullPropertiesFail(f: Feature, columns: Dict<string, string>, dumps: Value -> string)
    requires Parsed(f) && Get(f.members, PropertiesKey) == Some(JNull)
    ensures Transcode([f], columns, dumps) == Failure(PropertiesTypeError)
  {
  }

  /** A line without a geometry converts exactly when no column asks for
      the geometry (only `geojson`, say). */
  lemma GeometryOnlyWhenUsed(f: Feature, columns: Dict<string, string>, dumps: Value -> string)
    requires Parsed(f) && Get(f.members, PropertiesKey).None? && Get(f.members, GeometryKey).None?
    ensures Transcode([f], columns, dumps).Success? <==> !NeedsGeometry(columns)
    ensures NeedsGeometry(columns) ==> Transcode([f], columns, dumps) == Failure(GeometryKeyError)
  {
  }

  // ---------------------------------------------------------------------
  // Reference definitions

  /** Every property key of every feature, feature by feature and in
      document order, repeats included. */
  function AllPropertyKeys(features: seq<Feature>): seq<string>
    decreases |features|
  {
    if features == [] then [] else Keys(Properties(features[0])) + AllPropertyKeys(features[1..])
  }

  /** The values of property `k`, in feature order, over the features that
      have it. */
  function ValuesOf(features: seq<Feature>, k: string): (vs: seq<Value>)
    ensures vs != [] <==> exists i :: 0 <= i < |features| && k in Keys(Properties(features[i]))
    decreases |features|
  {
    if features == [] then []
    else
      var here := match Get(Properties(features[0]), k) case Some(v) => [v] case None => [];
      assert here != [] <==> k in Keys(Properties(features[0]));
      var rest := ValuesOf(features[1..], k);
      assert forall i :: 1 <= i < |features| ==> features[i] == features[1..][i - 1];
      assert (exists i :: 0 <= i < |features| && k in Keys(Properties(features[i]))) ==>
               (k in Keys(Properties(features[0])) ||
                exists i :: 0 <= i < |features[1..]| && k in Keys(Properties(features[1..][i])));
      here + rest
  }

  // ---------------------------------------------------------------------
  // Rows

  /** The effect of one conditional assignment. */
  lemma PutNamedFacts<V>(d: Dict<string, V>, name: Option<string>, v: V)
    ensures var r := PutNamed(d, name, v);
      && (name.Some? ==> Get(r, name.value) == Some(v))
      && (forall k :: Some(k) != name ==> Get(r, k) == Get(d, k))
      && (forall k :: k in Keys(r) <==> k in Keys(d) || Some(k) == name)
      && (Unique(d) ==> Unique(r))
      && |d| <= |r| && Keys(r)[..|d|] == Keys(d)
  {
  }

  /** Assigning a named column appends its name unless it is already a key. */
  lemma PutNamedKeys<V>(d: Dict<string, V>, name: Option<string>, v: V)
    ensures Keys(PutNamed(d, name, v)) == AppendNew(Keys(d), OptionSeq(name))
  {
    if name.Some? {
      PutKeys(d, name.value, v);
    }
  }

  /** The key order after the geographic columns are assigned: the old keys,
      then each configured name not yet present, in assignment order. */
  lemma PutGeoKeys<V>(d: Dict<string, V>, columns: Dict<string, string>, a: V, b: V, c: V)
    ensures Keys(PutGeo(d, columns, a, b, c)) == AppendNew(Keys(d), GeoNameSeq(columns))
  {
    var s1, s2, s3 := OptionSeq(Get(columns, GeometryKey)), OptionSeq(Get(columns, GeojsonKey)),
                      OptionSeq(Get(columns, GeojsonGeometryKey));
    var r1 := PutNamed(d, Get(columns, GeometryKey), a);
    var r2 := PutNamed(r1, Get(columns, GeojsonKey), b);
    PutNamedKeys(d, Get(columns, GeometryKey), a);
    PutNamedKeys(r1, Get(columns, GeojsonKey), b);
    PutNamedKeys(r2, Get(columns, GeojsonGeometryKey), c);
    AppendNewConcat(Keys(d), s1, s2);
    AppendNewConcat(Keys(d), s1 + s2, s3);
  }

  /** The effect of assigning the geographic columns: keys that are not
      geographic names keep their values, the geographic names are added
      after the existing keys (or keep their place), and each holds the
      value assigned to it last. */
  lemma PutGeoFacts<V>(d: Dict<string, V>, columns: Dict<string, string>, a: V, b: V, c: V)
    ensures var r := PutGeo(d, columns, a, b, c);
      var g, j, gg := Get(columns, GeometryKey), Get(columns, GeojsonKey), Get(columns, GeojsonGeometryKey);
      && (forall k :: k !in GeoNames(columns) ==> Get(r, k) == Get(d, k))
      && (forall k :: k in Keys(r) <==> k in Keys(d) || k in GeoNames(columns))
      && (Unique(d) ==> Unique(r))
      && |d| <= |r| && Keys(r)[..|d|] == Keys(d)
      && (gg.Some? ==> Get(r, gg.value) == Some(c))
      && (j.Some? && j != gg ==> Get(r, j.value) == Some(b))
      && (g.Some? && g != j && g != gg ==> Get(r, g.value) == Some(a))
  {
    var g, j, gg := Get(columns, GeometryKey), Get(columns, GeojsonKey), Get(columns, GeojsonGeometryKey);
    assert PutGeo(d, columns, a, b, c) == PutNamed(PutNamed(PutNamed(d, g, a), j, b), gg, c);
    PutThreeOthers(d, g, j, gg, a, b, c);
    PutThreeKeys(d, g, j, gg, a, b, c);
    PutThreeOrder(d, g, j, gg, a, b, c);
    PutThreeValues(d, g, j, gg, a, b, c);
  }

  lemma PutThreeOthers<V>(d: Dict<string, V>, g: Option<string>, j: Option<string>, gg: Option<string>, a: V, b: V, c: V)
    ensures var r := PutNamed(PutNamed(PutNamed(d, g, a), j, b), gg, c);
      forall k :: Some(k) != g && Some(k) != j && Some(k) != gg ==> Get(r, k) == Get(d, k)
  {
    var r1 := PutNamed(d, g, a);
    PutNamedFacts(d, g, a);
    PutNamedFacts(r1, j, b);
    PutNamedFacts(PutNamed(r1, j, b), gg, c);
  }

  lemma PutThreeKeys<V>(d: Dict<string, V>, g: Option<string>, j: Option<string>, gg: Option<string>, a: V, b: V, c: V)
    ensures var r := PutNamed(PutNamed(PutNamed(d, g, a), j, b), gg, c);
      forall k :: k in Keys(r) <==> k in Keys(d) || Some(k) == g || Some(k) == j || Some(k) == gg
  {
    var r1 := PutNamed(d, g, a);
    PutNamedFacts(d, g, a);
    PutNamedFacts(r1, j, b);
    PutNamedFacts(PutNamed(r1, j, b), gg, c);
  }

  lemma PutThreeOrder<V>(d: Dict<string, V>, g: Option<string>, j: Option<string>, gg: Option<string>, a: V, b: V, c: V)
    ensures var r := PutNamed(PutNamed(PutNamed(d, g, a), j, b), gg, c);
      && (Unique(d) ==> Unique(r))
      && |d| <= |r| && Keys(r)[..|d|] == Keys(d)
  {
    var r1 := PutNamed(d, g, a);
    var r2 := PutNamed(r1, j, b);
    var r3 := PutNamed(r2, gg, c);
    PutNamedFacts(d, g, a);
    PutNamedFacts(r1, j, b);
    PutNamedFacts(r2, gg, c);
    assert Keys(r3)[..|d|] == Keys(r2)[..|r1|][..|d|] == Keys(r1)[..|d|];
  }

  lemma PutThreeValues<V>(d: Dict<string, V>, g: Option<string>, j: Option<string>, gg: Option<string>, a: V, b: V, c: V)
    ensures var r := PutNamed(PutNamed(PutNamed(d, g, a), j, b), gg, c);
      && (gg.Some? ==> Get(r, gg.value) == Some(c))
      && (j.Some? && j != gg ==> Get(r, j.value) == Some(b))
      && (g.Some? && g != j && g != gg ==> Get(r, g.value) == Some(a))
  {
    var r1 := PutNamed(d, g, a);
    PutNamedFacts(d, g, a);
    PutNamedFacts(r1, j, b);
    PutNamedFacts(PutNamed(r1, j, b), gg, c);
  }

  /** What the geographic columns of a row hold: the serialised geometry
      under the `geometry` and `geojson_geometry` names and the serialised
      feature under the `geojson` name, the later assignment winning where
      two names coincide. */
  lemma GeoColumnsContents(f: Feature, columns: Dict<string, string>, dumps: Value -> string)
    requires WellFormed(f, columns)
    ensures var row := BuildRow(f, columns, dumps);
      var g, j, gg := Get(columns, GeometryKey), Get(columns, GeojsonKey), Get(columns, GeojsonGeometryKey);
      && (gg.Some? ==> Get(row, gg.value) == Some(JString(dumps(Geometry(f)))))
      && (j.Some? && j != gg ==> Get(row, j.value) == Some(JString(dumps(JObject(f.members)))))
      && (g.Some? && g != j ==> Get(row, g.value) == Some(JString(dumps(Geometry(f)))))
      // the GEOGRAPHY column and the geojson_geometry column carry the same text
      && (g.Some? && gg.Some? && g != j ==> Get(row, g.value) == Get(row, gg.value))
  {
    var text := GeometryText(f, dumps);
    PutGeoFacts(PutAll([], Properties(f)), columns, text, JString(dumps(JObject(f.members))), text);
  }

  // ---------------------------------------------------------------------
  // Schema

  /** Merging one feature's properties into the schema. */
  lemma {:induction false} AddTypesGet(schema: Dict<string, ColType>, props: Dict<string, Value>, k: string)
    requires Unique(props)
    ensures Get(AddTypes(schema, props), k) ==
              match Get(props, k)
              case Some(v) => Some(GetColumnType(v, Get(schema, k)))
              case None => Get(schema, k)
    decreases |props|
  {
    if props != [] {
      var (k0, v0) := props[0];
      var rest := props[1..];
      var s1 := Put(schema, k0, GetColumnType(v0, Get(schema, k0)));
      assert Unique(rest);
      AddTypesGet(s1, rest, k);
      GetCons(props, k);
      if k == k0 {
        assert k0 !in Keys(rest);
      }
    }
  }

  /** The property part of the schema is, key by key, the left fold of
      `get_column_type` over that key's values in feature order. */
  lemma {:induction false} PropertySchemaGet(schema: Dict<string, ColType>, features: seq<Feature>, k: string)
    requires forall i :: 0 <= i < |features| ==> Parsed(features[i])
    ensures Get(PropertySchema(schema, features), k) == FoldTypes(Get(schema, k), ValuesOf(features, k))
    decreases |features|
  {
    if features != [] {
      var props := Properties(features[0]);
      var tail := features[1..];
      var s1 := AddTypes(schema, props);
      assert forall i :: 0 <= i < |tail| ==> Parsed(tail[i]) by {
        assert forall i :: 0 <= i < |tail| ==> tail[i] == features[i + 1];
      }
      PropertySchemaGet(s1, tail, k);
      AddTypesGet(schema, props, k);
      ValuesOfCons(features, k);
      if Get(props, k).Some? {
        FoldTypesCons(Get(schema, k), Get(props, k).value, ValuesOf(tail, k));
      }
    }
  }

  lemma ValuesOfCons(features: seq<Feature>, k: string)
    requires features != []
    ensures var rest := ValuesOf(features[1..], k);
      ValuesOf(features, k) == match Get(Properties(features[0]), k) case Some(v) => [v] + rest case None => rest
  {
    var rest := ValuesOf(features[1..], k);
    assert [] + rest == rest;
  }

  /** Merging one feature's properties appends the keys seen for the first
      time, in order; a known key keeps its place. */
  lemma {:induction false} AddTypesKeys(schema: Dict<string, ColType>, props: Dict<string, Value>)
    ensures Keys(AddTypes(schema, props)) == AppendNew(Keys(schema), Keys(props))
    decreases |props|
  {
    if props != [] {
      var (k, v) := props[0];
      var s1 := Put(schema, k, GetColumnType(v, Get(schema, k)));
      PutKeys(schema, k, GetColumnType(v, Get(schema, k)));
      assert Keys(props) == [k] + Keys(props[1..]);
      AddTypesKeys(s1, props[1..]);
    }
  }

  /** The property part of the schema has one column per distinct property
      key, in the order the keys are first met across the features. */
  lemma {:induction false} PropertySchemaKeys(schema: Dict<string, ColType>, features: seq<Feature>)
    ensures Keys(PropertySchema(schema, features)) == AppendNew(Keys(schema), AllPropertyKeys(features))
    decreases |features|
  {
    if features != [] {
      var props := Properties(features[0]);
      AddTypesKeys(schema, props);
      PropertySchemaKeys(AddTypes(schema, props), features[1..]);
      AppendNewConcat(Keys(schema), Keys(props), AllPropertyKeys(features[1..]));
    }
  }

  /** The schema: property columns typed by the fold, then the geographic
      columns, which override any property of the same name; its keys are
      exactly the property keys seen and the configured geographic names. */
  lemma SchemaContents(features: seq<Feature>, columns: Dict<string, string>, dumps: Value -> string)
    requires forall i :: 0 <= i < |features| ==> WellFormed(features[i], columns)
    ensures var schema := GeojsonToNdjson(features, columns, dumps).schema;
      var g, j, gg := Get(columns, GeometryKey), Get(columns, GeojsonKey), Get(columns, GeojsonGeometryKey);
      && (forall k :: k !in GeoNames(columns) ==> Get(schema, k) == FoldTypes(None, ValuesOf(features, k)))
      && (gg.Some? ==> Get(schema, gg.value) == Some(String))
      && (j.Some? ==> Get(schema, j.value) == Some(String))
      && (g.Some? && g != j && g != gg ==> Get(schema, g.value) == Some(Geography))
      && (forall k :: k in Keys(schema) <==>
            k in GeoNames(columns) || exists i :: 0 <= i < |features| && k in Keys(Properties(features[i])))
  {
    var props := PropertySchema([], features);
    PutGeoFacts(props, columns, Geography, String, String);
    forall k ensures Get(props, k) == FoldTypes(None, ValuesOf(features, k))
                  && (k in Keys(props) <==> exists i :: 0 <= i < |features| && k in Keys(Properties(features[i])))
    {
      PropertySchemaGet([], features, k);
    }
  }

  /** The schema's key order, which fixes the order of the schema files:
      the distinct property keys in the order they are first met across the
      features, then the configured geographic names not already among
      them. */
  lemma SchemaKeyOrder(features: seq<Feature>, columns: Dict<string, string>, dumps: Value -> string)
    requires forall i :: 0 <= i < |features| ==> WellFormed(features[i], columns)
    ensures var keys := Keys(GeojsonToNdjson(features, columns, dumps).schema);
      var first := AppendNew([], AllPropertyKeys(features));
      && |first| <= |keys| && keys[..|first|] == first
      && (forall i :: |first| <= i < |keys| ==> keys[i] in GeoNames(columns))
      && (forall n :: n in GeoNames(columns) && n !in first ==> n in keys[|first|..])
      // exactly: first-seen order over the property keys, then the geographic names
      && keys == AppendNew([], AllPropertyKeys(features) + GeoNameSeq(columns))
  {
    var props := PropertySchema([], features);
    var none: Dict<string, ColType> := [];
    assert Keys(props) == AppendNew([], AllPropertyKeys(features)) by {
      PropertySchemaKeys(none, features);
      assert Keys(none) == [];
    }
    TailIsAdded(props, AddGeoTypes(props, columns), GeoNames(columns));
    PutGeoKeys(props, columns, Geography, String, String);
    AppendNewConcat([], AllPropertyKeys(features), GeoNameSeq(columns));
  }

  /** When a dict grows only by keys of `added`, keeping its old keys at the
      front and staying free of repeats, what follows the old keys is
      exactly the added keys it lacked. */
  lemma TailIsAdded<V>(d: Dict<string, V>, r: Dict<string, V>, added: set<string>)
    requires Unique(r) && |d| <= |r| && Keys(r)[..|d|] == Keys(d)
    requires forall k :: k in Keys(r) <==> k in Keys(d) || k in added
    ensures forall i :: |d| <= i < |r| ==> Keys(r)[i] in added
    ensures forall n :: n in added && n !in Keys(d) ==> n in Keys(r)[|d|..]
  {
    var keys := Keys(r);
    assert forall m :: 0 <= m < |d| ==> keys[m] == keys[..|d|][m];
    forall i | |d| <= i < |r| ensures keys[i] in added {
      assert forall m :: 0 <= m < |d| ==> Keys(d)[m] != keys[i];
    }
    forall n | n in added && n !in Keys(d) ensures n in keys[|d|..] {
      var i :| 0 <= i < |keys| && keys[i] == n;
      assert keys[|d|..][i - |d|] == n;
    }
  }

  /** With no features the schema holds only the configured geographic
      columns, and there are no rows. */
  lemma EmptyInput(columns: Dict<string, string>, dumps: Value -> string)
    ensures var c := GeojsonToNdjson([], columns, dumps);
      && c.rows == []
      && (forall k :: k in Keys(c.schema) <==> k in GeoNames(columns))
  {
    SchemaContents([], columns, dumps);
  }

  /** Column-spec keys other than the three recognised ones have no effect.
      (Each spec makes the lines convertible when the other does, since only
      the three keys decide that.) */
  lemma OnlyGeoKeysMatter(features: seq<Feature>, c1: Dict<string, string>, c2: Dict<string, string>, dumps: Value -> string)
    requires forall i :: 0 <= i < |features| ==> WellFormed(features[i], c1) && WellFormed(features[i], c2)
    requires Get(c1, GeometryKey) == Get(c2, GeometryKey) && Get(c1, GeojsonKey) == Get(c2, GeojsonKey)
             && Get(c1, GeojsonGeometryKey) == Get(c2, GeojsonGeometryKey)
    ensures GeojsonToNdjson(features, c1, dumps) == GeojsonToNdjson(features, c2, dumps)
  {
    var x, y := GeojsonToNdjson(features, c1, dumps), GeojsonToNdjson(features, c2, dumps);
    forall i | 0 <= i < |features| ensures x.rows[i] == y.rows[i] {
      var f := features[i];
      var props := PutAll([], Properties(f));
      var text := GeometryText(f, dumps);
      SamePutGeo(props, c1, c2, text, JString(dumps(JObject(f.members))), text);
    }
    var none: Dict<string, ColType> := [];
    SamePutGeo(PropertySchema(none, features), c1, c2, Geography, String, String);
  }

  lemma SamePutGeo<V>(d: Dict<string, V>, c1: Dict<string, string>, c2: Dict<string, string>, a: V, b: V, c: V)
    requires Get(c1, GeometryKey) == Get(c2, GeometryKey) && Get(c1, GeojsonKey) == Get(c2, GeojsonKey)
             && Get(c1, GeojsonGeometryKey) == Get(c2, GeojsonGeometryKey)
    ensures PutGeo(d, c1, a, b, c) == PutGeo(d, c2, a, b, c)
  {
  }
}
