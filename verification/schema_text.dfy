/** The plain-text schema file and the list of undetermined columns that
    `save_schema_files` builds (ogr2bqjson.py:789-807). The JSON schema
    file is `json.dump` of the schema and is not modelled. */
module SchemaText {
  import opened Wrappers
  import opened Dicts
  import opened Text
  import opened ColumnTypes

  /** The BigQuery type name the schema records for each tag
      (ogr2bqjson.py:587-591, 621-637). */
  function TypeName(t: ColType): (s: string)
    ensures |s| >= 5
  {
    match t
    case String => "STRING"
    case Integer => "INTEGER"
    case Float => "FLOAT"
    case Boolean => "BOOLEAN"
    case Unknown => "UNKNOWN"
    case Geography => "GEOGRAPHY"
  }

  /** Reads a type name back. */
  function ParseTypeName(s: string): (r: Option<ColType>)
    ensures r.Some? ==> TypeName(r.value) == s
  {
    if s == "STRING" then Some(String)
    else if s == "INTEGER" then Some(Integer)
    else if s == "FLOAT" then Some(Float)
    else if s == "BOOLEAN" then Some(Boolean)
    else if s == "UNKNOWN" then Some(Unknown)
    else if s == "GEOGRAPHY" then Some(Geography)
    else None
  }

  /** Every type name reads back as its tag, so no two tags share a name. */
  lemma TypeNameRoundTrip(t: ColType)
    ensures ParseTypeName(TypeName(t)) == Some(t)
  {
    match t
    case String =>
    case Integer => assert "INTEGER" != "STRING" by { assert "INTEGER"[0] != "STRING"[0]; }
    case Float => assert "FLOAT" != "STRING" by { assert "FLOAT"[0] != "STRING"[0]; }
    case Boolean => assert "BOOLEAN"[0] == 'B';
    case Unknown => assert "UNKNOWN"[0] == 'U';
    case Geography => assert "GEOGRAPHY"[0] == 'G';
  }

  const Separator: string := ",\n"

  /** `key:TYPE`, one schema entry as the text file shows it. */
  function Entry(e: (string, ColType)): string {
    e.0 + ":" + TypeName(e.1)
  }

  /** The entries of `schema` in order, each as `key:TYPE`. */
  function Entries(schema: Dict<string, ColType>): (es: seq<string>)
    ensures |es| == |schema| && forall i :: 0 <= i < |schema| ==> es[i] == Entry(schema[i])
  {
    seq(|schema|, i requires 0 <= i < |schema| => Entry(schema[i]))
  }

  /** The loop's accumulated text: `key:TYPE,\n` for each entry in order
      (ogr2bqjson.py:791-792). */
  function Accumulated(schema: Dict<string, ColType>): string
    decreases |schema|
  {
    if schema == [] then "" else Entry(schema[0]) + Separator + Accumulated(schema[1..])
  }

  /** Python's `s[:-2]`: all but the last two characters, or nothing when
      there are fewer than two. */
  function DropLastTwo(s: string): (r: string)
    ensures |s| >= 2 ==> |r| == |s| - 2 && r == s[..|s| - 2]
    ensures |s| < 2 ==> r == []
  {
    if |s| >= 2 then s[..|s| - 2] else []
  }

  /** Cutting two characters undoes appending the separator. */
  lemma DropLastTwoUndoesSeparator(t: string)
    ensures DropLastTwo(t + Separator) == t
  {
    assert (t + Separator)[..|t + Separator| - 2] == t;
  }

  /** The plain-text schema as written to the `_SCHEMA.txt` file
      (ogr2bqjson.py:789-797). Cutting the last two characters removes
      exactly the final separator: the file holds the entries joined by
      `,\n`, and is empty for an empty schema. */
  function PlainTextSchema(schema: Dict<string, ColType>): (text: string)
    ensures text == JoinWith(Entries(schema), Separator)
  {
    if schema != [] then
      AccumulatedIsJoin(schema);
      DropLastTwoUndoesSeparator(JoinWith(Entries(schema), Separator));
      DropLastTwo(Accumulated(schema))
    else
      DropLastTwo(Accumulated(schema))
  }

  /** The accumulated text of a non-empty schema is the joined entries
      followed by one separator. */
  lemma {:induction false} AccumulatedIsJoin(schema: Dict<string, ColType>)
    requires schema != []
    ensures Accumulated(schema) == JoinWith(Entries(schema), Separator) + Separator
    decreases |schema|
  {
    var rest := schema[1..];
    if rest == [] {
      assert Accumulated(rest) == "";
      assert Entries(schema) == [Entry(schema[0])];
    } else {
      AccumulatedIsJoin(rest);
      assert Entries(schema)[1..] == Entries(rest);
      assert Accumulated(schema) == Entry(schema[0]) + Separator + (JoinWith(Entries(rest), Separator) + Separator);
    }
  }

  /** The keys whose type is `UNKNOWN`, in schema order
      (ogr2bqjson.py:793-794). */
  function UnknownColumns(schema: Dict<string, ColType>): (r: seq<string>)
    ensures |r| <= |schema|
    ensures forall k :: k in r <==> (k, Unknown) in schema
    ensures |schema| == 1 ==> r == if schema[0].1 == Unknown then [schema[0].0] else []
    decreases |schema|
  {
    if schema == [] then []
    else
      var rest := UnknownColumns(schema[1..]);
      assert forall e :: e in schema <==> e == schema[0] || e in schema[1..];
      if schema[0].1 == Unknown then [schema[0].0] + rest else rest
  }

  /** The undetermined columns keep schema order and multiplicity: those
      of two schema parts are those of the whole, one after the other. */
  lemma {:induction false} UnknownColumnsAppend(a: Dict<string, ColType>, b: Dict<string, ColType>)
    ensures UnknownColumns(a + b) == UnknownColumns(a) + UnknownColumns(b)
    decreases |a|
  {
    if a != [] {
      assert (a + b)[0] == a[0];
      assert (a + b)[1..] == a[1..] + b;
      UnknownColumnsAppend(a[1..], b);
    } else {
      assert a + b == b;
    }
  }

  /** In a schema with one entry per key, each undetermined column is
      named once. */
  lemma {:induction false} UnknownColumnsUnique(schema: Dict<string, ColType>)
    requires Unique(schema)
    ensures forall i, j :: 0 <= i < j < |UnknownColumns(schema)| ==> UnknownColumns(schema)[i] != UnknownColumns(schema)[j]
    decreases |schema|
  {
    if schema != [] {
      var rest := schema[1..];
      assert Unique(rest) by {
        forall i, j | 0 <= i < j < |rest| ensures rest[i].0 != rest[j].0 {
          assert rest[i] == schema[i + 1] && rest[j] == schema[j + 1];
        }
      }
      UnknownColumnsUnique(rest);
      if schema[0].1 == Unknown {
        var u := UnknownColumns(schema);
        var ur := UnknownColumns(rest);
        forall j | 0 < j < |u| ensures u[0] != u[j] {
          assert u[j] == ur[j - 1];
          assert (u[j], Unknown) in rest;
          var m :| 0 <= m < |rest| && rest[m] == (u[j], Unknown);
          assert schema[m + 1] == rest[m];
        }
      }
    }
  }

  /** The warning printed after saving, listing the undetermined columns
      joined by `, `; none when every type was determined
      (ogr2bqjson.py:801-807). */
  function UnknownWarning(schema: Dict<string, ColType>): (r: Option<string>)
    ensures r.None? <==> forall i :: 0 <= i < |schema| ==> schema[i].1 != Unknown
    ensures r.Some? ==> r.value == JoinWith(UnknownColumns(schema), ", ")
  {
    var unknown := UnknownColumns(schema);
    assert unknown == [] <==> forall i :: 0 <= i < |schema| ==> schema[i].1 != Unknown by {
      if unknown != [] {
        assert (unknown[0], Unknown) in schema;
      }
      if exists i :: 0 <= i < |schema| && schema[i].1 == Unknown {
        var i :| 0 <= i < |schema| && schema[i].1 == Unknown;
        assert (schema[i].0, Unknown) in schema;
      }
    }
    if unknown == [] then None else Some(JoinWith(unknown, ", "))
  }
}
