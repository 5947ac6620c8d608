/** The `--columns` resolver `get_columns` (ogr2bqjson.py:379-418), the
    reserved-option check of `get_arg_errors` (175-179), and the option
    string handed to the conversion library (748). */
module ColumnSpec {
  import opened Wrappers
  import opened Dicts
  import opened Text

  /** The geographic columns a list-form spec may name (ogr2bqjson.py:11). */
  const DefaultColumnNames: seq<string> := ["geometry", "geojson", "geojson_geometry"]

  /** Options the user may not pass through (ogr2bqjson.py:10). */
  const ReservedConvertOptions: seq<string> := ["-f", "-of", "-t_srs"]

  /** Fixed prefix of the conversion options (ogr2bqjson.py:748). */
  const ConvertPrefix: string := "-f GeoJSONSeq -t_srs crs:84 "

  /** The `--columns` argument: the empty string (never parsed), text that
      `json.loads` rejects, or what it returns. A falsy JSON scalar (`null`,
      `false`, `0`, `""`) behaves like an empty container; a non-empty JSON
      string is iterated character by character, like a list; a truthy
      number or `true` cannot be iterated at all. */
  datatype ColumnsArg =
    | EmptyArg
    | Unparsable
    | JsonFalsy
    | JsonTruthyScalar
    | JsonText(s: string)
    | JsonList(items: seq<string>)
    | JsonMap(entries: Dict<string, string>)

  datatype ColumnsError =
    | InvalidJson      // the JSON could not be parsed
    | NoValidColumns   // a non-empty list named none of the default columns
    | NotIterable      // the `for` loop raised TypeError on a number or `true`

  /** `columns[column] = column` for each recognised name of `items`, in order. */
  function KnownColumns(acc: Dict<string, string>, items: seq<string>): Dict<string, string>
    decreases |items|
  {
    if items == [] then acc
    else if items[0] in DefaultColumnNames then KnownColumns(Put(acc, items[0], items[0]), items[1..])
    else KnownColumns(acc, items[1..])
  }

  /** The list branch of `get_columns` (ogr2bqjson.py:402-417). */
  function ListColumns(items: seq<string>): Result<Dict<string, string>, ColumnsError> {
    if items == [] then Success([])
    else
      var columns := KnownColumns([], items);
      if columns == [] then Failure(NoValidColumns) else Success(columns)
  }

  /** Some item names a default column. */
  predicate NamesKnownColumn(items: seq<string>) {
    exists i :: 0 <= i < |items| && items[i] in DefaultColumnNames
  }

  /** The characters of `s`, each as a one-character string. */
  function Chars(s: string): (cs: seq<string>)
    ensures |cs| == |s| && forall i :: 0 <= i < |s| ==> cs[i] == [s[i]]
  {
    seq(|s|, i requires 0 <= i < |s| => [s[i]])
  }

  /** `get_columns`. A parsed object holds each key once (`json.loads`
      keeps the last value of a repeated key), and so does every column
      spec it returns. */
  function GetColumns(arg: ColumnsArg): (r: Result<Dict<string, string>, ColumnsError>)
    requires arg.JsonMap? ==> Unique(arg.entries)
    ensures r.Success? ==> Unique(r.value)
    // nothing to include: the empty string, a falsy value, an empty list or object
    ensures (arg.EmptyArg? || arg.JsonFalsy? || arg == JsonText("") || arg == JsonList([]) || arg == JsonMap([]))
              ==> r == Success([])
    ensures arg.Unparsable? ==> r == Failure(InvalidJson)
    ensures arg.JsonTruthyScalar? ==> r == Failure(NotIterable)
    // an object is taken as it is, without validation
    ensures arg.JsonMap? ==> r == Success(arg.entries)
    // a non-empty list fails exactly when it names no default column
    ensures arg.JsonList? && arg.items != [] ==>
              (r.Failure? <==> !NamesKnownColumn(arg.items))
    ensures arg.JsonList? && r.Success? ==>
              && Unique(r.value)
              && (forall k :: k in Keys(r.value) <==> k in arg.items && k in DefaultColumnNames)
              && (forall i :: 0 <= i < |r.value| ==> r.value[i].1 == r.value[i].0)
    // a non-empty JSON string never names a column
    ensures arg.JsonText? && arg.s != "" ==> r == Failure(NoValidColumns)
  {
    match arg
    case EmptyArg => Success([])
    case Unparsable => Failure(InvalidJson)
    case JsonFalsy => Success([])
    case JsonTruthyScalar => Failure(NotIterable)
    case JsonMap(m) => Success(m)
    case JsonList(items) =>
      KnownColumnsContents([], items);
      ListColumns(items)
    case JsonText(s) =>
      if s == "" then Success([])
      else
        var cs := Chars(s);
        KnownColumnsContents([], cs);
        assert forall k :: k in cs ==> |k| == 1;
        assert !NamesKnownColumn(cs);
        ListColumns(cs)
  }

  /** The list branch keeps exactly the recognised names, each once and
      mapped to itself, after whatever was already collected. */
  lemma {:induction false} KnownColumnsContents(acc: Dict<string, string>, items: seq<string>)
    requires Unique(acc)
    requires forall i :: 0 <= i < |acc| ==> acc[i].1 == acc[i].0
    ensures var r := KnownColumns(acc, items);
      && Unique(r)
      && (forall k :: k in Keys(r) <==> k in Keys(acc) || (k in items && k in DefaultColumnNames))
      && (forall i :: 0 <= i < |r| ==> r[i].1 == r[i].0)
      && (r == [] <==> acc == [] && !NamesKnownColumn(items))
    decreases |items|
  {
    if items != [] {
      var x := items[0];
      var rest := items[1..];
      assert forall k :: k in items <==> k == x || k in rest;
      if x in DefaultColumnNames {
        var acc' := Put(acc, x, x);
        assert forall i :: 0 <= i < |acc'| ==> acc'[i].1 == acc'[i].0 by {
          if x in Keys(acc) {
            var j := IndexOf(acc, x);
            assert acc' == acc[j := (x, x)];
          }
        }
        KnownColumnsContents(acc', rest);
        assert acc' != [];
        assert NamesKnownColumn(items) by { assert items[0] in DefaultColumnNames; }
      } else {
        KnownColumnsContents(acc, rest);
        assert NamesKnownColumn(items) <==> NamesKnownColumn(rest) by {
          if NamesKnownColumn(rest) {
            var i :| 0 <= i < |rest| && rest[i] in DefaultColumnNames;
            assert items[i + 1] == rest[i];
          }
          if NamesKnownColumn(items) {
            var i :| 0 <= i < |items| && items[i] in DefaultColumnNames;
            assert i > 0 && rest[i - 1] == items[i];
          }
        }
      }
    }
  }

  /** The first of `candidates` that occurs in `s`. */
  function FirstContained(candidates: seq<string>, s: string): (r: Option<string>)
    ensures r.None? <==> forall i :: 0 <= i < |candidates| ==> !Contains(s, candidates[i])
    ensures r.Some? ==> exists i :: 0 <= i < |candidates| && r.value == candidates[i]
                          && Contains(s, candidates[i])
                          && forall j :: 0 <= j < i ==> !Contains(s, candidates[j])
    decreases |candidates|
  {
    if candidates == [] then None
    else if Contains(s, candidates[0]) then Some(candidates[0])
    else
      var r := FirstContained(candidates[1..], s);
      assert forall i :: 1 <= i < |candidates| ==> candidates[i] == candidates[1..][i - 1];
      if r.Some? then
        var i :| 0 <= i < |candidates[1..]| && r.value == candidates[1..][i]
                 && Contains(s, candidates[1..][i])
                 && forall j :: 0 <= j < i ==> !Contains(s, candidates[1..][j]);
        assert r.value == candidates[i + 1];
        r
      else r
  }

  /** The reserved option `get_arg_errors` reports, if any: the first of
      `-f`, `-of`, `-t_srs` that occurs anywhere in the option string, as a
      plain substring (ogr2bqjson.py:175-179). */
  function ReservedOptionUsed(convertOptions: string): (r: Option<string>)
    ensures r.None? <==> forall i :: 0 <= i < |ReservedConvertOptions| ==> !Contains(convertOptions, ReservedConvertOptions[i])
    ensures r.Some? ==> r.value in ReservedConvertOptions && Contains(convertOptions, r.value)
  {
    if convertOptions == "" then
      assert forall i :: 0 <= i < |ReservedConvertOptions| ==> |ReservedConvertOptions[i]| > 0;
      None
    else
      FirstContained(ReservedConvertOptions, convertOptions)
  }

  /** The test is a substring test, not an option-name test: ogr2ogr's own
      `-fid` option is refused as `-f`. */
  lemma ReservedCheckIsSubstring()
    ensures ReservedOptionUsed("-fid 1") == Some("-f")
  {
    assert OccursAt("-fid 1", "-f", 0);
    assert Contains("-fid 1", "-f");
  }

  /** The options passed to the conversion library. */
  function VectorTranslateOptions(convertOptions: string): (r: string)
    ensures |r| == |ConvertPrefix| + |convertOptions|
    ensures r[..|ConvertPrefix|] == ConvertPrefix
    ensures EndsWith(r, convertOptions)
  {
    ConvertPrefix + convertOptions
  }

  /** An occurrence of an option inside the fixed prefix is one of the two
      the prefix places there. */
  lemma PrefixOccurrence(convertOptions: string, p: string, i: int)
    requires |p| >= 2 && p[0] == '-'
    requires OccursAt(VectorTranslateOptions(convertOptions), p, i) && i < |ConvertPrefix|
    ensures (i == 0 && p[1] == 'f') || (i == 14 && p[1] == 't')
  {
    var full := VectorTranslateOptions(convertOptions);
    assert full[i] == p[0] && full[i + 1] == p[1];
    assert forall j :: 0 <= j < |ConvertPrefix| && ConvertPrefix[j] == '-' ==> j == 0 || j == 14;
    assert full[i] == ConvertPrefix[i];
    assert full[1] == 'f' && full[15] == 't';
  }

  /** An occurrence past the fixed prefix is an occurrence in the user's options. */
  lemma OptionsOccurrence(convertOptions: string, p: string, i: int)
    requires OccursAt(VectorTranslateOptions(convertOptions), p, i) && i >= |ConvertPrefix|
    ensures Contains(convertOptions, p)
  {
    var full := VectorTranslateOptions(convertOptions);
    var n := |ConvertPrefix|;
    assert convertOptions[i - n..i - n + |p|] == full[i..i + |p|];
    assert OccursAt(convertOptions, p, i - n);
  }

  /** When the reserved-option check passes, the assembled option string
      names the output format and the target reference system once each,
      at the places the fixed prefix puts them, and never `-of`. */
  lemma AdapterOwnsReservedOptions(convertOptions: string)
    requires ReservedOptionUsed(convertOptions).None?
    ensures var full := VectorTranslateOptions(convertOptions);
      && (forall i :: OccursAt(full, "-f", i) <==> i == 0)
      && (forall i :: OccursAt(full, "-t_srs", i) <==> i == 14)
      && (forall i :: !OccursAt(full, "-of", i))
  {
    var full := VectorTranslateOptions(convertOptions);
    var n := |ConvertPrefix|;
    assert !Contains(convertOptions, ReservedConvertOptions[0]);
    assert !Contains(convertOptions, ReservedConvertOptions[1]);
    assert !Contains(convertOptions, ReservedConvertOptions[2]);
    forall i | OccursAt(full, "-f", i) ensures i == 0 {
      if i >= n {
        OptionsOccurrence(convertOptions, "-f", i);
        assert false;
      }
      PrefixOccurrence(convertOptions, "-f", i);
    }
    forall i | OccursAt(full, "-t_srs", i) ensures i == 14 {
      if i >= n {
        OptionsOccurrence(convertOptions, "-t_srs", i);
        assert false;
      }
      PrefixOccurrence(convertOptions, "-t_srs", i);
    }
    forall i | OccursAt(full, "-of", i) ensures false {
      if i >= n {
        OptionsOccurrence(convertOptions, "-of", i);
        assert false;
      }
      PrefixOccurrence(convertOptions, "-of", i);
    }
    assert full[..2] == "-f";
    assert OccursAt(full, "-f", 0);
    assert full[14..20] == "-t_srs";
    assert OccursAt(full, "-t_srs", 14);
  }
}
