/** BigQuery column types inferred from property values (`get_column_type`)
    and the left fold of that merge over one column's values. */
module ColumnTypes {
  import opened Wrappers
  import opened Json

  /** The type tags the schema can hold. `Boolean` is named by the program
      but never produced (see `Classify`); `Geography` is only assigned to
      the configured geometry column. */
  datatype ColType = String | Integer | Float | Boolean | Unknown | Geography

  /** The type of a single value, before any merge (ogr2bqjson.py:621-631).
      Python's `bool` is a subclass of `int`, so the `int` test fires first
      and booleans are INTEGER; the BOOLEAN branch is unreachable. `None`,
      lists and objects are UNKNOWN. */
  function Classify(v: Value): (t: ColType)
    ensures t == String <==> v.JString?
    ensures t == Integer <==> v.JInt? || v.JBool?
    ensures t == Float <==> v.JFloat?
    ensures t == Unknown <==> v.JNull? || v.JArray? || v.JObject?
    ensures t != Boolean && t != Geography
  {
    match v
    case JString(_) => String
    case JInt(_) => Integer
    case JBool(_) => Integer
    case JFloat(_) => Float
    case _ => Unknown
  }

  /** `get_column_type(value, last_type)`: the column's type after seeing
      `v`, given the type recorded so far (None before the first value). */
  function GetColumnType(v: Value, last: Option<ColType>): (t: ColType)
    // no previous type: the value's own kind
    ensures last.None? ==> t == Classify(v)
    // STRING absorbs everything, from either side
    ensures last == Some(String) ==> t == String
    ensures v.JString? ==> t == String
    // INTEGER and FLOAT widen to FLOAT in either order
    ensures last == Some(Float) && Classify(v) == Integer ==> t == Float
    ensures last == Some(Integer) && v.JFloat? ==> t == Float
    // in every other case the current value's kind wins, even UNKNOWN for None
    ensures last != Some(String) && !(last == Some(Float) && Classify(v) == Integer) ==>
              t == Classify(v)
    ensures t != Boolean && t != Geography
  {
    var current := Classify(v);
    if last.Some? && last.value != current then
      if last.value == String then String
      else if last.value == Float && current == Integer then Float
      else current
    else
      current
  }

  /** The type a schema records for one column after the values `vs` have
      been seen in order, starting from `last`. */
  function FoldTypes(last: Option<ColType>, vs: seq<Value>): (r: Option<ColType>)
    // a column has a type exactly when it had one before or saw a value
    ensures r.Some? <==> last.Some? || vs != []
    decreases |vs|
  {
    if vs == [] then last else FoldTypes(Some(GetColumnType(vs[0], last)), vs[1..])
  }

  predicate IsNumber(v: Value) {
    v.JInt? || v.JBool? || v.JFloat?
  }

  /** The first value is merged first. */
  lemma FoldTypesCons(last: Option<ColType>, v: Value, rest: seq<Value>)
    ensures FoldTypes(last, [v] + rest) == FoldTypes(Some(GetColumnType(v, last)), rest)
  {
    assert ([v] + rest)[1..] == rest;
  }

  /** Appending one value applies one more merge step to the folded type. */
  lemma {:induction false} FoldTypesSnoc(last: Option<ColType>, vs: seq<Value>, v: Value)
    ensures FoldTypes(last, vs + [v]) == Some(GetColumnType(v, FoldTypes(last, vs)))
    decreases |vs|
  {
    if vs != [] {
      assert (vs + [v])[1..] == vs[1..] + [v];
      FoldTypesSnoc(Some(GetColumnType(vs[0], last)), vs[1..], v);
    }
  }

  /** Once STRING, always STRING. */
  lemma {:induction false} StringAbsorbs(vs: seq<Value>)
    ensures FoldTypes(Some(String), vs) == Some(String)
    decreases |vs|
  {
    if vs != [] {
      StringAbsorbs(vs[1..]);
    }
  }

  /** A single string anywhere among a column's values makes it STRING. */
  lemma {:induction false} AnyStringGivesString(last: Option<ColType>, vs: seq<Value>, i: int)
    requires 0 <= i < |vs| && vs[i].JString?
    ensures FoldTypes(last, vs) == Some(String)
    decreases |vs|
  {
    if i == 0 {
      StringAbsorbs(vs[1..]);
    } else {
      AnyStringGivesString(Some(GetColumnType(vs[0], last)), vs[1..], i - 1);
    }
  }

  /** Numbers only (ints, bools, floats), starting from no type or from a
      numeric type: the column is FLOAT iff a float was seen or it started
      as FLOAT, and INTEGER otherwise. */
  lemma {:induction false} NumbersWidenToFloat(last: Option<ColType>, vs: seq<Value>)
    requires last in {None, Some(Integer), Some(Float)}
    requires last.Some? || vs != []
    requires forall i :: 0 <= i < |vs| ==> IsNumber(vs[i])
    ensures FoldTypes(last, vs) == Some(Float) <==>
              last == Some(Float) || exists i :: 0 <= i < |vs| && vs[i].JFloat?
    ensures FoldTypes(last, vs) == Some(Integer) <==>
              last != Some(Float) && forall i :: 0 <= i < |vs| ==> !vs[i].JFloat?
    decreases |vs|
  {
    if vs != [] {
      var next := Some(GetColumnType(vs[0], last));
      NumbersWidenToFloat(next, vs[1..]);
      assert forall i :: 1 <= i < |vs| ==> vs[i] == vs[1..][i - 1];
      if exists i :: 0 <= i < |vs[1..]| && vs[1..][i].JFloat? {
        var i :| 0 <= i < |vs[1..]| && vs[1..][i].JFloat?;
        assert vs[i + 1].JFloat?;
      }
    }
  }

  /** For a sequence of numbers with no previous type, the column is FLOAT
      iff some value is a float, and INTEGER iff none is. */
  lemma NumbersFoldType(vs: seq<Value>)
    requires vs != []
    requires forall i :: 0 <= i < |vs| ==> IsNumber(vs[i])
    ensures FoldTypes(None, vs) == Some(Float) <==> exists i :: 0 <= i < |vs| && vs[i].JFloat?
    ensures FoldTypes(None, vs) == Some(Integer) <==> forall i :: 0 <= i < |vs| ==> !vs[i].JFloat?
  {
    NumbersWidenToFloat(None, vs);
  }

  /** Some value of `vs` is a float. */
  predicate HasFloat(vs: seq<Value>) {
    exists i :: 0 <= i < |vs| && vs[i].JFloat?
  }

  lemma HasFloatSnoc(vs: seq<Value>, v: Value)
    ensures HasFloat(vs + [v]) <==> HasFloat(vs) || v.JFloat?
  {
    if HasFloat(vs) {
      var i :| 0 <= i < |vs| && vs[i].JFloat?;
      assert (vs + [v])[i] == vs[i];
    }
    if v.JFloat? {
      assert (vs + [v])[|vs|] == v;
    }
    if HasFloat(vs + [v]) && !v.JFloat? {
      var i :| 0 <= i < |vs + [v]| && (vs + [v])[i].JFloat?;
      assert i != |vs| by { assert (vs + [v])[|vs|] == v; }
      assert vs[i] == (vs + [v])[i];
    }
  }

  /** The longest run of numbers at the end of `vs`. */
  function TrailingNumbers(vs: seq<Value>): (run: seq<Value>)
    ensures |run| <= |vs|
    ensures |run| == |vs| ==> run == vs
    ensures |run| < |vs| ==> run == vs[|vs| - |run|..]
    ensures forall i :: 0 <= i < |run| ==> IsNumber(run[i])
    ensures |run| < |vs| ==> !IsNumber(vs[|vs| - |run| - 1])
    decreases |vs|
  {
    if vs == [] || !IsNumber(vs[|vs| - 1]) then []
    else
      var init := vs[..|vs| - 1];
      var r := TrailingNumbers(init);
      SuffixSnoc(vs, r);
      var run := r + [vs[|vs| - 1]];
      assert forall i :: 0 <= i < |run| ==> run[i] == if i < |r| then r[i] else vs[|vs| - 1];
      run
  }

  /** A suffix of all but the last element, extended by the last element,
      is a suffix one longer. */
  lemma SuffixSnoc<T>(vs: seq<T>, r: seq<T>)
    requires vs != []
    requires var init := vs[..|vs| - 1];
      && |r| <= |init|
      && (|r| == |init| ==> r == init)
      && (|r| < |init| ==> r == init[|init| - |r|..])
    ensures r + [vs[|vs| - 1]] == vs[|vs| - |r| - 1..]
    ensures |r| + 1 < |vs| ==> vs[|vs| - |r| - 2] == vs[..|vs| - 1][|vs| - 1 - |r| - 1]
  {
  }

  /** A reference description of what the fold computes when no string is
      seen: only the trailing run of numbers matters, because a `None` (or a
      list or object) resets the column to UNKNOWN and forgets any earlier
      INTEGER or FLOAT. */
  function RunType(vs: seq<Value>): ColType {
    var run := TrailingNumbers(vs);
    if run == [] then Unknown
    else if HasFloat(run) then Float
    else Integer
  }

  /** Without strings, the fold never yields STRING. */
  lemma {:induction false} NoStringNoString(vs: seq<Value>)
    requires forall i :: 0 <= i < |vs| ==> !vs[i].JString?
    ensures FoldTypes(None, vs) != Some(String)
    decreases |vs|
  {
    if vs != [] {
      var init := vs[..|vs| - 1];
      assert vs == init + [vs[|vs| - 1]];
      FoldTypesSnoc(None, init, vs[|vs| - 1]);
      NoStringNoString(init);
    }
  }

  /** Without strings, a column's type is decided by its trailing run of
      numbers alone: UNKNOWN if the last value is not a number, else FLOAT
      iff that run holds a float, else INTEGER. */
  lemma {:induction false} FoldTypesIsRunType(vs: seq<Value>)
    requires vs != []
    requires forall i :: 0 <= i < |vs| ==> !vs[i].JString?
    ensures FoldTypes(None, vs) == Some(RunType(vs))
    decreases |vs|
  {
    var init, v := vs[..|vs| - 1], vs[|vs| - 1];
    assert vs == init + [v];
    FoldTypesSnoc(None, init, v);
    RunTypeSnoc(init, v);
    if init != [] {
      assert forall i :: 0 <= i < |init| ==> init[i] == vs[i];
      FoldTypesIsRunType(init);
    }
  }

  /** One more value moves the reference type the way one merge step moves
      the recorded type. */
  lemma RunTypeSnoc(init: seq<Value>, v: Value)
    requires !v.JString?
    ensures RunType(init + [v]) == GetColumnType(v, if init == [] then None else Some(RunType(init)))
  {
    var vs := init + [v];
    assert vs[..|vs| - 1] == init && vs[|vs| - 1] == v;
    assert RunType(init) != String;
    if IsNumber(v) {
      var runInit := TrailingNumbers(init);
      RunTypeSnocNumber(init, v);
      assert init == [] ==> runInit == [];
      assert runInit == [] ==> !HasFloat(runInit);
    } else {
      assert TrailingNumbers(vs) == [];
    }
  }

  /** A number extends the trailing run: FLOAT once the run holds a float. */
  lemma RunTypeSnocNumber(init: seq<Value>, v: Value)
    requires IsNumber(v)
    ensures RunType(init + [v]) == if HasFloat(TrailingNumbers(init)) || v.JFloat? then Float else Integer
  {
    var vs := init + [v];
    assert vs[..|vs| - 1] == init && vs[|vs| - 1] == v;
    var runInit := TrailingNumbers(init);
    assert TrailingNumbers(vs) == runInit + [v];
    HasFloatSnoc(runInit, v);
  }

  /** The merge is not monotone: a `None` after an INTEGER makes the column
      UNKNOWN, and the order of values matters. */
  lemma NoneAfterIntegerIsUnknown()
    ensures FoldTypes(None, [JInt(1), JNull]) == Some(Unknown)
    ensures FoldTypes(None, [JNull, JInt(1)]) == Some(Integer)
  {
  }

  /** A float followed by `None` and an int ends as INTEGER: the earlier
      FLOAT is forgotten. */
  lemma FloatForgottenAfterNone()
    ensures FoldTypes(None, [JFloat(0), JNull, JInt(2)]) == Some(Integer)
  {
  }

  /** Booleans mix with numbers as integers: ints, a float and a bool give
      FLOAT, not STRING. */
  lemma BooleansAreIntegers()
    ensures FoldTypes(None, [JBool(true)]) == Some(Integer)
    ensures FoldTypes(None, [JInt(1), JFloat(0), JBool(true)]) == Some(Float)
  {
  }
}
