/** Choosing where output files go: `is_output_file_safe`
    (ogr2bqjson.py:337-349), `get_safe_filepath` (479-513),
    `get_output_filepath` (704-726), the temporary GeoJSONSeq path
    (688-693) and the two schema paths (770-784). The filesystem is the
    finite set of paths that currently exist. */
module OutputNaming {
  import opened Text
  import opened PosixPath

  /** `is_output_file_safe`: writing is allowed when overwriting is, or
      when nothing exists at the path. */
  predicate IsOutputFileSafe(path: string, canOverwrite: bool, existing: set<string>) {
    canOverwrite || path !in existing
  }

  /** `f'{path_root}_{i:02d}{extension}'`. */
  function Numbered(root: string, i: nat, ext: string): string {
    root + "_" + ZeroPad2(i) + ext
  }

  /** Different numbers give different candidate paths. */
  lemma NumberedInjective(root: string, ext: string, m: nat, n: nat)
    requires m != n
    ensures Numbered(root, m, ext) != Numbered(root, n, ext)
  {
    var a, b := Numbered(root, m, ext), Numbered(root, n, ext);
    assert a[|root| + 1..|a| - |ext|] == ZeroPad2(m);
    assert b[|root| + 1..|b| - |ext|] == ZeroPad2(n);
    ZeroPad2Injective(m, n);
  }

  /** The candidates numbered 1 to n. */
  ghost function NumberedUpTo(root: string, ext: string, n: nat): (s: set<string>)
    ensures |s| == n
    ensures forall i :: 1 <= i <= n ==> Numbered(root, i, ext) in s
    ensures forall p :: p in s ==> exists i :: 1 <= i <= n && p == Numbered(root, i, ext)
  {
    if n == 0 then {}
    else
      var s := NumberedUpTo(root, ext, n - 1);
      assert Numbered(root, n, ext) !in s by {
        forall i | 1 <= i <= n - 1 ensures Numbered(root, i, ext) != Numbered(root, n, ext) {
          NumberedInjective(root, ext, i, n);
        }
      }
      s + {Numbered(root, n, ext)}
  }

  /** If the candidates 1 to n all exist, there are at least n existing
      paths: the search cannot run past `|existing| + 1`. */
  lemma TakenBound(root: string, ext: string, existing: set<string>, n: nat)
    requires forall i :: 1 <= i <= n ==> Numbered(root, i, ext) in existing
    ensures n <= |existing|
  {
    var s := NumberedUpTo(root, ext, n);
    assert s <= existing;
    SubsetCard(s, existing);
  }

  lemma {:induction false} SubsetCard<T>(a: set<T>, b: set<T>)
    requires a <= b
    ensures |a| <= |b|
    decreases |a|
  {
    if a != {} {
      var x :| x in a;
      SubsetCard(a - {x}, b - {x});
    }
  }

  /** `k` is the least number from `i` on whose candidate may be written. */
  ghost predicate LeastFreeFrom(root: string, ext: string, canOverwrite: bool, existing: set<string>, i: nat, k: nat) {
    i <= k
    && IsOutputFileSafe(Numbered(root, k, ext), canOverwrite, existing)
    && forall j :: i <= j < k ==> !IsOutputFileSafe(Numbered(root, j, ext), canOverwrite, existing)
  }

  /** The `while` loop of `get_safe_filepath` (ogr2bqjson.py:510-512),
      entered at candidate `i`, all earlier candidates being taken. */
  function FreeNumberFrom(root: string, ext: string, canOverwrite: bool, existing: set<string>, i: nat): (k: nat)
    requires i >= 1
    requires forall j :: 1 <= j < i ==> !IsOutputFileSafe(Numbered(root, j, ext), canOverwrite, existing)
    ensures LeastFreeFrom(root, ext, canOverwrite, existing, i, k)
    decreases |existing| + 1 - i
  {
    if IsOutputFileSafe(Numbered(root, i, ext), canOverwrite, existing) then i
    else
      assert forall j :: 1 <= j <= i ==> Numbered(root, j, ext) in existing by {
        forall j | 1 <= j <= i ensures Numbered(root, j, ext) in existing {
          assert !IsOutputFileSafe(Numbered(root, j, ext), canOverwrite, existing);
        }
      }
      TakenBound(root, ext, existing, i);
      FreeNumberFrom(root, ext, canOverwrite, existing, i + 1)
  }

  /** `r` is where the search of `get_safe_filepath` settles for the
      candidate `initial`: `initial` itself when it may be written, and
      otherwise the least-numbered `root_NN.ext` that may. */
  ghost predicate FirstWritable(initial: string, canOverwrite: bool, existing: set<string>, r: string) {
    var (root, ext) := SplitExt(initial);
    && (IsOutputFileSafe(initial, canOverwrite, existing) ==> r == initial)
    && (!IsOutputFileSafe(initial, canOverwrite, existing) ==>
          exists k :: LeastFreeFrom(root, ext, canOverwrite, existing, 1, k) && r == Numbered(root, k, ext))
  }

  /** `get_safe_filepath`. */
  function SafeFilepath(initial: string, canOverwrite: bool, isCandidate: bool, existing: set<string>): (r: string)
    // the result may always be written; without overwrite it is a new path
    ensures IsOutputFileSafe(r, canOverwrite, existing)
    ensures !canOverwrite ==> r !in existing
    // a usable candidate is kept as it is
    ensures isCandidate && IsOutputFileSafe(initial, canOverwrite, existing) ==> r == initial
    // otherwise: the least numbered variant that may be written
    ensures !(isCandidate && IsOutputFileSafe(initial, canOverwrite, existing)) ==>
              var (root, ext) := SplitExt(initial);
              exists k :: LeastFreeFrom(root, ext, canOverwrite, existing, 1, k) && r == Numbered(root, k, ext)
    ensures canOverwrite && !isCandidate ==> r == Numbered(SplitExt(initial).0, 1, SplitExt(initial).1)
  {
    var (root, ext) := SplitExt(initial);
    if isCandidate && IsOutputFileSafe(initial, canOverwrite, existing) then initial
    else
      var k := FreeNumberFrom(root, ext, canOverwrite, existing, 1);
      Numbered(root, k, ext)
  }

  /** A chosen path keeps the extension of the initial one; when that is
      empty, a numbered path ends in a digit. */
  lemma SafeFilepathEnding(initial: string, canOverwrite: bool, isCandidate: bool, existing: set<string>)
    ensures var r := SafeFilepath(initial, canOverwrite, isCandidate, existing);
      var ext := SplitExt(initial).1;
      r == initial || (EndsWith(r, ext) && (ext == [] ==> r != [] && IsDigit(r[|r| - 1])))
  {
    var r := SafeFilepath(initial, canOverwrite, isCandidate, existing);
    var (root, ext) := SplitExt(initial);
    if r != initial {
      var k :| LeastFreeFrom(root, ext, canOverwrite, existing, 1, k) && r == Numbered(root, k, ext);
      var pad := ZeroPad2(k);
      assert r == (root + "_" + pad) + ext;
      assert r[|r| - |ext|..] == ext;
      if ext == [] {
        assert r[|r| - 1] == pad[|pad| - 1];
      }
    }
  }

  /** The path `get_output_filepath` tries first: the source's file name
      root plus `extension`, in `outputDirectory` (the source's directory
      when that is empty). */
  function PlannedFilepath(source: string, extension: string, outputDirectory: string): string {
    var dir := if outputDirectory != [] then outputDirectory else Dirname(source);
    Join(dir, GetPathParts(source).filenameRoot + extension)
  }

  /** `get_output_filepath`. */
  function OutputFilepath(source: string, extension: string, canOverwrite: bool,
                          outputDirectory: string, existing: set<string>): (r: string)
    ensures !canOverwrite ==> r !in existing
    // the planned path when it may be written, else its first free `_NN` variant
    ensures FirstWritable(PlannedFilepath(source, extension, outputDirectory), canOverwrite, existing, r)
  {
    SafeFilepath(PlannedFilepath(source, extension, outputDirectory), canOverwrite, true, existing)
  }

  /** The last component of `s` is not only dots: `splitext` can find an
      extension after it. */
  ghost predicate NamedComponent(s: string) {
    exists j :: RFind(s, '/') < j < |s| && s[j] != '.'
  }

  /** A file name joined to a directory keeps its extension, which
      `splitext` finds unless the name's root is only dots. */
  lemma JoinedExtension(dir: string, name: string, extension: string)
    requires IsSimpleExtension(extension)
    requires forall i :: 0 <= i < |name| ==> name[i] != '/'
    ensures var p := Join(dir, name + extension);
      && EndsWith(p, extension)
      && (SplitExt(p).1 == extension || SplitExt(p).1 == [])
      && (NamedComponent(name) ==> SplitExt(p).1 == extension)
  {
    var p := Join(dir, name + extension);
    var a := p[..|p| - |extension|];
    assert p == a + extension;
    assert EndsWith(a, name) by {
      assert a[|a| - |name|..] == p[|p| - |name + extension|..|p| - |extension|];
    }
    SplitExtOfSuffix(a, extension);
    if NamedComponent(name) {
      var j :| RFind(name, '/') < j < |name| && name[j] != '.';
      NamedTail(a, name, j);
    }
  }

  /** The name root of a path has no '/'. */
  lemma FilenameRootHasNoSlash(source: string)
    ensures var fr := GetPathParts(source).filenameRoot;
      forall i :: 0 <= i < |fr| ==> fr[i] != '/'
  {
    BasenameRootHasNoSlash(source);
    assert GetPathParts(source).filenameRoot == SplitExt(Basename(source)).0;
  }

  lemma BasenameRootHasNoSlash(source: string)
    ensures var fr := SplitExt(Basename(source)).0;
      forall i :: 0 <= i < |fr| ==> fr[i] != '/'
  {
    RootHasNoSlash(Basename(source));
  }

  /** The planned path ends with the extension, and `splitext` finds it
      there unless the source's name root is only dots. */
  lemma PlannedFilepathExtension(source: string, extension: string, outputDirectory: string)
    requires IsSimpleExtension(extension)
    ensures var planned := PlannedFilepath(source, extension, outputDirectory);
      && EndsWith(planned, extension)
      && (SplitExt(planned).1 == extension || SplitExt(planned).1 == [])
      && (NamedComponent(GetPathParts(source).filenameRoot) ==> SplitExt(planned).1 == extension)
  {
    var dir := if outputDirectory != [] then outputDirectory else Dirname(source);
    var fr := GetPathParts(source).filenameRoot;
    assert PlannedFilepath(source, extension, outputDirectory) == Join(dir, fr + extension);
    assert forall i :: 0 <= i < |fr| ==> fr[i] != '/' by { FilenameRootHasNoSlash(source); }
    JoinedExtension(dir, fr, extension);
  }

  /** The chosen output path ends with the extension, or (in the corner
      case of a source whose name root is only dots) with a digit; when the
      name root has a character other than '.', it always ends with the
      extension. */
  lemma OutputFilepathEnding(source: string, extension: string, canOverwrite: bool,
                             outputDirectory: string, existing: set<string>)
    requires IsSimpleExtension(extension)
    ensures var r := OutputFilepath(source, extension, canOverwrite, outputDirectory, existing);
      && r != []
      && (EndsWith(r, extension) || IsDigit(r[|r| - 1]))
      && (NamedComponent(GetPathParts(source).filenameRoot) ==> EndsWith(r, extension))
  {
    var planned := PlannedFilepath(source, extension, outputDirectory);
    var r := SafeFilepath(planned, canOverwrite, true, existing);
    assert r == OutputFilepath(source, extension, canOverwrite, outputDirectory, existing);
    PlannedFilepathExtension(source, extension, outputDirectory);
    SafeFilepathEnding(planned, canOverwrite, true, existing);
    var e := SplitExt(planned).1;
    assert r == planned || (EndsWith(r, e) && (e == [] ==> IsDigit(r[|r| - 1])));
    assert e == extension || e == [];
  }

  /** A component with a non-dot character at the end of a path keeps
      that path's last component named. */
  lemma NamedTail(a: string, fr: string, j: int)
    requires EndsWith(a, fr)
    requires forall i :: 0 <= i < |fr| ==> fr[i] != '/'
    requires 0 <= j < |fr| && fr[j] != '.'
    ensures NamedComponent(a)
  {
    var m := |a| - |fr| + j;
    assert a[m] == fr[j];
    assert forall i :: m <= i < |a| ==> a[i] == fr[i - (|a| - |fr|)];
    assert RFind(a, '/') < m;
  }

  const TempSuffix: string := "_GeoJSONSeq"
  const TempExtension: string := ".geojson"

  /** Where `convert_to_ndjson` writes the intermediate GeoJSONSeq file:
      named after the output path, never over an existing file
      (ogr2bqjson.py:688-693). */
  function TempFilepath(outputFilepath: string, outputDirectory: string, existing: set<string>): (r: string)
    ensures r !in existing
    // the output's root plus `_GeoJSONSeq`, planned with `.geojson` like an
    // output path, or its first free `_NN` variant
    ensures FirstWritable(PlannedFilepath(SplitExt(outputFilepath).0 + TempSuffix, TempExtension, outputDirectory),
                          false, existing, r)
  {
    OutputFilepath(SplitExt(outputFilepath).0 + TempSuffix, TempExtension, false, outputDirectory, existing)
  }

  /** The temporary file always ends in `.geojson`: the name it is derived
      from ends in `_GeoJSONSeq`, so its root is never only dots. */
  lemma TempFilepathEnding(outputFilepath: string, outputDirectory: string, existing: set<string>)
    ensures EndsWith(TempFilepath(outputFilepath, outputDirectory, existing), TempExtension)
  {
    var source := SplitExt(outputFilepath).0 + TempSuffix;
    assert source[|source| - |TempSuffix|..] == TempSuffix;
    TempNameRootNamed(source);
    TempExtensionIsSimple();
    OutputFilepathEnding(source, TempExtension, false, outputDirectory, existing);
  }

  lemma TempExtensionIsSimple()
    ensures IsSimpleExtension(TempExtension)
  {
  }

  /** A path ending in `_GeoJSONSeq` has a name root that is not only dots. */
  lemma TempNameRootNamed(source: string)
    requires EndsWith(source, TempSuffix)
    ensures NamedComponent(GetPathParts(source).filenameRoot)
  {
    var b := Basename(source);
    assert forall i :: |source| - |TempSuffix| <= i < |source| ==> source[i] != '/' by {
      assert source[|source| - |TempSuffix|..] == TempSuffix;
    }
    BasenameOfTailAtLeast(source, |TempSuffix|);
    assert b[|b| - 1] == source[|source| - 1] == 'q';
    RFindUnique(b, '/', -1);
    assert NamedComponent(b);
    SplitExtRootNamed(b);
  }

  /** A '/'-free tail of `p` lies inside its basename. */
  lemma BasenameOfTailAtLeast(p: string, n: nat)
    requires n <= |p|
    requires forall i :: |p| - n <= i < |p| ==> p[i] != '/'
    ensures |Basename(p)| >= n
  {
  }

  /** Removing an extension leaves a named last component named. */
  lemma SplitExtRootNamed(p: string)
    requires NamedComponent(p)
    ensures NamedComponent(SplitExt(p).0)
  {
    var i := ExtStart(p);
    if i < |p| {
      var sep := RFind(p, '/');
      var root := p[..i];
      assert !OnlyDots(p, sep + 1, i);
      var k :| sep + 1 <= k < i && p[k] != '.';
      assert root[k] == p[k];
      assert forall j :: 0 <= j < |root| ==> root[j] == p[j];
      RFindUnique(root, '/', sep);
    }
  }

  /** `save_schema_files` picks the JSON schema path, writes that file,
      then picks the text schema path (ogr2bqjson.py:770-784). */
  function SchemaFilepaths(pathRoot: string, canOverwrite: bool, existing: set<string>): (r: (string, string))
    ensures canOverwrite ==> r == (pathRoot + "_SCHEMA.json", pathRoot + "_SCHEMA.txt")
    ensures !canOverwrite ==> r.0 !in existing && r.1 !in existing
    ensures r.0 != r.1
    // each is the first writable of its name and its `_NN` variants; the
    // text file's search already sees the JSON file
    ensures FirstWritable(pathRoot + "_SCHEMA.json", canOverwrite, existing, r.0)
    ensures FirstWritable(pathRoot + "_SCHEMA.txt", canOverwrite, existing + {r.0}, r.1)
  {
    var json := SafeFilepath(pathRoot + "_SCHEMA.json", canOverwrite, true, existing);
    var text := SafeFilepath(pathRoot + "_SCHEMA.txt", canOverwrite, true, existing + {json});
    assert canOverwrite ==> json[|json| - 1] == 'n' && text[|text| - 1] == 't';
    (json, text)
  }

  /** Without overwriting, each schema file gets its plain name,
      `root_SCHEMA.json` or `root_SCHEMA.txt`, whenever no file has it:
      the JSON schema file, ending in `.json` or a digit, never takes the
      text file's name. */
  lemma SchemaFilepathsWhenFree(pathRoot: string, existing: set<string>)
    ensures var r := SchemaFilepaths(pathRoot, false, existing);
      && (pathRoot + "_SCHEMA.json" !in existing ==> r.0 == pathRoot + "_SCHEMA.json")
      && (pathRoot + "_SCHEMA.txt" !in existing ==> r.1 == pathRoot + "_SCHEMA.txt")
  {
    var r := SchemaFilepaths(pathRoot, false, existing);
    var a := pathRoot + "_SCHEMA";
    assert pathRoot + "_SCHEMA.json" == a + ".json" && pathRoot + "_SCHEMA.txt" == a + ".txt";
    var json := a + ".json";
    assert r.0 == SafeFilepath(json, false, true, existing);
    assert r.0 == json || EndsWith(r.0, ".json") || (r.0 != [] && IsDigit(r.0[|r.0| - 1])) by {
      JsonExtensionEnding(a);
      SafeFilepathEnding(json, false, true, existing);
    }
    NotTextName(r.0, a);
  }

  lemma JsonExtensionEnding(a: string)
    ensures SplitExt(a + ".json").1 == ".json" || SplitExt(a + ".json").1 == []
  {
    assert IsSimpleExtension(".json");
    SplitExtOfSuffix(a, ".json");
  }

  /** A name ending in `.json` or a digit is never a `.txt` name. */
  lemma NotTextName(x: string, a: string)
    requires x == a + ".json" || EndsWith(x, ".json") || (x != [] && IsDigit(x[|x| - 1]))
    ensures x != a + ".txt"
  {
    var t := a + ".txt";
    assert t[|t| - 1] == 't';
    if x == a + ".json" {
      assert x[|x| - 1] == 'n';
    } else if EndsWith(x, ".json") {
      assert x[|x| - 1] == ".json"[4];
    }
  }

  /** When the output's name root holds no '.', the temporary file is
      named after it with `_GeoJSONSeq.geojson`, and that is its path
      whenever the name is free. */
  lemma TempFilepathNamed(outputFilepath: string, outputDirectory: string, existing: set<string>)
    requires var n := Basename(SplitExt(outputFilepath).0);
      forall i :: 0 <= i < |n| ==> n[i] != '.'
    ensures var planned := PlannedFilepath(SplitExt(outputFilepath).0 + TempSuffix, TempExtension, outputDirectory);
      && Basename(planned) == Basename(SplitExt(outputFilepath).0) + TempSuffix + TempExtension
      && (planned !in existing ==> TempFilepath(outputFilepath, outputDirectory, existing) == planned)
  {
    var root := SplitExt(outputFilepath).0;
    var source := root + TempSuffix;
    var b := Basename(root) + TempSuffix;
    TempRootPlain(root);
    TempNamesPlain();
    PlannedForPlainName(source, TempExtension, outputDirectory, b);
    var planned := PlannedFilepath(source, TempExtension, outputDirectory);
    if planned !in existing {
      OutputFilepathWhenFree(source, TempExtension, outputDirectory, existing);
    }
  }

  /** Without overwriting, a free planned path is used as it is. */
  lemma OutputFilepathWhenFree(source: string, extension: string, outputDirectory: string, existing: set<string>)
    ensures PlannedFilepath(source, extension, outputDirectory) !in existing ==>
              OutputFilepath(source, extension, false, outputDirectory, existing)
              == PlannedFilepath(source, extension, outputDirectory)
  {
  }

  /** A name root without '.' keeps its basename, and still has no '.' or
      '/', once the temporary suffix is appended. */
  lemma TempRootPlain(root: string)
    requires var n := Basename(root);
      forall i :: 0 <= i < |n| ==> n[i] != '.'
    ensures var b := Basename(root) + TempSuffix;
      && Basename(root + TempSuffix) == b
      && forall i :: 0 <= i < |b| ==> b[i] != '.' && b[i] != '/'
  {
    TempNamesPlain();
    BasenameAppend(root, TempSuffix);
    BasenameIsTail(root);
  }

  /** The temporary file's suffix and extension hold no '/', and the suffix
      no '.'. */
  lemma TempNamesPlain()
    ensures forall i :: 0 <= i < |TempSuffix| ==> TempSuffix[i] != '.' && TempSuffix[i] != '/'
    ensures forall i :: 0 <= i < |TempExtension| ==> TempExtension[i] != '/'
  {
  }

  /** A source whose basename holds neither '.' nor '/' is planned under
      that basename plus the extension. */
  lemma PlannedForPlainName(source: string, extension: string, outputDirectory: string, b: string)
    requires Basename(source) == b
    requires forall i :: 0 <= i < |b| ==> b[i] != '.' && b[i] != '/'
    requires forall i :: 0 <= i < |extension| ==> extension[i] != '/'
    ensures Basename(PlannedFilepath(source, extension, outputDirectory)) == b + extension
  {
    RFindUnique(b, '.', -1);
    assert SplitExt(b).0 == b;
    assert GetPathParts(source).filenameRoot == b;
    var dir := if outputDirectory != [] then outputDirectory else Dirname(source);
    assert forall i :: 0 <= i < |b + extension| ==> (b + extension)[i] != '/';
    JoinBasename(dir, b + extension);
  }

  /** Appending a '/'-free tail extends the basename by it. */
  lemma BasenameAppend(p: string, s: string)
    requires forall i :: 0 <= i < |s| ==> s[i] != '/'
    ensures Basename(p + s) == Basename(p) + s
  {
    var b := Basename(p);
    var q := p + s;
    BasenameIsTail(p);
    assert q[|q| - |b + s|..] == b + s by {
      assert p[|p| - |b|..] == b;
    }
    assert |b + s| == |q| || q[|q| - |b + s| - 1] == '/' by {
      if |b| < |p| {
        assert q[|q| - |b + s| - 1] == p[|p| - |b| - 1];
      }
    }
    BasenameOfTail(q, |b + s|);
  }

  /** The help text promises that a kept temporary file ends in
      `_GeoJSONSeq.geojson`, but the suffix is cut off again as an
      "extension" when the output's name root holds a '.':
      `d/my.data.json` gets the temporary file `d/my.geojson`. */
  lemma TempFilepathDotted()
    ensures TempFilepath("d/my.data.json", "d/", {}) == "d/my.geojson"
  {
    var source := "d/my.data_GeoJSONSeq";
    assert TempFilepath("d/my.data.json", "d/", {}) == OutputFilepath(source, TempExtension, false, "d/", {}) by {
      DottedOutputRoot();
    }
    var planned := PlannedFilepath(source, TempExtension, "d/");
    assert planned == Join("d/", "my.geojson") by {
      DottedTempNameRoot();
      DottedPlanned(source);
    }
    DottedJoin(planned);
  }

  lemma DottedPlanned(source: string)
    requires GetPathParts(source).filenameRoot == "my"
    ensures PlannedFilepath(source, TempExtension, "d/") == Join("d/", "my.geojson")
  {
    PlannedInDirectory(source, TempExtension, "d/");
    DottedName();
  }

  lemma DottedName()
    ensures "my" + TempExtension == "my.geojson"
  {
  }

  /** With an output directory given, the planned path is in it. */
  lemma PlannedInDirectory(source: string, extension: string, outputDirectory: string)
    requires outputDirectory != []
    ensures PlannedFilepath(source, extension, outputDirectory)
              == Join(outputDirectory, GetPathParts(source).filenameRoot + extension)
  {
  }

  lemma DottedJoin(p: string)
    requires p == Join("d/", "my.geojson")
    ensures p == "d/my.geojson"
  {
  }

  lemma DottedOutputRoot()
    ensures SplitExt("d/my.data.json").0 + TempSuffix == "d/my.data_GeoJSONSeq"
  {
    var out := "d/my.data.json";
    RFindUnique(out, '/', 1);
    RFindUnique(out, '.', 9);
    assert !OnlyDots(out, 2, 9) by { assert out[2] == 'm'; }
    assert ExtStart(out) == 9;
  }

  lemma DottedTempNameRoot()
    ensures GetPathParts("d/my.data_GeoJSONSeq").filenameRoot == "my"
  {
    DottedTempBasename();
    DottedTempSplit();
  }

  lemma DottedTempBasename()
    ensures Basename("d/my.data_GeoJSONSeq") == "my.data_GeoJSONSeq"
  {
    RFindUnique("d/my.data_GeoJSONSeq", '/', 1);
  }

  lemma DottedTempSplit()
    ensures SplitExt("my.data_GeoJSONSeq").0 == "my"
  {
    var b := "my.data_GeoJSONSeq";
    RFindUnique(b, '/', -1);
    RFindUnique(b, '.', 2);
    assert !OnlyDots(b, 0, 2) by { assert b[0] == 'm'; }
    assert ExtStart(b) == 2;
  }
}
