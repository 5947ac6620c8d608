# ogr2bqjson in Dafny

`ogr2bqjson.py` converts geographic files, through GDAL, into BigQuery
newline-delimited JSON, together with a BigQuery schema. This project models
the parts of the script that hold logic, with GDAL, the filesystem and JSON
(de)serialisation abstracted away. It proves what those parts guarantee.

The model has these parts:

- **Column types** (`ColumnTypes`). `get_column_type` classifies a property
  value as STRING, INTEGER, FLOAT or UNKNOWN and merges that with the type
  recorded so far. Its BOOLEAN branch is unreachable, because a Python `bool`
  is an `int`. A column's type is the left fold of this merge over its
  values.
- **Transcoder** (`Transcoder`). `geojson_to_ndjson` is a pure function from
  parsed GeoJSONSeq features to output rows and a schema map, or to the
  error of the first line it cannot convert. Python dicts are
  ordered association lists (`Dicts`): insertion order is kept, and an update
  keeps a key in its place. `json.dumps` is a function parameter.
- **Column spec** (`ColumnSpec`):
  - `get_columns` on the parsed `--columns` argument;
  - the reserved-option check of `get_arg_errors`;
  - the fixed option prefix handed to GDAL.
- **Paths**:
  - the POSIX `os.path` functions the script uses (`splitext`, `basename`,
    `dirname`, `join`) and `get_path_parts` (`PosixPath`);
  - `is_output_file_safe`, the collision-avoiding `get_safe_filepath` and
    `get_output_filepath`, and the temporary and schema file names
    (`OutputNaming`).
  The filesystem is the finite set of paths that exist.
- **Batch conversion** (`Batch`):
  - `convert_all`'s extension and directory normalisation and its file
    selection;
  - the sequence of jobs it runs, each job seeing the files the earlier ones
    left, up to the first conversion that raises.
- **Plain-text schema** (`SchemaText`): the `_SCHEMA.txt` contents and the
  list of undetermined columns that `save_schema_files` builds.

The model follows the code. Some of what the code does is easy to miss:

- There are no REQUIRED/NULLABLE modes, and values are not coerced to the
  inferred type.
- A `bool` is an `int` in Python, so booleans are typed INTEGER. BOOLEAN is
  never produced.
- The `get_column_type` docstring (ogr2bqjson.py:604-611) describes a type
  that only widens, INTEGER becoming FLOAT once a float is seen. The code
  also resets it: a `None` after a number makes the column UNKNOWN, so the
  result depends on the order of the values.
- Extension matching is exact and case-sensitive.
- A source directory without a trailing `/` is concatenated with itself
  (`data` is listed as `datadata/`).
- No set of claimed paths is kept apart from the filesystem. Names stay apart
  only because each file is written before the next name is chosen.
- The schema, and so both schema files, lists the property columns first, in
  the order their keys are first met, and the geographic columns after them.
- A line whose `properties` is `null` (which GeoJSON allows), a boolean, a
  number or a non-empty string stops the whole conversion with a
  `TypeError`. A line without `geometry` stops it with a `KeyError` only
  when the `geometry` or `geojson_geometry` column is configured.
- Nothing catches that exception. It leaves `convert_to_ndjson` before the
  temporary file is removed (ogr2bqjson.py:697-699), so that file stays
  even when it is not to be kept. No output file is written, because the
  output is opened only after the loop over the lines (ogr2bqjson.py:592).
  No schema files are saved, and `convert_all` runs no later job.
- The help text (ogr2bqjson.py:99-104) promises that a kept temporary file
  ends in `_GeoJSONSeq.geojson`. The code cuts the `_GeoJSONSeq` suffix off
  again as an "extension" when the output's name root holds a '.':
  `d/my.data.json` gets the temporary file `d/my.geojson`.

## Model

| member | source | states |
|---|---|---|
| ColumnTypes.Classify | ogr2bqjson.py:621-631 | A value's own type: strings are STRING, ints and bools are INTEGER, floats are FLOAT, and None, lists and objects are UNKNOWN. BOOLEAN and GEOGRAPHY never occur. |
| ColumnTypes.GetColumnType | ogr2bqjson.py:599-639 | Merging with the previous type. With none, the value's own type wins. STRING on either side gives STRING. FLOAT and INTEGER in either order give FLOAT. Otherwise the value's type wins, including UNKNOWN for None. |
| ColumnTypes.FoldTypesSnoc | ogr2bqjson.py:573-576 | Seeing one more value applies exactly one more merge step to the column's type. |
| ColumnTypes.FoldTypes | ogr2bqjson.py:573-576 | The type a column records after its values, folded left in order: present exactly when a type was recorded before or some value was seen. |
| ColumnTypes.StringAbsorbs | ogr2bqjson.py:633-635 | A STRING column stays STRING whatever follows. |
| ColumnTypes.AnyStringGivesString | ogr2bqjson.py:624-635 | One string anywhere among a column's values makes the column STRING. |
| ColumnTypes.NumbersWidenToFloat | ogr2bqjson.py:626-637 | For numbers only (ints, bools, floats), starting untyped or numeric: FLOAT exactly when a float was seen or the start was FLOAT, INTEGER exactly otherwise. |
| ColumnTypes.NumbersFoldType | ogr2bqjson.py:626-637 | A non-empty all-number column is FLOAT if and only if it holds a float, and INTEGER if and only if it holds none. |
| ColumnTypes.HasFloatSnoc | ogr2bqjson.py:628-629 | A column with one more value holds a float exactly when the old column or the new value does. |
| ColumnTypes.TrailingNumbers | ogr2bqjson.py:621-637 | The longest all-number run at the end of a column's values. Only that run survives the reset that a None, list or object causes. |
| ColumnTypes.NoStringNoString | ogr2bqjson.py:624-635 | Without a string value, no column becomes STRING. |
| ColumnTypes.RunTypeSnoc | ogr2bqjson.py:621-637 | For a non-string value, the independent description of a column with that value appended is one merge step on the description of the column before it. |
| ColumnTypes.FoldTypesIsRunType | ogr2bqjson.py:599-639 | Without strings, a column's type equals an independent description: UNKNOWN if the last value is not a number, otherwise FLOAT or INTEGER by whether the trailing run of numbers holds a float. |
| ColumnTypes.NoneAfterIntegerIsUnknown | ogr2bqjson.py:622-637 | The merge depends on order: an int then None is UNKNOWN, and None then an int is INTEGER. |
| ColumnTypes.FloatForgottenAfterNone | ogr2bqjson.py:622-637 | A float, then None, then an int ends as INTEGER: the earlier FLOAT is forgotten. |
| ColumnTypes.BooleansAreIntegers | ogr2bqjson.py:626-631 | A bool alone is INTEGER, and bools mixed with ints and a float give FLOAT. |
| Dicts.Get | ogr2bqjson.py:576 | `d.get(k)` is present exactly when `k` is a key, and it is the value stored under `k`. |
| Dicts.Put | ogr2bqjson.py:575-576 | `d[k] = v`: `k` then maps to `v`, other keys are unchanged, a new key is appended, an existing key keeps its position, and keys stay unique. |
| Dicts.PutAllCopies | ogr2bqjson.py:573-575 | Copying a dict with unique keys into an empty one, key by key, gives back the same dict, in the same order. |
| Dicts.PutKeys | ogr2bqjson.py:575-576 | `d[k] = v` leaves the key order as it is when `k` is present and appends `k` otherwise. |
| Dicts.AppendNew | ogr2bqjson.py:573-576 | The key order after assigning keys one by one: the earlier keys stay in front, in order, and the keys are exactly the earlier ones and the assigned ones. |
| Dicts.AppendNewConcat | ogr2bqjson.py:567-576 | Assigning two runs of keys one after the other gives the same order as assigning their concatenation. |
| Transcoder.Properties | ogr2bqjson.py:571-575 | The properties of a parsed line have unique keys. An object `properties` gives its members, in order. An absent member, an empty array and an empty string give no properties. |
| Transcoder.GeojsonToNdjson | ogr2bqjson.py:538-596 | For lines that do not raise: one row per input feature, in input order, each built from its own feature. The schema has unique keys. |
| Transcoder.Transcode | ogr2bqjson.py:567-594 | The conversion succeeds exactly when no line raises. It then gives the rows and schema of GeojsonToNdjson. Otherwise it fails with the error of the first line that raises. |
| Transcoder.NullPropertiesFail | ogr2bqjson.py:571-573 | A line with `"properties": null` makes the conversion fail with the `TypeError` of the loop over the properties. |
| Transcoder.GeometryOnlyWhenUsed | ogr2bqjson.py:578-583 | A line without `geometry` converts exactly when neither the `geometry` nor the `geojson_geometry` column is configured; otherwise the conversion fails with the `KeyError`. |
| Transcoder.RowKeyOrder | ogr2bqjson.py:569-584 | A row's keys are the feature's property keys, then each configured geographic name not among them, in the order `geometry`, `geojson`, `geojson_geometry`. |
| Transcoder.PutGeoKeys | ogr2bqjson.py:578-591 | Assigning the geographic columns appends each configured name not yet present, in assignment order. |
| Transcoder.PutNamedKeys | ogr2bqjson.py:578-583 | One conditional assignment appends the configured name unless it is already a key. |
| Transcoder.ValuesOf | ogr2bqjson.py:567-576 | A key's values across the features are non-empty exactly when some feature has that property. |
| Transcoder.PutNamedFacts | ogr2bqjson.py:578-583 | A conditional column assignment sets only the configured name. It keeps every other key and the existing key order. |
| Transcoder.PutThreeOthers | ogr2bqjson.py:578-583 | Three conditional assignments leave every key they do not name unchanged. |
| Transcoder.PutThreeKeys | ogr2bqjson.py:578-583 | After three conditional assignments, the keys are exactly the old keys and the configured names. |
| Transcoder.PutThreeOrder | ogr2bqjson.py:578-583 | Three conditional assignments keep keys unique and the old keys in front, in their order. |
| Transcoder.PutThreeValues | ogr2bqjson.py:578-583 | After three conditional assignments, each configured name holds the value assigned to it last. |
| Transcoder.PutGeoFacts | ogr2bqjson.py:578-591 | Assigning the geographic columns leaves non-geographic keys unchanged. Each geographic name holds the value assigned to it last. |
| Transcoder.BuildRow | ogr2bqjson.py:569-584 | A row holds every property of its feature unchanged, at the front, in order. It holds no keys except those and the geographic names, and no key twice. |
| Transcoder.GeoColumnsContents | ogr2bqjson.py:578-583 | The geometry and `geojson_geometry` columns hold the serialised geometry, and the `geojson` column holds the serialised feature. The later assignment wins where names coincide. |
| Transcoder.AddTypesGet | ogr2bqjson.py:573-576 | Merging one feature into the schema applies one merge step to exactly that feature's keys. |
| Transcoder.PropertySchemaGet | ogr2bqjson.py:567-576 | Each property key's type is the left fold of the merge over that key's values, in feature order. |
| Transcoder.PropertySchema | ogr2bqjson.py:567-576 | The property part of the schema keeps its keys unique. Its key order is stated by PropertySchemaKeys and its types by PropertySchemaGet. |
| Transcoder.AddTypesKeys | ogr2bqjson.py:573-576 | Merging one feature appends the keys seen for the first time, in the feature's order; a key already in the schema keeps its place. |
| Transcoder.PropertySchemaKeys | ogr2bqjson.py:567-576 | The property part of the schema has one column per distinct property key, in the order the keys are first met across all features. |
| Transcoder.AddGeoTypes | ogr2bqjson.py:586-591 | The geographic columns are typed GEOGRAPHY (the `geometry` name) and STRING (the `geojson` and `geojson_geometry` names), the later assignment winning where names coincide. Other keys keep their types, the old keys stay in front in their order, and only the configured names are added. |
| Transcoder.SchemaContents | ogr2bqjson.py:573-591 | The schema types property keys by the fold. Configured geographic names are GEOGRAPHY or STRING, overriding property types. The keys are exactly the property keys seen and the geographic names. |
| Transcoder.SchemaKeyOrder | ogr2bqjson.py:567-591 | The schema's keys, and so the order of both schema files, are the distinct property keys in the order first met across the features, followed by the configured geographic names not already among them, in the order `geometry`, `geojson`, `geojson_geometry`. |
| Transcoder.EmptyInput | ogr2bqjson.py:586-596 | No features give no rows and a schema of only the configured geographic columns. |
| Transcoder.OnlyGeoKeysMatter | ogr2bqjson.py:578-591 | Column-spec keys other than the three recognised ones have no effect on rows or schema. |
| ColumnSpec.GetColumns | ogr2bqjson.py:379-418 | Empty arguments and empty containers give an empty map, and unparsable JSON fails. A map passes unchanged. A non-empty list fails exactly when it names no default column; otherwise it keeps exactly the default names it lists, each once and mapped to itself. A non-empty JSON string fails. A truthy JSON number or `true` fails because it cannot be iterated. Every spec it returns holds each key once, as a parsed object does. |
| ColumnSpec.KnownColumnsContents | ogr2bqjson.py:402-417 | The list loop keeps exactly the recognised names, unique and mapped to themselves. It is empty exactly when nothing is recognised. |
| ColumnSpec.FirstContained | ogr2bqjson.py:175-179 | The first candidate that occurs in the string; none exactly when no candidate occurs. |
| ColumnSpec.ReservedOptionUsed | ogr2bqjson.py:175-179 | A reserved option is reported exactly when one of `-f`, `-of`, `-t_srs` occurs anywhere in the option string. |
| ColumnSpec.ReservedCheckIsSubstring | ogr2bqjson.py:175-179 | The check is by substring: `-fid 1` is refused as `-f`. |
| ColumnSpec.VectorTranslateOptions | ogr2bqjson.py:748 | The option string is the fixed GeoJSONSeq / CRS:84 prefix followed by the user's options: it starts with the prefix, ends with the options, and is exactly as long as the two together. |
| ColumnSpec.AdapterOwnsReservedOptions | ogr2bqjson.py:173-179 | Once the reserved check passes, the full option string has `-f` only at 0 and `-t_srs` only at 14 (both in the fixed prefix), and never `-of`. |
| Text.Contains | ogr2bqjson.py:177 | Python's `p in s` holds exactly when `p` occurs in `s` at some index. |
| Text.ParseDecimalRoundTrip | ogr2bqjson.py:511 | Reading back the decimal digits of `n` gives `n`. |
| Text.ParseZeroPad2RoundTrip | ogr2bqjson.py:511 | Reading back the two-digit-padded form of `n` gives `n`. |
| Text.ZeroPad2Injective | ogr2bqjson.py:511 | Distinct numbers get distinct padded suffixes. |
| PosixPath.RFind | ogr2bqjson.py:243-244 | The last index holding `c`, or -1 when there is none. |
| PosixPath.SplitExt | ogr2bqjson.py:243 | `splitext`: the root is a prefix of the path, the extension is the rest of it, and the extension is empty or a '.' followed by no '.' or '/'. |
| PosixPath.SplitExtJoins | ogr2bqjson.py:243 | Root plus extension is the path. |
| PosixPath.SplitExtFindsExtension | ogr2bqjson.py:243 | An extension is found exactly when the last component has a '.' preceded, within that component, by a character other than '.'. Leading dots are not an extension. |
| PosixPath.Basename | ogr2bqjson.py:244 | The basename is no longer than the path and holds no '/'. |
| PosixPath.BasenameIsTail | ogr2bqjson.py:244 | The basename ends the path, and it is either the whole path or preceded by a '/'. |
| PosixPath.RootHasNoSlash | ogr2bqjson.py:243-244 | The root `splitext` gives for a slash-free name is slash-free. |
| PosixPath.Dirname | ogr2bqjson.py:724 | `dirname` is a prefix of the path that ends at or before the basename, with only slashes between its end and the basename. Trailing slashes are cut unless it is all slashes; when it is empty or all slashes it reaches the basename. |
| PosixPath.Join | ogr2bqjson.py:725 | `join` ends with its second argument. An absolute second argument replaces the first. Otherwise the first is a prefix, followed directly by the second when the first is empty or ends in '/', and by exactly one '/' and the second otherwise. |
| PosixPath.DirnameOfJoin | ogr2bqjson.py:724-725 | `dirname` undoes `join`: joining a directory without a trailing '/' and a slash-free name, then taking `dirname`, gives back the directory. |
| PosixPath.JoinBasename | ogr2bqjson.py:725 | Joining a slash-free name gives a path whose basename is that name. |
| PosixPath.GetPathParts | ogr2bqjson.py:226-251 | `full_path` is the path. `path_root` is a prefix of the path and the extension is the rest of it, empty or a '.' followed by no '.' or '/'. `filename_root` is a prefix of the basename. A trailing '/' gives an empty `filename_root`. |
| PosixPath.GetPathPartsJoins | ogr2bqjson.py:243-248 | `path_root + extension` is the path, and `filename_root + extension` is the basename: both splits find the same extension. |
| PosixPath.SplitExtOfBasename | ogr2bqjson.py:243-244 | Splitting the basename finds the same extension as splitting the whole path. |
| PosixPath.SuffixCut | ogr2bqjson.py:243 | A path ending in a simple extension is cut either just before that extension or not at all. |
| PosixPath.SuffixCutNamed | ogr2bqjson.py:243 | If the last component before a simple extension has a character other than '.', the path is cut just before the extension. |
| PosixPath.SplitExtOfSuffix | ogr2bqjson.py:725 | A path ending in a simple extension splits there, or not at all when the component before it is only dots. |
| OutputNaming.IsOutputFileSafe | ogr2bqjson.py:337-349 | Writing a path is allowed exactly when overwriting is, or nothing exists there. Every path SafeFilepath returns passes this test. |
| OutputNaming.NumberedInjective | ogr2bqjson.py:507-511 | Different numbers give different numbered paths. |
| OutputNaming.NumberedUpTo | ogr2bqjson.py:507-511 | The candidates numbered 1 to n are n distinct paths. |
| OutputNaming.TakenBound | ogr2bqjson.py:509-512 | If candidates 1 to n all exist, at least n paths exist, so the search ends by `|existing| + 1`. |
| OutputNaming.FreeNumberFrom | ogr2bqjson.py:509-512 | The loop stops at the least number from its start whose candidate may be written. |
| OutputNaming.SafeFilepath | ogr2bqjson.py:479-513 | The result may be written and, without overwrite, is a new path. A usable candidate is returned unchanged; otherwise the result is `root_NN.ext` for the least free N ≥ 1. With overwrite and no candidate it is `root_01.ext`. |
| OutputNaming.SafeFilepathEnding | ogr2bqjson.py:503-513 | A changed path keeps the initial extension. When that extension is empty, the path ends in a digit. |
| OutputNaming.OutputFilepath | ogr2bqjson.py:704-726 | Without overwrite the output path is new. It is the planned `dir/filename_root + extension` when that may be written, and otherwise the `_NN` variant of it for the least N ≥ 1 that may be. |
| OutputNaming.JoinedExtension | ogr2bqjson.py:723-725 | Joining a directory with a slash-free name plus a simple extension ends with the extension. `splitext` finds either that extension or none, and finds it whenever the name has a character other than '.'. |
| OutputNaming.FilenameRootHasNoSlash | ogr2bqjson.py:226-251 | `filename_root` never holds a '/'. |
| OutputNaming.PlannedFilepathExtension | ogr2bqjson.py:723-725 | The planned path ends with the extension, which `splitext` finds there unless the name root is only dots. |
| OutputNaming.OutputFilepathEnding | ogr2bqjson.py:704-726 | The output path ends with the extension, or with a digit when the name root is only dots. |
| OutputNaming.TempFilepath | ogr2bqjson.py:687-693 | The temporary GeoJSONSeq path never exists beforehand. It is the output's root plus `_GeoJSONSeq`, planned with `.geojson` like an output path and never overwriting, or its first free `_NN` variant. |
| OutputNaming.TempFilepathEnding | ogr2bqjson.py:688-693 | The temporary path always ends in `.geojson`. |
| OutputNaming.TempFilepathNamed | ogr2bqjson.py:687-693 | When the output's name root holds no '.', the planned temporary file is named that root plus `_GeoJSONSeq.geojson`, and that is its path whenever no file has it. |
| OutputNaming.TempFilepathDotted | ogr2bqjson.py:687-693 | When the output's name root holds a '.', the `_GeoJSONSeq` suffix is cut off again: `d/my.data.json` gets the temporary file `d/my.geojson`. |
| OutputNaming.SchemaFilepaths | ogr2bqjson.py:770-784 | With overwrite, the schema paths are `root_SCHEMA.json` and `root_SCHEMA.txt`. Without it, both are new. Each is its plain name when that may be written and otherwise its first writable `_NN` variant; the text file's search already sees the JSON file. The two always differ. |
| OutputNaming.SchemaFilepathsWhenFree | ogr2bqjson.py:770-784 | Without overwrite, each schema file gets its plain name, `root_SCHEMA.json` or `root_SCHEMA.txt`, whenever no file has that name: the JSON file never takes the text file's name. |
| Batch.NormalizeExtension | ogr2bqjson.py:449-450 | The extension starts with '.', with exactly one added when it was missing. |
| Batch.ListedDirectory | ogr2bqjson.py:452-453 | The listed directory ends in '/'. A directory ending in '/' is kept. Otherwise the result is the directory twice followed by '/'. |
| Batch.NormalizationIdempotent | ogr2bqjson.py:449-453 | Normalising the extension or the directory a second time changes nothing. |
| Batch.DirectoryIsDoubled | ogr2bqjson.py:452-453 | `data` is listed as `datadata/`, and `data/` as itself. |
| Batch.MatchingFiles | ogr2bqjson.py:460-461 | The selected names are exactly the listed names whose `splitext` extension equals the target. A one-name listing is kept exactly when its extension matches. |
| Batch.MatchingFilesAppend | ogr2bqjson.py:460-461 | Selection keeps listing order and repeats: selecting from two listings in turn gives the two selections one after the other. |
| Batch.MatchingIsCaseSensitive | ogr2bqjson.py:461 | `.SHP` does not match `.shp`. |
| Batch.ConvertToNdjson | ogr2bqjson.py:676-701 | The output is the output path for the source with `.json`. A temporary file is made exactly when options are given or the source is not WGS 84 GeoJSONSeq, and it is the temporary path for that output. It is new and is not the output. Without overwrite the output is new. The conversion completes exactly when `geojson_to_ndjson` does not raise on the source. Afterwards the filesystem holds what it held, plus the output if the conversion completed, plus the temporary file if it is kept or the conversion raised. |
| Batch.AfterConversion | ogr2bqjson.py:694-699 | After a conversion, exactly these exist: the earlier files, the output if the conversion completed, and the temporary file if it is kept or the conversion raised before removing it. |
| Batch.SaveSchemaFiles | ogr2bqjson.py:753-784 | The two schema paths are those SchemaFilepaths chooses for the path root. They differ, and without overwrite both are new. Both exist afterwards, and nothing else is added. |
| Batch.RunJob | ogr2bqjson.py:463-476 | A job converts its own source and records the conversion's output, temporary file and whether it completed. It has schema files exactly when the conversion completed and schemas are not skipped, named after the output's root on the filesystem the conversion left. Afterwards exactly the earlier files and the files the job leaves exist: its output if written, its temporary file if kept or left by a raise, and its schema files. |
| Batch.OutputIsNotTemp | ogr2bqjson.py:676-693 | The output (`.json`, or a digit at the end) is never the temporary file (`.geojson`). |
| Batch.Claimed | ogr2bqjson.py:463-476 | The files a job leaves are its output if the conversion completed, its temporary file if kept or if the conversion raised, and its schema files. |
| Batch.RunJobFacts | ogr2bqjson.py:463-476 | Without overwrite, a job's files (output, kept or left-behind temporary file, schema files) are new, pairwise distinct, and exist afterwards. Nothing that existed is removed. |
| Batch.RunJobSource | ogr2bqjson.py:463-476 | A job runs on its own source, and it completes exactly when the conversion of that source does not raise. |
| Batch.RunAll | ogr2bqjson.py:460-476 | Jobs for the sources from the first on, in order, each run on the filesystem the previous job left. Every job but the last completed. The run has fewer jobs than sources only when its last job did not complete: the exception ends the loop. |
| Batch.PrependRun | ogr2bqjson.py:460-476 | A completed first job followed by the run of the remaining sources is the run of all the sources. |
| Batch.RunJobsSources | ogr2bqjson.py:460-476 | The batch jobs run on the sources in order, each completing exactly when its source does not raise. The sources before the last job's do not raise, and a short run ends at a source that does. |
| Batch.RunAllDistinct | ogr2bqjson.py:460-476 | If every job step is safe, every file a run leaves is new, exists at the end, and belongs to one job only. |
| Batch.ChainDisjoint | ogr2bqjson.py:460-476 | Along a growing chain of filesystems, files that are new at each step are new overall, exist at the end, and are never claimed twice. |
| Batch.ChainGrows | ogr2bqjson.py:460-476 | A chain where each filesystem contains the previous one grows from any point to any later one. |
| Batch.RunJobsDistinct | ogr2bqjson.py:420-476 | Without overwrite, no job reuses a path that existed or that an earlier job produced, and all produced files exist at the end. |
| Batch.BatchSources | ogr2bqjson.py:460-463 | The paths converted are the selected names, in listing order, each joined to the listed directory. |
| Batch.ConvertAll | ogr2bqjson.py:420-476 | The jobs run, in listing order, on the selected files joined to the listed directory, from the first on, and never more jobs than files. A job completes exactly when its source does not raise. |
| Batch.ConvertAllStops | ogr2bqjson.py:460-476 | The first source whose conversion raises ends the batch: every source before the last job's converts without raising, and fewer jobs than selected files means that the last job's source raised. |
| Batch.TwoMatches | ogr2bqjson.py:460-476 | With two selected files, the first always gets a job, and the second gets one exactly when the first conversion does not raise. |
| Batch.DirectoryScenario | ogr2bqjson.py:449-476 | Filtering `shp` in `d/` over `a.shp`, `b.shp` and `c.geojson` runs a job on `d/a.shp`, then one on `d/b.shp` exactly when the first conversion does not raise. |
| Batch.ConvertAllFromMain | ogr2bqjson.py:32-41 | A batch run started from the command line never writes over a file. Every output, kept or left-behind temporary file and schema file is new, none is shared between jobs, and all are present at the end, also when a raise ended the run. Every job but the last completed, and a short run ends with one that did not. |
| Batch.OverwriteCollides | ogr2bqjson.py:465-472 | With overwrite and an output directory, two sources with the same name root write the same output path. |
| Batch.NameRootIgnoresExtension | ogr2bqjson.py:226-251 | The name root of `dir/root.ext` is `root` whatever the extension, so `d/a.shp` and `d/a.gpkg` both have root `a`. |
| SchemaText.ParseTypeName | ogr2bqjson.py:587-637 | Reading a type name back gives the tag whose name it is. |
| SchemaText.TypeNameRoundTrip | ogr2bqjson.py:587-637 | Every tag's name reads back as that tag, so no two tags share a name. |
| SchemaText.PlainTextSchema | ogr2bqjson.py:789-797 | The text file holds the `name:TYPE` entries in schema order, joined by `,\n` with no trailing separator. An empty schema gives the empty text. |
| SchemaText.AccumulatedIsJoin | ogr2bqjson.py:791-792 | Before the cut, the loop's text is the joined entries plus exactly one trailing `,\n`. |
| SchemaText.DropLastTwoUndoesSeparator | ogr2bqjson.py:797 | Cutting the last two characters removes exactly an appended `,\n`. |
| SchemaText.UnknownColumns | ogr2bqjson.py:790-794 | The undetermined columns are exactly the keys typed UNKNOWN. A one-entry schema lists its key exactly when it is typed UNKNOWN. |
| SchemaText.UnknownColumnsAppend | ogr2bqjson.py:790-794 | The undetermined columns keep schema order and repeats: those of a schema split in two are those of the first part followed by those of the second. |
| SchemaText.UnknownColumnsUnique | ogr2bqjson.py:790-794 | With one entry per key, each undetermined column is listed once. |
| SchemaText.UnknownWarning | ogr2bqjson.py:801-807 | A warning appears exactly when some column is UNKNOWN, and it lists those columns joined by `, `. |

## Left out

- Command-line parsing, help text and the rest of `main` (ogr2bqjson.py:14-159) are left out as console I/O. Only the batch wiring (32-41) is kept: `main` does not pass the overwrite flag to `convert_all`. The single-file path of `main` is left out.
- The interactive overwrite prompt (301-326) is left out: it is console input.
- GDAL calls (`is_supported_geofile`, `is_wgs84_geojsonseq`, `convert_to_wgs84_geojsonseq`) are left out as a foreign library. The WGS 84 test is the parameter `isWgs84Geojsonseq`, and `json.dumps` is the parameter `dumps`.
- Batch.ConvertToNdjson: whether `geojson_to_ndjson` raises on a source is the parameter `raises`. It is not computed by Transcoder.Transcode, because the lines it reads come from GDAL or from the user's file, and neither is modelled. Only that exception is modelled. A failure of GDAL, of file access or of `save_schema_files` is not.
- JSON and ndjson parsing and serialisation are left out as library code. The `--columns` argument enters as its parsed form. A map's non-string values and a list's non-string items are not modelled.
- Real file effects are left out: opening, writing, `os.remove`, `os.makedirs`, `os.path.exists`, directory checks. The filesystem is a set of existing paths, and `os.listdir` is a given listing sequence.
- `print` output and float arithmetic are left out: floats are only classified by kind.
- OutputNaming.TempFilepath: does not promise the `_GeoJSONSeq.geojson` ending the help text (ogr2bqjson.py:99-104) describes, because the code does not keep it when the output's name root holds a '.'. TempFilepathNamed gives the name when the root has no '.', and TempFilepathDotted shows the exception.
- ColumnSpec.GetColumns: the `TypeError` that iterating a truthy JSON number or `true` raises is modelled as the failure `NotIterable`; the program ends there with a traceback rather than a message.
- Batch.ConvertAll: its contract states which sources the jobs run on, which of them complete, and where the run stops (with ConvertAllStops). What each job does is stated by RunJob, RunJobFacts and RunAll.
- Transcoder.Transcode: requires each line to be what parsing gives: an object with unique keys, also inside an object `properties`. A `properties` that is a non-empty array is not modelled: the loop then indexes the list by its own items, and the row gets non-string keys. Lines come either from GDAL or, for a WGS 84 GeoJSONSeq source read without options, straight from the user's file (ogr2bqjson.py:687-697), so no more than this is assumed of them.
- Transcoder.GeojsonToNdjson: requires that no line raises, which Transcode decides first.
