/** Batch conversion: `convert_all` (ogr2bqjson.py:420-476) running
    `convert_to_ndjson` (640-701) and the path choices of
    `save_schema_files` (753-784) for each matching file of a directory
    listing. GDAL, the row and schema contents and the file writes are not
    modelled here; what is modelled is which paths each job chooses and how
    that changes the set of existing files. Whether `geojson_to_ndjson`
    raises on a source is the parameter `raises`: nothing catches that
    exception, so it ends the job and the whole run. */
module Batch {
  import opened Wrappers
  import opened Text
  import opened PosixPath
  import opened OutputNaming

  /** The extension with a leading dot added when it is missing
      (ogr2bqjson.py:449-450). */
  function NormalizeExtension(e: string): (r: string)
    ensures r != [] && r[0] == '.'
    ensures r[1..] == if e != [] && e[0] == '.' then e[1..] else e
  {
    if e != [] && e[0] == '.' then e else "." + e
  }

  /** The directory `convert_all` lists and joins file names to
      (ogr2bqjson.py:452-453). A source directory without a trailing '/'
      is appended to itself: the statement is `+=` of the directory plus
      '/', where `= ... + '/'` was evidently meant. */
  function ListedDirectory(sourceDirectory: string): (r: string)
    ensures EndsWith(r, "/")
    ensures EndsWith(sourceDirectory, "/") ==> r == sourceDirectory
    ensures !EndsWith(sourceDirectory, "/") ==>
              && |r| == 2 * |sourceDirectory| + 1
              && r[..|sourceDirectory|] == sourceDirectory
              && r[|sourceDirectory|..2 * |sourceDirectory|] == sourceDirectory
  {
    if EndsWith(sourceDirectory, "/") then sourceDirectory
    else sourceDirectory + sourceDirectory + "/"
  }

  /** Normalising twice changes nothing more: the listed directory already
      ends in '/', and the normalised extension already starts with '.'. */
  lemma NormalizationIdempotent(sourceDirectory: string, e: string)
    ensures ListedDirectory(ListedDirectory(sourceDirectory)) == ListedDirectory(sourceDirectory)
    ensures NormalizeExtension(NormalizeExtension(e)) == NormalizeExtension(e)
  {
    var d := ListedDirectory(sourceDirectory);
    assert EndsWith(d, "/");
    var x := NormalizeExtension(e);
    assert x != [] && x[0] == '.';
  }

  /** `data` is listed as `datadata/`. */
  lemma DirectoryIsDoubled()
    ensures ListedDirectory("data") == "datadata/"
    ensures ListedDirectory("data/") == "data/"
  {
  }

  /** The names of `listing` whose extension, as `splitext` finds it, is
      exactly `extension`, in listing order (ogr2bqjson.py:460-461). */
  function MatchingFiles(listing: seq<string>, extension: string): (r: seq<string>)
    ensures forall x :: x in r <==> x in listing && SplitExt(x).1 == extension
    ensures |r| <= |listing|
    ensures |listing| == 1 ==> r == if SplitExt(listing[0]).1 == extension then listing else []
    decreases |listing|
  {
    if listing == [] then []
    else
      var rest := MatchingFiles(listing[1..], extension);
      assert forall x :: x in listing <==> x == listing[0] || x in listing[1..];
      if SplitExt(listing[0]).1 == extension then [listing[0]] + rest else rest
  }

  /** Selection keeps listing order and multiplicity: selecting from two
      listings one after the other is selecting from both together. */
  lemma {:induction false} MatchingFilesAppend(xs: seq<string>, ys: seq<string>, extension: string)
    ensures MatchingFiles(xs + ys, extension) == MatchingFiles(xs, extension) + MatchingFiles(ys, extension)
    decreases |xs|
  {
    if xs != [] {
      assert (xs + ys)[0] == xs[0];
      assert (xs + ys)[1..] == xs[1..] + ys;
      MatchingFilesAppend(xs[1..], ys, extension);
    } else {
      assert xs + ys == ys;
    }
  }

  /** Matching is exact and case-sensitive: `.SHP` is not `.shp`. */
  lemma MatchingIsCaseSensitive()
    ensures SplitExt("a.shp").1 == ".shp"
    ensures SplitExt("b.SHP").1 == ".SHP"
    ensures MatchingFiles(["a.shp", "b.SHP"], ".shp") == ["a.shp"]
  {
    RFindUnique("a.shp", '/', -1);
    RFindUnique("a.shp", '.', 1);
    RFindUnique("b.SHP", '/', -1);
    RFindUnique("b.SHP", '.', 1);
    assert !OnlyDots("a.shp", 0, 1) by { assert "a.shp"[0] == 'a'; }
    assert !OnlyDots("b.SHP", 0, 1) by { assert "b.SHP"[0] == 'b'; }
  }

  /** The settings `convert_all` passes on to every job. */
  datatype Settings = Settings(
    canOverwrite: bool,
    convertOptions: string,
    keepGeojsonseq: bool,
    outputDirectory: string,
    skipSchemas: bool)

  /** The paths one conversion chose: the output, the temporary
      GeoJSONSeq file if one was made (and whether it is kept), whether the
      conversion completed, and the JSON and text schema files unless
      schemas were skipped or the conversion raised. */
  datatype Job = Job(source: string, output: string, temp: Option<string>, keepTemp: bool,
                     completed: bool, schemas: Option<(string, string)>)

  /** The files a job leaves behind: the output if it was written, the
      temporary file if it is kept or the conversion raised before removing
      it, and the schema files. */
  function Claimed(job: Job): (s: set<string>)
    ensures forall p :: p in s <==>
              || (job.completed && p == job.output)
              || (job.temp.Some? && (job.keepTemp || !job.completed) && p == job.temp.value)
              || (job.schemas.Some? && (p == job.schemas.value.0 || p == job.schemas.value.1))
  {
    (if job.completed then {job.output} else {})
    + (if job.temp.Some? && (job.keepTemp || !job.completed) then {job.temp.value} else {})
    + (if job.schemas.Some? then {job.schemas.value.0, job.schemas.value.1} else {})
  }

  /** The files left by one call of `convert_to_ndjson`
      (ogr2bqjson.py:676-701), whether it returned, and the filesystem
      afterwards. */
  datatype Converted = Converted(output: string, temp: Option<string>, completed: bool, after: set<string>)

  /** `convert_to_ndjson` without an explicit output path. A temporary
      file is made when conversion options are given or the source is not
      already WGS 84 GeoJSONSeq; it is created first. `raises(source)`
      tells whether `geojson_to_ndjson` raises on the lines made from
      `source` (where `Transcoder.Transcode` fails on them). Then no
      output is written and the temporary file stays; otherwise the output
      is written and the temporary file removed unless it is to be kept. */
  function ConvertToNdjson(source: string, settings: Settings, isWgs84Geojsonseq: string -> bool, raises: string -> bool,
                           existing: set<string>): (r: Converted)
    // the output is named after the source, with `.json`; the temporary
    // file is named after the output
    ensures r.output == OutputFilepath(source, ".json", settings.canOverwrite, settings.outputDirectory, existing)
    ensures r.temp.Some? <==> settings.convertOptions != [] || !isWgs84Geojsonseq(source)
    ensures r.temp.Some? ==> r.temp.value == TempFilepath(r.output, settings.outputDirectory, existing)
    ensures !settings.canOverwrite ==> r.output !in existing
    ensures r.temp.Some? ==> r.temp.value !in existing && r.temp.value != r.output
    ensures r.completed <==> !raises(source)
    // the filesystem gains the output if it was written, and the temporary
    // file if it is kept or the conversion raised
    ensures forall p :: p in r.after <==>
              || p in existing || (r.completed && p == r.output)
              || (r.temp.Some? && (settings.keepGeojsonseq || !r.completed) && p == r.temp.value)
  {
    var out := OutputFilepath(source, ".json", settings.canOverwrite, settings.outputDirectory, existing);
    var temp: Option<string> :=
      if settings.convertOptions != [] || !isWgs84Geojsonseq(source)
      then Some(TempFilepath(out, settings.outputDirectory, existing)) else None;
    OutputIsNotTemp(source, settings, existing);
    var completed := !raises(source);
    Converted(out, temp, completed, AfterConversion(existing, out, temp, completed, settings.keepGeojsonseq))
  }

  /** The filesystem after a conversion: the temporary file (if any) is
      created; if the conversion completes, the output is written and then
      the temporary file is removed unless it is kept. */
  function AfterConversion(existing: set<string>, output: string, temp: Option<string>, completed: bool, keep: bool): (after: set<string>)
    requires temp.Some? ==> temp.value != output && temp.value !in existing
    ensures forall p :: p in after <==>
              p in existing || (completed && p == output) || (temp.Some? && (keep || !completed) && p == temp.value)
  {
    var withTemp := if temp.Some? then existing + {temp.value} else existing;
    if !completed then withTemp
    else
      var withOutput := withTemp + {output};
      if temp.Some? && !keep then withOutput - {temp.value} else withOutput
  }

  /** `save_schema_files`: the two schema paths it picks, and the
      filesystem once both are written. */
  function SaveSchemaFiles(pathRoot: string, canOverwrite: bool, existing: set<string>): (r: ((string, string), set<string>))
    ensures r.0 == SchemaFilepaths(pathRoot, canOverwrite, existing)
    ensures !canOverwrite ==> r.0.0 !in existing && r.0.1 !in existing
    ensures r.0.0 != r.0.1
    ensures forall p :: p in r.1 <==> p in existing || p == r.0.0 || p == r.0.1
  {
    var paths := SchemaFilepaths(pathRoot, canOverwrite, existing);
    (paths, existing + {paths.0, paths.1})
  }

  /** The job `convert_all` runs for one matching file: conversion, then
      the schema files on the output's root unless skipped
      (ogr2bqjson.py:463-476). A conversion that raises ends the job there,
      without schema files. */
  function RunJob(source: string, settings: Settings, isWgs84Geojsonseq: string -> bool, raises: string -> bool, existing: set<string>): (r: (Job, set<string>))
    ensures var c := ConvertToNdjson(source, settings, isWgs84Geojsonseq, raises, existing);
      && r.0.source == source
      // the output and temporary file of the conversion, and whether it completed
      && r.0.output == c.output && r.0.temp == c.temp && r.0.keepTemp == settings.keepGeojsonseq
      && r.0.completed == c.completed
      // schema files named after the output's root, chosen once the conversion is done
      && (r.0.schemas.Some? <==> c.completed && !settings.skipSchemas)
      && (r.0.schemas.Some? ==>
            r.0.schemas.value == SchemaFilepaths(SplitExt(c.output).0, settings.canOverwrite, c.after))
    // afterwards exactly the earlier files and the job's own exist
    ensures r.1 == existing + Claimed(r.0)
  {
    var c := ConvertToNdjson(source, settings, isWgs84Geojsonseq, raises, existing);
    if !c.completed || settings.skipSchemas then
      var job := Job(source, c.output, c.temp, settings.keepGeojsonseq, c.completed, None);
      ExactlyClaimed(existing, c.after, job);
      (job, c.after)
    else
      var (schemas, after) := SaveSchemaFiles(SplitExt(c.output).0, settings.canOverwrite, c.after);
      var job := Job(source, c.output, c.temp, settings.keepGeojsonseq, c.completed, Some(schemas));
      ExactlyClaimed(existing, after, job);
      (job, after)
  }

  lemma ExactlyClaimed(existing: set<string>, after: set<string>, job: Job)
    requires forall p :: p in after <==> p in existing || p in Claimed(job)
    ensures after == existing + Claimed(job)
  {
  }

  /** The output ends in `.json` or a digit; the temporary file ends in
      `.geojson`. */
  lemma OutputIsNotTemp(source: string, settings: Settings, existing: set<string>)
    ensures var out := OutputFilepath(source, ".json", settings.canOverwrite, settings.outputDirectory, existing);
      out != TempFilepath(out, settings.outputDirectory, existing)
  {
    var out := OutputFilepath(source, ".json", settings.canOverwrite, settings.outputDirectory, existing);
    var temp := TempFilepath(out, settings.outputDirectory, existing);
    assert out != [] && (EndsWith(out, ".json") || IsDigit(out[|out| - 1])) by {
      JsonExtensionIsSimple();
      OutputFilepathEnding(source, ".json", settings.canOverwrite, settings.outputDirectory, existing);
    }
    assert EndsWith(temp, ".geojson") by {
      TempFilepathEnding(out, settings.outputDirectory, existing);
    }
    DifferentEndings(out, temp);
  }

  lemma DifferentEndings(a: string, b: string)
    requires a != [] && (EndsWith(a, ".json") || IsDigit(a[|a| - 1]))
    requires EndsWith(b, ".geojson")
    ensures a != b
  {
    assert b[|b| - 1] == 'n' && b[|b| - 5] == 'o' by {
      assert b[|b| - 8..] == ".geojson";
    }
    if EndsWith(a, ".json") {
      assert a[|a| - 5] == '.' by { assert a[|a| - 5..] == ".json"; }
    } else {
      assert a[|a| - 1] != 'n';
    }
  }

  lemma JsonExtensionIsSimple()
    ensures IsSimpleExtension(".json")
  {
  }

  /** Without overwriting, a job's files are new, distinct from each
      other, and all exist afterwards; nothing that existed before is
      removed (the temporary file, the only one deleted, was new). */
  lemma RunJobFacts(source: string, settings: Settings, isWgs84Geojsonseq: string -> bool, raises: string -> bool, existing: set<string>)
    requires !settings.canOverwrite
    ensures var (job, after) := RunJob(source, settings, isWgs84Geojsonseq, raises, existing);
      && existing <= after
      && Claimed(job) <= after
      && Claimed(job) !! existing
      && (job.schemas.Some? ==>
            job.output != job.schemas.value.0 && job.output != job.schemas.value.1
            && job.schemas.value.0 != job.schemas.value.1)
      && (job.temp.Some? ==> job.temp.value !in existing && job.temp.value != job.output)
      && (job.temp.Some? && job.keepTemp && job.schemas.Some? ==>
            job.temp.value != job.schemas.value.0 && job.temp.value != job.schemas.value.1)
  {
    JobClaimsExist(source, settings, isWgs84Geojsonseq, raises, existing);
    JobClaimsFresh(source, settings, isWgs84Geojsonseq, raises, existing);
    JobFilesDistinct(source, settings, isWgs84Geojsonseq, raises, existing);
  }

  lemma JobClaimsExist(source: string, settings: Settings, isWgs84Geojsonseq: string -> bool, raises: string -> bool, existing: set<string>)
    ensures var r := RunJob(source, settings, isWgs84Geojsonseq, raises, existing);
      existing <= r.1 && Claimed(r.0) <= r.1
  {
    var r := RunJob(source, settings, isWgs84Geojsonseq, raises, existing);
    var c := ConvertToNdjson(source, settings, isWgs84Geojsonseq, raises, existing);
    assert c.completed ==> c.output in c.after;
    forall p | p in Claimed(r.0) ensures p in r.1 {
    }
  }

  lemma JobClaimsFresh(source: string, settings: Settings, isWgs84Geojsonseq: string -> bool, raises: string -> bool, existing: set<string>)
    requires !settings.canOverwrite
    ensures Claimed(RunJob(source, settings, isWgs84Geojsonseq, raises, existing).0) !! existing
  {
    var job := RunJob(source, settings, isWgs84Geojsonseq, raises, existing).0;
    var c := ConvertToNdjson(source, settings, isWgs84Geojsonseq, raises, existing);
    assert job.output !in existing && (job.temp.Some? ==> job.temp.value !in existing);
    assert existing <= c.after;
    assert job.schemas.Some? ==> job.schemas.value.0 !in c.after && job.schemas.value.1 !in c.after;
    FreshClaims(existing, job);
  }

  lemma FreshClaims(existing: set<string>, job: Job)
    requires job.output !in existing && (job.temp.Some? ==> job.temp.value !in existing)
    requires job.schemas.Some? ==> job.schemas.value.0 !in existing && job.schemas.value.1 !in existing
    ensures Claimed(job) !! existing
  {
    forall p | p in Claimed(job) ensures p !in existing {
    }
  }

  lemma JobFilesDistinct(source: string, settings: Settings, isWgs84Geojsonseq: string -> bool, raises: string -> bool, existing: set<string>)
    requires !settings.canOverwrite
    ensures var job := RunJob(source, settings, isWgs84Geojsonseq, raises, existing).0;
      && (job.schemas.Some? ==>
            job.output != job.schemas.value.0 && job.output != job.schemas.value.1
            && job.schemas.value.0 != job.schemas.value.1)
      && (job.temp.Some? && job.keepTemp && job.schemas.Some? ==>
            job.temp.value != job.schemas.value.0 && job.temp.value != job.schemas.value.1)
  {
    var c := ConvertToNdjson(source, settings, isWgs84Geojsonseq, raises, existing);
    assert c.completed ==> c.output in c.after;
  }

  /** A run: the jobs in order, and the filesystem before each job and
      after the last. */
  datatype Run = Run(jobs: seq<Job>, states: seq<set<string>>)

  /** Runs one job on a filesystem: the job, and the filesystem after it. */
  type Runner = (string, set<string>) -> (Job, set<string>)

  /** `r` is the run of `sources` from `existing`: one job per source
      from the start, each on the files the earlier ones left; every job
      but the last completed, and the run ends early only after one that
      did not. */
  predicate IsRun(sources: seq<string>, runner: Runner, existing: set<string>, r: Run) {
    && |r.jobs| <= |sources| && |r.states| == |r.jobs| + 1
    && r.states[0] == existing
    && (forall i :: 0 <= i < |r.jobs| ==>
          r.jobs[i] == runner(sources[i], r.states[i]).0 && r.states[i + 1] == runner(sources[i], r.states[i]).1)
    && (forall i :: 0 <= i < |r.jobs| - 1 ==> r.jobs[i].completed)
    && (|r.jobs| < |sources| ==> r.jobs != [] && !r.jobs[|r.jobs| - 1].completed)
  }

  /** The jobs for `sources`, in order, each seeing the files the earlier
      ones left. A job that does not complete raised, and the exception
      ends the run: the later sources get no job. */
  function RunAll(sources: seq<string>, runner: Runner, existing: set<string>): (r: Run)
    ensures IsRun(sources, runner, existing, r)
    decreases |sources|
  {
    if sources == [] then Run([], [existing])
    else
      var step := runner(sources[0], existing);
      if !step.0.completed then Run([step.0], [existing, step.1])
      else
        var rest := RunAll(sources[1..], runner, step.1);
        PrependRun(sources, runner, existing, rest);
        Run([step.0] + rest.jobs, [existing] + rest.states)
  }

  /** A completed first job followed by the run of the other sources is
      the run of all of them. */
  lemma PrependRun(sources: seq<string>, runner: Runner, existing: set<string>, rest: Run)
    requires sources != [] && runner(sources[0], existing).0.completed
    requires IsRun(sources[1..], runner, runner(sources[0], existing).1, rest)
    ensures var step := runner(sources[0], existing);
      IsRun(sources, runner, existing, Run([step.0] + rest.jobs, [existing] + rest.states))
  {
    var step := runner(sources[0], existing);
    var r := Run([step.0] + rest.jobs, [existing] + rest.states);
    forall i | 1 <= i < |r.jobs|
      ensures r.jobs[i] == runner(sources[i], r.states[i]).0 && r.states[i + 1] == runner(sources[i], r.states[i]).1
    {
      assert sources[i] == sources[1..][i - 1] && r.jobs[i] == rest.jobs[i - 1];
      assert r.states[i] == rest.states[i - 1] && r.states[i + 1] == rest.states[i];
    }
    forall i | 1 <= i < |r.jobs| - 1 ensures r.jobs[i].completed {
      assert r.jobs[i] == rest.jobs[i - 1];
    }
    assert |r.jobs| < |sources| ==> rest.jobs != [] && r.jobs[|r.jobs| - 1] == rest.jobs[|rest.jobs| - 1];
  }

  /** The jobs `convert_all` runs for `sources`. */
  function RunJobs(sources: seq<string>, settings: Settings, isWgs84Geojsonseq: string -> bool, raises: string -> bool, existing: set<string>): Run {
    RunAll(sources, (source, ex) => RunJob(source, settings, isWgs84Geojsonseq, raises, ex), existing)
  }

  /** One job per source, in order, up to the first whose conversion
      raises; a job completes exactly when its conversion does not raise. */
  lemma RunJobsSources(sources: seq<string>, settings: Settings, isWgs84Geojsonseq: string -> bool, raises: string -> bool, existing: set<string>)
    ensures var r := RunJobs(sources, settings, isWgs84Geojsonseq, raises, existing);
      && |r.jobs| <= |sources|
      && (forall i :: 0 <= i < |r.jobs| ==> r.jobs[i].source == sources[i] && (r.jobs[i].completed <==> !raises(sources[i])))
      && (forall i :: 0 <= i < |r.jobs| - 1 ==> !raises(r.jobs[i].source))
      && (|r.jobs| < |sources| ==> r.jobs != [] && raises(r.jobs[|r.jobs| - 1].source))
  {
    var r := RunJobs(sources, settings, isWgs84Geojsonseq, raises, existing);
    forall i | 0 <= i < |r.jobs| ensures r.jobs[i].source == sources[i] && (r.jobs[i].completed <==> !raises(sources[i])) {
      RunJobSource(sources[i], settings, isWgs84Geojsonseq, raises, r.states[i]);
    }
  }

  lemma RunJobSource(source: string, settings: Settings, isWgs84Geojsonseq: string -> bool, raises: string -> bool, existing: set<string>)
    ensures var job := RunJob(source, settings, isWgs84Geojsonseq, raises, existing).0;
      job.source == source && (job.completed <==> !raises(source))
  {
  }

  /** A step that removes nothing, and whose files are new and exist after it. */
  predicate SafeStep(before: set<string>, step: (Job, set<string>)) {
    before <= step.1 && Claimed(step.0) <= step.1 && Claimed(step.0) !! before
  }

  /** Every file a run of safe steps leaves is new, exists at the end, and
      is left by one job only. */
  lemma RunAllDistinct(sources: seq<string>, runner: Runner, existing: set<string>)
    requires forall source, ex :: SafeStep(ex, runner(source, ex))
    ensures var r := RunAll(sources, runner, existing);
      var final := r.states[|r.jobs|];
      && existing <= final
      && (forall i :: 0 <= i < |r.jobs| ==> Claimed(r.jobs[i]) !! existing && Claimed(r.jobs[i]) <= final)
      && (forall i, j :: 0 <= i < j < |r.jobs| ==> Claimed(r.jobs[i]) !! Claimed(r.jobs[j]))
  {
    var r := RunAll(sources, runner, existing);
    var claims := AllClaims(r.jobs);
    forall i | 0 <= i < |r.jobs|
      ensures r.states[i] <= r.states[i + 1] && claims[i] <= r.states[i + 1] && claims[i] !! r.states[i]
    {
      assert SafeStep(r.states[i], runner(sources[i], r.states[i]));
    }
    ChainDisjoint(claims, r.states);
  }

  /** The files each job leaves behind, in order. */
  function AllClaims(jobs: seq<Job>): (cs: seq<set<string>>)
    ensures |cs| == |jobs| && forall i :: 0 <= i < |jobs| ==> cs[i] == Claimed(jobs[i])
  {
    seq(|jobs|, i requires 0 <= i < |jobs| => Claimed(jobs[i]))
  }

  /** Along a growing chain of filesystems, files that are new at each
      step and exist after it are new overall, exist at the end, and are
      never claimed twice. */
  lemma ChainDisjoint(claims: seq<set<string>>, states: seq<set<string>>)
    requires |states| == |claims| + 1
    requires forall i :: 0 <= i < |claims| ==>
               states[i] <= states[i + 1] && claims[i] <= states[i + 1] && claims[i] !! states[i]
    ensures states[0] <= states[|claims|]
    ensures forall i :: 0 <= i < |claims| ==> claims[i] !! states[0] && claims[i] <= states[|claims|]
    ensures forall i, j :: 0 <= i < j < |claims| ==> claims[i] !! claims[j]
  {
    var n := |claims|;
    ChainGrows(states, 0, n);
    forall i | 0 <= i < n ensures claims[i] !! states[0] && claims[i] <= states[n] {
      ChainGrows(states, 0, i);
      ChainGrows(states, i + 1, n);
    }
    forall i, j | 0 <= i < j < n ensures claims[i] !! claims[j] {
      ChainGrows(states, i + 1, j);
    }
  }

  lemma {:induction false} ChainGrows(states: seq<set<string>>, i: nat, j: nat)
    requires i <= j < |states|
    requires forall k :: 0 <= k < |states| - 1 ==> states[k] <= states[k + 1]
    ensures states[i] <= states[j]
    decreases j - i
  {
    if i < j {
      ChainGrows(states, i + 1, j);
    }
  }

  /** Without overwriting, no job reuses a path that existed before the
      run or that an earlier job produced, and every produced file still
      exists at the end. */
  lemma RunJobsDistinct(sources: seq<string>, settings: Settings, isWgs84Geojsonseq: string -> bool, raises: string -> bool, existing: set<string>)
    requires !settings.canOverwrite
    ensures var r := RunJobs(sources, settings, isWgs84Geojsonseq, raises, existing);
      var final := r.states[|r.jobs|];
      && existing <= final
      && (forall i :: 0 <= i < |r.jobs| ==> Claimed(r.jobs[i]) !! existing && Claimed(r.jobs[i]) <= final)
      && (forall i, j :: 0 <= i < j < |r.jobs| ==> Claimed(r.jobs[i]) !! Claimed(r.jobs[j]))
  {
    var runner: Runner := (source, ex) => RunJob(source, settings, isWgs84Geojsonseq, raises, ex);
    forall source, ex ensures SafeStep(ex, runner(source, ex)) {
      RunJobFacts(source, settings, isWgs84Geojsonseq, raises, ex);
    }
    RunAllDistinct(sources, runner, existing);
  }

  /** The paths `convert_all` converts, in listing order: each listed file
      with the normalised extension, joined to the listed directory. */
  function BatchSources(sourceDirectory: string, targetExtension: string, listing: seq<string>): (sources: seq<string>)
    ensures var names := MatchingFiles(listing, NormalizeExtension(targetExtension));
      && |sources| == |names|
      && forall i :: 0 <= i < |names| ==> sources[i] == Join(ListedDirectory(sourceDirectory), names[i])
  {
    var names := MatchingFiles(listing, NormalizeExtension(targetExtension));
    seq(|names|, i requires 0 <= i < |names| => Join(ListedDirectory(sourceDirectory), names[i]))
  }

  /** The settings every job of `convert_all` sees: the output directory
      is the listed directory unless one is given. */
  function BatchSettings(settings: Settings, sourceDirectory: string): Settings {
    var dir := ListedDirectory(sourceDirectory);
    settings.(outputDirectory := if settings.outputDirectory != [] then settings.outputDirectory else dir)
  }

  /** `convert_all`: normalise the extension and directory, select the
      listed files with that extension, and convert each in turn, writing
      to `outputDirectory`, or to the listed directory when that is empty.
      `listing` is what `os.listdir` returns for the listed directory. The
      first conversion that raises ends the run (ogr2bqjson.py:460-476). */
  function ConvertAll(sourceDirectory: string, targetExtension: string, settings: Settings,
                      listing: seq<string>, isWgs84Geojsonseq: string -> bool, raises: string -> bool,
                      existing: set<string>): (r: Run)
    ensures |r.states| == |r.jobs| + 1 && r.states[0] == existing
    ensures var names := MatchingFiles(listing, NormalizeExtension(targetExtension));
      && |r.jobs| <= |names|
      && forall i :: 0 <= i < |r.jobs| ==> r.jobs[i].source == Join(ListedDirectory(sourceDirectory), names[i])
    ensures forall i :: 0 <= i < |r.jobs| ==> (r.jobs[i].completed <==> !raises(r.jobs[i].source))
  {
    var sources := BatchSources(sourceDirectory, targetExtension, listing);
    RunJobsSources(sources, BatchSettings(settings, sourceDirectory), isWgs84Geojsonseq, raises, existing);
    RunJobs(sources, BatchSettings(settings, sourceDirectory), isWgs84Geojsonseq, raises, existing)
  }

  /** The first source whose conversion raises ends `convert_all`: the
      sources before the last job's convert without raising, and fewer
      jobs than matching files means the last job's source raised. */
  lemma ConvertAllStops(sourceDirectory: string, targetExtension: string, settings: Settings,
                        listing: seq<string>, isWgs84Geojsonseq: string -> bool, raises: string -> bool,
                        existing: set<string>)
    ensures var r := ConvertAll(sourceDirectory, targetExtension, settings, listing, isWgs84Geojsonseq, raises, existing);
      && (forall i :: 0 <= i < |r.jobs| - 1 ==> !raises(r.jobs[i].source))
      && (|r.jobs| < |MatchingFiles(listing, NormalizeExtension(targetExtension))| ==>
            r.jobs != [] && raises(r.jobs[|r.jobs| - 1].source))
  {
    RunJobsSources(BatchSources(sourceDirectory, targetExtension, listing), BatchSettings(settings, sourceDirectory),
                   isWgs84Geojsonseq, raises, existing);
  }

  /** `main` calls `convert_all` without `can_overwrite`, so a batch run
      from the command line never writes over a file: every output, kept
      or left-behind temporary and schema file is new, no two jobs share
      one, and all of them exist when the run ends, also when a conversion
      raised and ended it (ogr2bqjson.py:32-41). */
  function ConvertAllFromMain(sourceDirectory: string, extension: string, convertOptions: string,
                              keepGeojsonseq: bool, outputDirectory: string, skipSchemas: bool,
                              listing: seq<string>, isWgs84Geojsonseq: string -> bool, raises: string -> bool,
                              existing: set<string>): (r: Run)
    ensures |r.states| == |r.jobs| + 1
    ensures var final := r.states[|r.jobs|];
      && existing <= final
      && (forall i :: 0 <= i < |r.jobs| ==> Claimed(r.jobs[i]) !! existing && Claimed(r.jobs[i]) <= final)
      && (forall i, j :: 0 <= i < j < |r.jobs| ==> Claimed(r.jobs[i]) !! Claimed(r.jobs[j]))
    // the run goes on while conversions complete
    ensures forall i :: 0 <= i < |r.jobs| - 1 ==> r.jobs[i].completed
    ensures |r.jobs| < |MatchingFiles(listing, NormalizeExtension(extension))| ==>
              r.jobs != [] && !r.jobs[|r.jobs| - 1].completed
  {
    var settings := Settings(false, convertOptions, keepGeojsonseq, outputDirectory, skipSchemas);
    RunJobsDistinct(BatchSources(sourceDirectory, extension, listing), BatchSettings(settings, sourceDirectory),
                    isWgs84Geojsonseq, raises, existing);
    ConvertAllStops(sourceDirectory, extension, settings, listing, isWgs84Geojsonseq, raises, existing);
    ConvertAll(sourceDirectory, extension, settings, listing, isWgs84Geojsonseq, raises, existing)
  }

  /** The example run: filtering `shp` over `a.shp`, `b.shp` and
      `c.geojson` runs a job on `a.shp`, then one on `b.shp` exactly when
      the first conversion does not raise. */
  lemma DirectoryScenario(settings: Settings, isWgs84Geojsonseq: string -> bool, raises: string -> bool, existing: set<string>)
    ensures var r := ConvertAll("d/", "shp", settings, ["a.shp", "b.shp", "c.geojson"], isWgs84Geojsonseq, raises, existing);
      && 1 <= |r.jobs| <= 2 && r.jobs[0].source == "d/a.shp"
      && (|r.jobs| == 2 <==> !raises("d/a.shp"))
      && (|r.jobs| == 2 ==> r.jobs[1].source == "d/b.shp")
  {
    assert NormalizeExtension("shp") == ".shp";
    assert ListedDirectory("d/") == "d/" by { assert EndsWith("d/", "/"); }
    ScenarioMatches();
    ScenarioJoins();
    TwoMatches("d/", "shp", settings, ["a.shp", "b.shp", "c.geojson"], isWgs84Geojsonseq, raises, existing);
  }

  /** A directory with two matching files gets a first job, and a second
      exactly when the first conversion does not raise. */
  lemma TwoMatches(sourceDirectory: string, targetExtension: string, settings: Settings,
                   listing: seq<string>, isWgs84Geojsonseq: string -> bool, raises: string -> bool,
                   existing: set<string>)
    requires |MatchingFiles(listing, NormalizeExtension(targetExtension))| == 2
    ensures var r := ConvertAll(sourceDirectory, targetExtension, settings, listing, isWgs84Geojsonseq, raises, existing);
      var names := MatchingFiles(listing, NormalizeExtension(targetExtension));
      && 1 <= |r.jobs| <= 2 && r.jobs[0].source == Join(ListedDirectory(sourceDirectory), names[0])
      && (|r.jobs| == 2 <==> !raises(r.jobs[0].source))
      && (|r.jobs| == 2 ==> r.jobs[1].source == Join(ListedDirectory(sourceDirectory), names[1]))
  {
    ConvertAllStops(sourceDirectory, targetExtension, settings, listing, isWgs84Geojsonseq, raises, existing);
  }

  lemma ScenarioMatches()
    ensures MatchingFiles(["a.shp", "b.shp", "c.geojson"], ".shp") == ["a.shp", "b.shp"]
  {
    ShpExtensions();
    MatchingTwoOfThree("a.shp", "b.shp", "c.geojson", ".shp");
  }

  lemma MatchingTwoOfThree(a: string, b: string, c: string, extension: string)
    requires SplitExt(a).1 == extension && SplitExt(b).1 == extension && SplitExt(c).1 != extension
    ensures MatchingFiles([a, b, c], extension) == [a, b]
  {
    MatchingFilesAppend([a], [b, c], extension);
    MatchingFilesAppend([b], [c], extension);
    assert [a] + [b, c] == [a, b, c];
    assert [b] + [c] == [b, c];
  }

  lemma ScenarioJoins()
    ensures Join("d/", "a.shp") == "d/a.shp" && Join("d/", "b.shp") == "d/b.shp"
  {
  }

  lemma ShpExtensions()
    ensures SplitExt("a.shp").1 == ".shp"
    ensures SplitExt("b.shp").1 == ".shp"
    ensures SplitExt("c.geojson").1 == ".geojson"
  {
    RFindUnique("a.shp", '/', -1);
    RFindUnique("a.shp", '.', 1);
    RFindUnique("b.shp", '/', -1);
    RFindUnique("b.shp", '.', 1);
    RFindUnique("c.geojson", '/', -1);
    RFindUnique("c.geojson", '.', 1);
    assert !OnlyDots("a.shp", 0, 1) by { assert "a.shp"[0] == 'a'; }
    assert !OnlyDots("b.shp", 0, 1) by { assert "b.shp"[0] == 'b'; }
    assert !OnlyDots("c.geojson", 0, 1) by { assert "c.geojson"[0] == 'c'; }
  }

  /** With overwriting allowed and an output directory given, sources
      with the same name root write the same output file, whatever else
      exists: the later job replaces the earlier one's output. */
  lemma OverwriteCollides(source1: string, source2: string, settings: Settings,
                          isWgs84Geojsonseq: string -> bool, raises: string -> bool, existing1: set<string>, existing2: set<string>)
    ensures settings.canOverwrite && settings.outputDirectory != [] &&
            GetPathParts(source1).filenameRoot == GetPathParts(source2).filenameRoot ==>
              RunJob(source1, settings, isWgs84Geojsonseq, raises, existing1).0.output
              == RunJob(source2, settings, isWgs84Geojsonseq, raises, existing2).0.output
  {
    if settings.canOverwrite && settings.outputDirectory != [] &&
       GetPathParts(source1).filenameRoot == GetPathParts(source2).filenameRoot {
      var planned := PlannedFilepath(source1, ".json", settings.outputDirectory);
      assert planned == PlannedFilepath(source2, ".json", settings.outputDirectory);
      assert OutputFilepath(source1, ".json", true, settings.outputDirectory, existing1) == planned;
      assert OutputFilepath(source2, ".json", true, settings.outputDirectory, existing2) == planned;
    }
  }

  /** The name root of `dir/root.ext` is `root` whatever the extension,
      so `d/a.shp` and `d/a.gpkg` share the root `a`. */
  lemma NameRootIgnoresExtension(dir: string, root: string, e: string)
    requires IsSimpleExtension(e)
    requires root != [] && root[0] != '.'
    requires forall i :: 0 <= i < |root| ==> root[i] != '/'
    ensures GetPathParts(dir + "/" + root + e).filenameRoot == root
  {
    var p := dir + "/" + root + e;
    var b := root + e;
    var k := |dir| + 1;
    assert forall i :: 0 <= i < |b| ==> p[k + i] == b[i];
    assert p[k..] == b;
    assert forall i :: 0 <= i < |b| ==> b[i] != '/';
    RFindUnique(p, '/', |dir|);
    assert Basename(p) == b;
    RFindUnique(root, '/', -1);
    SplitExtOfSuffix(root, e);
    assert SplitExt(b) == (root, e);
  }
}
