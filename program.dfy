/**
 * Main: consume the options, give up when no URL is left, extract a video id
 * from each URL (reporting and skipping those that yield none), expand the
 * output location and start one DownloadVideoAsync per id.
 *
 * System.Uri parsing and Environment.ExpandEnvironmentVariables are parameters;
 * the download Tasks, awaited together by Task.WaitAll, run here one after the other over
 * a shared file system.
 */
module Program {
  import opened Wrappers
  import opened VideoIds
  import opened Options
  import opened VideoPipeline
  import PipelineProperties
  import opened OutputNames

  /** `new Uri(url)`: the parsed Host, AbsolutePath and Query, or None when the constructor throws. */
  type UriParser = string -> Option<Url>

  /** The id GetVideoId returns for a URL, or None when it throws. */
  function IdOf(url: string, parse: UriParser): (r: Option<string>)
    ensures r.Some? <==> parse(url).Some? && GetVideoId(parse(url).value).Success?
    ensures r.Some? ==> r.value == GetVideoId(parse(url).value).value
  {
    match parse(url)
    case None => None
    case Some(u) =>
      match GetVideoId(u)
      case Success(id) => Some(id)
      case Failure(_) => None
  }

  /** IdOf as the function the foreach applies to each URL. */
  function IdLookup(parse: UriParser): string -> Option<string> {
    url => IdOf(url, parse)
  }

  /** The ids collected and the URLs reported on the console as having no id. */
  datatype Extraction = Extraction(ids: seq<string>, skipped: seq<string>)

  /** What the foreach over the remaining arguments collects, URL by URL. */
  function Extract(urls: seq<string>, idOf: string -> Option<string>): (e: Extraction)
    ensures |e.ids| + |e.skipped| == |urls|
    decreases |urls|
  {
    if |urls| == 0 then Extraction([], [])
    else
      var e := Extract(urls[..|urls| - 1], idOf);
      var url := urls[|urls| - 1];
      match idOf(url)
      case Some(id) => Extraction(e.ids + [id], e.skipped)
      case None => Extraction(e.ids, e.skipped + [url])
  }

  /** The foreach with its try/catch around GetVideoId. */
  method ExtractVideoIds(urls: seq<string>, parse: UriParser) returns (ids: seq<string>, skipped: seq<string>)
    ensures Extraction(ids, skipped) == Extract(urls, IdLookup(parse))
  {
    ids, skipped := [], [];
    for i := 0 to |urls|
      invariant Extraction(ids, skipped) == Extract(urls[..i], IdLookup(parse))
    {
      var url := urls[i];
      assert urls[..i + 1][..i] == urls[..i];
      match IdOf(url, parse)
      case Some(id) =>
        ids := ids + [id];
      case None =>
        skipped := skipped + [url];
    }
    assert urls[..|urls|] == urls;
  }

  /** Extraction of a concatenation is the concatenation of the extractions. */
  lemma {:induction false} ExtractAppend(a: seq<string>, b: seq<string>, idOf: string -> Option<string>)
    ensures Extract(a + b, idOf)
      == Extraction(Extract(a, idOf).ids + Extract(b, idOf).ids, Extract(a, idOf).skipped + Extract(b, idOf).skipped)
    decreases |b|
  {
    if |b| == 0 {
      assert a + b == a;
    } else {
      var init := b[..|b| - 1];
      assert (a + b)[..|a + b| - 1] == a + init;
      assert (a + b)[|a + b| - 1] == b[|b| - 1];
      ExtractAppend(a, init, idOf);
    }
  }

  /** Every id comes from a URL that yields it, and every skipped URL is one that yields none. */
  lemma {:induction false} ExtractSources(urls: seq<string>, idOf: string -> Option<string>)
    ensures var e := Extract(urls, idOf);
      && (forall k :: 0 <= k < |e.ids| ==> exists j :: 0 <= j < |urls| && idOf(urls[j]) == Some(e.ids[k]))
      && (forall k :: 0 <= k < |e.skipped| ==> e.skipped[k] in urls && idOf(e.skipped[k]).None?)
    decreases |urls|
  {
    if |urls| > 0 {
      var n := |urls| - 1;
      ExtractSources(urls[..n], idOf);
      var e := Extract(urls, idOf);
      assert forall j :: 0 <= j < n ==> urls[..n][j] == urls[j];
      forall k | 0 <= k < |e.ids|
        ensures exists j :: 0 <= j < |urls| && idOf(urls[j]) == Some(e.ids[k])
      {
        if k < |Extract(urls[..n], idOf).ids| {
          assert e.ids[k] == Extract(urls[..n], idOf).ids[k];
          var j :| 0 <= j < n && idOf(urls[..n][j]) == Some(Extract(urls[..n], idOf).ids[k]);
          assert idOf(urls[j]) == Some(e.ids[k]);
        } else {
          assert idOf(urls[n]) == Some(e.ids[k]);
        }
      }
      forall k | 0 <= k < |e.skipped|
        ensures e.skipped[k] in urls && idOf(e.skipped[k]).None?
      {
        if k < |Extract(urls[..n], idOf).skipped| {
          assert e.skipped[k] == Extract(urls[..n], idOf).skipped[k];
          assert e.skipped[k] in urls[..n];
        } else {
          assert e.skipped[k] == urls[n];
        }
      }
    }
  }

  /** When every URL yields an id, the ids are those of the URLs, in order, and nothing is skipped. */
  lemma {:induction false} ExtractAll(urls: seq<string>, idOf: string -> Option<string>)
    requires forall j :: 0 <= j < |urls| ==> idOf(urls[j]).Some?
    ensures var e := Extract(urls, idOf);
      && e.skipped == [] && |e.ids| == |urls|
      && forall j :: 0 <= j < |urls| ==> e.ids[j] == idOf(urls[j]).value
    decreases |urls|
  {
    if |urls| > 0 {
      var n := |urls| - 1;
      var init := urls[..n];
      assert forall j :: 0 <= j < n ==> init[j] == urls[j];
      ExtractAll(init, idOf);
    }
  }

  // ---------------------------------------------------------------- the downloads

  /** The runs of the pipelines, in id order, and the files after the last. */
  datatype Batch = Batch(runs: seq<Run>, files: Files)

  /** One DownloadVideoAsync per id, each starting from the files the previous one left. */
  function RunAll(ids: seq<string>, cfg: Config, envOf: string -> Env, files: Files): (b: Batch)
    ensures |b.runs| == |ids|
    decreases |ids|
  {
    if |ids| == 0 then Batch([], files)
    else
      var b := RunAll(ids[..|ids| - 1], cfg, envOf, files);
      var id := ids[|ids| - 1];
      var run := Pipeline(id, cfg, envOf(id), b.files);
      Batch(b.runs + [run], run.files)
  }

  /** The files the `k`-th pipeline starts from. */
  function FilesBefore(b: Batch, files: Files, k: nat): Files
    requires k <= |b.runs|
  {
    if k == 0 then files else b.runs[k - 1].files
  }

  /** The download Tasks of the id loop, awaited in turn. */
  method RunPipelines(ids: seq<string>, cfg: Config, envOf: string -> Env, files: Files)
    returns (runs: seq<Run>, files': Files)
    requires forall k :: 0 <= k < |ids| ==> WellFormedEnv(envOf(ids[k]))
    ensures Batch(runs, files') == RunAll(ids, cfg, envOf, files)
  {
    runs, files' := [], files;
    for i := 0 to |ids|
      invariant Batch(runs, files') == RunAll(ids[..i], cfg, envOf, files)
    {
      var id := ids[i];
      assert ids[..i + 1][..i] == ids[..i];
      var run := DownloadVideoAsync(id, cfg, envOf(id), files');
      runs := runs + [run];
      files' := run.files;
    }
    assert ids[..|ids|] == ids;
  }

  /**
   * The `k`-th run is the pipeline of the `k`-th id started from the files the
   * run before it left, and the batch ends with the files of its last run.
   */
  lemma {:induction false} RunAllInOrder(ids: seq<string>, cfg: Config, envOf: string -> Env, files: Files)
    ensures var b := RunAll(ids, cfg, envOf, files);
      && (forall k {:trigger ids[k]} :: 0 <= k < |ids| ==> b.runs[k] == Pipeline(ids[k], cfg, envOf(ids[k]), FilesBefore(b, files, k)))
      && b.files == FilesBefore(b, files, |ids|)
    decreases |ids|
  {
    if |ids| > 0 {
      var n := |ids| - 1;
      RunAllInOrder(ids[..n], cfg, envOf, files);
      RunAllLast(ids, cfg, envOf, files);
      forall k | 0 <= k < n
        ensures ids[..n][k] == ids[k]
      {
      }
    }
  }

  /** The last id's pipeline comes after the runs of the ids before it, from the files they left. */
  lemma RunAllLast(ids: seq<string>, cfg: Config, envOf: string -> Env, files: Files)
    requires |ids| > 0
    ensures var n := |ids| - 1;
      var b0 := RunAll(ids[..n], cfg, envOf, files);
      var b := RunAll(ids, cfg, envOf, files);
      && (forall k :: 0 <= k < n ==> b.runs[k] == b0.runs[k])
      && b.runs[n] == Pipeline(ids[n], cfg, envOf(ids[n]), b0.files)
      && b.files == b.runs[n].files
  {
  }

  /** With Main's error template, right after each failed pipeline `issue-<id>.json` holds that pipeline's exception. */
  lemma EachFailureReported(ids: seq<string>, cfg: Config, envOf: string -> Env, files: Files)
    requires cfg.outError == OUT_ERROR_TEMPLATE
    ensures var b := RunAll(ids, cfg, envOf, files);
      forall k :: 0 <= k < |ids| && b.runs[k].outcome.Failed? ==>
        var path := cfg.outDir + "/issue-" + ids[k] + ".json";
        path in b.runs[k].files && b.runs[k].files[path] == envOf(ids[k]).errorReport
  {
    var b := RunAll(ids, cfg, envOf, files);
    RunAllInOrder(ids, cfg, envOf, files);
    forall k | 0 <= k < |ids| && b.runs[k].outcome.Failed?
      ensures var path := cfg.outDir + "/issue-" + ids[k] + ".json";
        path in b.runs[k].files && b.runs[k].files[path] == envOf(ids[k]).errorReport
    {
      PipelineProperties.FailureLeavesReport(ids[k], cfg, envOf(ids[k]), FilesBefore(b, files, k));
      ErrorFileName(cfg.outDir, ids[k]);
    }
  }

  // ---------------------------------------------------------------- the whole program

  datatype Exit =
    | BadArguments(error: OptionError)                       // the option loop throws out of Main
    | NoUris                                                  // "No URIs provided."
    | Ran(cfg: Config, extraction: Extraction, batch: Batch)  // Task.WaitAll returned

  /** The location options after the defaults, with the output location expanded. */
  function Configure(options: map<string, string>, expand: string -> string, invalidChars: set<char>): Config {
    Config(expand(OutputLocation(options)), OUT_FILE_TEMPLATE, OUT_ERROR_TEMPLATE, FfmpegLocation(options), invalidChars)
  }

  /** Main from its arguments to its end, as a function of the world's answers. */
  function CommandLine(args: seq<string>, parse: UriParser, expand: string -> string, invalidChars: set<char>,
                       envOf: string -> Env, files: Files): (x: Exit)
    ensures x.BadArguments? <==> Scan(args, map[]).Failure?
    ensures x.Ran? ==> 1 <= |x.extraction.ids| + |x.extraction.skipped| && |x.batch.runs| == |x.extraction.ids|
  {
    match Scan(args, map[])
    case Failure(e) => BadArguments(e)
    case Success(p) =>
      if |p.rest| < 1 then NoUris
      else
        var cfg := Configure(p.options, expand, invalidChars);
        var e := Extract(p.rest, IdLookup(parse));
        Ran(cfg, e, RunAll(e.ids, cfg, envOf, files))
  }

  /** Main's statements in order. */
  method RunCommandLine(args: seq<string>, parse: UriParser, expand: string -> string, invalidChars: set<char>,
                        envOf: string -> Env, files: Files) returns (exit: Exit)
    requires forall id :: WellFormedEnv(envOf(id))
    ensures exit == CommandLine(args, parse, expand, invalidChars, envOf, files)
  {
    var consumed := ConsumeOptions(args);
    if consumed.Failure? {
      return BadArguments(consumed.error);
    }
    var argl, options := consumed.value.rest, consumed.value.options;
    var outputLocation := OutputLocation(options);
    var ffmpegExe := FfmpegLocation(options);
    if |argl| < 1 {
      return NoUris;
    }
    var ids, skipped := ExtractVideoIds(argl, parse);
    var outDir := expand(outputLocation);
    var cfg := Config(outDir, OUT_FILE_TEMPLATE, OUT_ERROR_TEMPLATE, ffmpegExe, invalidChars);
    var runs, files' := RunPipelines(ids, cfg, envOf, files);
    return Ran(cfg, Extraction(ids, skipped), Batch(runs, files'));
  }

  // ---------------------------------------------------------------- properties of Main

  /**
   * A run of Main downloads at most one video per URL left after the options, the
   * output directory is an expanded argument or the expanded default, and the
   * muxer is an argument or ffmpeg.exe.
   */
  lemma RanFromArguments(args: seq<string>, parse: UriParser, expand: string -> string, invalidChars: set<char>,
                         envOf: string -> Env, files: Files)
    requires CommandLine(args, parse, expand, invalidChars, envOf, files).Ran?
    ensures var x := CommandLine(args, parse, expand, invalidChars, envOf, files);
      && 1 <= |x.batch.runs| + |x.extraction.skipped| <= |args|
      && ((exists j :: 0 <= j < |args| && x.cfg.outDir == expand(args[j])) || x.cfg.outDir == expand(DEFAULT_OUTPUT))
      && ((exists j :: 0 <= j < |args| && x.cfg.ffmpegExe == args[j]) || x.cfg.ffmpegExe == DEFAULT_FFMPEG)
  {
    var p := Scan(args, map[]).value;
    ScanResult(args, map[]);
    SubsequenceLength(p.rest, args);
    if "o" in p.options {
      var j :| 0 <= j < |args| && args[j] == p.options["o"];
    }
    if "ffmpeg" in p.options {
      var j :| 0 <= j < |args| && args[j] == p.options["ffmpeg"];
    }
  }

  lemma {:induction false} SubsequenceLength(a: seq<string>, b: seq<string>)
    requires IsSubsequence(a, b)
    ensures |a| <= |b|
    decreases |b|
  {
    if a != [] {
      if a[0] == b[0] && IsSubsequence(a[1..], b[1..]) {
        SubsequenceLength(a[1..], b[1..]);
      } else {
        SubsequenceLength(a, b[1..]);
      }
    }
  }

  /**
   * Without options, and with every argument a URL that yields an id, Main runs one
   * pipeline per argument, in argument order, into %USERPROFILE%/Downloads (expanded) with ffmpeg.exe.
   */
  lemma PlainUrlsAllRun(args: seq<string>, parse: UriParser, expand: string -> string, invalidChars: set<char>,
                        envOf: string -> Env, files: Files)
    requires |args| > 0
    requires forall j :: 0 <= j < |args| ==> !IsOption(args[j]) && IdOf(args[j], parse).Some?
    ensures var x := CommandLine(args, parse, expand, invalidChars, envOf, files);
      && x.Ran? && x.cfg == Config(expand(DEFAULT_OUTPUT), OUT_FILE_TEMPLATE, OUT_ERROR_TEMPLATE, DEFAULT_FFMPEG, invalidChars)
      && x.extraction.skipped == [] && |x.batch.runs| == |args|
      && forall j :: 0 <= j < |args| ==> x.extraction.ids[j] == IdOf(args[j], parse).value
  {
    NoOptionsKeepsAll(args, map[]);
    ExtractAll(args, IdLookup(parse));
  }

  /** A single option with its value, and no URL after it, ends with "No URIs provided.". */
  lemma OptionsOnlyIsNoUris(flag: string, value: string, parse: UriParser, expand: string -> string,
                            invalidChars: set<char>, envOf: string -> Env, files: Files)
    requires IsOption(flag) && TrimDashes(flag) in AVAILABLE_OPTIONS
    ensures CommandLine([flag, value], parse, expand, invalidChars, envOf, files) == NoUris
  {
    SingleOptionOnly(flag, value);
  }
}
