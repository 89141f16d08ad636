/**
 * DownloadVideoAsync: the per-video pipeline. Inside one try block it looks the
 * video up, chooses an audio and a video stream, makes sure the output directory
 * exists, downloads the audio and then the video, runs the muxer and deletes the two
 * temporary files; any exception skips the remaining steps and writes an error report
 * to `<out_dir>/issue-<id>.json`.
 */
module VideoPipeline {
  import opened Wrappers
  import opened Text
  import opened StreamSelection
  import opened OutputNames
  import RangeDownload

  const EMBED: string := "https://www.youtube.com/embed"

  type Files = map<string, seq<RangeDownload.byte>>

  /** The muxer process: Process.Start throws, or the process runs to some exit code. */
  datatype Launch = Started(exitCode: int) | StartFailed

  /**
   * What the world answers: the stream list (or the lookup's exception), the content
   * length a HEAD request reports for each stream URI, the server behind each URI, the
   * muxer launch, which filesystem or network steps throw, and the serialised exception.
   */
  datatype Env = Env(
    streams: Result<seq<Stream>, string>,
    contentLength: string -> Option<nat>,
    server: string -> RangeDownload.ByteRange -> RangeDownload.Response,
    mux: Launch,
    throws: Step -> bool,
    errorReport: seq<RangeDownload.byte>)

  /**
   * The arguments of DownloadVideoAsync besides the id (the output directory after
   * environment-variable expansion and the file and error-report templates), the
   * muxer executable and the platform's invalid file-name characters.
   */
  datatype Config = Config(outDir: string, outFile: string, outError: string, ffmpegExe: string, invalidChars: set<char>)

  datatype Step =
    | LookUp(url: string)
    | ChooseAudio
    | ChooseVideo
    | EnsureDirectory(dir: string)
    | DownloadAudio(uri: string, path: string)
    | DownloadVideo(uri: string, path: string)
    | Mux(exe: string, args: string)
    | DeleteAudio(path: string)
    | DeleteVideo(path: string)
    | WriteError(path: string)

  datatype Outcome = Completed | Failed(at: Step)

  /** The steps attempted, in order, the files afterwards, and how the pipeline ended. */
  datatype Run = Run(trace: seq<Step>, files: Files, outcome: Outcome)

  /** Each server answers with chunks a single 81,920-byte read can return. */
  ghost predicate WellFormedEnv(env: Env) {
    forall uri, r :: RangeDownload.WellFormedBody(env.server(uri)(r).body)
  }

  /** The position of each step in the try block. */
  function Stage(step: Step): nat {
    match step
    case LookUp(_) => 0
    case ChooseAudio => 1
    case ChooseVideo => 2
    case EnsureDirectory(_) => 3
    case DownloadAudio(_, _) => 4
    case DownloadVideo(_, _) => 5
    case Mux(_, _) => 6
    case DeleteAudio(_) => 7
    case DeleteVideo(_) => 8
    case WriteError(_) => 9
  }

  function Quote(s: string): string {
    "\"" + s + "\""
  }

  /** The muxer's argument string, joined with single spaces. */
  function MuxArgs(videoFile: string, audioFile: string, finalFile: string): string {
    Join(" ", ["-y", "-i", Quote(videoFile), "-i", Quote(audioFile), "-acodec", "copy", "-vcodec", "copy", Quote(finalFile)])
  }

  /**
   * The download got as far as File.OpenWrite: the stream URI and the HEAD request
   * did not throw and the reported length is nonzero.
   */
  predicate Opened(env: Env, step: Step)
    requires step.DownloadAudio? || step.DownloadVideo?
  {
    !env.throws(step) && env.contentLength(step.uri).GetOr(0) > 0
  }

  /**
   * DownloadYouTubeData throws: before the file is opened (the URI or the HEAD request
   * fails, or the length is absent or zero), or when a range's connection breaks.
   */
  predicate DownloadFails(env: Env, step: Step)
    requires step.DownloadAudio? || step.DownloadVideo?
  {
    !Opened(env, step) || RangeDownload.Breaks(env.contentLength(step.uri), env.server(step.uri))
  }

  /** Whether a step throws. Execute never reads the exit code, so only a failed start counts. */
  predicate Fails(env: Env, step: Step) {
    match step
    case LookUp(_) => env.streams.Failure?
    case ChooseAudio => env.streams.Success? && SelectAudio(env.streams.value).Failure?
    case ChooseVideo => env.streams.Success? && SelectVideo(env.streams.value).Failure?
    case DownloadAudio(_, _) => DownloadFails(env, step)
    case DownloadVideo(_, _) => DownloadFails(env, step)
    case Mux(_, _) => env.mux.StartFailed?
    case WriteError(_) => false
    case _ => env.throws(step)
  }

  /**
   * The file after DownloadAsync into `path`, whether it completes or its connection
   * breaks: opened without truncation, then overwritten from offset 0 by what was read.
   */
  function Fetched(env: Env, uri: string, path: string, files: Files): seq<RangeDownload.byte> {
    var existing := if path in files then files[path] else [];
    var o := RangeDownload.Downloaded(env.contentLength(uri), env.server(uri), existing);
    if o.NoContent? then existing else o.file
  }

  /** What a step that does not throw does to the files. */
  function Effect(env: Env, step: Step, files: Files): Files {
    match step
    case DownloadAudio(uri, path) => files[path := Fetched(env, uri, path, files)]
    case DownloadVideo(uri, path) => files[path := Fetched(env, uri, path, files)]
    case DeleteAudio(path) => files - {path}
    case DeleteVideo(path) => files - {path}
    case _ => files
  }

  /**
   * What a step that throws leaves behind: a download that had opened its file leaves
   * the bytes written before the connection broke; any other step changes nothing.
   */
  function Residue(env: Env, step: Step, files: Files): Files {
    if (step.DownloadAudio? || step.DownloadVideo?) && Opened(env, step) then
      files[step.path := Fetched(env, step.uri, step.path, files)]
    else files
  }

  /** The files after a sequence of steps none of which throws. */
  function Effects(steps: seq<Step>, env: Env, files: Files): Files
    decreases |steps|
  {
    if |steps| == 0 then files else Effects(steps[1..], env, Effect(env, steps[0], files))
  }

  // ---------------------------------------------------------------- specification

  /** The directory check and the two downloads, audio first. */
  function FetchSteps(cfg: Config, audioUri: string, audioFile: string, videoUri: string, videoFile: string): seq<Step> {
    [EnsureDirectory(cfg.outDir), DownloadAudio(audioUri, audioFile), DownloadVideo(videoUri, videoFile)]
  }

  /** The muxer run and the deletion of the two temporary files. */
  function FinishSteps(cfg: Config, audioFile: string, videoFile: string, finalFile: string): seq<Step> {
    [Mux(cfg.ffmpegExe, MuxArgs(videoFile, audioFile, finalFile)), DeleteAudio(audioFile), DeleteVideo(videoFile)]
  }

  /** The steps after the stream choices, with the temporary and final paths built from the chosen streams. */
  function TransferPlan(id: string, cfg: Config, audio: Stream, video: Stream): seq<Step> {
    var audioFile := AudioFile(cfg.outDir, id, audio.audioFormat);
    var videoFile := VideoFile(cfg.outDir, id, video.format);
    var finalFile := FinalFile(cfg.outDir, cfg.outFile, id, video.title, cfg.invalidChars, video.format);
    FetchSteps(cfg, audio.uri, audioFile, video.uri, videoFile) + FinishSteps(cfg, audioFile, videoFile, finalFile)
  }

  /**
   * The try block's statements in order. When a stream choice throws there is
   * nothing after it to plan, so the plan ends with that choice.
   */
  function Plan(id: string, cfg: Config, env: Env): seq<Step> {
    var lookUp := LookUp(EMBED + "/" + id);
    if env.streams.Failure? then [lookUp]
    else
      var streams := env.streams.value;
      if SelectAudio(streams).Failure? then [lookUp, ChooseAudio]
      else if SelectVideo(streams).Failure? then [lookUp, ChooseAudio, ChooseVideo]
      else [lookUp, ChooseAudio, ChooseVideo] + TransferPlan(id, cfg, SelectAudio(streams).value, SelectVideo(streams).value)
  }

  /** Run the steps in order; the first that throws is followed by the catch block's error report. */
  function RunSteps(steps: seq<Step>, env: Env, files: Files, errorPath: string, done: seq<Step>): Run
    decreases |steps|
  {
    if |steps| == 0 then Run(done, files, Completed)
    else if Fails(env, steps[0]) then
      Run(done + [steps[0], WriteError(errorPath)], Residue(env, steps[0], files)[errorPath := env.errorReport], Failed(steps[0]))
    else RunSteps(steps[1..], env, Effect(env, steps[0], files), errorPath, done + [steps[0]])
  }

  function Pipeline(id: string, cfg: Config, env: Env, files: Files): Run {
    RunSteps(Plan(id, cfg, env), env, files, ErrorFile(cfg.outDir, cfg.outError, id), [])
  }

  // ---------------------------------------------------------------- the method

  /** One step of RunSteps: the step throws and the run ends, or it takes effect and the rest follows. */
  lemma Attempt(goal: Run, rest: seq<Step>, env: Env, files: Files, errorPath: string, done: seq<Step>, step: Step)
    requires goal == RunSteps(rest, env, files, errorPath, done)
    requires |rest| > 0 && rest[0] == step
    ensures Fails(env, step) ==>
      goal == Run(done + [step] + [WriteError(errorPath)], Residue(env, step, files)[errorPath := env.errorReport], Failed(step))
    ensures !Fails(env, step) ==>
      goal == RunSteps(rest[1..], env, Effect(env, step, files), errorPath, done + [step])
  {
    assert done + [step] + [WriteError(errorPath)] == done + [step, WriteError(errorPath)];
  }

  /** The run the catch block (or the normal exit) turns the current state into is `goal`. */
  ghost predicate Settles(goal: Run, trace: seq<Step>, files: Files, failed: Option<Step>, errorPath: string, report: seq<RangeDownload.byte>) {
    if failed.Some? then goal == Run(trace + [WriteError(errorPath)], files[errorPath := report], Failed(failed.value))
    else goal == Run(trace, files, Completed)
  }

  /**
   * DownloadYouTubeData: CustomYouTube.DownloadAsync from the stream URI into the file,
   * reporting whether it returned rather than threw, and the files either way.
   */
  method DownloadYouTubeData(env: Env, step: Step, files: Files) returns (ok: bool, files': Files)
    requires WellFormedEnv(env) && (step.DownloadAudio? || step.DownloadVideo?)
    ensures ok == !Fails(env, step)
    ensures files' == if ok then Effect(env, step, files) else Residue(env, step, files)
  {
    if env.throws(step) {
      assert !Opened(env, step);
      return false, files;
    }
    var existing := if step.path in files then files[step.path] else [];
    var outcome := RangeDownload.DownloadAsync(env.contentLength(step.uri), env.server(step.uri), existing);
    if outcome.NoContent? {
      assert !Opened(env, step);
      return false, files;
    }
    OpenedDownload(env, step, files);
    return outcome.Completed?, files[step.path := outcome.file];
  }

  /** A download that opened its file: it throws exactly when the range loop was interrupted, and either way the file holds what was written. */
  lemma OpenedDownload(env: Env, step: Step, files: Files)
    requires (step.DownloadAudio? || step.DownloadVideo?) && !env.throws(step)
    requires env.contentLength(step.uri).GetOr(0) > 0
    ensures var existing := if step.path in files then files[step.path] else [];
      var o := RangeDownload.Downloaded(env.contentLength(step.uri), env.server(step.uri), existing);
      && !o.NoContent?
      && (Fails(env, step) <==> o.Interrupted?)
      && Effect(env, step, files) == files[step.path := o.file]
      && Residue(env, step, files) == files[step.path := o.file]
  {
    assert Opened(env, step);
  }

  /** Running `a + b` is running `a` and, if it completed, running `b` from where it left off. */
  lemma {:induction false} RunStepsAppend(a: seq<Step>, b: seq<Step>, env: Env, files: Files, errorPath: string, done: seq<Step>)
    ensures var first := RunSteps(a, env, files, errorPath, done);
      RunSteps(a + b, env, files, errorPath, done)
        == if first.outcome.Completed? then RunSteps(b, env, first.files, errorPath, first.trace) else first
    decreases |a|
  {
    if |a| == 0 {
      assert a + b == b;
    } else {
      assert (a + b)[0] == a[0] && (a + b)[1..] == a[1..] + b;
      if !Fails(env, a[0]) {
        RunStepsAppend(a[1..], b, env, Effect(env, a[0], files), errorPath, done + [a[0]]);
      }
    }
  }

  /** The directory check and the two downloads of the try block. */
  method FetchStreams(cfg: Config, env: Env, audioUri: string, audioFile: string, videoUri: string, videoFile: string,
                      files: Files, done: seq<Step>, ghost errorPath: string)
    returns (trace: seq<Step>, fs: Files, failed: Option<Step>)
    requires WellFormedEnv(env)
    ensures Settles(RunSteps(FetchSteps(cfg, audioUri, audioFile, videoUri, videoFile), env, files, errorPath, done),
                    trace, fs, failed, errorPath, env.errorReport)
  {
    ghost var goal := RunSteps(FetchSteps(cfg, audioUri, audioFile, videoUri, videoFile), env, files, errorPath, done);
    ghost var rest := FetchSteps(cfg, audioUri, audioFile, videoUri, videoFile);
    trace, fs, failed := done, files, None;

    var ensureDir := EnsureDirectory(cfg.outDir);
    Attempt(goal, rest, env, fs, errorPath, trace, ensureDir);
    trace := trace + [ensureDir];
    if env.throws(ensureDir) {
      return trace, fs, Some(ensureDir);
    }
    rest := rest[1..];

    var downloadAudio := DownloadAudio(audioUri, audioFile);
    Attempt(goal, rest, env, fs, errorPath, trace, downloadAudio);
    trace := trace + [downloadAudio];
    var ok;
    ok, fs := DownloadYouTubeData(env, downloadAudio, fs);
    if !ok {
      return trace, fs, Some(downloadAudio);
    }
    rest := rest[1..];

    var downloadVideo := DownloadVideo(videoUri, videoFile);
    Attempt(goal, rest, env, fs, errorPath, trace, downloadVideo);
    trace := trace + [downloadVideo];
    ok, fs := DownloadYouTubeData(env, downloadVideo, fs);
    if !ok {
      return trace, fs, Some(downloadVideo);
    }
  }

  /** The muxer run and the clean-up of the try block. */
  method MuxAndCleanUp(cfg: Config, env: Env, audioFile: string, videoFile: string, finalFile: string,
                       files: Files, done: seq<Step>, ghost errorPath: string)
    returns (trace: seq<Step>, fs: Files, failed: Option<Step>)
    ensures Settles(RunSteps(FinishSteps(cfg, audioFile, videoFile, finalFile), env, files, errorPath, done),
                    trace, fs, failed, errorPath, env.errorReport)
  {
    ghost var goal := RunSteps(FinishSteps(cfg, audioFile, videoFile, finalFile), env, files, errorPath, done);
    ghost var rest := FinishSteps(cfg, audioFile, videoFile, finalFile);
    trace, fs, failed := done, files, None;

    var args := MuxArgs(videoFile, audioFile, finalFile);
    var mux := Mux(cfg.ffmpegExe, args);
    Attempt(goal, rest, env, fs, errorPath, trace, mux);
    trace := trace + [mux];
    if env.mux.StartFailed? {
      return trace, fs, Some(mux);
    }
    // Execute awaits the exit and never reads the exit code.
    rest := rest[1..];

    var deleteAudio := DeleteAudio(audioFile);
    Attempt(goal, rest, env, fs, errorPath, trace, deleteAudio);
    trace := trace + [deleteAudio];
    if env.throws(deleteAudio) {
      return trace, fs, Some(deleteAudio);
    }
    fs := fs - {audioFile};
    rest := rest[1..];

    var deleteVideo := DeleteVideo(videoFile);
    Attempt(goal, rest, env, fs, errorPath, trace, deleteVideo);
    trace := trace + [deleteVideo];
    if env.throws(deleteVideo) {
      return trace, fs, Some(deleteVideo);
    }
    fs := fs - {videoFile};
  }

  /** The paths built from the chosen streams, then the downloads, the muxer run and the clean-up. */
  method Transfer(id: string, cfg: Config, env: Env, audio: Stream, video: Stream,
                  files: Files, done: seq<Step>, ghost errorPath: string)
    returns (trace: seq<Step>, fs: Files, failed: Option<Step>)
    requires WellFormedEnv(env)
    ensures Settles(RunSteps(TransferPlan(id, cfg, audio, video), env, files, errorPath, done),
                    trace, fs, failed, errorPath, env.errorReport)
  {
    var audioFile := AudioFile(cfg.outDir, id, audio.audioFormat);
    var videoFile := VideoFile(cfg.outDir, id, video.format);
    var finalFile := FinalFile(cfg.outDir, cfg.outFile, id, video.title, cfg.invalidChars, video.format);
    ghost var fetch := FetchSteps(cfg, audio.uri, audioFile, video.uri, videoFile);
    ghost var finish := FinishSteps(cfg, audioFile, videoFile, finalFile);
    RunStepsAppend(fetch, finish, env, files, errorPath, done);

    trace, fs, failed := FetchStreams(cfg, env, audio.uri, audioFile, video.uri, videoFile, files, done, errorPath);
    if failed.Some? {
      return;
    }
    trace, fs, failed := MuxAndCleanUp(cfg, env, audioFile, videoFile, finalFile, fs, trace, errorPath);
  }

  /** The first three steps of the plan, as far as the stream choices succeed. */
  lemma PlanStarts(id: string, cfg: Config, env: Env)
    ensures var p := Plan(id, cfg, env);
      && |p| >= 1 && p[0] == LookUp(EMBED + "/" + id)
      && (env.streams.Success? ==> |p| >= 2 && p[1] == ChooseAudio)
      && (env.streams.Success? && SelectAudio(env.streams.value).Success? ==> |p| >= 3 && p[2] == ChooseVideo)
      && (env.streams.Success? && SelectAudio(env.streams.value).Success? && SelectVideo(env.streams.value).Success? ==>
            p[3..] == TransferPlan(id, cfg, SelectAudio(env.streams.value).value, SelectVideo(env.streams.value).value))
  {
    var p := Plan(id, cfg, env);
    if env.streams.Success? && SelectAudio(env.streams.value).Success? && SelectVideo(env.streams.value).Success? {
      var t := TransferPlan(id, cfg, SelectAudio(env.streams.value).value, SelectVideo(env.streams.value).value);
      assert p == [LookUp(EMBED + "/" + id), ChooseAudio, ChooseVideo] + t;
      assert p[3..] == t;
    }
  }

  /**
   * The try block of DownloadVideoAsync: each statement that throws ends it with
   * that step as the failure.
   */
  method TryDownload(id: string, cfg: Config, env: Env, files: Files)
    returns (trace: seq<Step>, fs: Files, failed: Option<Step>)
    requires WellFormedEnv(env)
    ensures Settles(Pipeline(id, cfg, env, files), trace, fs, failed, ErrorFile(cfg.outDir, cfg.outError, id), env.errorReport)
  {
    ghost var errorPath := ErrorFile(cfg.outDir, cfg.outError, id);
    ghost var goal := Pipeline(id, cfg, env, files);
    ghost var rest := Plan(id, cfg, env);
    PlanStarts(id, cfg, env);
    fs, trace, failed := files, [], None;

    var lookUp := LookUp(EMBED + "/" + id);
    Attempt(goal, rest, env, fs, errorPath, trace, lookUp);
    trace := trace + [lookUp];
    if env.streams.Failure? {
      return trace, fs, Some(lookUp);
    }
    rest := rest[1..];
    var videos := env.streams.value;

    Attempt(goal, rest, env, fs, errorPath, trace, ChooseAudio);
    trace := trace + [ChooseAudio];
    var audioChoice := SelectAudio(videos);
    if audioChoice.Failure? {
      return trace, fs, Some(ChooseAudio);
    }
    rest := rest[1..];

    Attempt(goal, rest, env, fs, errorPath, trace, ChooseVideo);
    trace := trace + [ChooseVideo];
    var videoChoice := SelectVideo(videos);
    if videoChoice.Failure? {
      return trace, fs, Some(ChooseVideo);
    }
    trace, fs, failed := Transfer(id, cfg, env, audioChoice.value, videoChoice.value, fs, trace, errorPath);
  }

  /** DownloadVideoAsync: the try block, then the catch block's error report when a step threw. */
  method DownloadVideoAsync(id: string, cfg: Config, env: Env, files: Files) returns (run: Run)
    requires WellFormedEnv(env)
    ensures run == Pipeline(id, cfg, env, files)
  {
    var outError := Replace(cfg.outError, ID_PLACEHOLDER, id);
    var trace, fs, failed := TryDownload(id, cfg, env, files);
    if failed.Some? {
      var filePath := cfg.outDir + "/" + outError;
      trace := trace + [WriteError(filePath)];
      fs := fs[filePath := env.errorReport];
      run := Run(trace, fs, Failed(failed.value));
    } else {
      run := Run(trace, fs, Completed);
    }
  }
}
