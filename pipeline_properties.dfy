/**
 * What the per-video pipeline promises: the steps run in source order and none is
 * skipped, the first exception ends the try block and writes `issue-<id>.json`, the
 * muxer's exit code changes nothing, and the temporary files survive every failure
 * after their download.
 */
module PipelineProperties {
  import opened Wrappers
  import opened Text
  import opened StreamSelection
  import opened OutputNames
  import opened VideoPipeline

  /** The index of the first step that throws, if any. */
  function FirstFailure(steps: seq<Step>, env: Env): (k: Option<nat>)
    ensures k.None? <==> forall i :: 0 <= i < |steps| ==> !Fails(env, steps[i])
    ensures k.Some? ==> k.value < |steps| && Fails(env, steps[k.value])
    ensures k.Some? ==> forall i :: 0 <= i < k.value ==> !Fails(env, steps[i])
    decreases |steps|
  {
    if |steps| == 0 then None
    else if Fails(env, steps[0]) then Some(0)
    else
      var k := FirstFailure(steps[1..], env);
      assert forall i :: 1 <= i < |steps| ==> steps[1..][i - 1] == steps[i];
      if k.None? then None else Some(k.value + 1)
  }

  /** When no step throws, every step is attempted and every effect happens. */
  lemma {:induction false} RunStepsCompletes(steps: seq<Step>, env: Env, files: Files, errorPath: string, done: seq<Step>)
    requires forall i :: 0 <= i < |steps| ==> !Fails(env, steps[i])
    ensures RunSteps(steps, env, files, errorPath, done) == Run(done + steps, Effects(steps, env, files), Completed)
    decreases |steps|
  {
    if |steps| == 0 {
      assert done + steps == done;
    } else {
      assert !Fails(env, steps[0]);
      assert forall i :: 0 <= i < |steps[1..]| ==> steps[1..][i] == steps[i + 1];
      RunStepsCompletes(steps[1..], env, Effect(env, steps[0], files), errorPath, done + [steps[0]]);
      assert done + [steps[0]] + steps[1..] == done + steps;
    }
  }

  /**
   * When step k is the first that throws, the steps up to it are attempted, those
   * before it take effect, step k leaves its residue, and the error report follows.
   */
  lemma {:induction false} RunStepsStops(steps: seq<Step>, env: Env, files: Files, errorPath: string, done: seq<Step>, k: nat)
    requires k < |steps| && Fails(env, steps[k])
    requires forall i :: 0 <= i < k ==> !Fails(env, steps[i])
    ensures RunSteps(steps, env, files, errorPath, done)
      == Run(done + steps[..k + 1] + [WriteError(errorPath)],
             Residue(env, steps[k], Effects(steps[..k], env, files))[errorPath := env.errorReport], Failed(steps[k]))
    decreases k
  {
    if k == 0 {
      assert steps[..1] == [steps[0]] && steps[..0] == [];
      assert done + [steps[0]] + [WriteError(errorPath)] == done + [steps[0], WriteError(errorPath)];
    } else {
      assert !Fails(env, steps[0]);
      var files' := Effect(env, steps[0], files);
      assert forall i :: 0 <= i < k - 1 ==> steps[1..][i] == steps[i + 1];
      RunStepsStops(steps[1..], env, files', errorPath, done + [steps[0]], k - 1);
      assert done + [steps[0]] + steps[1..][..k] == done + steps[..k + 1];
      assert steps[..k][0] == steps[0] && steps[..k][1..] == steps[1..][..k - 1];
      assert Effects(steps[..k], env, files) == Effects(steps[1..][..k - 1], env, files');
    }
  }

  lemma {:induction false} EffectsAppend(a: seq<Step>, b: seq<Step>, env: Env, files: Files)
    ensures Effects(a + b, env, files) == Effects(b, env, Effects(a, env, files))
    decreases |a|
  {
    if |a| == 0 {
      assert a + b == b;
    } else {
      assert (a + b)[0] == a[0] && (a + b)[1..] == a[1..] + b;
      EffectsAppend(a[1..], b, env, Effect(env, a[0], files));
    }
  }

  // ---------------------------------------------------------------- the plan

  /** The plan is the try block in source order: the step at position i is the statement at stage i. */
  lemma PlanInSourceOrder(id: string, cfg: Config, env: Env)
    ensures var p := Plan(id, cfg, env);
      InSourceOrder(p) && (|p| > 3 ==> |p| == 9)
  {
    var p := Plan(id, cfg, env);
    if |p| > 3 {
      PlanNineSteps(id, cfg, env);
      NineStepsInSourceOrder(p);
    }
  }

  /** A plan past the stream choices holds all nine statements of the try block. */
  lemma PlanNineSteps(id: string, cfg: Config, env: Env)
    requires |Plan(id, cfg, env)| > 3
    ensures NineSteps(Plan(id, cfg, env))
  {
    var streams := env.streams.value;
    var t := TransferPlan(id, cfg, SelectAudio(streams).value, SelectVideo(streams).value);
    assert Plan(id, cfg, env) == [LookUp(EMBED + "/" + id), ChooseAudio, ChooseVideo] + t;
    TransferInOrder(t, id, cfg, SelectAudio(streams).value, SelectVideo(streams).value);
    PrefixedTransfer(EMBED + "/" + id, t);
  }

  lemma TransferInOrder(t: seq<Step>, id: string, cfg: Config, audio: Stream, video: Stream)
    requires t == TransferPlan(id, cfg, audio, video)
    ensures TransferShape(t)
  {
  }

  /** The six steps after the stream choices, by kind. */
  predicate TransferShape(t: seq<Step>) {
    && |t| == 6 && t[0].EnsureDirectory? && t[1].DownloadAudio? && t[2].DownloadVideo?
    && t[3].Mux? && t[4].DeleteAudio? && t[5].DeleteVideo?
  }

  /** The nine steps of the try block, by kind. */
  predicate NineSteps(p: seq<Step>) {
    && |p| == 9 && p[0].LookUp? && p[1].ChooseAudio? && p[2].ChooseVideo?
    && TransferShape(p[3..])
  }

  lemma PrefixedTransfer(url: string, t: seq<Step>)
    requires TransferShape(t)
    ensures NineSteps([LookUp(url), ChooseAudio, ChooseVideo] + t)
  {
    assert ([LookUp(url), ChooseAudio, ChooseVideo] + t)[3..] == t;
  }

  /** The plan starts with the lookup and is cut short only by a step that throws. */
  lemma PlanShape(id: string, cfg: Config, env: Env)
    ensures var p := Plan(id, cfg, env);
      && |p| in {1, 2, 3, 9}
      && p[0] == LookUp(EMBED + "/" + id)
      && (|p| < 9 ==> Fails(env, p[|p| - 1]))
  {
  }

  /** The step at each position is the statement at that stage of the try block. */
  predicate InSourceOrder(steps: seq<Step>) {
    forall i :: 0 <= i < |steps| ==> Stage(steps[i]) == i
  }

  lemma NineStepsInSourceOrder(p: seq<Step>)
    requires NineSteps(p)
    ensures InSourceOrder(p)
  {
    assert forall i :: 3 <= i < 9 ==> p[i] == p[3..][i - 3];
  }

  /** The plan when both stream choices succeed, written out step by step. */
  lemma ChosenPlan(id: string, cfg: Config, env: Env, audio: Stream, video: Stream)
    requires env.streams.Success?
    requires SelectAudio(env.streams.value) == Success(audio) && SelectVideo(env.streams.value) == Success(video)
    ensures var audioFile := AudioFile(cfg.outDir, id, audio.audioFormat);
      var videoFile := VideoFile(cfg.outDir, id, video.format);
      var finalFile := FinalFile(cfg.outDir, cfg.outFile, id, video.title, cfg.invalidChars, video.format);
      Plan(id, cfg, env) == [LookUp(EMBED + "/" + id), ChooseAudio, ChooseVideo, EnsureDirectory(cfg.outDir),
                             DownloadAudio(audio.uri, audioFile), DownloadVideo(video.uri, videoFile),
                             Mux(cfg.ffmpegExe, MuxArgs(videoFile, audioFile, finalFile)),
                             DeleteAudio(audioFile), DeleteVideo(videoFile)]
  {
  }

  /** When both choices succeed, the downloads go to `<out_dir>/<id>.m4a` and `.mp4`, and the deletions remove exactly those. */
  lemma PlanPaths(id: string, cfg: Config, env: Env)
    requires |Plan(id, cfg, env)| == 9
    ensures PlannedPaths(Plan(id, cfg, env), id, cfg, SelectAudio(env.streams.value).value, SelectVideo(env.streams.value).value)
  {
    var streams := env.streams.value;
    var audio, video := SelectAudio(streams).value, SelectVideo(streams).value;
    SelectedTempPaths(cfg.outDir, id, streams);
    var prefix := [LookUp(EMBED + "/" + id), ChooseAudio, ChooseVideo];
    assert Plan(id, cfg, env) == prefix + TransferPlan(id, cfg, audio, video);
    TransferPaths(prefix, id, cfg, audio, video);
  }

  /**
   * The paths of a nine-step plan: the two downloads into `<out_dir>/<id>.m4a` and
   * `.mp4`, the muxer reading both into the final file, and the deletion of the two.
   */
  predicate PlannedPaths(p: seq<Step>, id: string, cfg: Config, audio: Stream, video: Stream) {
    var audioFile := cfg.outDir + "/" + id + ".m4a";
    var videoFile := cfg.outDir + "/" + id + ".mp4";
    var finalFile := FinalFile(cfg.outDir, cfg.outFile, id, video.title, cfg.invalidChars, Mp4);
    && |p| == 9
    && p[4] == DownloadAudio(audio.uri, audioFile)
    && p[5] == DownloadVideo(video.uri, videoFile)
    && p[6] == Mux(cfg.ffmpegExe, MuxArgs(videoFile, audioFile, finalFile))
    && p[7] == DeleteAudio(audioFile)
    && p[8] == DeleteVideo(videoFile)
  }

  lemma TransferPaths(prefix: seq<Step>, id: string, cfg: Config, audio: Stream, video: Stream)
    requires |prefix| == 3 && audio.audioFormat == Aac && video.format == Mp4
    ensures PlannedPaths(prefix + TransferPlan(id, cfg, audio, video), id, cfg, audio, video)
  {
    TempFilesDistinct(cfg.outDir, id);
  }

  // ---------------------------------------------------------------- the run

  /**
   * The pipeline completes exactly when no planned step throws, and then attempts
   * every step. Otherwise it stops at the first step that throws, attempts nothing
   * after it, keeps what that step left behind, and writes the error report to the
   * error template's path under out_dir.
   */
  lemma PipelineFailFast(id: string, cfg: Config, env: Env, files: Files)
    ensures var run := Pipeline(id, cfg, env, files);
      var p := Plan(id, cfg, env);
      && (run.outcome.Completed? <==> forall i :: 0 <= i < |p| ==> !Fails(env, p[i]))
      && (run.outcome.Completed? ==> run.trace == p && |p| == 9 && run.files == Effects(p, env, files))
      && (run.outcome.Failed? ==> exists k :: (
            && 0 <= k < |p| && run.outcome.at == p[k] && Fails(env, p[k])
            && (forall i :: 0 <= i < k ==> !Fails(env, p[i]))
            && run.trace == p[..k + 1] + [WriteError(ErrorFile(cfg.outDir, cfg.outError, id))]
            && run.files == Residue(env, p[k], Effects(p[..k], env, files))[ErrorFile(cfg.outDir, cfg.outError, id) := env.errorReport]))
  {
    var p := Plan(id, cfg, env);
    var errorPath := ErrorFile(cfg.outDir, cfg.outError, id);
    PlanShape(id, cfg, env);
    match FirstFailure(p, env)
    case None =>
      RunStepsCompletes(p, env, files, errorPath, []);
      assert [] + p == p;
    case Some(k) =>
      RunStepsStops(p, env, files, errorPath, [], k);
      assert [] + p[..k + 1] == p[..k + 1];
  }

  /** A pipeline that fails leaves the serialised exception at the error template's path. */
  lemma FailureLeavesReport(id: string, cfg: Config, env: Env, files: Files)
    ensures var run := Pipeline(id, cfg, env, files);
      run.outcome.Failed? ==> var path := ErrorFile(cfg.outDir, cfg.outError, id);
        path in run.files && run.files[path] == env.errorReport
  {
    PipelineFailFast(id, cfg, env, files);
  }

  /** The attempted steps appear in the order of the try block, the error report last. */
  lemma TraceInSourceOrder(id: string, cfg: Config, env: Env, files: Files)
    ensures StagesIncrease(Pipeline(id, cfg, env, files).trace)
  {
    var p := Plan(id, cfg, env);
    PlanInSourceOrder(id, cfg, env);
    RunTraceOrdered(p, env, files, ErrorFile(cfg.outDir, cfg.outError, id));
    assert Pipeline(id, cfg, env, files) == RunSteps(p, env, files, ErrorFile(cfg.outDir, cfg.outError, id), []);
  }

  /** The trace of a run from scratch: the steps up to the first that throws, then the error report. */
  lemma RunTrace(steps: seq<Step>, env: Env, files: Files, errorPath: string)
    ensures var t := RunSteps(steps, env, files, errorPath, []).trace;
      var k := FirstFailure(steps, env);
      && (k.None? ==> t == steps)
      && (k.Some? ==> |t| == k.value + 2 && t[k.value + 1] == WriteError(errorPath)
                      && forall i :: 0 <= i <= k.value ==> t[i] == steps[i])
  {
    var k := FirstFailure(steps, env);
    if k.None? {
      RunStepsCompletes(steps, env, files, errorPath, []);
      assert [] + steps == steps;
    } else {
      RunStepsStops(steps, env, files, errorPath, [], k.value);
      assert [] + steps[..k.value + 1] == steps[..k.value + 1];
    }
  }

  /** Steps whose stages are their positions run in stage order, the error report last. */
  lemma RunTraceOrdered(steps: seq<Step>, env: Env, files: Files, errorPath: string)
    requires InSourceOrder(steps)
    ensures StagesIncrease(RunSteps(steps, env, files, errorPath, []).trace)
  {
    var k := FirstFailure(steps, env);
    if k.None? {
      RunStepsCompletes(steps, env, files, errorPath, []);
      assert [] + steps == steps;
      InSourceOrderIncreases(steps);
    } else {
      var n := k.value;
      RunStepsStops(steps, env, files, errorPath, [], n);
      assert [] + steps[..n + 1] == steps[..n + 1];
      assert Stage(steps[n]) == n && !steps[n].WriteError?;
      InSourceOrderPrefix(steps, n + 1);
      InSourceOrderIncreases(steps[..n + 1]);
      ReportLast(steps[..n + 1], errorPath);
    }
  }

  /** Each step has a later stage than every step before it. */
  predicate StagesIncrease(t: seq<Step>) {
    forall i, j :: 0 <= i < j < |t| ==> Stage(t[i]) < Stage(t[j])
  }

  lemma InSourceOrderIncreases(steps: seq<Step>)
    requires InSourceOrder(steps)
    ensures StagesIncrease(steps)
  {
  }

  lemma InSourceOrderPrefix(steps: seq<Step>, n: nat)
    requires InSourceOrder(steps) && n <= |steps|
    ensures InSourceOrder(steps[..n])
  {
    assert forall i :: 0 <= i < n ==> steps[..n][i] == steps[i];
  }

  /** Positions up to 8 leave room for the error report, whose stage is 9. */
  lemma ReportLast(steps: seq<Step>, errorPath: string)
    requires InSourceOrder(steps) && |steps| <= 9
    ensures StagesIncrease(steps + [WriteError(errorPath)])
  {
    var t := steps + [WriteError(errorPath)];
    forall i, j | 0 <= i < j < |t| ensures Stage(t[i]) < Stage(t[j]) {
      assert t[i] == steps[i];
      if j < |steps| {
        assert t[j] == steps[j];
      }
    }
  }

  /** Environments that agree on everything but the muxer's exit code give the same run. */
  lemma {:induction false} RunStepsIgnoresExitCode(steps: seq<Step>, env1: Env, env2: Env, files: Files, errorPath: string, done: seq<Step>)
    requires env1.streams == env2.streams && env1.contentLength == env2.contentLength && env1.server == env2.server
    requires env1.throws == env2.throws && env1.errorReport == env2.errorReport
    requires env1.mux.Started? && env2.mux.Started?
    ensures RunSteps(steps, env1, files, errorPath, done) == RunSteps(steps, env2, files, errorPath, done)
    decreases |steps|
  {
    if |steps| > 0 {
      assert Fails(env1, steps[0]) == Fails(env2, steps[0]);
      assert Effect(env1, steps[0], files) == Effect(env2, steps[0], files);
      RunStepsIgnoresExitCode(steps[1..], env1, env2, Effect(env1, steps[0], files), errorPath, done + [steps[0]]);
    }
  }

  /** Execute never inspects the exit code: a muxer exiting with any code leads to the same run. */
  lemma ExitCodeIgnored(id: string, cfg: Config, env: Env, files: Files, code: int)
    requires env.mux.Started?
    ensures Pipeline(id, cfg, env.(mux := Started(code)), files) == Pipeline(id, cfg, env, files)
  {
    var env' := env.(mux := Started(code));
    assert Plan(id, cfg, env') == Plan(id, cfg, env);
    RunStepsIgnoresExitCode(Plan(id, cfg, env), env', env, files, ErrorFile(cfg.outDir, cfg.outError, id), []);
  }

  /** Once the muxer has started, the audio file's deletion is always attempted next. */
  lemma DeleteFollowsMux(id: string, cfg: Config, env: Env, files: Files)
    requires env.mux.Started?
    ensures MuxThenDelete(Pipeline(id, cfg, env, files).trace)
  {
    var p := Plan(id, cfg, env);
    PlanInSourceOrder(id, cfg, env);
    RunDeletesAfterMux(p, env, files, ErrorFile(cfg.outDir, cfg.outError, id));
    assert Pipeline(id, cfg, env, files) == RunSteps(p, env, files, ErrorFile(cfg.outDir, cfg.outError, id), []);
  }

  /** Every muxer step is directly followed by the deletion of the audio file. */
  predicate MuxThenDelete(t: seq<Step>) {
    forall i :: 0 <= i < |t| && t[i].Mux? ==> i + 1 < |t| && t[i + 1].DeleteAudio?
  }

  lemma RunDeletesAfterMux(steps: seq<Step>, env: Env, files: Files, errorPath: string)
    requires InSourceOrder(steps) && (|steps| > 6 ==> |steps| == 9)
    requires env.mux.Started?
    ensures MuxThenDelete(RunSteps(steps, env, files, errorPath, []).trace)
  {
    var run := RunSteps(steps, env, files, errorPath, []);
    var k := FirstFailure(steps, env);
    if k.None? {
      RunStepsCompletes(steps, env, files, errorPath, []);
      TruncatedMuxThenDelete(steps, |steps|, []);
      assert run.trace == [] + steps == steps[..|steps|] + [];
    } else {
      var n := k.value;
      RunStepsStops(steps, env, files, errorPath, [], n);
      assert n != 6 by {
        assert Stage(steps[n]) == n;
      }
      TruncatedMuxThenDelete(steps, n + 1, [WriteError(errorPath)]);
      assert run.trace == [] + steps[..n + 1] + [WriteError(errorPath)] == steps[..n + 1] + [WriteError(errorPath)];
    }
  }

  /**
   * Cutting the steps after the muxer's successor, or anywhere before the muxer,
   * keeps every muxer step followed by the deletion, whatever comes after the cut.
   */
  lemma TruncatedMuxThenDelete(steps: seq<Step>, n: nat, tail: seq<Step>)
    requires InSourceOrder(steps) && (|steps| > 6 ==> |steps| == 9)
    requires n <= |steps| && n != 7
    requires forall i :: 0 <= i < |tail| ==> !tail[i].Mux?
    ensures MuxThenDelete(steps[..n] + tail)
  {
    var t := steps[..n] + tail;
    forall i | 0 <= i < |t| && t[i].Mux? ensures i + 1 < |t| && t[i + 1].DeleteAudio? {
      assert i < n;
      assert t[i] == steps[i] && Stage(steps[i]) == i;
      assert t[7] == steps[7] && Stage(steps[7]) == 7;
    }
  }

  // ---------------------------------------------------------------- the temporary files

  lemma ErrorFileIsNotATempFile(outDir: string, id: string)
    ensures outDir + "/issue-" + id + ".json" != outDir + "/" + id + ".m4a"
    ensures outDir + "/issue-" + id + ".json" != outDir + "/" + id + ".mp4"
  {
    assert |outDir + "/issue-" + id + ".json"| == |outDir| + |id| + 12;
    assert |outDir + "/" + id + ".m4a"| == |outDir| + |id| + 5;
    assert |outDir + "/" + id + ".mp4"| == |outDir| + |id| + 5;
  }

  /** A completed run has deleted both temporary files. */
  lemma CompletedRemovesTempFiles(id: string, cfg: Config, env: Env, files: Files)
    requires Pipeline(id, cfg, env, files).outcome.Completed?
    ensures var fs := Pipeline(id, cfg, env, files).files;
      cfg.outDir + "/" + id + ".m4a" !in fs && cfg.outDir + "/" + id + ".mp4" !in fs
  {
    var p := Plan(id, cfg, env);
    var errorPath := ErrorFile(cfg.outDir, cfg.outError, id);
    var first := FirstFailure(p, env);
    if first.Some? {
      RunStepsStops(p, env, files, errorPath, [], first.value);
    } else {
      RunStepsCompletes(p, env, files, errorPath, []);
      PlanShape(id, cfg, env);
      PlanPaths(id, cfg, env);
      EffectsEndWithDeletes(p, env, files, p[7].path, p[8].path);
    }
  }

  /** Steps ending with the two deletions leave neither path behind. */
  lemma EffectsEndWithDeletes(steps: seq<Step>, env: Env, files: Files, audioFile: string, videoFile: string)
    requires |steps| >= 2 && steps[|steps| - 2] == DeleteAudio(audioFile) && steps[|steps| - 1] == DeleteVideo(videoFile)
    ensures audioFile !in Effects(steps, env, files) && videoFile !in Effects(steps, env, files)
  {
    var n := |steps|;
    var deletes := [DeleteAudio(audioFile), DeleteVideo(videoFile)];
    assert steps == steps[..n - 2] + deletes;
    EffectsAppend(steps[..n - 2], deletes, env, files);
    var before := Effects(steps[..n - 2], env, files);
    EffectsOfTwo(deletes, env, before);
    var mid := before - {audioFile};
    assert Effect(env, deletes[0], before) == mid;
    assert Effect(env, deletes[1], mid) == mid - {videoFile};
  }

  lemma EffectsOfTwo(steps: seq<Step>, env: Env, files: Files)
    requires |steps| == 2
    ensures Effects(steps, env, files) == Effect(env, steps[1], Effect(env, steps[0], files))
  {
    var first := Effect(env, steps[0], files);
    assert Effects(steps, env, files) == Effects(steps[1..], env, first);
    assert steps[1..][0] == steps[1] && steps[1..][1..] == [];
    assert Effects(steps[1..], env, first) == Effects([], env, Effect(env, steps[1], first));
  }

  /**
   * The files when the muxer or a deletion throws: both downloads happened, and only
   * the deletions before the failing step took effect.
   */
  lemma EffectsBeforeLateStep(steps: seq<Step>, env: Env, files: Files, k: nat)
    requires |steps| == 9 && 6 <= k <= 8
    requires steps[4].DownloadAudio? && steps[5].DownloadVideo? && steps[4].path != steps[5].path
    requires steps[6].Mux? && steps[7] == DeleteAudio(steps[4].path)
    ensures var fs := Effects(steps[..k], env, files);
      && steps[5].path in fs
      && (k < 8 ==> steps[4].path in fs)
      && (k == 8 ==> steps[4].path !in fs)
  {
    var afterDownloads := Effects(steps[..6], env, files);
    DownloadsLeaveBoth(steps, env, files);
    assert steps[..k] == steps[..6] + steps[6..k];
    EffectsAppend(steps[..6], steps[6..k], env, files);
    if k == 7 {
      assert steps[6..k] == [steps[6]];
      assert steps[6..k][1..] == [];
      assert Effect(env, steps[6], afterDownloads) == afterDownloads;
    } else if k == 8 {
      assert steps[6..k] == [steps[6], steps[7]];
      EffectsOfTwo(steps[6..k], env, afterDownloads);
      assert Effect(env, steps[6], afterDownloads) == afterDownloads;
    } else {
      assert steps[6..k] == [];
    }
  }

  /** After the two downloads both temporary paths exist. */
  lemma DownloadsLeaveBoth(steps: seq<Step>, env: Env, files: Files)
    requires |steps| >= 6 && steps[4].DownloadAudio? && steps[5].DownloadVideo?
    ensures steps[4].path in Effects(steps[..6], env, files) && steps[5].path in Effects(steps[..6], env, files)
  {
    var downloads := [steps[4], steps[5]];
    assert steps[..6] == steps[..4] + downloads;
    EffectsAppend(steps[..4], downloads, env, files);
    EffectsOfTwo(downloads, env, Effects(steps[..4], env, files));
  }

  /**
   * A muxer that fails to start, or a failing deletion of the audio file, leaves both
   * temporary files behind; a failing deletion of the video file leaves the video file.
   */
  lemma LateFailureLeavesTempFiles(id: string, cfg: Config, env: Env, files: Files)
    requires cfg.outError == OUT_ERROR_TEMPLATE
    requires var o := Pipeline(id, cfg, env, files).outcome;
      o.Failed? && (o.at.Mux? || o.at.DeleteAudio? || o.at.DeleteVideo?)
    ensures var run := Pipeline(id, cfg, env, files);
      && (cfg.outDir + "/" + id + ".mp4" in run.files)
      && (!run.outcome.at.DeleteVideo? ==> cfg.outDir + "/" + id + ".m4a" in run.files)
      && (run.outcome.at.DeleteVideo? ==> cfg.outDir + "/" + id + ".m4a" !in run.files)
  {
    var p := Plan(id, cfg, env);
    var errorPath := ErrorFile(cfg.outDir, cfg.outError, id);
    PlanInSourceOrder(id, cfg, env);
    var first := FirstFailure(p, env);
    if first.None? {
      RunStepsCompletes(p, env, files, errorPath, []);
    } else {
      var k := first.value;
      RunStepsStops(p, env, files, errorPath, [], k);
      assert Stage(p[k]) == k >= 6;
      PlanPaths(id, cfg, env);
      TempFilesDistinct(cfg.outDir, id);
      ErrorFileName(cfg.outDir, id);
      ErrorFileIsNotATempFile(cfg.outDir, id);
      EffectsBeforeLateStep(p, env, files, k);
    }
  }

  /** The muxer's arguments as one command line: overwrite, the video then the audio input, both streams copied. */
  lemma MuxCommandLine(videoFile: string, audioFile: string, finalFile: string)
    ensures MuxArgs(videoFile, audioFile, finalFile)
      == "-y -i " + Quote(videoFile) + " -i " + Quote(audioFile) + " -acodec copy -vcodec copy " + Quote(finalFile)
  {
    var v, a, f := Quote(videoFile), Quote(audioFile), Quote(finalFile);
    MuxArgsJoined(v, a, f);
    CopyArgsJoin(f);
    MuxArgsFlat(v, a, f);
  }

  lemma MuxArgsJoined(v: string, a: string, f: string)
    ensures Join(" ", ["-y", "-i", v, "-i", a, "-acodec", "copy", "-vcodec", "copy", f])
      == "-y" + " " + ("-i" + " " + (v + " " + ("-i" + " " + (a + " " + Join(" ", CopyArgs(f))))))
  {
    var copies := CopyArgs(f);
    JoinCons(" ", a, copies);
    JoinCons(" ", "-i", [a] + copies);
    JoinCons(" ", v, ["-i"] + ([a] + copies));
    JoinCons(" ", "-i", [v] + (["-i"] + ([a] + copies)));
    JoinCons(" ", "-y", ["-i"] + ([v] + (["-i"] + ([a] + copies))));
    assert ["-y", "-i", v, "-i", a, "-acodec", "copy", "-vcodec", "copy", f] == ["-y"] + (["-i"] + ([v] + (["-i"] + ([a] + copies))));
  }

  lemma MuxArgsFlat(v: string, a: string, f: string)
    ensures "-y" + " " + ("-i" + " " + (v + " " + ("-i" + " " + (a + " " + ("-acodec copy -vcodec copy " + f)))))
      == "-y -i " + v + " -i " + a + " -acodec copy -vcodec copy " + f
  {
    var rest := "-acodec copy -vcodec copy ";
    assert "-y" + " " + "-i" + " " == "-y -i ";
    assert " " + "-i" + " " == " -i ";
    assert " " + rest == " -acodec copy -vcodec copy ";
    Reassociate("-y", " ", "-i", v, a, rest, f);
  }

  /** Regrouping the joined pieces of the command line. */
  lemma Reassociate(y: string, sp: string, i: string, v: string, a: string, rest: string, f: string)
    ensures y + sp + (i + sp + (v + sp + (i + sp + (a + sp + (rest + f)))))
      == (y + sp + i + sp) + v + (sp + i + sp) + a + (sp + rest) + f
  {
  }

  /** The muxer's codec options and output. */
  function CopyArgs(f: string): seq<string> {
    ["-acodec", "copy", "-vcodec", "copy", f]
  }

  lemma CopyArgsJoin(f: string)
    ensures Join(" ", CopyArgs(f)) == "-acodec copy -vcodec copy " + f
  {
    JoinCons(" ", "copy", [f]);
    JoinCons(" ", "-vcodec", ["copy", f]);
    assert ["-vcodec", "copy", f] == ["-vcodec"] + ["copy", f];
    JoinCons(" ", "copy", ["-vcodec", "copy", f]);
    assert ["copy", "-vcodec", "copy", f] == ["copy"] + ["-vcodec", "copy", f];
    JoinCons(" ", "-acodec", ["copy", "-vcodec", "copy", f]);
    assert CopyArgs(f) == ["-acodec"] + ["copy", "-vcodec", "copy", f];
  }

  /** A step that writes or removes `path`. */
  predicate Touches(step: Step, path: string) {
    (step.DownloadAudio? || step.DownloadVideo? || step.DeleteAudio? || step.DeleteVideo?) && step.path == path
  }

  /**
   * A step that does not throw changes only its own path: a download adds or rewrites
   * it, a deletion removes it, and every other file keeps its contents.
   */
  lemma EffectTouchesOnlyItsPath(env: Env, step: Step, files: Files)
    ensures var r := Effect(env, step, files);
      && ((step.DownloadAudio? || step.DownloadVideo?) ==> r.Keys == files.Keys + {step.path})
      && ((step.DeleteAudio? || step.DeleteVideo?) ==> r.Keys == files.Keys - {step.path})
      && (!(step.DownloadAudio? || step.DownloadVideo? || step.DeleteAudio? || step.DeleteVideo?) ==> r == files)
      && forall q :: q in files && !Touches(step, q) ==> q in r && r[q] == files[q]
  {
  }

  /**
   * A step that throws changes at most its own path: only a download that had opened
   * its file leaves anything behind, and every other file keeps its contents.
   */
  lemma ResidueTouchesOnlyItsPath(env: Env, step: Step, files: Files)
    ensures var r := Residue(env, step, files);
      && (!(step.DownloadAudio? || step.DownloadVideo?) || !Opened(env, step) ==> r == files)
      && ((step.DownloadAudio? || step.DownloadVideo?) && Opened(env, step) ==> r.Keys == files.Keys + {step.path})
      && forall q :: q in files && !Touches(step, q) ==> q in r && r[q] == files[q]
  {
  }

  /**
   * File.OpenWrite does not truncate: the downloaded file is never shorter than what
   * was there before, and a download of nothing leaves it as it was.
   */
  lemma FetchedKeepsOldTail(env: Env, uri: string, path: string, files: Files)
    ensures var existing := if path in files then files[path] else [];
      var r := Fetched(env, uri, path, files);
      && |r| >= |existing|
      && (env.contentLength(uri).GetOr(0) == 0 ==> r == existing)
  {
  }

  /** Steps none of which touches `path` leave it as it was. */
  lemma {:induction false} EffectsKeep(steps: seq<Step>, env: Env, files: Files, path: string)
    requires forall i :: 0 <= i < |steps| ==> !Touches(steps[i], path)
    ensures (path in Effects(steps, env, files)) == (path in files)
    ensures path in files ==> Effects(steps, env, files)[path] == files[path]
    decreases |steps|
  {
    if |steps| > 0 {
      assert !Touches(steps[0], path);
      assert forall i :: 0 <= i < |steps| - 1 ==> steps[1..][i] == steps[i + 1];
      EffectsKeep(steps[1..], env, Effect(env, steps[0], files), path);
    }
  }

  /** What an opened download that throws leaves at its path: the bytes read before the connection broke, at the front. */
  lemma OpenedDownloadResidue(env: Env, step: Step, files: Files)
    requires (step.DownloadAudio? || step.DownloadVideo?) && Opened(env, step) && Fails(env, step)
    ensures var d := RangeDownload.Downloaded(env.contentLength(step.uri), env.server(step.uri), []);
      var bytes := RangeDownload.Concat(RangeDownload.Reads(env.server(step.uri), |d.requests|));
      var fs := Residue(env, step, files);
      && d.Interrupted? && step.path in fs && |fs[step.path]| >= |bytes| && fs[step.path][..|bytes|] == bytes
  {
    var cl, server := env.contentLength(step.uri), env.server(step.uri);
    var existing := if step.path in files then files[step.path] else [];
    OpenedDownload(env, step, files);
    RangeDownload.FileHoldsReadBytes(cl, server, existing);
    RangeDownload.RequestsIgnoreExisting(cl, server, [], existing);
  }

  /**
   * A run that fails at a download fails at the plan's fifth or sixth step; the steps before it
   * leave that download's path alone, and the run ends with what the download left plus the report.
   */
  lemma FailedAtDownload(id: string, cfg: Config, env: Env, files: Files)
    requires cfg.outError == OUT_ERROR_TEMPLATE
    requires var o := Pipeline(id, cfg, env, files).outcome;
      o.Failed? && (o.at.DownloadAudio? || o.at.DownloadVideo?)
    ensures var run := Pipeline(id, cfg, env, files);
      var p := Plan(id, cfg, env);
      var step := run.outcome.at;
      var first := FirstFailure(p, env);
      && first.Some? && (first.value == 4 || first.value == 5) && |p| == 9
      && p[first.value] == step && Fails(env, step)
      && (forall i :: 0 <= i < first.value ==> !Touches(p[i], step.path))
      && ErrorFile(cfg.outDir, cfg.outError, id) != step.path
      && run.files == Residue(env, step, Effects(p[..first.value], env, files))[ErrorFile(cfg.outDir, cfg.outError, id) := env.errorReport]
  {
    var p := Plan(id, cfg, env);
    var errorPath := ErrorFile(cfg.outDir, cfg.outError, id);
    PlanInSourceOrder(id, cfg, env);
    var first := FirstFailure(p, env);
    if first.None? {
      RunStepsCompletes(p, env, files, errorPath, []);
      assert false;
    } else {
      var k := first.value;
      RunStepsStops(p, env, files, errorPath, [], k);
      assert Stage(p[k]) == k;
      PlanPaths(id, cfg, env);
      ErrorFileName(cfg.outDir, id);
      ErrorFileIsNotATempFile(cfg.outDir, id);
      EarlierStepsKeepDownloadPath(id, cfg, env, k);
    }
  }

  /** A prefix of steps none of which touches `path`, as a sequence of its own. */
  lemma PrefixKeeps(p: seq<Step>, k: nat, path: string)
    requires k <= |p| && forall i :: 0 <= i < k ==> !Touches(p[i], path)
    ensures forall i :: 0 <= i < |p[..k]| ==> !Touches(p[..k][i], path)
  {
    assert forall i :: 0 <= i < k ==> p[..k][i] == p[i];
  }

  /** No step before a download of a nine-step plan writes or deletes that download's path. */
  lemma EarlierStepsKeepDownloadPath(id: string, cfg: Config, env: Env, k: nat)
    requires |Plan(id, cfg, env)| == 9 && (k == 4 || k == 5)
    ensures var p := Plan(id, cfg, env);
      forall i :: 0 <= i < k ==> !Touches(p[i], p[k].path)
  {
    var p := Plan(id, cfg, env);
    PlanInSourceOrder(id, cfg, env);
    PlanPaths(id, cfg, env);
    TempFilesDistinct(cfg.outDir, id);
    NoEarlierTouch(p, k);
  }

  lemma NoEarlierTouch(p: seq<Step>, k: nat)
    requires InSourceOrder(p) && |p| == 9 && (k == 4 || k == 5)
    requires p[4].DownloadAudio? && p[5].DownloadVideo? && p[4].path != p[5].path
    ensures forall i :: 0 <= i < k ==> !Touches(p[i], p[k].path)
  {
    forall i | 0 <= i < k ensures !Touches(p[i], p[k].path) {
      assert Stage(p[i]) == i;
    }
  }

  /**
   * A download that throws after File.OpenWrite leaves its file behind, holding at its
   * front the bytes read before the connection broke; one that throws before opening
   * the file leaves that path as it was before the pipeline.
   */
  lemma FailedDownloadResidue(id: string, cfg: Config, env: Env, files: Files)
    requires cfg.outError == OUT_ERROR_TEMPLATE
    requires var o := Pipeline(id, cfg, env, files).outcome;
      o.Failed? && (o.at.DownloadAudio? || o.at.DownloadVideo?)
    ensures var run := Pipeline(id, cfg, env, files);
      var step := run.outcome.at;
      && (Opened(env, step) ==>
            var d := RangeDownload.Downloaded(env.contentLength(step.uri), env.server(step.uri), []);
            var bytes := RangeDownload.Concat(RangeDownload.Reads(env.server(step.uri), |d.requests|));
            && d.Interrupted? && step.path in run.files
            && |run.files[step.path]| >= |bytes| && run.files[step.path][..|bytes|] == bytes)
      && (!Opened(env, step) ==>
            && (step.path in run.files <==> step.path in files)
            && (step.path in files ==> run.files[step.path] == files[step.path]))
  {
    FailedAtDownload(id, cfg, env, files);
    var p := Plan(id, cfg, env);
    var k := FirstFailure(p, env).value;
    var step := Pipeline(id, cfg, env, files).outcome.at;
    if Opened(env, step) {
      OpenedDownloadResidue(env, step, Effects(p[..k], env, files));
    } else {
      PrefixKeeps(p, k, step.path);
      EffectsKeep(p[..k], env, files, step.path);
    }
  }

  // ---------------------------------------------------------------- an end-to-end run

  /**
   * One AAC audio stream and one MP4 video stream, every step succeeding: the pipeline
   * completes, downloads `<id>.m4a` and then `<id>.mp4`, muxes into `<id> - <title>.mp4`
   * and deletes both temporary files.
   */
  lemma EndToEnd(id: string, cfg: Config, env: Env, files: Files, audio: Stream, video: Stream)
    requires cfg.outFile == OUT_FILE_TEMPLATE && NoChar(id, '{')
    requires env.streams == Success([audio, video])
    requires audio.audioFormat == Aac && audio.audioBitrate == 128000 && audio.contentLength == Some(1_000_000)
    requires video.format == Mp4 && video.resolution == 720 && video.fps == 30 && video.contentLength == Some(5_000_000)
    requires !IsAudioCandidate(video) && audio.resolution < video.resolution
    requires env.contentLength(audio.uri) == audio.contentLength && env.contentLength(video.uri) == video.contentLength
    requires env.mux.Started? && forall s :: !env.throws(s)
    requires forall u, r :: !env.server(u)(r).broken
    ensures var run := Pipeline(id, cfg, env, files);
      var audioFile := cfg.outDir + "/" + id + ".m4a";
      var videoFile := cfg.outDir + "/" + id + ".mp4";
      var finalFile := cfg.outDir + "/" + Sanitize(id + " - " + video.title, cfg.invalidChars) + ".mp4";
      && run.outcome == Completed
      && run.trace == [LookUp(EMBED + "/" + id), ChooseAudio, ChooseVideo, EnsureDirectory(cfg.outDir),
                       DownloadAudio(audio.uri, audioFile), DownloadVideo(video.uri, videoFile),
                       Mux(cfg.ffmpegExe, MuxArgs(videoFile, audioFile, finalFile)),
                       DeleteAudio(audioFile), DeleteVideo(videoFile)]
      && audioFile !in run.files && videoFile !in run.files
  {
    ScenarioChoices(audio, video);
    ScenarioPlan(id, cfg, env, audio, video);
    ScenarioCompletes(id, cfg, env, files, audio, video);
    CompletedRemovesTempFiles(id, cfg, env, files);
  }

  /** A plan whose downloads both have content and where nothing throws runs to completion. */
  lemma ScenarioCompletes(id: string, cfg: Config, env: Env, files: Files, audio: Stream, video: Stream)
    requires env.streams.Success?
    requires SelectAudio(env.streams.value) == Success(audio) && SelectVideo(env.streams.value) == Success(video)
    requires env.contentLength(audio.uri).GetOr(0) > 0 && env.contentLength(video.uri).GetOr(0) > 0
    requires env.mux.Started? && forall s :: !env.throws(s)
    requires forall u, r :: !env.server(u)(r).broken
    ensures var run := Pipeline(id, cfg, env, files);
      run.outcome == Completed && run.trace == Plan(id, cfg, env)
  {
    var p := Plan(id, cfg, env);
    PlanRunsThrough(id, cfg, env, audio, video);
    RunStepsCompletes(p, env, files, ErrorFile(cfg.outDir, cfg.outError, id), []);
    assert [] + p == p;
  }

  lemma PlanRunsThrough(id: string, cfg: Config, env: Env, audio: Stream, video: Stream)
    requires env.streams.Success?
    requires SelectAudio(env.streams.value) == Success(audio) && SelectVideo(env.streams.value) == Success(video)
    requires env.contentLength(audio.uri).GetOr(0) > 0 && env.contentLength(video.uri).GetOr(0) > 0
    requires env.mux.Started? && forall s :: !env.throws(s)
    requires forall u, r :: !env.server(u)(r).broken
    ensures var p := Plan(id, cfg, env);
      |p| == 9 && forall i :: 0 <= i < |p| ==> !Fails(env, p[i])
  {
    var p := Plan(id, cfg, env);
    PlanNineSteps(id, cfg, env);
    PlanPaths(id, cfg, env);
    NoStepFails(env, p);
  }

  /** The plan of the end-to-end run, with every path written out. */
  lemma ScenarioPlan(id: string, cfg: Config, env: Env, audio: Stream, video: Stream)
    requires cfg.outFile == OUT_FILE_TEMPLATE && NoChar(id, '{')
    requires env.streams.Success?
    requires SelectAudio(env.streams.value) == Success(audio) && SelectVideo(env.streams.value) == Success(video)
    requires audio.audioFormat == Aac && video.format == Mp4
    ensures var audioFile := cfg.outDir + "/" + id + ".m4a";
      var videoFile := cfg.outDir + "/" + id + ".mp4";
      var finalFile := cfg.outDir + "/" + Sanitize(id + " - " + video.title, cfg.invalidChars) + ".mp4";
      Plan(id, cfg, env) == [LookUp(EMBED + "/" + id), ChooseAudio, ChooseVideo, EnsureDirectory(cfg.outDir),
                             DownloadAudio(audio.uri, audioFile), DownloadVideo(video.uri, videoFile),
                             Mux(cfg.ffmpegExe, MuxArgs(videoFile, audioFile, finalFile)),
                             DeleteAudio(audioFile), DeleteVideo(videoFile)]
  {
    FinalFileName(cfg.outDir, id, video.title, cfg.invalidChars, Mp4);
    TempFilesDistinct(cfg.outDir, id);
    ChosenPlan(id, cfg, env, audio, video);
  }

  /**
   * With both streams chosen, no exception anywhere, no broken connection, a nonzero
   * length for each download and a muxer that starts, no step throws.
   */
  lemma NoStepFails(env: Env, p: seq<Step>)
    requires env.streams.Success? && SelectAudio(env.streams.value).Success? && SelectVideo(env.streams.value).Success?
    requires env.mux.Started? && forall s :: !env.throws(s)
    requires forall u, r :: !env.server(u)(r).broken
    requires NineSteps(p)
    requires env.contentLength(p[4].uri).GetOr(0) > 0 && env.contentLength(p[5].uri).GetOr(0) > 0
    ensures forall i :: 0 <= i < |p| ==> !Fails(env, p[i])
  {
    NineStepsInSourceOrder(p);
    forall i | 0 <= i < |p| ensures !Fails(env, p[i]) {
      assert Stage(p[i]) == i;
      if i == 4 || i == 5 {
        var n := RangeDownload.SegmentCount(env.contentLength(p[i].uri).GetOr(0));
        var m := RangeDownload.Intact(env.server(p[i].uri), n);
        assert m < n ==> env.server(p[i].uri)(RangeDownload.SegmentRange(m)).broken;
      }
    }
  }

  /** The AAC stream is the only audio candidate and the MP4 stream has the higher resolution. */
  lemma ScenarioChoices(audio: Stream, video: Stream)
    requires audio.audioFormat == Aac && audio.audioBitrate == 128000
    requires video.format == Mp4 && video.resolution == 720
    requires !IsAudioCandidate(video) && audio.resolution < video.resolution
    ensures SelectAudio([audio, video]) == Success(audio)
    ensures SelectVideo([audio, video]) == Success(video)
  {
    var streams := [audio, video];
    assert IsAudioCandidate(streams[0]);
    assert IsVideoCandidate(streams[1]);
  }
}
