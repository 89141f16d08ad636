/**
 * The two stream choices of DownloadVideoAsync: a LINQ chain
 * Where(..).OrderByDescending(..).ThenBy(..).First() over the stream descriptors.
 * OrderBy is stable, so First() is the earliest candidate whose sort key is least.
 */
module StreamSelection {
  import opened Wrappers

  /** The formats GetExtension lists; `UnknownAudio` and `UnknownVideo` stand for every other enum value. */
  datatype AudioFormat = Aac | Opus | Vorbis | UnknownAudio
  datatype VideoFormat = Mp4 | WebM | UnknownVideo

  /** One downloadable variant of a video, as the stream discovery reports it. */
  datatype Stream = Stream(
    uri: string,
    title: string,
    format: VideoFormat,
    audioFormat: AudioFormat,
    audioBitrate: int,
    resolution: int,
    fps: int,
    contentLength: Option<nat>)

  /** Enumerable.First on a sequence with no element. */
  datatype SelectionError = NoMatchingStream

  datatype Kind = AudioKind | VideoKind

  /** The default comparer of a nullable length: an absent length sorts before every value. */
  function LengthKey(length: Option<nat>): (k: int)
    ensures length.None? ==> k < 0
    ensures length.Some? ==> k == length.value
  {
    match length
    case None => -1
    case Some(n) => n
  }

  predicate IsAudioCandidate(s: Stream) {
    s.audioBitrate > 0 && s.audioFormat == Aac
  }

  predicate IsVideoCandidate(s: Stream) {
    s.resolution <= 1080 && s.format == Mp4
  }

  predicate Passes(kind: Kind, s: Stream) {
    match kind
    case AudioKind => IsAudioCandidate(s)
    case VideoKind => IsVideoCandidate(s)
  }

  function KeyWidth(kind: Kind): nat {
    match kind
    case AudioKind => 2
    case VideoKind => 3
  }

  /** The ascending sort key: a descending ordering is an ascending one on the negated value. */
  function SortKey(kind: Kind, s: Stream): (k: seq<int>)
    ensures |k| == KeyWidth(kind)
  {
    match kind
    case AudioKind => [-s.audioBitrate, LengthKey(s.contentLength)]
    case VideoKind => [-s.resolution, -s.fps, LengthKey(s.contentLength)]
  }

  // ---------------------------------------------------------------- lexicographic order

  /** `a` sorts strictly before `b` under OrderBy(..).ThenBy(..) on their components. */
  predicate LexLess(a: seq<int>, b: seq<int>)
    requires |a| == |b|
    decreases |a|
  {
    |a| > 0 && (a[0] < b[0] || (a[0] == b[0] && LexLess(a[1..], b[1..])))
  }

  lemma {:induction false} LexLessIrreflexive(a: seq<int>)
    ensures !LexLess(a, a)
    decreases |a|
  {
    if |a| > 0 {
      LexLessIrreflexive(a[1..]);
    }
  }

  lemma {:induction false} LexLessTransitive(a: seq<int>, b: seq<int>, c: seq<int>)
    requires |a| == |b| == |c|
    requires LexLess(a, b) && LexLess(b, c)
    ensures LexLess(a, c)
    decreases |a|
  {
    if a[0] == b[0] == c[0] {
      LexLessTransitive(a[1..], b[1..], c[1..]);
    }
  }

  lemma {:induction false} LexLessTotal(a: seq<int>, b: seq<int>)
    requires |a| == |b|
    ensures a == b || LexLess(a, b) || LexLess(b, a)
    decreases |a|
  {
    if |a| > 0 && a[0] == b[0] {
      LexLessTotal(a[1..], b[1..]);
      if a[1..] == b[1..] {
        assert a == [a[0]] + a[1..] && b == [b[0]] + b[1..];
      }
    }
  }

  lemma LexLessAsymmetric(a: seq<int>, b: seq<int>)
    requires |a| == |b| && LexLess(a, b)
    ensures !LexLess(b, a)
  {
    if LexLess(b, a) {
      LexLessTransitive(a, b, a);
      LexLessIrreflexive(a);
    }
  }

  // ---------------------------------------------------------------- the first best candidate

  /**
   * Index `j` is what the stable sort puts first: a candidate that no candidate sorts
   * before, and that sorts strictly before every candidate earlier in the input.
   */
  predicate IsFirstBest(s: seq<Stream>, kind: Kind, j: int) {
    && 0 <= j < |s| && Passes(kind, s[j])
    && (forall i :: 0 <= i < |s| && Passes(kind, s[i]) ==> !LexLess(SortKey(kind, s[i]), SortKey(kind, s[j])))
    && (forall i :: 0 <= i < j && Passes(kind, s[i]) ==> LexLess(SortKey(kind, s[j]), SortKey(kind, s[i])))
  }

  /** There is at most one first-best index. */
  lemma FirstBestUnique(s: seq<Stream>, kind: Kind, j: int, k: int)
    requires IsFirstBest(s, kind, j) && IsFirstBest(s, kind, k)
    ensures j == k
  {
  }

  /** The index of the filtered, stably sorted sequence's first element, if any. */
  function FirstBest(s: seq<Stream>, kind: Kind): (r: Option<nat>)
    ensures r.None? <==> forall i :: 0 <= i < |s| ==> !Passes(kind, s[i])
    ensures r.Some? ==> IsFirstBest(s, kind, r.value)
    decreases |s|
  {
    if |s| == 0 then None
    else
      var last := |s| - 1;
      var r := FirstBest(s[..last], kind);
      if !Passes(kind, s[last]) then
        KeepFirstBest(s, kind, r);
        r
      else if r.None? || LexLess(SortKey(kind, s[last]), SortKey(kind, s[r.value])) then
        LastIsFirstBest(s, kind, r);
        Some(last)
      else
        KeepFirstBest(s, kind, r);
        r
  }

  /** The best of all but the last candidate stays best when the last one does not sort before it. */
  lemma KeepFirstBest(s: seq<Stream>, kind: Kind, r: Option<nat>)
    requires |s| > 0
    requires r.None? <==> forall i :: 0 <= i < |s| - 1 ==> !Passes(kind, s[i])
    requires r.Some? ==> IsFirstBest(s[..|s| - 1], kind, r.value)
    requires !Passes(kind, s[|s| - 1]) || (r.Some? && !LexLess(SortKey(kind, s[|s| - 1]), SortKey(kind, s[r.value])))
    ensures r.None? <==> forall i :: 0 <= i < |s| ==> !Passes(kind, s[i])
    ensures r.Some? ==> IsFirstBest(s, kind, r.value)
  {
    var init := s[..|s| - 1];
    assert forall i :: 0 <= i < |init| ==> init[i] == s[i];
  }

  /** The last candidate becomes best when no earlier one passes or it sorts before the best of them. */
  lemma LastIsFirstBest(s: seq<Stream>, kind: Kind, r: Option<nat>)
    requires |s| > 0 && Passes(kind, s[|s| - 1])
    requires r.None? <==> forall i :: 0 <= i < |s| - 1 ==> !Passes(kind, s[i])
    requires r.Some? ==> IsFirstBest(s[..|s| - 1], kind, r.value)
    requires r.Some? ==> LexLess(SortKey(kind, s[|s| - 1]), SortKey(kind, s[r.value]))
    ensures IsFirstBest(s, kind, |s| - 1)
  {
    var last := |s| - 1;
    var init := s[..last];
    assert forall i :: 0 <= i < last ==> init[i] == s[i];
    var kl := SortKey(kind, s[last]);
    LexLessIrreflexive(kl);
    if r.Some? {
      var kb := SortKey(kind, s[r.value]);
      forall i | 0 <= i < last && Passes(kind, s[i])
        ensures LexLess(kl, SortKey(kind, s[i]))
      {
        var ki := SortKey(kind, s[i]);
        assert init[i] == s[i];
        assert !LexLess(ki, kb);
        LexLessTotal(ki, kb);
        if ki != kb {
          LexLessTransitive(kl, kb, ki);
        }
      }
      forall i | 0 <= i < |s| && Passes(kind, s[i])
        ensures !LexLess(SortKey(kind, s[i]), kl)
      {
        if i != last {
          LexLessAsymmetric(kl, SortKey(kind, s[i]));
        }
      }
    }
  }

  // ---------------------------------------------------------------- the two selections

  /** The audio stream: bitrate > 0 and AAC, highest bitrate, then smallest length. */
  function SelectAudio(streams: seq<Stream>): (r: Result<Stream, SelectionError>)
    ensures r.Failure? <==> forall i :: 0 <= i < |streams| ==> !IsAudioCandidate(streams[i])
    ensures r.Success? ==> IsAudioCandidate(r.value)
    ensures r.Success? ==> forall i :: 0 <= i < |streams| && IsAudioCandidate(streams[i]) ==>
      && streams[i].audioBitrate <= r.value.audioBitrate
      && (streams[i].audioBitrate == r.value.audioBitrate ==>
            LengthKey(r.value.contentLength) <= LengthKey(streams[i].contentLength))
    ensures r.Success? ==> exists k :: (
      && 0 <= k < |streams| && streams[k] == r.value
      && forall i :: 0 <= i < k && IsAudioCandidate(streams[i]) ==>
           || streams[i].audioBitrate < r.value.audioBitrate
           || (streams[i].audioBitrate == r.value.audioBitrate &&
               LengthKey(r.value.contentLength) < LengthKey(streams[i].contentLength)))
  {
    match FirstBest(streams, AudioKind)
    case None => Failure(NoMatchingStream)
    case Some(j) =>
      var best := streams[j];
      forall i | 0 <= i < |streams| && IsAudioCandidate(streams[i])
        ensures streams[i].audioBitrate <= best.audioBitrate
        ensures streams[i].audioBitrate == best.audioBitrate ==>
          LengthKey(best.contentLength) <= LengthKey(streams[i].contentLength)
      {
        AudioKeyOrder(streams[i], best);
      }
      forall i | 0 <= i < j && IsAudioCandidate(streams[i])
        ensures || streams[i].audioBitrate < best.audioBitrate
                || (streams[i].audioBitrate == best.audioBitrate &&
                    LengthKey(best.contentLength) < LengthKey(streams[i].contentLength))
      {
        AudioKeyOrder(best, streams[i]);
      }
      Success(best)
  }

  /** The video stream: resolution <= 1080 and MP4, highest resolution, then highest fps, then smallest length. */
  function SelectVideo(streams: seq<Stream>): (r: Result<Stream, SelectionError>)
    ensures r.Failure? <==> forall i :: 0 <= i < |streams| ==> !IsVideoCandidate(streams[i])
    ensures r.Success? ==> IsVideoCandidate(r.value)
    ensures r.Success? ==> forall i :: 0 <= i < |streams| && IsVideoCandidate(streams[i]) ==>
      && streams[i].resolution <= r.value.resolution
      && (streams[i].resolution == r.value.resolution ==> streams[i].fps <= r.value.fps)
      && (streams[i].resolution == r.value.resolution && streams[i].fps == r.value.fps ==>
            LengthKey(r.value.contentLength) <= LengthKey(streams[i].contentLength))
    ensures r.Success? ==> exists k :: (
      && 0 <= k < |streams| && streams[k] == r.value
      && forall i :: 0 <= i < k && IsVideoCandidate(streams[i]) ==>
           || streams[i].resolution < r.value.resolution
           || (streams[i].resolution == r.value.resolution && streams[i].fps < r.value.fps)
           || (streams[i].resolution == r.value.resolution && streams[i].fps == r.value.fps &&
               LengthKey(r.value.contentLength) < LengthKey(streams[i].contentLength)))
  {
    match FirstBest(streams, VideoKind)
    case None => Failure(NoMatchingStream)
    case Some(j) =>
      var best := streams[j];
      forall i | 0 <= i < |streams| && IsVideoCandidate(streams[i])
        ensures streams[i].resolution <= best.resolution
        ensures streams[i].resolution == best.resolution ==> streams[i].fps <= best.fps
        ensures streams[i].resolution == best.resolution && streams[i].fps == best.fps ==>
          LengthKey(best.contentLength) <= LengthKey(streams[i].contentLength)
      {
        VideoKeyOrder(streams[i], best);
      }
      forall i | 0 <= i < j && IsVideoCandidate(streams[i])
        ensures || streams[i].resolution < best.resolution
                || (streams[i].resolution == best.resolution && streams[i].fps < best.fps)
                || (streams[i].resolution == best.resolution && streams[i].fps == best.fps &&
                    LengthKey(best.contentLength) < LengthKey(streams[i].contentLength))
      {
        VideoKeyOrder(best, streams[i]);
      }
      Success(best)
  }

  /** The audio sort key in the source's terms. */
  lemma AudioKeyOrder(x: Stream, y: Stream)
    ensures LexLess(SortKey(AudioKind, x), SortKey(AudioKind, y)) <==>
      || x.audioBitrate > y.audioBitrate
      || (x.audioBitrate == y.audioBitrate && LengthKey(x.contentLength) < LengthKey(y.contentLength))
  {
    var a, b := SortKey(AudioKind, x), SortKey(AudioKind, y);
    var a1, b1 := [LengthKey(x.contentLength)], [LengthKey(y.contentLength)];
    assert a[1..] == a1 && b[1..] == b1;
    assert !LexLess(a1[1..], b1[1..]);
    assert LexLess(a1, b1) <==> a1[0] < b1[0];
    assert LexLess(a, b) <==> a[0] < b[0] || (a[0] == b[0] && LexLess(a1, b1));
  }

  /** The video sort key in the source's terms. */
  lemma VideoKeyOrder(x: Stream, y: Stream)
    ensures LexLess(SortKey(VideoKind, x), SortKey(VideoKind, y)) <==>
      || x.resolution > y.resolution
      || (x.resolution == y.resolution && x.fps > y.fps)
      || (x.resolution == y.resolution && x.fps == y.fps && LengthKey(x.contentLength) < LengthKey(y.contentLength))
  {
    var a, b := SortKey(VideoKind, x), SortKey(VideoKind, y);
    var a1, b1 := [-x.fps, LengthKey(x.contentLength)], [-y.fps, LengthKey(y.contentLength)];
    var a2, b2 := [LengthKey(x.contentLength)], [LengthKey(y.contentLength)];
    assert a[1..] == a1 && b[1..] == b1;
    assert a1[1..] == a2 && b1[1..] == b2;
    assert !LexLess(a2[1..], b2[1..]);
    assert LexLess(a2, b2) <==> a2[0] < b2[0];
    assert LexLess(a1, b1) <==> a1[0] < b1[0] || (a1[0] == b1[0] && LexLess(a2, b2));
    assert LexLess(a, b) <==> a[0] < b[0] || (a[0] == b[0] && LexLess(a1, b1));
  }

  // ---------------------------------------------------------------- tie-break scenarios

  /** Of two AAC streams the higher bitrate wins, in either input order. */
  lemma HigherBitrateWins(lo: Stream, hi: Stream)
    requires IsAudioCandidate(lo) && IsAudioCandidate(hi)
    requires lo.audioBitrate < hi.audioBitrate
    ensures SelectAudio([lo, hi]) == Success(hi)
    ensures SelectAudio([hi, lo]) == Success(hi)
  {
    assert [lo, hi][1] == hi && [hi, lo][0] == hi;
  }

  /** Of two AAC streams with equal bitrate the shorter one wins, in either input order. */
  lemma ShorterWinsOnEqualBitrate(short: Stream, long: Stream)
    requires IsAudioCandidate(short) && IsAudioCandidate(long)
    requires short.audioBitrate == long.audioBitrate
    requires LengthKey(short.contentLength) < LengthKey(long.contentLength)
    ensures SelectAudio([short, long]) == Success(short)
    ensures SelectAudio([long, short]) == Success(short)
  {
    assert [short, long][0] == short && [long, short][1] == short;
  }

  /** On a complete tie the earlier stream wins. */
  lemma CompleteTieTakesFirst(first: Stream, second: Stream)
    requires IsAudioCandidate(first) && IsAudioCandidate(second)
    requires first.audioBitrate == second.audioBitrate && first.contentLength == second.contentLength
    requires first != second
    ensures SelectAudio([first, second]) == Success(first)
  {
    assert [first, second][0] == first;
  }
}
