/**
 * The file names of DownloadVideoAsync: the two temporary downloads, the muxed
 * result and the error report, built from templates, the video id and title,
 * the format extensions and the platform's invalid file-name characters.
 */
module OutputNames {
  import opened Wrappers
  import opened Text
  import opened StreamSelection

  const ID_PLACEHOLDER: string := "{video.id}"
  const TITLE_PLACEHOLDER: string := "{video.title}"
  /** "{video.id} - {video.title}" */
  const OUT_FILE_TEMPLATE: string := ID_PLACEHOLDER + " - " + TITLE_PLACEHOLDER
  /** "issue-{video.id}.json" */
  const OUT_ERROR_TEMPLATE: string := "issue-" + ID_PLACEHOLDER + ".json"

  /** GetExtension(AudioFormat). */
  function AudioExtension(format: AudioFormat): (e: string)
    ensures |e| > 0 && e[0] == '.'
  {
    match format
    case Aac => ".m4a"
    case Opus => ".webm"
    case Vorbis => ".ogg"
    case UnknownAudio => ".audio_unk"
  }

  /** GetExtension(VideoFormat). */
  function VideoExtension(format: VideoFormat): (e: string)
    ensures |e| > 0 && e[0] == '.'
  {
    match format
    case Mp4 => ".mp4"
    case WebM => ".webm"
    case UnknownVideo => ".audio_unk"
  }

  /** The two GetExtension overloads, entry by entry. */
  lemma ExtensionTable()
    ensures AudioExtension(Aac) == ".m4a" && AudioExtension(Opus) == ".webm"
    ensures AudioExtension(Vorbis) == ".ogg" && AudioExtension(UnknownAudio) == ".audio_unk"
    ensures VideoExtension(Mp4) == ".mp4" && VideoExtension(WebM) == ".webm"
    ensures VideoExtension(UnknownVideo) == ".audio_unk"
  {
  }

  /** Each listed format has an extension of its own within its overload, and none of them is the default arm's. */
  lemma KnownExtensionsDistinct(a: AudioFormat, b: AudioFormat, v: VideoFormat, w: VideoFormat)
    ensures AudioExtension(a) == AudioExtension(b) ==> a == b
    ensures VideoExtension(v) == VideoExtension(w) ==> v == w
  {
  }

  /** An unknown video format gets the audio overload's sentinel, and Opus audio shares WebM's extension. */
  lemma SharedExtensions()
    ensures VideoExtension(UnknownVideo) == AudioExtension(UnknownAudio) == ".audio_unk"
    ensures AudioExtension(Opus) == VideoExtension(WebM) == ".webm"
  {
  }

  // ---------------------------------------------------------------- sanitisation

  /**
   * string.Join("_", s.Split(invalid)), computed character by character:
   * every invalid character becomes '_'. SanitizeIsJoinOfSplit proves the two agree.
   */
  function Sanitize(s: string, invalid: set<char>): (r: string)
    ensures |r| == |s|
    ensures forall k :: 0 <= k < |s| ==> r[k] == (if s[k] in invalid then '_' else s[k])
    ensures '_' !in invalid ==> forall k :: 0 <= k < |r| ==> r[k] !in invalid
  {
    MapChars(s, invalid, '_')
  }

  /**
   * The character-by-character sanitisation is the source's join of the split pieces with "_".
   * String.Split with no separators at all splits on white space instead, so the set must be
   * nonempty; the platform's invalid file-name characters always include '\0'.
   */
  lemma SanitizeIsJoinOfSplit(s: string, invalid: set<char>)
    requires invalid != {}
    ensures Sanitize(s, invalid) == Join("_", Split(s, invalid))
  {
    JoinSplit(s, invalid, '_');
  }

  // ---------------------------------------------------------------- paths

  /** `$"{out_dir}/{video_id}{GetExtension(audio.AudioFormat)}"` */
  function AudioFile(outDir: string, id: string, format: AudioFormat): (r: string)
    ensures var dir, ext := outDir + "/", AudioExtension(format);
      && |r| == |dir| + |id| + |ext|
      && r[..|dir|] == dir && r[|dir|..|dir| + |id|] == id && r[|dir| + |id|..] == ext
  {
    outDir + "/" + id + AudioExtension(format)
  }

  /** `$"{out_dir}/{video_id}{GetExtension(video.Format)}"` */
  function VideoFile(outDir: string, id: string, format: VideoFormat): (r: string)
    ensures var dir, ext := outDir + "/", VideoExtension(format);
      && |r| == |dir| + |id| + |ext|
      && r[..|dir|] == dir && r[|dir|..|dir| + |id|] == id && r[|dir| + |id|..] == ext
  {
    outDir + "/" + id + VideoExtension(format)
  }

  /**
   * The muxed output: the file template with the id substituted (once on entry and
   * again here) and then the title, sanitised, under out_dir, with the video extension.
   */
  function FinalFile(outDir: string, template: string, id: string, title: string, invalid: set<char>, format: VideoFormat): (r: string)
    ensures var dir, ext := outDir + "/", VideoExtension(format);
      && |r| >= |dir| + |ext| && r[..|dir|] == dir && r[|r| - |ext|..] == ext
      && ('_' !in invalid ==> forall k :: |dir| <= k < |r| - |ext| ==> r[k] !in invalid)
  {
    var outFile := Replace(template, ID_PLACEHOLDER, id);
    var name := Replace(Replace(outFile, ID_PLACEHOLDER, id), TITLE_PLACEHOLDER, title);
    outDir + "/" + Sanitize(name, invalid) + VideoExtension(format)
  }

  /** `$"{out_dir}/{out_error}"` with the id substituted into the error template. */
  function ErrorFile(outDir: string, template: string, id: string): (r: string)
    ensures |r| > |outDir| && r[..|outDir| + 1] == outDir + "/"
  {
    outDir + "/" + Replace(template, ID_PLACEHOLDER, id)
  }

  // ---------------------------------------------------------------- what the paths are

  /** A template without a placeholder's opening brace is the report's name as it stands. */
  lemma ErrorFileWithoutPlaceholder(outDir: string, template: string, id: string)
    requires NoChar(template, '{')
    ensures ErrorFile(outDir, template, id) == outDir + "/" + template
  {
    ReplaceAbsent(template, ID_PLACEHOLDER, id);
  }

  /** With Main's error template the report is `<out_dir>/issue-<id>.json`, whatever the id holds. */
  lemma ErrorFileName(outDir: string, id: string)
    ensures ErrorFile(outDir, OUT_ERROR_TEMPLATE, id) == outDir + "/issue-" + id + ".json"
  {
    var pre, post := "issue-", ".json";
    assert OUT_ERROR_TEMPLATE == pre + ID_PLACEHOLDER + post;
    ReplaceSingle(pre, ID_PLACEHOLDER, post, id);
    assert outDir + "/" + (pre + id + post) == outDir + "/issue-" + id + ".json";
  }

  /** " - {video.title}" holds no id placeholder. */
  lemma TitleTailKeepsIdPlaceholderOut(id: string)
    ensures Replace(" - " + TITLE_PLACEHOLDER, ID_PLACEHOLDER, id) == " - " + TITLE_PLACEHOLDER
  {
    var tail := "video.title}";
    assert " - " + TITLE_PLACEHOLDER == " - " + ['{'] + tail;
    assert ("{" + tail)[7] == 't' && ID_PLACEHOLDER[7] == 'i';
    assert NoChar(tail, '{') by {
      forall k | 0 <= k < |tail| ensures tail[k] != '{' {
        assert tail[k] in "video.title}";
      }
    }
    ReplaceNearMiss(" - ", '{', tail, ID_PLACEHOLDER, id);
  }

  /** The template with the id substituted on entry. */
  lemma OutFileAfterId(id: string)
    ensures Replace(OUT_FILE_TEMPLATE, ID_PLACEHOLDER, id) == id + " - " + TITLE_PLACEHOLDER
  {
    assert OUT_FILE_TEMPLATE == ID_PLACEHOLDER + (" - " + TITLE_PLACEHOLDER);
    ReplaceLeading(ID_PLACEHOLDER, " - " + TITLE_PLACEHOLDER, id);
    TitleTailKeepsIdPlaceholderOut(id);
  }

  /**
   * With Main's file template and an id without '{' the muxed output is `<out_dir>/<id> - <title><ext>` with each
   * invalid file-name character of `<id> - <title>` replaced by '_'.
   */
  lemma FinalFileName(outDir: string, id: string, title: string, invalid: set<char>, format: VideoFormat)
    requires NoChar(id, '{')
    ensures FinalFile(outDir, OUT_FILE_TEMPLATE, id, title, invalid, format)
      == outDir + "/" + Sanitize(id + " - " + title, invalid) + VideoExtension(format)
  {
    OutFileAfterId(id);
    var outFile := id + " - " + TITLE_PLACEHOLDER;
    assert outFile == id + (" - " + TITLE_PLACEHOLDER);
    ReplaceSkips(id, " - " + TITLE_PLACEHOLDER, ID_PLACEHOLDER, id);
    TitleTailKeepsIdPlaceholderOut(id);
    assert NoChar(id + " - ", '{');
    assert outFile == (id + " - ") + TITLE_PLACEHOLDER;
    ReplaceSkips(id + " - ", TITLE_PLACEHOLDER, TITLE_PLACEHOLDER, title);
    ReplaceLeading(TITLE_PLACEHOLDER, [], title);
    assert TITLE_PLACEHOLDER + [] == TITLE_PLACEHOLDER;
    assert Replace([], TITLE_PLACEHOLDER, title) == [];
    assert (id + " - ") + (title + []) == id + " - " + title;
  }

  /** The final name keeps its length and carries no invalid character when '_' itself is valid. */
  lemma FinalNameIsValid(id: string, title: string, invalid: set<char>)
    requires '_' !in invalid
    ensures var name := Sanitize(id + " - " + title, invalid);
      |name| == |id| + 3 + |title| && forall k :: 0 <= k < |name| ==> name[k] !in invalid
  {
  }

  /** The audio and video downloads of the same id never share a path when AAC and MP4 are chosen. */
  lemma TempFilesDistinct(outDir: string, id: string)
    ensures AudioFile(outDir, id, Aac) == outDir + "/" + id + ".m4a"
    ensures VideoFile(outDir, id, Mp4) == outDir + "/" + id + ".mp4"
    ensures AudioFile(outDir, id, Aac) != VideoFile(outDir, id, Mp4)
  {
    var p := outDir + "/" + id;
    assert AudioFile(outDir, id, Aac)[|p| + 1] == 'm';
    assert VideoFile(outDir, id, Mp4)[|p| + 1] == 'm';
    assert AudioFile(outDir, id, Aac)[|p| + 2] == '4';
    assert VideoFile(outDir, id, Mp4)[|p| + 2] == 'p';
  }

  /** Whatever streams are chosen, the temporary files end in `.m4a` and `.mp4`. */
  lemma SelectedTempPaths(outDir: string, id: string, streams: seq<Stream>)
    requires SelectAudio(streams).Success? && SelectVideo(streams).Success?
    ensures AudioFile(outDir, id, SelectAudio(streams).value.audioFormat) == outDir + "/" + id + ".m4a"
    ensures VideoFile(outDir, id, SelectVideo(streams).value.format) == outDir + "/" + id + ".mp4"
  {
  }
}
