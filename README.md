# ytdl-cli in Dafny

A model of the `ytdl` command-line YouTube downloader and proofs about it. The model has three parts.

**Main** (`Program.cs`):
- consumes the `-o <dir>` and `-ffmpeg <exe>` options from the argument list;
- stops with "No URIs provided." when no argument is left;
- extracts a video id from each remaining URL, reporting and skipping those that yield none;
- expands the output location;
- starts one `DownloadVideoAsync` per id.

**DownloadVideoAsync**, inside one try block:
- looks the video up through the embed URL;
- chooses the best AAC audio stream and the best MP4 video stream up to 1080p;
- makes sure the output directory exists;
- downloads the audio to `<out_dir>/<id>.m4a` and then the video to `<out_dir>/<id>.mp4`;
- runs ffmpeg to mux them into `<out_dir>/<id> - <title>.mp4`, with invalid file-name characters replaced by `_`;
- deletes the two temporary files.

Any exception skips the rest of the try block, and the catch block writes the serialised exception to `<out_dir>/issue-<id>.json`.

**CustomYouTube.DownloadAsync** (`CustomYouTubeClient.cs`):
- asks for the content length;
- refuses a zero length;
- opens the destination file;
- requests the resource in 10 MiB HTTP ranges;
- copies each response body through an 81,920-byte buffer, reporting `(bytes copied so far, file size)` after every read.

The modules, one file each:

| module | models |
|---|---|
| `Text` | the .NET string operations used, compared character by character: `IndexOf`, `Contains`, `StartsWith`, `Replace`, `Split`, `Join` |
| `VideoIds` | `GetVideoId` over the Host, AbsolutePath and Query of a parsed URI |
| `Options` | the restart scan of the option loop (a method), proved equal to a left-to-right scan (a function) |
| `StreamSelection` | the two LINQ `Where/OrderBy/ThenBy/First` choices, as the first minimum of a lexicographic key (`OrderBy` is stable) |
| `OutputNames` | `GetExtension`, the file templates, the sanitisation and the four paths |
| `RangeDownload` | `DownloadAsync` as a method over an `OutputStream` class, proved against the specification function `Downloaded` |
| `VideoPipeline` | `DownloadVideoAsync`, proved equal to `Pipeline`, which runs the planned steps of the try block until the first that throws |
| `PipelineProperties` | what the pipeline promises: order of the steps, fail-fast, error report, clean-up, temporary files left after late failures |
| `Program` | `Main`, proved equal to the function `CommandLine` |

The world appears as parameters:
- the URI parser and the environment-variable expansion;
- the stream list or the look-up's exception;
- the content length and the server behind each stream URI;
- the muxer's launch;
- which filesystem or network steps throw;
- the serialised exception.

Files are a map from path to bytes.

What the downloader's code does at its edges:
- The downloader does not clamp the last range to the file size. Every range ends at `(i + 1) * CHUNK_SIZE - 1` (`RequestsTile`, `LastRangeNotClamped`).
- The downloader never compares the bytes copied with the declared size. A short or over-long transfer completes (`EmptyBodiesComplete`, `OverLengthCompletes`).
- The downloader never rejects a non-success status. `EnsureSuccessStatusCode` is only called when the status already is a success (`StatusGuard`, `StatusIgnored`).
- `File.OpenWrite` does not truncate. Bytes of a longer earlier file beyond those written stay in place (`FileHoldsReadBytes`, `FetchedKeepsOldTail`).
- A connection that breaks during a range leaves the opened file behind, holding the bytes read before the break; the catch block then writes the report (`BrokenConnectionInterrupts`, `FailedDownloadResidue`).

## Model

| member | source | states |
|---|---|---|
| Text.IndexOfFrom | ytdl/Program.cs:109-111 | the result is -1 or an occurrence at or after the start, and no occurrence lies between the start and the result |
| Text.ReplaceSkips | ytdl/Program.cs:147 | text holding no first character of the pattern passes through `Replace` unchanged in front of whatever follows |
| Text.ReplaceLeading | ytdl/Program.cs:147 | an occurrence at the front is replaced and the rest is processed after it, not rescanned with the replacement |
| Text.ReplaceAbsent | ytdl/Program.cs:147 | text holding no first character of the pattern is left unchanged |
| Text.ReplaceNearMiss | ytdl/Program.cs:147 | a single first character of the pattern, at a place where the pattern does not match, leaves the text unchanged |
| Text.ReplaceSingle | ytdl/Program.cs:148 | a template with one occurrence of the placeholder and no other character starting it becomes prefix + replacement + suffix |
| Text.JoinSplit | ytdl/Program.cs:167 | joining the pieces of `Split` with a one-character separator replaces every separator character by that character |
| Text.SplitPiecesClean | ytdl/Program.cs:167 | no piece of a split holds a separator |
| Text.Split | ytdl/Program.cs:167 | a split always has at least one piece (the pieces' contents are stated by `SplitPiecesClean` and `JoinSplit`) |
| Text.Join | ytdl/Program.cs:178-185 | a join of a nonempty list starts with its first piece |
| Text.JoinCons | ytdl/Program.cs:178-185 | a piece joined in front of a nonempty list is followed by the separator and then the join of the rest |
| Text.Replace | ytdl/Program.cs:147-148 | `String.Replace`, left to right without rescanning; its behaviour is stated by `ReplaceSkips`, `ReplaceLeading`, `ReplaceAbsent`, `ReplaceNearMiss` and `ReplaceSingle` |
| VideoIds.CutAt | ytdl/Program.cs:129-132 | the result is a prefix without the character, and is either the whole string or stops right before its first occurrence |
| VideoIds.RawCandidate | ytdl/Program.cs:105-124 | a candidate only on a youtube.com or youtu.be host; a range error only for a path shorter than `/embed/`; a found candidate is shorter than the query or the path it was cut from |
| VideoIds.TruncateIsLongestClean | ytdl/Program.cs:129-132 | the truncated id is the longest prefix of the raw text with neither '&' nor '?' |
| VideoIds.CleanUnchanged | ytdl/Program.cs:129-132 | text with neither '&' nor '?' is not truncated |
| VideoIds.TruncateIdempotent | ytdl/Program.cs:129-132 | truncating twice gives what truncating once gives |
| VideoIds.TruncateAtAmpersand | ytdl/Program.cs:129-130 | a clean id followed by '&' and anything is cut back to the id |
| VideoIds.GetVideoId | ytdl/Program.cs:100-135 | "No video ID found." exactly when no URL shape applies; a range error exactly when the path is too short for `[7..]` or `[1..]`; otherwise the longest clean prefix of the candidate |
| VideoIds.WatchUrlRoundTrip | ytdl/Program.cs:107-116 | `/watch?v=<id>&...` on a youtube.com host yields `<id>` |
| VideoIds.WatchPlainUrl | ytdl/Program.cs:93-116 | the canonical `/watch?v=<id>` with no further parameter yields `<id>` |
| VideoIds.WatchLowerCaseKey | ytdl/Program.cs:107-116 | on a `/watch` path, the query after its first `v=`, truncated at '&' and '?', is the id |
| VideoIds.WatchUpperCaseFallback | ytdl/Program.cs:109-116 | a `/watch` query without `v=` falls back to its first `V=`, and the text after it, truncated, is the id |
| VideoIds.WatchWithoutKeyHasNoId | ytdl/Program.cs:107-127 | a `/watch` query with neither `v=` nor `V=` throws "No video ID found." |
| VideoIds.EmbedUrlRoundTrip | ytdl/Program.cs:117-120 | `/embed/<id>` on a youtube.com host yields `<id>` |
| VideoIds.ShortUrlRoundTrip | ytdl/Program.cs:121-124 | `/<id>` on a youtu.be host that is not a youtube.com host yields `<id>` |
| VideoIds.WatchMatchesInsideAnotherParameter | ytdl/Program.cs:109-115 | "v=" is found inside another parameter: `?dev=<x>&v=<id>` yields `<x>` |
| VideoIds.BareEmbedPathIsOutOfRange | ytdl/Program.cs:117-119 | a path of exactly "/embed" fails on the range index, not with "No video ID found." |
| VideoIds.OtherPathHasNoId | ytdl/Program.cs:105-127 | a youtube.com host with a path other than /watch or /embed... yields "No video ID found." |
| VideoIds.KnownHosts | ytdl/Program.cs:105-121 | www.youtube.com and youtu.be contain the searched host names |
| StreamSelection.LengthKey | ytdl/Program.cs:157-158 | an absent content length sorts before every present one, and a present one sorts by its value |
| StreamSelection.LexLessTransitive | ytdl/Program.cs:157-158 | the combined `OrderBy/ThenBy` order is transitive |
| StreamSelection.LexLessTotal | ytdl/Program.cs:157-158 | any two distinct keys are ordered one way or the other |
| StreamSelection.FirstBestUnique | ytdl/Program.cs:157-158 | at most one index is what the stable sort puts first |
| StreamSelection.FirstBest | ytdl/Program.cs:157-158 | none exactly when no stream passes the filter; otherwise a passing stream that nothing sorts before, and that sorts strictly before every earlier passing stream |
| StreamSelection.SelectAudio | ytdl/Program.cs:157 | fails exactly when no stream has bitrate > 0 and AAC; otherwise an AAC stream with the highest bitrate, the smallest length among those, and the earliest such in the list |
| StreamSelection.SelectVideo | ytdl/Program.cs:158 | fails exactly when no stream is MP4 at up to 1080p; otherwise such a stream with the highest resolution, then fps, then smallest length, the earliest such in the list |
| StreamSelection.AudioKeyOrder | ytdl/Program.cs:157 | the audio sort key orders by descending bitrate, then ascending content length |
| StreamSelection.VideoKeyOrder | ytdl/Program.cs:158 | the video sort key orders by descending resolution, then descending fps, then ascending content length |
| StreamSelection.HigherBitrateWins | ytdl/Program.cs:157 | of two AAC streams the higher bitrate is chosen, in either order |
| StreamSelection.ShorterWinsOnEqualBitrate | ytdl/Program.cs:157 | with equal bitrates the shorter stream is chosen, in either order |
| StreamSelection.CompleteTieTakesFirst | ytdl/Program.cs:157 | on a complete tie the earlier stream is chosen |
| OutputNames.AudioExtension | ytdl/Program.cs:221-228 | every audio extension is non-empty and starts with '.' |
| OutputNames.VideoExtension | ytdl/Program.cs:230-236 | every video extension is non-empty and starts with '.' |
| OutputNames.ExtensionTable | ytdl/Program.cs:221-236 | the whole table: AAC ".m4a", Opus ".webm", Vorbis ".ogg", other audio ".audio_unk"; MP4 ".mp4", WebM ".webm", other video ".audio_unk" |
| OutputNames.KnownExtensionsDistinct | ytdl/Program.cs:221-236 | Aac, Opus and Vorbis (and likewise Mp4 and WebM) get distinct extensions, which also differ from the default arm's `.audio_unk` |
| OutputNames.SharedExtensions | ytdl/Program.cs:225-235 | an unknown video format gets ".audio_unk", and Opus audio shares ".webm" with WebM video |
| OutputNames.Sanitize | ytdl/Program.cs:167 | same length; each invalid character becomes '_', the others are kept; no invalid character remains when '_' is valid |
| OutputNames.SanitizeIsJoinOfSplit | ytdl/Program.cs:167 | the sanitised name is `string.Join("_", name.Split(invalid))` |
| OutputNames.AudioFile | ytdl/Program.cs:165 | the path is `<out_dir>/`, then the id, then the audio extension, and nothing else |
| OutputNames.VideoFile | ytdl/Program.cs:166 | the path is `<out_dir>/`, then the id, then the video extension, and nothing else |
| OutputNames.FinalFile | ytdl/Program.cs:167 | the path starts with `<out_dir>/` and ends with the video extension, and between them holds no invalid character when '_' is valid |
| OutputNames.ErrorFile | ytdl/Program.cs:200 | the report path starts with `<out_dir>/` |
| OutputNames.ErrorFileWithoutPlaceholder | ytdl/Program.cs:200 | an error template without '{' is the report's name as it stands |
| OutputNames.ErrorFileName | ytdl/Program.cs:200 | with Main's error template the report path is `<out_dir>/issue-<id>.json`, for any id |
| OutputNames.TitleTailKeepsIdPlaceholderOut | ytdl/Program.cs:147 | " - {video.title}" holds no id placeholder |
| OutputNames.OutFileAfterId | ytdl/Program.cs:147 | the file template after the first substitution is `<id> - {video.title}` |
| OutputNames.FinalFileName | ytdl/Program.cs:167 | with Main's template and an id without '{', the muxed file is `<out_dir>/` + the sanitised `<id> - <title>` + the video extension |
| OutputNames.FinalNameIsValid | ytdl/Program.cs:167 | the sanitised name has the length of `<id> - <title>` and no invalid character when '_' is valid |
| OutputNames.TempFilesDistinct | ytdl/Program.cs:165-166 | the AAC and MP4 downloads go to `<id>.m4a` and `<id>.mp4`, which differ |
| OutputNames.SelectedTempPaths | ytdl/Program.cs:157-166 | whatever streams are chosen, the temporary paths end in `.m4a` and `.mp4` |
| Options.TrimDashes | ytdl/Program.cs:36 | the result is a suffix of the argument, all removed characters are '-', and the result does not start with '-' |
| Options.Scan | ytdl/Program.cs:27-48 | on success no more arguments are left than were given, and every option already collected is kept |
| Options.ScanSkipsPlain | ytdl/Program.cs:32-47 | arguments not starting with '-' are passed over and kept in front of the rest |
| Options.ConsumeOptions | ytdl/Program.cs:27-48 | the restart loop gives the result of one left-to-right scan, errors included |
| Options.ScanResult | ytdl/Program.cs:27-48 | after the loop no argument starts with '-', the leftovers keep their order, and each option found is an available name bound to one of the arguments |
| Options.NoOptionsKeepsAll | ytdl/Program.cs:27-48 | without options every argument is kept and nothing is recorded |
| Options.SingleOptionOnly | ytdl/Program.cs:34-44 | a single option with its value is recorded and no argument is left |
| Options.TrailingOptionFails | ytdl/Program.cs:37-40 | an option in last position fails: "Bad option" for an unknown name, otherwise the missing-value index error |
| Options.RepeatedOptionFails | ytdl/Program.cs:40 | an option already recorded, given again, fails in `Dictionary.Add` |
| Options.SameOptionTwiceFails | ytdl/Program.cs:40 | two flags with the same name after the dashes fail on the second |
| Options.RepeatedOutputOptionFails | ytdl/Program.cs:40 | `-o a --o b` fails on the second `o` |
| Options.OutputFlags | ytdl/Program.cs:34-37 | `-o` and `--o` both name the `o` option |
| Options.OutputLocation | ytdl/Program.cs:51-52 | the `o` option's value, or `%USERPROFILE%/Downloads` |
| Options.FfmpegLocation | ytdl/Program.cs:55-56 | the `ffmpeg` option's value, or `ffmpeg.exe` |
| RangeDownload.EnsureSuccessStatusCode | ytdl/CustomYouTubeClient.cs:73 | fails exactly on a status outside 200-299 |
| RangeDownload.StatusGuard | ytdl/CustomYouTubeClient.cs:52-53 | never fails, whatever the status |
| RangeDownload.SegmentCount | ytdl/CustomYouTubeClient.cs:41 | at least one segment, and exactly the ceiling of size / CHUNK_SIZE |
| RangeDownload.Requests | ytdl/CustomYouTubeClient.cs:42-47 | one request per segment, the i-th for bytes `i * CHUNK_SIZE` to `(i + 1) * CHUNK_SIZE - 1` |
| RangeDownload.Intact | ytdl/CustomYouTubeClient.cs:42-51 | the number of segments before the first broken connection: every one before it is unbroken, and the one at it is broken |
| RangeDownload.Reads | ytdl/CustomYouTubeClient.cs:42-64 | the buffers read from the first n segments; stated by `OneEmptyReadPerSegment`, `FileHoldsReadBytes` and `ReadsIgnoreStatus` |
| RangeDownload.Reports | ytdl/CustomYouTubeClient.cs:62-63 | one report per read; stated by `ReportsRunningTotal` and `ReportsMonotone` |
| RangeDownload.Downloaded | ytdl/CustomYouTubeClient.cs:33-67 | no content exactly for an absent or zero length; interrupted exactly when the connection of one of its segments breaks |
| RangeDownload.Overwrite | ytdl/CustomYouTubeClient.cs:61 | a write keeps the bytes before the position, puts the buffer at the position, keeps the bytes beyond it, and extends the file only when needed |
| RangeDownload.OverwriteAppend | ytdl/CustomYouTubeClient.cs:58-64 | two consecutive writes from offset 0 equal one write of the two buffers together |
| RangeDownload.SegmentOfOffset | ytdl/CustomYouTubeClient.cs:44-45 | byte b lies in segment i's range exactly when i = b / CHUNK_SIZE |
| RangeDownload.RequestsCoverFile | ytdl/CustomYouTubeClient.cs:41-47 | every byte of the file lies in exactly one requested range |
| RangeDownload.RequestsTile | ytdl/CustomYouTubeClient.cs:41-47 | the ranges start at 0, are contiguous and CHUNK_SIZE long; the last ends at or past the last byte, exactly on it only for sizes that are a multiple of CHUNK_SIZE |
| RangeDownload.LastRangeNotClamped | ytdl/CustomYouTubeClient.cs:44-47 | a one-byte file is requested as bytes 0 to CHUNK_SIZE - 1 |
| RangeDownload.ConcatLength | ytdl/CustomYouTubeClient.cs:62 | the bytes copied are the sum of the read lengths |
| RangeDownload.ReportsRunningTotal | ytdl/CustomYouTubeClient.cs:62-63 | report j carries the sum of the first j + 1 read lengths and the file size |
| RangeDownload.ReportsMonotone | ytdl/CustomYouTubeClient.cs:58-64 | reported totals never decrease, each report carries the file size, and a zero-length read repeats the previous total |
| RangeDownload.OneEmptyReadPerSegment | ytdl/CustomYouTubeClient.cs:42-64 | each segment read to its end ends with exactly one zero-length read and a broken one with none, so zero-length reads and broken segments add up to the segment count; the last read of all is zero-length when the last segment is intact |
| RangeDownload.StatusIgnored | ytdl/CustomYouTubeClient.cs:52-54 | the outcome depends on the response bodies and broken connections only, never on a status code |
| RangeDownload.ReadsIgnoreStatus | ytdl/CustomYouTubeClient.cs:52-54 | servers that differ only in status codes give the same reads and break at the same segment |
| RangeDownload.RequestsIgnoreExisting | ytdl/CustomYouTubeClient.cs:39-47 | the ranges requested do not depend on what the file held before |
| RangeDownload.BrokenConnectionInterrupts | ytdl/CustomYouTubeClient.cs:42-64 | a download is interrupted exactly when some segment's connection breaks, and completes otherwise; a completed one requested every segment, an interrupted one every segment up to and including the first broken one |
| RangeDownload.FileHoldsReadBytes | ytdl/CustomYouTubeClient.cs:39-64 | whether the download completes or is interrupted, the file's first totalBytesCopied bytes are the bytes read in order from the ranges requested; a longer earlier file keeps its bytes beyond them |
| RangeDownload.EmptyBodiesComplete | ytdl/CustomYouTubeClient.cs:33-67 | a declared 5-byte file whose range returns an empty body over an unbroken connection completes with 0 bytes copied and the earlier file unchanged |
| RangeDownload.OverLengthCompletes | ytdl/CustomYouTubeClient.cs:58-64 | a body longer than the declared size is copied in full and the download completes |
| RangeDownload.OutputStream.OpenWrite | ytdl/CustomYouTubeClient.cs:39 | the stream is positioned at 0 over the file's prior content |
| RangeDownload.OutputStream.Write | ytdl/CustomYouTubeClient.cs:61 | the content becomes the overwrite at the position, and the position advances by the buffer length |
| RangeDownload.CopyBody | ytdl/CustomYouTubeClient.cs:54-64 | after the do-while the stream holds the earlier bytes overwritten by every buffer read so far and this body, followed by its final zero-length read unless the connection broke, and one report per read |
| RangeDownload.DownloadAsync | ytdl/CustomYouTubeClient.cs:33-67 | the outcome is `Downloaded`: no content for an absent or zero length; otherwise completed, or interrupted at the first broken connection, with the ranges requested, the reports, the total and the file as written so far |
| VideoPipeline.DownloadYouTubeData | ytdl/Program.cs:248-258 | it returns normally exactly when the step does not throw, and then the file holds what the download wrote; when it throws after opening the file, the file holds what was written before the break; when it throws before, no file changes |
| VideoPipeline.OpenedDownload | ytdl/CustomYouTubeClient.cs:36-64 | a download that got past `File.OpenWrite` throws exactly when it was interrupted, and either way its path holds the file `Downloaded` describes |
| VideoPipeline.Fails | ytdl/Program.cs:151-219 | which step throws: the look-up, a stream choice with no candidate, a download that throws before or while copying, a muxer that fails to start; it is what `DownloadYouTubeData` and `TryDownload` are proved against |
| VideoPipeline.Effect | ytdl/Program.cs:161-193 | what a step that does not throw does to the files; stated by `EffectTouchesOnlyItsPath` |
| VideoPipeline.Fetched | ytdl/CustomYouTubeClient.cs:39-64 | the file after a download; stated by `FetchedKeepsOldTail` and `FileHoldsReadBytes` |
| VideoPipeline.Residue | ytdl/CustomYouTubeClient.cs:36-64 | what a step that throws leaves; stated by `ResidueTouchesOnlyItsPath` and `OpenedDownloadResidue` |
| VideoPipeline.MuxArgs | ytdl/Program.cs:178-185 | the muxer's argument string; stated by `MuxCommandLine` |
| VideoPipeline.Plan | ytdl/Program.cs:151-193 | the try block's statements in order; stated by `PlanShape`, `PlanStarts`, `PlanInSourceOrder` and `ChosenPlan` |
| VideoPipeline.PlanStarts | ytdl/Program.cs:153-158 | the plan's first three steps are the look-up and the two stream choices, as far as the choices succeed, and the transfer follows them |
| VideoPipeline.RunSteps | ytdl/Program.cs:151-203 | the steps in order up to the first that throws, then the catch block; stated by `RunStepsCompletes` and `RunStepsStops` |
| VideoPipeline.Pipeline | ytdl/Program.cs:145-204 | one call of `DownloadVideoAsync`; stated by `PipelineFailFast`, `FailureLeavesReport` and `EndToEnd` |
| VideoPipeline.RunStepsAppend | ytdl/Program.cs:151-196 | running two step lists in a row is running the first and, if it completed, the second from where it stopped |
| VideoPipeline.FetchStreams | ytdl/Program.cs:160-174 | the directory check and the two downloads end as `RunSteps` of those three steps says |
| VideoPipeline.MuxAndCleanUp | ytdl/Program.cs:178-193 | the muxer run and the two deletions end as `RunSteps` of those three steps says |
| VideoPipeline.Transfer | ytdl/Program.cs:165-193 | the paths, downloads, muxer run and clean-up end as `RunSteps` of the planned six steps says |
| VideoPipeline.TryDownload | ytdl/Program.cs:151-196 | the try block ends where `Pipeline` says: the steps attempted, the files, and the step that threw if any |
| VideoPipeline.DownloadVideoAsync | ytdl/Program.cs:145-204 | the run is `Pipeline`: the try block followed, after a throw, by the catch block's error report |
| PipelineProperties.FirstFailure | ytdl/Program.cs:151-197 | none exactly when no step throws; otherwise the index of a throwing step with none before it throwing |
| PipelineProperties.RunStepsCompletes | ytdl/Program.cs:151-196 | when no step throws, every step is attempted and every effect happens |
| PipelineProperties.RunStepsStops | ytdl/Program.cs:151-203 | when step k is the first to throw, steps up to k are attempted, those before k take effect, step k leaves only what a download wrote before breaking, and the error report follows |
| PipelineProperties.PlanInSourceOrder | ytdl/Program.cs:153-193 | the planned step at position i is the try block's statement number i, and a plan past the stream choices has all nine |
| PipelineProperties.PlanShape | ytdl/Program.cs:153-158 | the plan starts with the look-up and is cut short only by a stream choice that throws |
| PipelineProperties.ChosenPlan | ytdl/Program.cs:153-193 | with both choices made, the plan is the nine statements with their paths and muxer arguments |
| PipelineProperties.MuxCommandLine | ytdl/Program.cs:178-185 | the muxer's arguments are `-y -i "<video>" -i "<audio>" -acodec copy -vcodec copy "<final>"` |
| PipelineProperties.PlanPaths | ytdl/Program.cs:165-193 | the downloads go to `<id>.m4a` and `<id>.mp4`, the muxer reads both into the final file, and the deletions remove exactly those two |
| PipelineProperties.PipelineFailFast | ytdl/Program.cs:151-203 | the run completes exactly when no planned step throws, and then attempts all nine; otherwise it stops at the first step that throws, attempts nothing after it, keeps what that step wrote before throwing and writes the report |
| PipelineProperties.FailureLeavesReport | ytdl/Program.cs:197-202 | a failed run leaves the serialised exception at the error template's path |
| PipelineProperties.TraceInSourceOrder | ytdl/Program.cs:151-203 | the attempted steps follow the try block's order, with the error report last |
| PipelineProperties.RunTrace | ytdl/Program.cs:151-203 | the attempted steps are the plan, or its prefix up to the first throwing step followed by the error report |
| PipelineProperties.RunStepsIgnoresExitCode | ytdl/Program.cs:206-219 | runs under environments that differ only in the muxer's exit code are equal |
| PipelineProperties.ExitCodeIgnored | ytdl/Program.cs:206-219 | a muxer exiting with any code gives the same run |
| PipelineProperties.DeleteFollowsMux | ytdl/Program.cs:187-192 | once the muxer has started, deleting the audio file is always attempted next |
| PipelineProperties.ErrorFileIsNotATempFile | ytdl/Program.cs:200 | `issue-<id>.json` is neither temporary file |
| PipelineProperties.CompletedRemovesTempFiles | ytdl/Program.cs:192-193 | a completed run leaves neither `<id>.m4a` nor `<id>.mp4` |
| PipelineProperties.EffectsEndWithDeletes | ytdl/Program.cs:192-193 | steps ending with the two deletions leave neither path |
| PipelineProperties.EffectsBeforeLateStep | ytdl/Program.cs:170-193 | when the muxer or a deletion throws, both downloads have happened and only the deletions before it took effect |
| PipelineProperties.EffectTouchesOnlyItsPath | ytdl/Program.cs:161-193 | a step that does not throw changes only its own path: a download adds or rewrites it, a deletion removes it, and every other file keeps its contents |
| PipelineProperties.ResidueTouchesOnlyItsPath | ytdl/CustomYouTubeClient.cs:36-64 | a step that throws changes at most its own path, and only when it is a download that had opened its file |
| PipelineProperties.FetchedKeepsOldTail | ytdl/CustomYouTubeClient.cs:39 | a downloaded file is never shorter than what was there before, and a download of nothing leaves it as it was |
| PipelineProperties.EffectsKeep | ytdl/Program.cs:161-193 | steps none of which writes or deletes a path leave that path as it was |
| PipelineProperties.OpenedDownloadResidue | ytdl/CustomYouTubeClient.cs:39-64 | a download that throws after opening its file was interrupted, and its file starts with the bytes read before the break |
| PipelineProperties.FailedAtDownload | ytdl/Program.cs:151-203 | a run that fails at a download has its first failure at step 4 or 5 of the plan; the steps before it did not touch its path, and the files are what that download left plus the report |
| PipelineProperties.EarlierStepsKeepDownloadPath | ytdl/Program.cs:161-174 | no step before a download writes or deletes that download's path |
| PipelineProperties.FailedDownloadResidue | ytdl/CustomYouTubeClient.cs:36-64 | after a run that fails at a download, a file opened before the break is left holding the bytes read, at its front; a download that threw before opening leaves its path as it was before the run |
| PipelineProperties.LateFailureLeavesTempFiles | ytdl/Program.cs:187-203 | a muxer that fails to start, or a failing audio deletion, leaves both temporary files; a failing video deletion leaves the video file only |
| PipelineProperties.NoStepFails | ytdl/Program.cs:151-193 | in a nine-step plan, with nothing throwing, no broken connection, a muxer that starts and a nonzero content length for each download, no step fails |
| PipelineProperties.EndToEnd | ytdl/Program.cs:145-204 | one AAC and one MP4 stream with nothing throwing and no broken connection: the run completes with the nine steps and their paths, and both temporary files are gone |
| Program.IdOf | ytdl/Program.cs:69-75 | an id exactly when the URI parses and `GetVideoId` succeeds, and then that id |
| Program.Extract | ytdl/Program.cs:67-76 | every URL yields either an id or a skipped entry |
| Program.ExtractVideoIds | ytdl/Program.cs:67-76 | the loop collects what `Extract` describes |
| Program.ExtractAppend | ytdl/Program.cs:67-76 | extracting from two lists in a row concatenates the ids and the skipped URLs |
| Program.ExtractSources | ytdl/Program.cs:67-76 | every id comes from a URL that yields it, and every skipped URL is one of the URLs and yields none |
| Program.ExtractAll | ytdl/Program.cs:67-76 | when every URL yields an id, the ids are those of the URLs in order and none is skipped |
| Program.RunAll | ytdl/Program.cs:84-87 | one run per id |
| Program.RunPipelines | ytdl/Program.cs:82-87 | the download Tasks, awaited in turn, give the runs `RunAll` describes |
| Program.RunAllInOrder | ytdl/Program.cs:84-87 | the k-th run is the pipeline of the k-th id from the files the run before it left, and the batch ends with the last run's files |
| Program.EachFailureReported | ytdl/Program.cs:84-87 | right after each failed pipeline, `<out_dir>/issue-<id>.json` holds that pipeline's exception |
| Program.RunCommandLine | ytdl/Program.cs:13-88 | Main's statements give the exit `CommandLine` describes |
| Program.CommandLine | ytdl/Program.cs:13-88 | Main fails on its arguments exactly when the option scan fails; a run handles at least one URL and starts one pipeline per id |
| Program.RanFromArguments | ytdl/Program.cs:13-88 | a run handles between one and one-per-argument URLs, each run or skipped, with an output directory and a muxer taken from an argument or from the defaults |
| Program.PlainUrlsAllRun | ytdl/Program.cs:50-87 | with no options and every URL yielding an id, one pipeline runs per URL in argument order, into the expanded default directory with ffmpeg.exe |
| Program.OptionsOnlyIsNoUris | ytdl/Program.cs:60-64 | a single option with its value and no URL ends with "No URIs provided." |

## Left out

- HTTP: the HEAD request of `GetContentLengthAsync` and each range response are parameters (`contentLength`, `server`). A failing HEAD request, a failure to open the file and a directory error are the `throws` parameter of the step; a connection that breaks mid-download is the `broken` flag of a range response. The cookie handler and HTTP client set-up are not modelled.
- `new Uri(url)` parsing is a parameter (`UriParser`). The URL lemmas are stated for any host that contains the searched name.
- `Environment.ExpandEnvironmentVariables` is a parameter. `Path.GetInvalidFileNameChars()` is the `invalidChars` field of the configuration.
- The stream list of `GetAllVideosAsync` and the library's stream types are a value of the environment. Only the fields the choices and paths read are modelled.
- `Execute`: the process's internals and its standard output are not modelled. Only a failed start (an exception) and an exit code, which is never read, are modelled.
- `Directory.Exists` / `CreateDirectory`: modelled as a step that may throw. Directories are not part of the file map.
- The JSON serialisation of the exception: `errorReport` is the environment's bytes. A failure of the error-file write itself is not modelled.
- Console output, including the progress percentages and their `double` arithmetic. The reports are kept as `(copied, size)` pairs.
- `Math.Ceiling` over `double`: modelled as exact integer ceiling division. Rounding for sizes beyond 2^53 is not modelled.
- 64-bit overflow of `long` byte counts and range bounds: integers are unbounded.
- `SegmentCount`: the `(int)` cast of the segment count is not modelled.
- Culture-sensitive `IndexOf(string)` and `StartsWith(string)` (`Program.cs:109-117`): modelled as ordinal comparisons, character by character.
- Concurrency: `Task.WaitAll` over tasks that run concurrently is modelled as the pipelines running one after the other over a shared file map. Interleavings of their steps are not captured.
- The exceptions of the option loop escape Main. They are modelled as the `BadArguments` exit.
- `OptionsOnlyIsNoUris`: stated for one option only, not for any argument list made only of options.
- `LateFailureLeavesTempFiles`: stated for Main's error template, so that the report path cannot coincide with a temporary file.
- `EachFailureReported`: stated for Main's error template, where the report path is `issue-<id>.json`.
- `EndToEnd`: stated for Main's file template and ids without '{', and for servers whose connections never break.
- `FinalFileName`: stated for Main's file template and ids without '{'.
- `KnownExtensionsDistinct`: the default arm `_ => ".audio_unk"` of both `GetExtension` switches covers every enum value the switch does not list, and the model has one constructor, `UnknownAudio` or `UnknownVideo`, for all of them. Two unlisted formats share `.audio_unk`; the lemma says nothing about them.
- `AudioExtension`: the function's own contract only says that each extension starts with '.'. The whole mapping is stated by `ExtensionTable`.
- `VideoExtension`: the function's own contract only says that each extension starts with '.'. The whole mapping is stated by `ExtensionTable`.
- `NoStepFails`, `ScenarioCompletes` and `PlanRunsThrough`: stated for servers whose connections never break.
- `SanitizeIsJoinOfSplit`: stated for a nonempty set of invalid characters. `String.Split` with no separators splits on white space, which `Split` does not model; `Path.GetInvalidFileNameChars()` is never empty.
- A failure in the middle of one buffer (a `Write` or `ReadAsync` that throws part-way) is modelled at buffer boundaries: a broken connection ends the body after its last whole buffer.
- `Text.Replace`, `RangeDownload.Reads`, `RangeDownload.Reports` and the `VideoPipeline` specification functions `Fails`, `Effect`, `Fetched`, `Residue`, `MuxArgs`, `Plan`, `RunSteps` and `Pipeline` carry their properties in the lemmas named in their rows rather than in contracts of their own, which keeps the proofs that use them small.
