# Viral video clip generator: a Dafny model of its core

The modelled program takes a source video and a list of "viral moments". Each
moment is a time range with a score, a reason and a hook. A language model
proposes the moments. The program then:

- cuts each moment out of the video;
- draws captions on the cut;
- fades each cut in and out;
- joins the cuts into one compilation;
- optionally mixes a narration over it.

Three parts of it are modelled:

- **`ViralVideoEditor`** (`video_editor.py`) is the class `VideoEditor.Editor`.
  - Its state is the filesystem it writes to (a map from path to what was written there) and the list of readers it has closed.
  - Each method is proved to do exactly what a function of module `EditorSpec` says.
  - Module `EditorLemmas` proves what follows from those functions:
    - which temp files exist after a compilation, on success and on failure;
    - which clips carry captions;
    - the order and length of the compilation;
    - the length of the narration.
  - moviepy is module `Media`:
    - clips and audio tracks are records;
    - reading a file, cutting a subclip, rendering a caption, each fade, joining clips and encoding a file are success oracles in `Backend`; the other library calls are taken never to raise.
- **`ViralMomentAnalyzer`** (`viral_analyzer.py`) is module `ViralAnalyzer`. It works on the JSON values `json.loads` produces (`Records.Json`), and `json.loads` itself is a parameter `loads`, None when it raises. What it does with the model's answers is modelled:
  - the code-fence clean-up;
  - the stable sort by score;
  - the summary of the first three moments;
  - the fallback values returned on error.
- **The Flask app** (`app.py`) is module `App`, which models three things:
  - `allowed_file`;
  - the upload loop, with its limit of five files and its abort on the first invalid file;
  - `compile_video`, which compiles and then mixes the narration when asked.

Supporting modules:

- `Strings` holds Python's `strip`, `split`, `join`, `lower` and integer formatting, with their lemmas.
- `Common` holds `Option`, `os.path.join` and `int()` on floats.
- `Records` holds the JSON value, and the typed moment and overlay records the editor takes.

Where the design notes and the code disagree, the model follows the code:

- `extract_clip` does not clamp `end_time` to the source's length.
- Temp names are the fixed `temp_clip_{i}.mp4`, the same on every run. They are not unique per run.
- The output is written in place, not written elsewhere and moved. A failed write can leave a partial file.
- Fades are not shortened on short clips.
- `add_transition` is not all-or-nothing. When the fade-in succeeds and the fade-out raises, the faded-in clip is returned.
- Closing happens on success only. `compile_clips`, `extract_clip` and `add_audio_overlay` close their readers only after a successful write.
- A caption is not clamped to the clip. The composite lasts until its last layer ends, so a caption running past the clip's end lengthens it.
- A failing narration mix is fatal. It is re-raised, and `compile_video` answers it with an error (HTTP 500). It never falls back to the plain compilation.
- The cleanup can delete the output. An `output_name` equal to some `temp_clip_{i}.mp4` makes the cleanup remove the compilation it has just written (`EditorLemmas.OutputSurvivesIff`).

## Model

| member | source | states |
|---|---|---|
| Common.PathJoin | video_editor.py:48-51 | `os.path.join`: an absolute name replaces the directory; otherwise the name follows the directory and one separator |
| Common.PathJoinInjective | video_editor.py:245-248 | two relative names in one directory give the same path iff they are the same name |
| Common.Trunc | video_editor.py:50 | `int()` truncates toward zero: for x >= 0, r <= x < r+1; for x < 0, r-1 < x <= r |
| Strings.Strip | viral_analyzer.py:83 | `strip()` returns text no longer than the input that neither starts nor ends with whitespace; text that already does neither comes back unchanged |
| Strings.StripCut | viral_analyzer.py:83 | `strip()` cuts whitespace only, at the two ends only: the result is a slice of the input, and everything outside the slice is whitespace |
| Strings.StripIdempotent | viral_analyzer.py:83 | stripping twice is stripping once |
| Strings.JoinSplit | viral_analyzer.py:86-87 | joining the pieces of `split('\n')` gives back the text |
| Strings.SplitJoin | viral_analyzer.py:109-112 | splitting the join of pieces that hold no separator gives back the pieces |
| Strings.InnerPieces | viral_analyzer.py:86-87 | with two or more line breaks, joining `lines[1:-1]` is exactly the text strictly between the first and the last line break |
| Strings.Lower | app.py:31 | `lower()` maps each character by itself and keeps the length |
| Strings.IntToDecimalInjective | video_editor.py:50 | two ints are formatted alike iff they are equal |
| Strings.DecimalRoundTrip | app.py:67 | the decimal digits of a count read back as that count |
| EditorSpec.TempPaths | video_editor.py:245-248 | entry i of the temp list of n moments is `output_dir/temp_clip_{i}.mp4`, and there are n entries |
| EditorSpec.Placement | video_editor.py:83-87 | "center" is the middle, "bottom" is `h - 100`, and every other name (including "top") is y = 50 |
| EditorSpec.CaptionFor | video_editor.py:77-103 | the caption takes the overlay's text, delay and duration or the defaults '', 0 and 2.0, the clip's width less 100, fades of 0.3, and the middle for "center", `h - 100` for "bottom", y = 50 otherwise |
| EditorSpec.Renders | video_editor.py:89-105 | whether a caption renders depends on its text (or '') and the wrapping width `w - 100` only |
| EditorSpec.OverlayLayers | video_editor.py:76-109 | at most one caption per overlay, and only caption layers |
| EditorSpec.AddTransition | video_editor.py:113-130 | only the fades change: the clip comes back unchanged iff the fade-in fails; once it succeeds, the clip gets fade-in then fade-out iff the fade-out succeeds on the faded-in clip, and keeps the fade-in alone otherwise |
| EditorSpec.Transitioned | video_editor.py:147-148 | same length as the input; clip k is transitioned iff `add_transitions` |
| EditorSpec.NarrationTrack | video_editor.py:194-202 | the narration ends at min(its own end, the video's length), and is the scaled track, cut at the video's length or not |
| EditorSpec.SoundTrack | video_editor.py:189-211 | with sound, two parts mixed: the original scaled by the video volume and `EditorSpec.NarrationTrack` of the narration; without, that narration track alone; either way the narration ends at min(its end, the video's length) |
| Media.Composite | video_editor.py:111 | the composite keeps its layers in order, with the first layer's frame size and no fades |
| Media.Concatenation | video_editor.py:150 | the concatenation lasts as long as its clips together, with one segment per clip |
| Media.AfterWrite | video_editor.py:53 | a write adds the target path unless it failed before creating the file; the path then holds the clip written, or an unreadable partial file; every other path keeps its content |
| Media.ReadBack | video_editor.py:253-260 | a file just written is read back as the clip written when the reader decodes it; a partial file can never be read; a write that left nothing leaves the old answer |
| Media.OpenAudio | video_editor.py:186 | `AudioFileClip` succeeds only on a decodable file that is not a partial one; an audio file gives its track; a video without sound raises |
| EditorLemmas.TempPathInjective | video_editor.py:245-248 | moments i and j share a temp path iff i == j |
| EditorLemmas.DefaultClipPathIdentifies | video_editor.py:47-51 | two cuts share the default path iff int(start) and int(end) agree |
| EditorLemmas.ExtractOutcome | video_editor.py:29-61 | on success the given or default path is returned and holds the requested cut; nothing else changes; readers are closed only on success |
| EditorLemmas.OverlayLayersAppend | video_editor.py:76-109 | the captions of xs + ys are those of xs followed by those of ys |
| EditorLemmas.OverlayKept | video_editor.py:89-105 | an overlay that renders contributes its caption exactly at its place in the order |
| EditorLemmas.OverlaySkipped | video_editor.py:107-109 | an overlay that fails is dropped and the rest carry on |
| EditorLemmas.OverlayAllRendered | video_editor.py:76-105 | when every overlay renders, caption k is overlay k's caption with the defaults applied |
| EditorLemmas.WithOverlaysShape | video_editor.py:74-111 | the base clip is the first layer; frame size and sound are kept; the result lasts exactly as long as the clip when every caption ends within it |
| EditorLemmas.OverlayLayersEnd | video_editor.py:102 | every caption ends by a limit when every overlay's delay plus duration does |
| EditorLemmas.TransitionsKeepDuration | video_editor.py:147-148 | transitions leave the total length unchanged |
| EditorLemmas.SegmentsInOrder | video_editor.py:150 | clip k plays from the sum of the lengths of the clips before it |
| EditorLemmas.ConcatenationInOrder | video_editor.py:150 | layer k of the concatenation is clip k, starting at the sum of the lengths of the clips before it |
| EditorLemmas.CompileOutcome | video_editor.py:132-167 | success iff there are clips and the library joins and writes them; the output holds the in-order concatenation, as long as the inputs together; only the output path changes; readers are closed only on success |
| EditorLemmas.AudioOverlayOutcome | video_editor.py:169-222 | on success the output holds the video unchanged except its sound: the scaled sound mixed with the narration cut to the video's length, or that narration alone; only the output path changes |
| EditorLemmas.PhaseStaysFailed | video_editor.py:242-265 | once a moment raises, later moments change nothing |
| EditorLemmas.MomentStepBookkeeping | video_editor.py:244-265 | one pass either raises before recording its temp path, or records it and then raises or appends the clip read back, overlaid iff i < len(text_overlays_per_moment) |
| EditorLemmas.PhaseCount | video_editor.py:244-257 | at most one temp path per moment reached, and exactly one per moment when nothing raised |
| EditorLemmas.PhaseTemps | video_editor.py:245-257 | `temp_clips` is the temp paths of the first moments, in order |
| EditorLemmas.PhaseTimes | video_editor.py:251-256 | when the loop did not raise, every moment had both times |
| EditorLemmas.PhaseClips | video_editor.py:257-265 | `clip_objects` has one clip per clip read back, and one per temp path when nothing raised |
| EditorLemmas.PhasePrepared | video_editor.py:260-265 | clip j is the clip read back from temp file j, overlaid iff j < len(text_overlays_per_moment) |
| EditorLemmas.MomentStepCut | video_editor.py:244-260 | a pass that records its temp path had both times and a decodable source, wrote that moment's cut to the temp path, and, unless it then raised, read back exactly that cut |
| EditorLemmas.PhaseLoaded | video_editor.py:244-265 | while the source is no temp path, clip j read back by the loop is moment j's cut of the source as it was before the call |
| EditorLemmas.PhaseShape | video_editor.py:244-265 | all of the loop's bookkeeping together |
| EditorLemmas.PhaseFrame | video_editor.py:244-265 | the loop writes to no path except the temp paths of the moments it reached |
| EditorLemmas.PhasePartial | video_editor.py:251-257 | a partial file left by a failed extraction is at the next temp path, which was never recorded |
| EditorLemmas.CleanedSpec | video_editor.py:271-274 | the cleanup removes exactly the recorded paths that exist and touches nothing else |
| EditorLemmas.CleanupComplete | video_editor.py:271-284 | on success and on every exception, no recorded temp path exists afterwards |
| EditorLemmas.CompilationFrame | video_editor.py:224-284 | every path except the output and the moments' temp paths keeps its content, however the call ends |
| EditorLemmas.PartialFileSurvives | video_editor.py:251-257 | a partial file named by the exception survives iff it is not recorded, and when it is not the output it is the failing moment's unrecorded temp path |
| EditorLemmas.CompilationSuccess | video_editor.py:224-276 | on success every moment had both times; one temp path per moment, in order, and one clip read back and one prepared per moment; the output path is returned and, unless it is a temp path, holds the transitioned concatenation, as long as the clips together |
| EditorLemmas.CompilationCuts | video_editor.py:244-269 | on success, when the source is no temp path, clip j read back is exactly moment j's cut of the source, and the clip compiled for it is that cut, overlaid iff j < len(text_overlays_per_moment) |
| EditorLemmas.CompilationAnswer | video_editor.py:268-276 | a successful compilation returns `output_dir/output_name` |
| EditorLemmas.OutputSurvivesIff | video_editor.py:268-274 | the output still exists after a successful call iff its name is no moment's temp name |
| EditorLemmas.OverlayIff | video_editor.py:262-265 | clip i carries the overlays of list i iff i < len(text_overlays_per_moment); the other clips are exactly as read back |
| EditorLemmas.EmptyCompilationFails | video_editor.py:150 | with no moments the call raises and nothing changes |
| VideoEditor.Editor.constructor | video_editor.py:19-27 | the directory is set once; nothing is closed yet |
| VideoEditor.Editor.ExtractClip | video_editor.py:29-61 | result, filesystem and closed readers are those of `EditorSpec.ExtractEffect` |
| VideoEditor.Editor.AddTextOverlay | video_editor.py:63-111 | the loop over the overlays builds `EditorSpec.WithOverlays` |
| VideoEditor.Editor.AddTransition | video_editor.py:113-130 | returns `EditorSpec.AddTransition` |
| VideoEditor.Editor.CompileClips | video_editor.py:132-167 | result, filesystem and closed readers are those of `EditorSpec.CompileEffect` |
| VideoEditor.Editor.CloseAll | video_editor.py:159-160 | closes every clip, in list order |
| VideoEditor.Editor.AddAudioOverlay | video_editor.py:169-222 | result, filesystem and closed readers are those of `EditorSpec.AudioOverlayEffect` |
| VideoEditor.Editor.RemoveTempClips | video_editor.py:271-274 | the filesystem becomes `EditorSpec.Cleaned` of the recorded paths |
| VideoEditor.Editor.ExtractMoment | video_editor.py:244-265 | one pass of the loop is `EditorSpec.MomentStep` |
| VideoEditor.Editor.CreateViralCompilation | video_editor.py:224-284 | result, filesystem and closed readers are those of `EditorSpec.Compilation`, the loop being `EditorSpec.ExtractPhase` at every index |
| ViralAnalyzer.StripCodeFence | viral_analyzer.py:83-89 | the clean-up never lengthens the answer; text that does not start with a fence once stripped is only stripped |
| ViralAnalyzer.Unfence | viral_analyzer.py:86-87 | dropping the first and last lines never lengthens the text, and leaves text of one or two lines alone |
| ViralAnalyzer.DropJsonTag | viral_analyzer.py:88-89 | a leading "json" makes the result at least 4 characters shorter; text without it is unchanged |
| ViralAnalyzer.PlainTextUnchanged | viral_analyzer.py:83-85 | text already stripped and unfenced is returned unchanged |
| ViralAnalyzer.UnfenceInner | viral_analyzer.py:86-87 | text of three or more lines loses exactly its first and last line |
| ViralAnalyzer.FenceInner | viral_analyzer.py:83-89 | fenced text of three or more lines becomes the text between its first and last line break, with a leading "json" removed and the rest stripped |
| ViralAnalyzer.FenceShort | viral_analyzer.py:85-87 | fenced text of one or two lines is left as stripped |
| ViralAnalyzer.FenceAround | viral_analyzer.py:86-87 | a text whose first and last lines are a and z unfences to what lies between them |
| ViralAnalyzer.FencedBlock | viral_analyzer.py:83-89 | ```` ```lang ```` / body / ```` ``` ```` gives back the body (with a leading "json" removed and the rest stripped), whatever lines the body has |
| ViralAnalyzer.Insert | viral_analyzer.py:92 | inserting adds exactly one moment |
| ViralAnalyzer.SortByScore | viral_analyzer.py:92 | a permutation of the moments, in non-increasing score order |
| ViralAnalyzer.InsertSorted | viral_analyzer.py:92 | insertion keeps the order non-increasing |
| ViralAnalyzer.InsertStable | viral_analyzer.py:92 | insertion puts the new moment before the older ones of its score |
| ViralAnalyzer.SortStable | viral_analyzer.py:92 | the sort is stable: the moments of each score keep their input order |
| ViralAnalyzer.AnalyzeTranscription | viral_analyzer.py:83-96 | [] when the call raised, the answer does not parse, it is not a JSON array, or some item is not an object with a score; an array of at most one item comes back as it is; with numeric scores, the items permuted, in non-increasing score order, and stable |
| ViralAnalyzer.SummaryLines | viral_analyzer.py:109-112 | defined iff every moment has start, end and reason; line k is moment k's, numbered k+1 |
| ViralAnalyzer.SummaryLine | viral_analyzer.py:110 | a summary line starts "- Moment {i+1} (" and ends with "s): " and the moment's reason |
| ViralAnalyzer.MomentsSummary | viral_analyzer.py:109-112 | the summary exists iff each of the first three moments (or fewer) is an object with start_time, end_time and reason |
| ViralAnalyzer.SummaryFirstThree | viral_analyzer.py:111 | with more than three moments, the summary is that of the first three |
| ViralAnalyzer.SummaryLineShape | viral_analyzer.py:110 | a summary line holds no line break when its start, end and reason hold none |
| ViralAnalyzer.SummaryShape | viral_analyzer.py:109-112 | when the summarised parts hold no line break, the summary has min(n, 3) lines, and line k starts "- Moment {k+1} (" |
| ViralAnalyzer.GenerateTtsScript | viral_analyzer.py:109-150 | raises iff the summary does; otherwise the stripped answer, or the fixed fallback when the call raised |
| ViralAnalyzer.FallbackOverlay | viral_analyzer.py:212 | an object with exactly the keys text, delay, duration and position: the hook's value (whatever it is) or "Watch this!", 0, 2.0 and "top" |
| ViralAnalyzer.GenerateOnscreenText | viral_analyzer.py:162-212 | raises iff the moment is not an object with reason and numeric start and end; the parsed answer, whatever JSON value it is, when call and parse succeed; otherwise exactly the one fallback overlay |
| App.AllowedFile | app.py:28-31 | an accepted name contains a '.' followed by at least three characters |
| App.AllowedFileSplit | app.py:21-31 | stem.ext with a dot-free ext is accepted iff lower(ext) is mp4, avi, mov, mkv or webm, whatever the stem |
| App.NoDotRejected | app.py:30 | a name without '.' is never accepted |
| App.Acceptable | app.py:53-54 | an acceptable part has a name of at least four characters |
| App.FirstInvalid | app.py:53-54 | every part before it is non-empty and allowed, and the part at it is not |
| App.Entries | app.py:55-61 | one entry per part, in order: the secured name and `uploads/<name>` |
| App.SaveAll | app.py:55-57 | saving removes nothing and creates every part's path |
| App.SaveAllKeys | app.py:55-57 | after saving, the existing paths are the old ones plus the parts' paths |
| App.SaveAllElsewhere | app.py:55-57 | a path no part is saved to keeps its content |
| App.SaveAllContent | app.py:55-57 | a part's path holds that part unless a later part is saved to the same path |
| App.SaveStep | app.py:53-61 | saving one more part appends its entry and writes its path |
| App.UploadVideos | app.py:40-69 | no 'videos' field, or more than 5 parts: rejected with nothing saved; otherwise the parts before the first invalid one are saved in order; an invalid part is rejected by name; otherwise one entry per part, and the message gives the count |
| App.Directories | app.py:18-25 | the upload and output folders always exist as directories, besides any others |
| App.NarrationRequested | app.py:178 | narration is asked for only with a non-empty path, and the two folders always pass the existence test |
| App.NarratedPath | app.py:179-182 | the narrated copy is `outputs/final_<name>`, inside the output folder even for an absolute name |
| App.CompileVideoOutcome | app.py:156-196 | without video_path or viral_moments: 400 and nothing changes; a success answers with `outputs/<name>` or `outputs/final_<name>` |
| App.CompileVideo | app.py:151-196 | response and filesystem are those of `App.CompileVideoOutcome` |
| App.NarratedPathDiffers | app.py:179-182 | the narrated path is never the plain output path |
| App.NarratedIff | app.py:166-196 | a failed compilation is a 500; a success answers `outputs/final_<name>` iff a narration path was given and names an existing file or directory, and `outputs/<name>` otherwise; with narration, the answer is a success iff the mix succeeded |
| App.NarrationDirectoryFails | app.py:178-187 | a narration path naming a directory passes the existence test, and the mix then fails, so the answer is a 500 |
| App.NarratedCopyWritten | app.py:178-187 | when the narrated copy is the answer, it exists and has sound |
| App.FallbackOverlayPlacement | viral_analyzer.py:212 | the fallback overlay fits the editor's typed overlay iff the hook is absent or a string, and is then drawn as a top caption with the hook or "Watch this!", from 0 for 2 seconds |

## Left out

- moviepy internals are outside the model: decoding, codecs, fps=24, pixels, text rasterisation, fade curves, and the pixel behaviour of `CompositeVideoClip` and `concatenate_videoclips`. A clip is a record of its length, frame size, sound, layers and fades.
- Only reading a file, `subclip`, rendering a caption (`TextClip` with `set_position`, `set_start`, `set_duration` and its fades, asked about the text and the width only), each clip fade, `concatenate_videoclips` and `write_videofile` can fail (`Media.Backend`). `CompositeVideoClip`, `volumex`, the narration's `subclip`, `CompositeAudioClip`, `set_audio` and `close()` are taken never to raise.
- `volumex` arithmetic: the factors 0.5 and 0.3 are recorded on the track (`Scaled`), not applied to samples.
- The Groq calls and prompt text are not modelled. Each answer is a parameter: None when the call raised or returned no content. `json.loads` is the parameter `loads`, None when it raises on the text.
- Python's `str()` of numbers, arrays and objects in the summary and the prompt is a parameter, `repr`. The `.1f` duration in the overlay prompt is only passed on as a number.
- tts_generator.py, cli.py, verify.py, examples.py and test_basic.py are not part of this model.
- Flask is outside the model. That covers routing, `get_json`, the response encoding, `send_file`, `url_for` and the `download_url` field. `secure_filename` is a parameter. A request is modelled as the record of the fields it carried.
- The routes other than `upload_videos` and `compile_video` (index, analyze, generate-tts, generate-text, process-complete, download) are left out. They are glue around the analyzer and the editor.
- `os.makedirs` is not modelled as a step: the upload and output folders are existing directories (`App.Directories`), and the other directories on disk are a parameter.
- App.CompileVideo: paths are compared as strings, with no normalisation, so `./outputs/x` and `outputs/x` are different paths, and a narration path naming a file through another spelling is taken not to exist.
- EditorLemmas.OutputSurvivesIff: the output and the temp paths are compared as strings, so an output name such as `./temp_clip_0.mp4` that names a temp file through another spelling is not seen as one.
- EditorLemmas.CompilationFrame: what is kept is stated per path string; two spellings of one file are two paths in the model.
- `file.save` and `os.remove` are taken never to fail.
- Concurrency, and the collision of the fixed temp names between simultaneous requests, are out of scope for this sequential model.
- Text styling constants (font size 60, colours, stroke) and the encoder settings are left out.
- The app's size limit (`MAX_CONTENT_LENGTH`, 500 MB) and `SECRET_KEY` are left out.
- Strings.Lower: lower-cases only the characters whose lower-case form is ASCII: A–Z, and U+212A KELVIN SIGN, which becomes 'k'. No other character's lower-case form can be an allowed extension's letter, because all of those are ASCII.
- ViralAnalyzer.Key: a score is compared as a number: ints and floats are the same `Number`, and True and False count as 1 and 0. NaN and the infinities are not modelled.
- ViralAnalyzer.AnalyzeTranscription: with two or more items whose scores are not all numbers, Python may still sort them (strings among themselves, say) where the model answers []; that case is not promised.
- The editor and `compile_video` take the moments and overlays as typed records (`Records.Moment`, `Records.OverlaySpec`); values of other JSON types in those fields are not modelled.
- The order of a JSON object's keys and duplicate keys are not modelled: an object is a map.
