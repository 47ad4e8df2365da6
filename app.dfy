/** The web layer's own logic: which uploads it accepts and saves, and how a
    compile request is turned into a compilation and, when asked for, a
    narrated copy. Routing, JSON decoding and the response encoding are not
    part of this model; a request is the record of the fields it carried. */
module App {
  import opened Common
  import opened Strings
  import opened Records
  import opened Media
  import EditorSpec
  import EditorLemmas
  import ViralAnalyzer
  import VideoEditor

  const UploadFolder: Path := "uploads"
  const OutputFolder: Path := "outputs"
  const MaxUploads: nat := 5
  const AllowedExtensions: set<string> := {"mp4", "avi", "mov", "mkv", "webm"}
  const DefaultOutputName: string := "viral_compilation.mp4"

  // ---- allowed_file ----

  /** allowed_file: the text after the last '.', lower-cased, is an allowed
      extension. */
  function AllowedFile(filename: string): (r: bool)
    ensures r ==> '.' in filename && LastIndexOf(filename, '.') + 3 < |filename|
  {
    '.' in filename && Lower(filename[LastIndexOf(filename, '.') + 1..]) in AllowedExtensions
  }

  /** A name is allowed iff the part after its last '.' is, in any case, one
      of the five extensions; what comes before does not matter. */
  lemma {:induction false} AllowedFileSplit(stem: string, ext: string)
    requires '.' !in ext
    ensures AllowedFile(stem + "." + ext) <==> Lower(ext) in AllowedExtensions
  {
    var f := stem + "." + ext;
    forall j | |stem| < j < |f| ensures f[j] != '.' {
      assert f[j] == ext[j - |stem| - 1];
    }
    LastIndexUnique(f, '.', |stem|);
    assert f[|stem| + 1..] == ext;
  }

  /** A name without a '.' is never allowed. */
  lemma {:induction false} NoDotRejected(filename: string)
    requires '.' !in filename
    ensures !AllowedFile(filename)
  {
  }

  // ---- upload_videos ----

  /** An uploaded part: the name the client sent and what saving it puts on disk. */
  datatype FileStorage = FileStorage(filename: string, content: File)

  datatype UploadEntry = UploadEntry(filename: string, path: Path)

  datatype UploadResponse =
    | UploadRejected(message: string)                       // 400
    | Uploaded(message: string, files: seq<UploadEntry>)    // 200

  const NoFilesMessage: string := "No video files provided"
  const TooManyMessage: string := "Maximum 5 videos allowed"

  /** `file and allowed_file(file.filename)`: a part is falsy when its name is
      empty; an acceptable name is a '.' and at least three more characters. */
  predicate Acceptable(f: FileStorage): (r: bool)
    ensures r ==> 4 <= |f.filename|
  {
    f.filename != "" && AllowedFile(f.filename)
  }

  /** Index of the first part that is not acceptable, |files| if there is none. */
  function FirstInvalid(files: seq<FileStorage>): (r: nat)
    ensures r <= |files|
    ensures forall j :: 0 <= j < r ==> Acceptable(files[j])
    ensures r < |files| ==> !Acceptable(files[r])
  {
    if files == [] || !Acceptable(files[0]) then 0
    else
      var rest := files[1..];
      assert forall j :: 0 < j < |files| ==> files[j] == rest[j - 1];
      1 + FirstInvalid(rest)
  }

  /** Where a part is saved: secure_filename (a parameter) inside the upload folder. */
  function SavePath(secure: string -> string, f: FileStorage): Path {
    PathJoin(UploadFolder, secure(f.filename))
  }

  function Entries(files: seq<FileStorage>, secure: string -> string): (r: seq<UploadEntry>)
    ensures |r| == |files|
    ensures forall k :: 0 <= k < |files| ==> r[k] == UploadEntry(secure(files[k].filename), SavePath(secure, files[k]))
  {
    if files == [] then []
    else Entries(files[..|files| - 1], secure) + [UploadEntry(secure(files[|files| - 1].filename), SavePath(secure, files[|files| - 1]))]
  }

  /** The filesystem after saving the parts in order: nothing is removed, and
      every part's path exists. */
  function SaveAll(fs: FileSystem, files: seq<FileStorage>, secure: string -> string): (r: FileSystem)
    ensures fs.Keys <= r.Keys
    ensures forall k :: 0 <= k < |files| ==> SavePath(secure, files[k]) in r
  {
    if files == [] then fs
    else
      var init := files[..|files| - 1];
      assert forall k :: 0 <= k < |init| ==> init[k] == files[k];
      SaveAll(fs, init, secure)[SavePath(secure, files[|files| - 1]) := files[|files| - 1].content]
  }

  /** Saving adds exactly the parts' paths. */
  lemma {:induction false} SaveAllKeys(fs: FileSystem, files: seq<FileStorage>, secure: string -> string, p: Path)
    ensures p in SaveAll(fs, files, secure) <==> p in fs || exists k :: 0 <= k < |files| && SavePath(secure, files[k]) == p
    decreases |files|
  {
    if files != [] {
      var init := files[..|files| - 1];
      SaveAllKeys(fs, init, secure, p);
      assert forall k :: 0 <= k < |init| ==> init[k] == files[k];
      if p in SaveAll(fs, init, secure) && p !in fs {
        var k :| 0 <= k < |init| && SavePath(secure, init[k]) == p;
        assert SavePath(secure, files[k]) == p;
      }
    }
  }

  /** A path no part is saved to keeps what it held. */
  lemma {:induction false} SaveAllElsewhere(fs: FileSystem, files: seq<FileStorage>, secure: string -> string, p: Path)
    requires p in fs
    requires forall k :: 0 <= k < |files| ==> SavePath(secure, files[k]) != p
    ensures p in SaveAll(fs, files, secure) && SaveAll(fs, files, secure)[p] == fs[p]
    decreases |files|
  {
    if files != [] {
      var init := files[..|files| - 1];
      assert forall k :: 0 <= k < |init| ==> init[k] == files[k];
      SaveAllElsewhere(fs, init, secure, p);
    }
  }

  /** A part's path holds that part unless a later part was saved to the same path. */
  lemma {:induction false} SaveAllContent(fs: FileSystem, files: seq<FileStorage>, secure: string -> string, j: nat)
    requires j < |files|
    requires forall l :: j < l < |files| ==> SavePath(secure, files[l]) != SavePath(secure, files[j])
    ensures SavePath(secure, files[j]) in SaveAll(fs, files, secure)
    ensures SaveAll(fs, files, secure)[SavePath(secure, files[j])] == files[j].content
    decreases |files|
  {
    if j < |files| - 1 {
      var init := files[..|files| - 1];
      assert forall k :: 0 <= k < |init| ==> init[k] == files[k];
      SaveAllContent(fs, init, secure, j);
    }
  }

  /** One more part saved: its entry is appended and its path written. */
  lemma SaveStep(fs: FileSystem, files: seq<FileStorage>, secure: string -> string, k: nat)
    requires k < |files|
    ensures Entries(files[..k + 1], secure)
            == Entries(files[..k], secure) + [UploadEntry(secure(files[k].filename), SavePath(secure, files[k]))]
    ensures SaveAll(fs, files[..k + 1], secure)
            == SaveAll(fs, files[..k], secure)[SavePath(secure, files[k]) := files[k].content]
  {
    assert files[..k + 1][..k] == files[..k];
  }

  /** upload_videos: at most five parts; each acceptable part is saved in
      turn, and the first part that is not aborts the upload with the earlier
      parts already saved. */
  method UploadVideos(videos: Option<seq<FileStorage>>, fs: FileSystem, secure: string -> string)
    returns (resp: UploadResponse, fs': FileSystem)
    ensures videos.None? ==> resp == UploadRejected(NoFilesMessage) && fs' == fs
    ensures videos.Some? && |videos.value| > MaxUploads ==> resp == UploadRejected(TooManyMessage) && fs' == fs
    ensures videos.Some? && |videos.value| <= MaxUploads ==>
              fs' == SaveAll(fs, videos.value[..FirstInvalid(videos.value)], secure)
    ensures videos.Some? && |videos.value| <= MaxUploads && FirstInvalid(videos.value) < |videos.value| ==>
              resp == UploadRejected("Invalid file: " + videos.value[FirstInvalid(videos.value)].filename)
    ensures videos.Some? && |videos.value| <= MaxUploads && FirstInvalid(videos.value) == |videos.value| ==>
              resp == Uploaded(IntToDecimal(|videos.value|) + " videos uploaded successfully", Entries(videos.value, secure))
  {
    if videos.None? {
      return UploadRejected(NoFilesMessage), fs;
    }
    var files := videos.value;
    if |files| > MaxUploads {
      return UploadRejected(TooManyMessage), fs;
    }
    var uploaded: seq<UploadEntry> := [];
    fs' := fs;
    for k := 0 to |files|
      invariant k <= FirstInvalid(files)
      invariant uploaded == Entries(files[..k], secure)
      invariant fs' == SaveAll(fs, files[..k], secure)
    {
      var file := files[k];
      if file.filename != "" && AllowedFile(file.filename) {
        SaveStep(fs, files, secure, k);
        var filename := secure(file.filename);
        var filepath := PathJoin(UploadFolder, filename);
        fs' := fs'[filepath := file.content];
        uploaded := uploaded + [UploadEntry(filename, filepath)];
      } else {
        assert !Acceptable(files[k]);
        assert k == FirstInvalid(files);
        return UploadRejected("Invalid file: " + file.filename), fs';
      }
    }
    assert files[..|files|] == files;
    assert FirstInvalid(files) == |files|;
    assert |uploaded| == |files|;
    return Uploaded(IntToDecimal(|uploaded|) + " videos uploaded successfully", uploaded), fs';
  }

  // ---- compile_video ----

  /** The fields of the JSON body; a missing key is None. */
  datatype CompileRequest = CompileRequest(
    videoPath: Option<Path>,
    moments: Option<seq<Moment>>,
    textOverlays: Option<seq<seq<OverlaySpec>>>,
    ttsAudioPath: Option<Path>,
    outputName: Option<string>)

  datatype CompileResponse =
    | MissingFields                    // 400
    | CompileFailed(error: Error)      // 500
    | Compiled(outputPath: Path)       // 200

  datatype Served = Served(response: CompileResponse, fs: FileSystem)

  /** The directories that exist on disk: the upload and output folders,
      which the app creates when it starts, and any others. */
  function Directories(dirs: set<Path>): (r: set<Path>)
    ensures UploadFolder in r && OutputFolder in r && dirs <= r
  {
    dirs + {UploadFolder, OutputFolder}
  }

  /** `tts_audio_path and os.path.exists(tts_audio_path)`: a non-empty path
      that names a file or a directory; the two folders always pass. */
  predicate NarrationRequested(fs: FileSystem, dirs: set<Path>, tts: Option<Path>): (r: bool)
    ensures r ==> tts.Some? && tts.value != ""
    ensures tts == Some(UploadFolder) || tts == Some(OutputFolder) ==> r
  {
    tts.Some? && tts.value != "" && (tts.value in fs || tts.value in Directories(dirs))
  }

  /** os.path.join(OUTPUT_FOLDER, f"final_{output_name}"): "final_" makes the
      name relative, so the narrated copy is always inside the output folder,
      even for an absolute output name. */
  function NarratedPath(name: string): (p: Path)
    ensures p == OutputFolder + "/final_" + name
  {
    assert ("final_" + name)[0] == 'f';
    PathJoin(OutputFolder, "final_" + name)
  }

  /** What compile_video answers and leaves on disk, given the directories
      that exist: without video_path or viral_moments nothing is done; a
      success answers with the plain or the narrated output path. */
  function CompileVideoOutcome(b: Backend, fs: FileSystem, dirs: set<Path>, req: CompileRequest): (s: Served)
    ensures req.videoPath.None? || req.moments.None? ==> s == Served(MissingFields, fs)
    ensures s.response.Compiled? ==>
              var name := req.outputName.GetOr(DefaultOutputName);
              s.response.outputPath == PathJoin(OutputFolder, name) || s.response.outputPath == NarratedPath(name)
  {
    if req.videoPath.None? || req.moments.None? then Served(MissingFields, fs)
    else
      var name := req.outputName.GetOr(DefaultOutputName);
      var o := EditorSpec.Compilation(b, OutputFolder, fs, [], req.videoPath.value, req.moments.value,
                                      req.textOverlays.GetOr([]), name);
      if o.result.Err? then Served(CompileFailed(o.result.error), o.fs)
      else
        EditorLemmas.CompilationAnswer(b, OutputFolder, fs, [], req.videoPath.value, req.moments.value,
                                       req.textOverlays.GetOr([]), name);
        if NarrationRequested(o.fs, dirs, req.ttsAudioPath) then
          var x := EditorSpec.AudioOverlayEffect(b, o.fs, o.released, o.result.value, req.ttsAudioPath.value,
                                                 NarratedPath(name), EditorSpec.NarrationVolume, EditorSpec.OriginalVolume);
          if x.result.Err? then Served(CompileFailed(x.result.error), x.fs) else Served(Compiled(x.result.value), x.fs)
        else Served(Compiled(o.result.value), o.fs)
  }

  /** compile_video: a fresh editor writing to the output folder compiles the
      moments; when a narration path was given and exists once that is done,
      it is mixed in and the narrated copy is the answer. */
  method CompileVideo(b: Backend, fs: FileSystem, dirs: set<Path>, req: CompileRequest)
    returns (resp: CompileResponse, fs': FileSystem)
    ensures Served(resp, fs') == CompileVideoOutcome(b, fs, dirs, req)
  {
    if req.videoPath.None? || req.moments.None? {
      return MissingFields, fs;
    }
    var name := req.outputName.GetOr(DefaultOutputName);
    var editor := new VideoEditor.Editor(OutputFolder, b, fs);
    var outputPath := editor.CreateViralCompilation(req.videoPath.value, req.moments.value, req.textOverlays.GetOr([]), name);
    if outputPath.Err? {
      return CompileFailed(outputPath.error), editor.fs;
    }
    var tts := req.ttsAudioPath;
    if tts.Some? && tts.value != "" && (tts.value in editor.fs || tts.value in Directories(dirs)) {
      var finalOutput := NarratedPath(name);
      outputPath := editor.AddAudioOverlay(outputPath.value, tts.value, finalOutput,
                                           EditorSpec.NarrationVolume, EditorSpec.OriginalVolume);
      if outputPath.Err? {
        return CompileFailed(outputPath.error), editor.fs;
      }
    }
    return Compiled(outputPath.value), editor.fs;
  }

  lemma {:induction false} NarratedPathDiffers(name: string)
    ensures NarratedPath(name) != PathJoin(OutputFolder, name)
  {
    if StartsWith(name, "/") {
      assert NarratedPath(name)[0] == 'o' && name[0] == '/';
    } else {
      assert |NarratedPath(name)| > |PathJoin(OutputFolder, name)|;
    }
  }

  /** A narration path that names a directory (the output folder, say) passes
      the existence test but cannot be read as audio, so a compilation that
      succeeded is answered with an error. */
  lemma {:induction false} NarrationDirectoryFails(b: Backend, fs: FileSystem, dirs: set<Path>, req: CompileRequest)
    requires req.videoPath.Some? && req.moments.Some? && req.ttsAudioPath.Some? && req.ttsAudioPath.value != ""
    requires req.ttsAudioPath.value in Directories(dirs)
    requires var o := EditorSpec.Compilation(b, OutputFolder, fs, [], req.videoPath.value, req.moments.value,
                                             req.textOverlays.GetOr([]), req.outputName.GetOr(DefaultOutputName));
             o.result.Ok? && req.ttsAudioPath.value !in o.fs
    ensures CompileVideoOutcome(b, fs, dirs, req).response.CompileFailed?
  {
  }

  /** A successful compile answers with outputs/final_<name> iff a narration
      path was given and exists after the compilation, and with the plain
      compilation at outputs/<name> otherwise; a failing narration step is an
      error answer, never a silent fallback. */
  lemma {:induction false} NarratedIff(b: Backend, fs: FileSystem, dirs: set<Path>, req: CompileRequest)
    requires req.videoPath.Some? && req.moments.Some?
    ensures var name := req.outputName.GetOr(DefaultOutputName);
            var o := EditorSpec.Compilation(b, OutputFolder, fs, [], req.videoPath.value, req.moments.value,
                                            req.textOverlays.GetOr([]), name);
            var s := CompileVideoOutcome(b, fs, dirs, req);
            && (o.result.Err? ==> s.response == CompileFailed(o.result.error))
            && (s.response.Compiled? ==>
                  && (s.response.outputPath == NarratedPath(name) <==> NarrationRequested(o.fs, dirs, req.ttsAudioPath))
                  && (!NarrationRequested(o.fs, dirs, req.ttsAudioPath) ==> s.response.outputPath == PathJoin(OutputFolder, name)))
            && (o.result.Ok? && NarrationRequested(o.fs, dirs, req.ttsAudioPath) ==>
                  (s.response.Compiled? <==>
                     EditorSpec.AudioOverlayEffect(b, o.fs, o.released, o.result.value, req.ttsAudioPath.value, NarratedPath(name),
                                                   EditorSpec.NarrationVolume, EditorSpec.OriginalVolume).result.Ok?))
  {
    var name := req.outputName.GetOr(DefaultOutputName);
    NarratedPathDiffers(name);
    var o := EditorSpec.Compilation(b, OutputFolder, fs, [], req.videoPath.value, req.moments.value,
                                    req.textOverlays.GetOr([]), name);
    var s := CompileVideoOutcome(b, fs, dirs, req);
    if o.result.Err? {
      assert s == Served(CompileFailed(o.result.error), o.fs);
    } else {
      EditorLemmas.CompilationAnswer(b, OutputFolder, fs, [], req.videoPath.value, req.moments.value,
                                     req.textOverlays.GetOr([]), name);
      if NarrationRequested(o.fs, dirs, req.ttsAudioPath) {
        var x := EditorSpec.AudioOverlayEffect(b, o.fs, o.released, o.result.value, req.ttsAudioPath.value,
                                               NarratedPath(name), EditorSpec.NarrationVolume, EditorSpec.OriginalVolume);
        assert x.result.Ok? ==> x.result.value == NarratedPath(name);
        assert s.response == if x.result.Err? then CompileFailed(x.result.error) else Compiled(x.result.value);
      } else {
        assert s.response == Compiled(PathJoin(OutputFolder, name));
      }
    }
  }

  /** When a narrated copy is the answer, that file exists and holds the
      compilation with the narration mixed in, never longer than the video. */
  lemma {:induction false} NarratedCopyWritten(b: Backend, fs: FileSystem, dirs: set<Path>, req: CompileRequest)
    requires req.videoPath.Some? && req.moments.Some?
    requires CompileVideoOutcome(b, fs, dirs, req).response == Compiled(NarratedPath(req.outputName.GetOr(DefaultOutputName)))
    ensures var s := CompileVideoOutcome(b, fs, dirs, req);
            var p := NarratedPath(req.outputName.GetOr(DefaultOutputName));
            p in s.fs && s.fs[p].Video? && s.fs[p].clip.audio.Some?
  {
    var name := req.outputName.GetOr(DefaultOutputName);
    NarratedIff(b, fs, dirs, req);
    var o := EditorSpec.Compilation(b, OutputFolder, fs, [], req.videoPath.value, req.moments.value,
                                    req.textOverlays.GetOr([]), name);
    EditorLemmas.AudioOverlayOutcome(b, o.fs, o.released, o.result.value, req.ttsAudioPath.value, NarratedPath(name),
                                     EditorSpec.NarrationVolume, EditorSpec.OriginalVolume);
  }

  /** The overlay the analyzer falls back to, read as the editor's typed
      overlay, is drawn as a top caption shown from the clip's start for two
      seconds, with the hook as its text when that is a string; a hook of
      another type does not fit the typed overlay. */
  lemma {:induction false} FallbackOverlayPlacement(clip: Clip, hook: Option<Json>)
    ensures OverlayOf(ViralAnalyzer.FallbackOverlay(hook)).Some? <==> hook.None? || hook.value.Str?
    ensures hook.None? || hook.value.Str? ==>
              EditorSpec.CaptionFor(clip, OverlayOf(ViralAnalyzer.FallbackOverlay(hook)).value)
              == Caption(if hook.Some? then hook.value.s else ViralAnalyzer.FallbackText, clip.width - EditorSpec.CaptionMargin,
                         AtPixel(EditorSpec.TopOffset), 0.0, 2.0, EditorSpec.CaptionFadeSeconds)
  {
    var o := ViralAnalyzer.FallbackOverlay(hook);
    assert Field(o, "text") == Some(hook.GetOr(Str(ViralAnalyzer.FallbackText)));
    assert Field(o, "delay") == Some(Number(0.0)) && Field(o, "duration") == Some(Number(2.0));
    assert Field(o, "position") == Some(Str("top"));
  }
}
