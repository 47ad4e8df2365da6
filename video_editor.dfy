/** ViralVideoEditor: the object that cuts, decorates, joins and narrates
    clips. Its state is the filesystem it writes to and the readers it has
    released (closed); every method is proved to do what module EditorSpec
    says. */
module VideoEditor {
  import opened Common
  import opened Records
  import opened Media
  import Spec = EditorSpec
  import EditorLemmas

  class Editor {
    const outputDir: Path
    const media: Backend
    var fs: FileSystem
    var released: seq<Handle>

    /** ViralVideoEditor(output_dir); the directory is taken as existing. */
    constructor (outputDir: Path, media: Backend, fs: FileSystem)
      ensures this.outputDir == outputDir && this.media == media
      ensures this.fs == fs && released == []
    {
      this.outputDir := outputDir;
      this.media := media;
      this.fs := fs;
      released := [];
    }

    /** extract_clip: cut [start, end] out of the source and encode it to
        `output`, or to clip_{int(start)}_{int(end)}.mp4 in the output
        directory; any failure is raised. */
    method ExtractClip(videoPath: Path, start: real, end: real, output: Option<Path>) returns (result: Result<Path>)
      modifies this`fs, this`released
      ensures var x := Spec.ExtractEffect(media, outputDir, old(fs), old(released), videoPath, start, end, output);
              result == x.result && fs == x.fs && released == x.released
    {
      var video := Open(media, fs, videoPath);
      if video.None? {
        return Err(CannotOpen(videoPath));
      }
      var clip := media.subclip(video.value, start, end);
      if clip.None? {
        return Err(SubclipRejected(start, end));
      }
      var path := if output.Some? then output.value else Spec.DefaultClipPath(outputDir, start, end);
      var w := media.encode(clip.value, path);
      fs := AfterWrite(fs, path, clip.value, w);
      if w.WriteFailed? {
        return Err(EncodeFailed(path, w.partial));
      }
      released := released + [VideoHandle(video.value), VideoHandle(clip.value)];
      return Ok(path);
    }

    /** add_text_overlay: one caption per overlay that renders, stacked on the
        clip in order; an overlay that fails is skipped. */
    method AddTextOverlay(clip: Clip, overlays: seq<OverlaySpec>) returns (r: Clip)
      ensures r == Spec.WithOverlays(media, clip, overlays)
    {
      var layers := [Base(clip)];
      for k := 0 to |overlays|
        invariant layers == [Base(clip)] + Spec.OverlayLayers(media, clip, overlays[..k])
      {
        var caption := Spec.CaptionFor(clip, overlays[k]);
        if media.rendersText(caption.text, caption.width) {
          layers := layers + [Text(caption)];
        }
        assert overlays[..k + 1][..k] == overlays[..k];
      }
      assert overlays[..|overlays|] == overlays;
      return Composite(layers);
    }

    /** add_transition: fade in, then fade out; on an exception, the clip as
        it stands. */
    method AddTransition(clip: Clip, d: real) returns (r: Clip)
      ensures r == Spec.AddTransition(media, clip, d)
    {
      r := clip;
      if media.fadesIn(r, d) {
        r := r.(fades := r.fades + [FadeIn(d)]);
        if media.fadesOut(r, d) {
          r := r.(fades := r.fades + [FadeOut(d)]);
          assert clip.fades + [FadeIn(d)] + [FadeOut(d)] == clip.fades + [FadeIn(d), FadeOut(d)];
        }
      }
    }

    /** compile_clips: transitions, concatenation, encoding; the clips and the
        result are closed only once the write has succeeded. */
    method CompileClips(clips: seq<Clip>, output: Path, addTransitions: bool, d: real) returns (result: Result<Path>)
      modifies this`fs, this`released
      ensures var x := Spec.CompileEffect(media, old(fs), old(released), clips, output, addTransitions, d);
              result == x.result && fs == x.fs && released == x.released
    {
      var cs := clips;
      if addTransitions {
        cs := [];
        for k := 0 to |clips|
          invariant |cs| == k
          invariant forall j :: 0 <= j < k ==> cs[j] == Spec.AddTransition(media, clips[j], d)
          invariant fs == old(fs) && released == old(released)
        {
          var c := AddTransition(clips[k], d);
          cs := cs + [c];
        }
      }
      assert cs == Spec.Transitioned(media, clips, addTransitions, d);
      if cs == [] || !media.concatenates(cs) {
        return Err(ConcatenateFailed);
      }
      var final := Concatenation(cs);
      var w := media.encode(final, output);
      fs := AfterWrite(fs, output, final, w);
      if w.WriteFailed? {
        return Err(EncodeFailed(output, w.partial));
      }
      CloseAll(cs);
      released := released + [VideoHandle(final)];
      return Ok(output);
    }

    /** `for clip in clips: clip.close()`: each reader, in order. */
    method CloseAll(clips: seq<Clip>)
      modifies this`released
      ensures released == old(released) + Spec.Handles(clips)
    {
      for k := 0 to |clips|
        invariant released == old(released) + Spec.Handles(clips[..k])
      {
        assert clips[..k + 1][..k] == clips[..k];
        released := released + [VideoHandle(clips[k])];
      }
      assert clips[..|clips|] == clips;
    }

    /** add_audio_overlay: the narration, scaled and cut to the video's length,
        mixed over the video's own (scaled) sound when it has one. */
    method AddAudioOverlay(videoPath: Path, audioPath: Path, output: Path, audioVolume: real, videoVolume: real)
      returns (result: Result<Path>)
      modifies this`fs, this`released
      ensures var x := Spec.AudioOverlayEffect(media, old(fs), old(released), videoPath, audioPath, output, audioVolume, videoVolume);
              result == x.result && fs == x.fs && released == x.released
    {
      var video := Open(media, fs, videoPath);
      if video.None? {
        return Err(CannotOpen(videoPath));
      }
      var audio := OpenAudio(media, fs, audioPath);
      if audio.None? {
        return Err(CannotOpenAudio(audioPath));
      }
      var original: Option<Track> := None;
      if video.value.audio.Some? {
        original := Some(Scaled(video.value.audio.value, videoVolume));
      }
      var overlay := Scaled(audio.value, audioVolume);
      if !(End(overlay) < video.value.duration) {
        overlay := Trimmed(overlay, video.value.duration);
      }
      var sound := if original.Some? then Mixed([original.value, overlay]) else overlay;
      var mixed := video.value.(audio := Some(sound));
      var w := media.encode(mixed, output);
      fs := AfterWrite(fs, output, mixed, w);
      if w.WriteFailed? {
        return Err(EncodeFailed(output, w.partial));
      }
      released := released + [VideoHandle(mixed), AudioHandle(audio.value)];
      return Ok(output);
    }

    /** The cleanup loop of create_viral_compilation: remove each recorded
        temp file that still exists. */
    method RemoveTempClips(temps: seq<Path>)
      modifies this`fs
      ensures fs == Spec.Cleaned(old(fs), temps)
    {
      for k := 0 to |temps|
        invariant fs == Spec.Cleaned(old(fs), temps[..k])
      {
        assert temps[..k + 1][..k] == temps[..k];
        if temps[k] in fs {
          fs := fs - {temps[k]};
        }
      }
      assert temps[..|temps|] == temps;
    }

    /** One pass of create_viral_compilation's loop, for moment i: extract it
        to its temp file, read it back and overlay its captions. */
    method ExtractMoment(videoPath: Path, overlaysPerMoment: seq<seq<OverlaySpec>>, i: nat, m: Moment,
                         temps: seq<Path>, loaded: seq<Clip>, clips: seq<Clip>)
      returns (temps': seq<Path>, loaded': seq<Clip>, clips': seq<Clip>, failure: Option<Error>)
      modifies this`fs, this`released
      ensures Spec.Run(fs, released, temps', loaded', clips', failure)
              == Spec.MomentStep(media, outputDir, videoPath, overlaysPerMoment, i, m,
                                 Spec.Run(old(fs), old(released), temps, loaded, clips, None))
    {
      temps', loaded', clips', failure := temps, loaded, clips, None;
      if m.startTime.None? {
        failure := Some(KeyMissing("start_time"));
        return;
      }
      if m.endTime.None? {
        failure := Some(KeyMissing("end_time"));
        return;
      }
      var path := Spec.TempPath(outputDir, i);
      var x := ExtractClip(videoPath, m.startTime.value, m.endTime.value, Some(path));
      if x.Err? {
        failure := Some(x.error);
        return;
      }
      temps' := temps + [path];
      var reread := Open(media, fs, path);
      if reread.None? {
        failure := Some(CannotOpen(path));
        return;
      }
      var clip := reread.value;
      loaded' := loaded + [clip];
      if i < |overlaysPerMoment| {
        clip := AddTextOverlay(clip, overlaysPerMoment[i]);
      }
      clips' := clips + [clip];
    }

    /** create_viral_compilation: extract every moment to its temp file, read
        it back, overlay its captions, compile the clips with transitions into
        output_name, and remove the temp files whether or not that succeeded. */
    method CreateViralCompilation(videoPath: Path, moments: seq<Moment>,
                                  overlaysPerMoment: seq<seq<OverlaySpec>>, outputName: string)
      returns (result: Result<Path>)
      modifies this`fs, this`released
      ensures var o := Spec.Compilation(media, outputDir, old(fs), old(released), videoPath, moments, overlaysPerMoment, outputName);
              result == o.result && fs == o.fs && released == o.released
    {
      var temps: seq<Path> := [];
      var loaded: seq<Clip> := [];
      var clips: seq<Clip> := [];
      var failure: Option<Error> := None;
      var i := 0;
      while i < |moments| && failure.None?
        invariant 0 <= i <= |moments|
        invariant Spec.Run(fs, released, temps, loaded, clips, failure)
                  == Spec.ExtractPhase(media, outputDir, videoPath, moments, overlaysPerMoment, old(fs), old(released), i)
      {
        ghost var before := Spec.Run(fs, released, temps, loaded, clips, failure);
        temps, loaded, clips, failure := ExtractMoment(videoPath, overlaysPerMoment, i, moments[i], temps, loaded, clips);
        assert Spec.Advance(media, outputDir, videoPath, moments, overlaysPerMoment, old(fs), old(released), i)
               == Spec.MomentStep(media, outputDir, videoPath, overlaysPerMoment, i, moments[i], before);
        i := i + 1;
      }
      if failure.Some? {
        EditorLemmas.PhaseStaysFailed(media, outputDir, videoPath, moments, overlaysPerMoment, old(fs), old(released), i, |moments|);
        RemoveTempClips(temps);
        return Err(failure.value);
      }
      var output := PathJoin(outputDir, outputName);
      result := CompileClips(clips, output, true, Spec.TransitionSeconds);
      RemoveTempClips(temps);
    }
  }
}
