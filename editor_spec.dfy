/** What each step of ViralVideoEditor does, as functions of the filesystem,
    the released readers and the backend's answers. The class in module
    VideoEditor is proved to do exactly this; module EditorLemmas proves what
    follows from it. */
module EditorSpec {
  import opened Common
  import opened Records
  import opened Media
  import Strings

  const TransitionSeconds: real := 0.5
  const CaptionFadeSeconds: real := 0.3
  const DefaultCaptionSeconds: real := 2.0
  const CaptionMargin: int := 100
  const TopOffset: int := 50
  const BottomOffset: int := 100
  const NarrationVolume: real := 0.5
  const OriginalVolume: real := 0.3

  // ---- file names ----

  /** f"temp_clip_{i}.mp4" */
  function TempName(i: nat): string {
    "temp_clip_" + Strings.NatToDecimal(i) + ".mp4"
  }

  /** Where moment i is extracted to: fixed per index, the same on every run. */
  function TempPath(dir: Path, i: nat): Path {
    PathJoin(dir, TempName(i))
  }

  /** The temp paths of the first n moments, in order. */
  function TempPaths(dir: Path, n: nat): (r: seq<Path>)
    ensures |r| == n && forall i :: 0 <= i < n ==> r[i] == TempPath(dir, i)
  {
    if n == 0 then [] else TempPaths(dir, n - 1) + [TempPath(dir, n - 1)]
  }

  /** f"clip_{int(start)}_{int(end)}.mp4" */
  function DefaultClipName(start: real, end: real): string {
    "clip_" + Strings.IntToDecimal(Trunc(start)) + "_" + Strings.IntToDecimal(Trunc(end)) + ".mp4"
  }

  function DefaultClipPath(dir: Path, start: real, end: real): Path {
    PathJoin(dir, DefaultClipName(start, end))
  }

  // ---- text overlays ----

  /** The pos_map of add_text_overlay for a frame of the given height. */
  function PositionMap(height: int): map<string, VPos> {
    map["top" := AtPixel(TopOffset), "center" := Middle, "bottom" := AtPixel(height - BottomOffset)]
  }

  /** pos_map.get(position, pos_map['top']): any name other than "center" and
      "bottom" places the caption at the top. */
  function Placement(position: string, height: int): (y: VPos)
    ensures y == if position == "center" then Middle
                 else if position == "bottom" then AtPixel(height - BottomOffset)
                 else AtPixel(TopOffset)
  {
    var m := PositionMap(height);
    if position in m then m[position] else m["top"]
  }

  /** The caption an overlay dictionary asks for on `clip`, with the defaults
      text '', delay 0, duration 2.0 and position 'top'. */
  function CaptionFor(clip: Clip, o: OverlaySpec): (c: Caption)
    ensures c.text == o.text.GetOr("") && c.start == o.delay.GetOr(0.0)
    ensures c.duration == o.duration.GetOr(DefaultCaptionSeconds)
    ensures c.width == clip.width - CaptionMargin && c.fade == CaptionFadeSeconds
    ensures c.y == if o.position == Some("center") then Middle
                   else if o.position == Some("bottom") then AtPixel(clip.height - BottomOffset)
                   else AtPixel(TopOffset)
  {
    Caption(o.text.GetOr(""), clip.width - CaptionMargin,
            Placement(o.position.GetOr("top"), clip.height),
            o.delay.GetOr(0.0), o.duration.GetOr(DefaultCaptionSeconds), CaptionFadeSeconds)
  }

  /** Whether the library renders the overlay's caption (TextClip and the calls
      chained on it raise nothing). The oracle is asked about the text and the
      wrapping width only. */
  predicate Renders(b: Backend, clip: Clip, o: OverlaySpec): (r: bool)
    ensures r <==> b.rendersText(o.text.GetOr(""), clip.width - CaptionMargin)
  {
    var c := CaptionFor(clip, o);
    b.rendersText(c.text, c.width)
  }

  /** The caption layers add_text_overlay stacks on the base clip: one per
      overlay that renders, in input order; the others are skipped. */
  function OverlayLayers(b: Backend, clip: Clip, overlays: seq<OverlaySpec>): (r: seq<Layer>)
    ensures |r| <= |overlays|
    ensures forall k :: 0 <= k < |r| ==> r[k].Text?
    decreases |overlays|
  {
    if overlays == [] then []
    else
      var o := overlays[|overlays| - 1];
      OverlayLayers(b, clip, overlays[..|overlays| - 1])
      + (if Renders(b, clip, o) then [Text(CaptionFor(clip, o))] else [])
  }

  /** The result of add_text_overlay: the composite of the base clip and the
      rendered captions. */
  function WithOverlays(b: Backend, clip: Clip, overlays: seq<OverlaySpec>): Clip {
    Composite([Base(clip)] + OverlayLayers(b, clip, overlays))
  }

  // ---- transitions and compilation ----

  /** add_transition: fade in, then fade out. A failing fade returns the clip
      as it stands at that point, so a failing fade-out still leaves the
      fade-in in place. Nothing but the fades changes. */
  function AddTransition(b: Backend, clip: Clip, d: real): (r: Clip)
    ensures r.duration == clip.duration && r.width == clip.width && r.height == clip.height
    ensures r.audio == clip.audio && r.layers == clip.layers
    ensures r.fades in {clip.fades, clip.fades + [FadeIn(d)], clip.fades + [FadeIn(d), FadeOut(d)]}
    ensures r == clip <==> !b.fadesIn(clip, d)
    ensures b.fadesIn(clip, d) ==>
              (r.fades == clip.fades + [FadeIn(d), FadeOut(d)] <==> b.fadesOut(clip.(fades := clip.fades + [FadeIn(d)]), d))
  {
    if !b.fadesIn(clip, d) then clip
    else
      var faded := clip.(fades := clip.fades + [FadeIn(d)]);
      if b.fadesOut(faded, d) then
        assert clip.fades + [FadeIn(d)] + [FadeOut(d)] == clip.fades + [FadeIn(d), FadeOut(d)];
        faded.(fades := faded.fades + [FadeOut(d)])
      else faded
  }

  /** The list compile_clips concatenates. */
  function Transitioned(b: Backend, clips: seq<Clip>, addTransitions: bool, d: real): (r: seq<Clip>)
    ensures |r| == |clips|
    ensures forall k :: 0 <= k < |clips| ==> r[k] == if addTransitions then AddTransition(b, clips[k], d) else clips[k]
  {
    if addTransitions then seq(|clips|, k requires 0 <= k < |clips| => AddTransition(b, clips[k], d))
    else clips
  }

  function Handles(clips: seq<Clip>): (r: seq<Handle>)
    ensures |r| == |clips| && forall k :: 0 <= k < |clips| ==> r[k] == VideoHandle(clips[k])
  {
    if clips == [] then [] else Handles(clips[..|clips| - 1]) + [VideoHandle(clips[|clips| - 1])]
  }

  // ---- narration ----

  /** The narration as mixed in: scaled, and cut at the video's end when it is
      at least as long as the video. */
  function NarrationTrack(narration: Track, videoDuration: real, volume: real): (t: Track)
    ensures End(t) == Min(End(narration), videoDuration)
    ensures t in {Scaled(narration, volume), Trimmed(Scaled(narration, volume), videoDuration)}
  {
    var scaled := Scaled(narration, volume);
    if End(scaled) < videoDuration then scaled else Trimmed(scaled, videoDuration)
  }

  /** The final sound of add_audio_overlay. */
  function SoundTrack(video: Clip, narration: Track, audioVolume: real, videoVolume: real): (t: Track)
    ensures video.audio.Some? ==> t.Mixed? && |t.parts| == 2 && t.parts[0] == Scaled(video.audio.value, videoVolume)
                                  && End(t.parts[1]) == Min(End(narration), video.duration)
    ensures video.audio.None? ==> End(t) == Min(End(narration), video.duration)
    ensures End(t) >= Min(End(narration), video.duration)
    ensures video.audio.Some? ==> t.parts[1] == NarrationTrack(narration, video.duration, audioVolume)
    ensures video.audio.None? ==> t == NarrationTrack(narration, video.duration, audioVolume)
  {
    var overlay := NarrationTrack(narration, video.duration, audioVolume);
    if video.audio.Some? then
      var parts := [Scaled(video.audio.value, videoVolume), overlay];
      assert parts[..1] == [parts[0]];
      Mixed(parts)
    else overlay
  }

  // ---- one call of each state-changing step ----

  datatype Step = Step(result: Result<Path>, fs: FileSystem, released: seq<Handle>)

  /** extract_clip(video_path, start, end, output_path). */
  function ExtractEffect(b: Backend, dir: Path, fs: FileSystem, released: seq<Handle>,
                         source: Path, start: real, end: real, output: Option<Path>): Step
  {
    match Open(b, fs, source)
    case None => Step(Err(CannotOpen(source)), fs, released)
    case Some(video) =>
      match b.subclip(video, start, end)
      case None => Step(Err(SubclipRejected(start, end)), fs, released)
      case Some(clip) =>
        var path := if output.Some? then output.value else DefaultClipPath(dir, start, end);
        var w := b.encode(clip, path);
        if w.Written? then Step(Ok(path), AfterWrite(fs, path, clip, w), released + [VideoHandle(video), VideoHandle(clip)])
        else Step(Err(EncodeFailed(path, w.partial)), AfterWrite(fs, path, clip, w), released)
  }

  /** compile_clips(clips, output_path, add_transitions, transition_duration).
      Concatenating no clips always raises. Readers are released only on success. */
  function CompileEffect(b: Backend, fs: FileSystem, released: seq<Handle>,
                         clips: seq<Clip>, output: Path, addTransitions: bool, d: real): Step
  {
    var cs := Transitioned(b, clips, addTransitions, d);
    if cs == [] || !b.concatenates(cs) then Step(Err(ConcatenateFailed), fs, released)
    else
      var final := Concatenation(cs);
      var w := b.encode(final, output);
      if w.Written? then Step(Ok(output), AfterWrite(fs, output, final, w), released + Handles(cs) + [VideoHandle(final)])
      else Step(Err(EncodeFailed(output, w.partial)), AfterWrite(fs, output, final, w), released)
  }

  /** add_audio_overlay(video_path, audio_path, output_path, audio_volume, video_volume). */
  function AudioOverlayEffect(b: Backend, fs: FileSystem, released: seq<Handle>, videoPath: Path,
                              audioPath: Path, output: Path, audioVolume: real, videoVolume: real): Step
  {
    match Open(b, fs, videoPath)
    case None => Step(Err(CannotOpen(videoPath)), fs, released)
    case Some(video) =>
      match OpenAudio(b, fs, audioPath)
      case None => Step(Err(CannotOpenAudio(audioPath)), fs, released)
      case Some(narration) =>
        var mixed := video.(audio := Some(SoundTrack(video, narration, audioVolume, videoVolume)));
        var w := b.encode(mixed, output);
        if w.Written? then Step(Ok(output), AfterWrite(fs, output, mixed, w), released + [VideoHandle(mixed), AudioHandle(narration)])
        else Step(Err(EncodeFailed(output, w.partial)), AfterWrite(fs, output, mixed, w), released)
  }

  // ---- create_viral_compilation ----

  /** The state of the extraction loop: the filesystem, the released readers,
      temp_clips, the clips read back from the temp files, clip_objects, and
      the exception that stopped the loop, if any. */
  datatype Run = Run(fs: FileSystem, released: seq<Handle>, temps: seq<Path>,
                     loaded: seq<Clip>, clips: seq<Clip>, failure: Option<Error>)

  /** The clip kept for moment i: overlaid iff there is an overlay list for it. */
  function Prepare(b: Backend, overlaysPerMoment: seq<seq<OverlaySpec>>, i: nat, clip: Clip): Clip {
    if i < |overlaysPerMoment| then WithOverlays(b, clip, overlaysPerMoment[i]) else clip
  }

  /** One iteration of the loop, for moment i. */
  function MomentStep(b: Backend, dir: Path, source: Path, overlaysPerMoment: seq<seq<OverlaySpec>>,
                      i: nat, m: Moment, r: Run): Run
  {
    if m.startTime.None? then r.(failure := Some(KeyMissing("start_time")))
    else if m.endTime.None? then r.(failure := Some(KeyMissing("end_time")))
    else
      var path := TempPath(dir, i);
      var x := ExtractEffect(b, dir, r.fs, r.released, source, m.startTime.value, m.endTime.value, Some(path));
      if x.result.Err? then r.(fs := x.fs, released := x.released, failure := Some(x.result.error))
      else
        match Open(b, x.fs, path)
        case None => Run(x.fs, x.released, r.temps + [path], r.loaded, r.clips, Some(CannotOpen(path)))
        case Some(clip) =>
          Run(x.fs, x.released, r.temps + [path], r.loaded + [clip],
              r.clips + [Prepare(b, overlaysPerMoment, i, clip)], None)
  }

  /** The loop state after the first k moments (or at the first exception). */
  function ExtractPhase(b: Backend, dir: Path, source: Path, moments: seq<Moment>,
                        overlaysPerMoment: seq<seq<OverlaySpec>>, fs: FileSystem,
                        released: seq<Handle>, k: nat): Run
    requires k <= |moments|
    decreases k, 1
  {
    if k == 0 then Run(fs, released, [], [], [], None)
    else Advance(b, dir, source, moments, overlaysPerMoment, fs, released, k - 1)
  }

  /** The loop state after moment i: the state before it, advanced by it
      unless an exception already ended the loop. */
  function Advance(b: Backend, dir: Path, source: Path, moments: seq<Moment>,
                   overlaysPerMoment: seq<seq<OverlaySpec>>, fs: FileSystem,
                   released: seq<Handle>, i: nat): Run
    requires i < |moments|
    decreases i + 1, 0
  {
    var r := ExtractPhase(b, dir, source, moments, overlaysPerMoment, fs, released, i);
    if r.failure.Some? then r
    else MomentStep(b, dir, source, overlaysPerMoment, i, moments[i], r)
  }

  /** The cleanup loop: each recorded temp path that exists is removed. */
  function Cleaned(fs: FileSystem, temps: seq<Path>): FileSystem {
    if temps == [] then fs
    else
      var before := Cleaned(fs, temps[..|temps| - 1]);
      var t := temps[|temps| - 1];
      if t in before then before - {t} else before
  }

  datatype Outcome = Outcome(result: Result<Path>, fs: FileSystem, released: seq<Handle>,
                             temps: seq<Path>, loaded: seq<Clip>, clips: seq<Clip>)

  /** create_viral_compilation: the loop, then compile_clips with transitions,
      then the cleanup; on an exception anywhere after the loop starts, the
      cleanup runs and the exception is raised again. */
  function Compilation(b: Backend, dir: Path, fs: FileSystem, released: seq<Handle>, source: Path,
                       moments: seq<Moment>, overlaysPerMoment: seq<seq<OverlaySpec>>, name: string): Outcome
  {
    var r := ExtractPhase(b, dir, source, moments, overlaysPerMoment, fs, released, |moments|);
    if r.failure.Some? then
      Outcome(Err(r.failure.value), Cleaned(r.fs, r.temps), r.released, r.temps, r.loaded, r.clips)
    else
      var c := CompileEffect(b, r.fs, r.released, r.clips, PathJoin(dir, name), true, TransitionSeconds);
      Outcome(c.result, Cleaned(c.fs, r.temps), c.released, r.temps, r.loaded, r.clips)
  }
}
