/** The media library (moviepy/ffmpeg) as far as the editor depends on it.
    Clips and audio tracks are records that describe what a file would show and
    play. Reading a file, cutting a subclip, rendering a caption, each fade,
    joining clips and encoding a file are fields of `Backend` that say, for the
    given inputs, whether the step succeeds; CompositeVideoClip, volumex,
    CompositeAudioClip, set_audio and close() are taken never to raise. The
    filesystem maps each existing path to what was last written there. */
module Media {
  import opened Common

  datatype Fade = FadeIn(seconds: real) | FadeOut(seconds: real)

  /** Vertical placement of a caption; captions are always centred horizontally. */
  datatype VPos = AtPixel(y: int) | Middle

  /** A rendered caption layer (TextClip after set_position, set_start,
      set_duration, fadein and fadeout). */
  datatype Caption = Caption(text: string, width: int, y: VPos, start: real, duration: real, fade: real)

  /** Audio: a track read from a file, and the operations the editor applies. */
  datatype Track =
    | Recording(source: Path, length: real)
    | Scaled(inner: Track, factor: real)    // volumex(factor)
    | Trimmed(inner: Track, end: real)      // subclip(0, end)
    | Shifted(inner: Track, start: real)    // set_start(start)
    | Mixed(parts: seq<Track>)              // CompositeAudioClip(parts)

  datatype Clip = Clip(
    duration: real,
    width: int,
    height: int,
    audio: Option<Track>,
    layers: seq<Layer>,
    fades: seq<Fade>)

  /** A layer of a composite: the base video, a caption, or one segment of a
      concatenation together with its start time. */
  datatype Layer = Base(clip: Clip) | Text(caption: Caption) | Segment(segment: Clip, start: real)

  /** Time at which a track stops playing. A trimmed track lasts until its cut;
      a mix lasts until its longest part ends. */
  function End(t: Track): real
    decreases t
  {
    match t
    case Recording(_, length) => length
    case Scaled(inner, _) => End(inner)
    case Trimmed(_, end) => end
    case Shifted(inner, start) => start + End(inner)
    case Mixed(parts) => MaxEnd(parts)
  }

  function MaxEnd(parts: seq<Track>): real
    decreases parts
  {
    if parts == [] then 0.0
    else Max(MaxEnd(parts[..|parts| - 1]), End(parts[|parts| - 1]))
  }

  function Max(a: real, b: real): real {
    if a < b then b else a
  }

  function Min(a: real, b: real): real {
    if a < b then a else b
  }

  // ---- the two composition rules of the library that the editor relies on ----

  function LayerEnd(l: Layer): real {
    match l
    case Base(c) => c.duration
    case Text(c) => c.start + c.duration
    case Segment(c, start) => start + c.duration
  }

  function LayersEnd(layers: seq<Layer>): real {
    if layers == [] then 0.0
    else Max(LayersEnd(layers[..|layers| - 1]), LayerEnd(layers[|layers| - 1]))
  }

  /** CompositeVideoClip(layers): the frame size and the audio of the first
      layer; the composite lasts until its last layer ends. */
  function Composite(layers: seq<Layer>): (c: Clip)
    requires |layers| > 0 && layers[0].Base?
    ensures c.layers == layers && c.fades == []
    ensures c.width == layers[0].clip.width && c.height == layers[0].clip.height
  {
    var base := layers[0].clip;
    Clip(LayersEnd(layers), base.width, base.height, base.audio, layers, [])
  }

  function TotalDuration(clips: seq<Clip>): real {
    if clips == [] then 0.0 else clips[0].duration + TotalDuration(clips[1..])
  }

  /** Each clip as a segment starting where the ones before it end. */
  function Segments(clips: seq<Clip>, start: real): (r: seq<Layer>)
    ensures |r| == |clips|
  {
    if clips == [] then []
    else [Segment(clips[0], start)] + Segments(clips[1..], start + clips[0].duration)
  }

  /** The sound of every clip that has some, each shifted to its segment's start. */
  function SegmentAudio(clips: seq<Clip>, start: real): seq<Track> {
    if clips == [] then []
    else (if clips[0].audio.Some? then [Shifted(clips[0].audio.value, start)] else [])
         + SegmentAudio(clips[1..], start + clips[0].duration)
  }

  function MaxWidth(clips: seq<Clip>): int {
    if clips == [] then 0
    else var w := MaxWidth(clips[1..]); if clips[0].width < w then w else clips[0].width
  }

  function MaxHeight(clips: seq<Clip>): int {
    if clips == [] then 0
    else var h := MaxHeight(clips[1..]); if clips[0].height < h then h else clips[0].height
  }

  /** concatenate_videoclips(clips, method="compose"): the clips one after the
      other on a canvas as large as the largest, with their sounds mixed at
      their start times. */
  function Concatenation(clips: seq<Clip>): (c: Clip)
    ensures c.duration == TotalDuration(clips) && |c.layers| == |clips|
  {
    var tracks := SegmentAudio(clips, 0.0);
    Clip(TotalDuration(clips), MaxWidth(clips), MaxHeight(clips),
         if tracks == [] then None else Some(Mixed(tracks)),
         Segments(clips, 0.0), [])
  }

  // ---- the filesystem ----

  /** What a path holds: an encoded video, an audio file, or bytes no decoder
      reads (an interrupted write, for one). */
  datatype File = Video(clip: Clip) | Audio(track: Track) | Unreadable

  type FileSystem = map<Path, File>

  datatype WriteOutcome = Written | WriteFailed(partial: bool)

  /** The filesystem after a write of `clip` to `path`: a failed write leaves a
      partial file behind when it had already created one. */
  function AfterWrite(fs: FileSystem, path: Path, clip: Clip, w: WriteOutcome): (r: FileSystem)
    ensures r.Keys == if w.Written? || w.partial then fs.Keys + {path} else fs.Keys
    ensures forall p :: p in fs && p != path ==> r[p] == fs[p]
    ensures w.Written? ==> r[path] == Video(clip)
    ensures w.WriteFailed? && w.partial ==> r[path] == Unreadable
  {
    match w
    case Written => fs[path := Video(clip)]
    case WriteFailed(partial) => if partial then fs[path := Unreadable] else fs
  }

  /** A released (closed) reader. */
  datatype Handle = VideoHandle(video: Clip) | AudioHandle(track: Track)

  /** The exceptions the pipeline can raise. */
  datatype Error =
    | KeyMissing(key: string)        // moment['start_time'] on a dict without it
    | CannotOpen(path: Path)         // VideoFileClip(path)
    | CannotOpenAudio(path: Path)    // AudioFileClip(path)
    | SubclipRejected(start: real, end: real)
    | EncodeFailed(path: Path, partial: bool)
    | ConcatenateFailed

  datatype Result<T> = Ok(value: T) | Err(error: Error)

  /** The library steps that can raise, as success oracles. */
  datatype Backend = Backend(
    decodesVideo: Path -> bool,
    decodesAudio: Path -> bool,
    subclip: (Clip, real, real) -> Option<Clip>,
    rendersText: (string, int) -> bool,
    fadesIn: (Clip, real) -> bool,
    fadesOut: (Clip, real) -> bool,
    concatenates: seq<Clip> -> bool,
    encode: (Clip, Path) -> WriteOutcome)

  /** VideoFileClip(path): a missing or unreadable file raises. */
  function Open(b: Backend, fs: FileSystem, path: Path): (r: Option<Clip>)
    ensures r.Some? <==> path in fs && fs[path].Video? && b.decodesVideo(path)
    ensures r.Some? ==> r.value == fs[path].clip
  {
    if path in fs && fs[path].Video? && b.decodesVideo(path) then Some(fs[path].clip) else None
  }

  /** AudioFileClip(path): the track of an audio file, or the sound of a video
      file; a missing or unreadable file, or a video without sound, raises. */
  function OpenAudio(b: Backend, fs: FileSystem, path: Path): (r: Option<Track>)
    ensures r.Some? ==> path in fs && b.decodesAudio(path) && !fs[path].Unreadable?
    ensures path in fs && fs[path].Audio? && b.decodesAudio(path) ==> r == Some(fs[path].track)
    ensures path in fs && fs[path].Video? && fs[path].clip.audio.None? ==> r.None?
  {
    if path in fs && b.decodesAudio(path) then
      match fs[path]
      case Video(c) => c.audio
      case Audio(t) => Some(t)
      case Unreadable => None
    else None
  }

  /** Reading back a file just written: a complete write is read back as the
      clip written (when the reader decodes the path), a partial one can never
      be read, and a write that left nothing leaves the old answer. */
  lemma ReadBack(b: Backend, fs: FileSystem, path: Path, clip: Clip, w: WriteOutcome)
    ensures Open(b, AfterWrite(fs, path, clip, w), path)
      == if w.Written? && b.decodesVideo(path) then Some(clip)
         else if w.Written? || w.partial then None
         else Open(b, fs, path)
  {
  }
}
