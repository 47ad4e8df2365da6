/** What the editor's behaviour implies: the names it writes to, what its
    overlays and transitions keep, and what create_viral_compilation leaves on
    disk in each way it can end. */
module EditorLemmas {
  import opened Common
  import opened Records
  import opened Media
  import opened EditorSpec
  import Strings

  /** `p` is present in both filesystems with the same content, or in neither. */
  predicate SameAt(fs1: FileSystem, fs2: FileSystem, p: Path) {
    (p in fs1 <==> p in fs2) && (p in fs1 ==> fs1[p] == fs2[p])
  }

  // ---- file names ----

  /** Each moment index has its own temp file, and the same index always the same one. */
  lemma {:induction false} TempPathInjective(dir: Path, i: nat, j: nat)
    ensures TempPath(dir, i) == TempPath(dir, j) <==> i == j
  {
    var a, c := TempName(i), TempName(j);
    assert a[0] == 't' && c[0] == 't';
    PathJoinInjective(dir, a, c);
    if a == c {
      assert Strings.NatToDecimal(i) == a[10..|a| - 4];
      assert Strings.NatToDecimal(j) == c[10..|c| - 4];
      Strings.NatToDecimalInjective(i, j);
    }
  }

  /** A temp path, relative or not, is never a name that starts with '/'. */
  lemma {:induction false} TempNameRelative(i: nat)
    ensures !Strings.StartsWith(TempName(i), "/")
  {
    assert TempName(i)[0] == 't';
  }

  /** The pieces of clip_{x}_{y}.mp4 can be read back when x has no '_'. */
  lemma {:induction false} ClipNameParts(x: string, y: string, x': string, y': string)
    requires '_' !in x && '_' !in x'
    requires "clip_" + x + "_" + y + ".mp4" == "clip_" + x' + "_" + y' + ".mp4"
    ensures x == x' && y == y'
  {
    var a, c := "clip_" + x + "_" + y + ".mp4", "clip_" + x' + "_" + y' + ".mp4";
    assert a[5..|a| - 4] == x + ['_'] + y;
    assert c[5..|c| - 4] == x' + ['_'] + y';
    Strings.SplitAtSeparator(x, y, x', y', '_');
  }

  lemma {:induction false} NoUnderscore(i: int)
    ensures '_' !in Strings.IntToDecimal(i)
  {
    var x := Strings.IntToDecimal(i);
    assert forall k :: 0 <= k < |x| ==> x[k] != '_';
  }

  /** The default clip path depends only on int(start) and int(end): two
      extractions share a default path iff both truncations agree. */
  lemma {:induction false} DefaultClipPathIdentifies(dir: Path, s1: real, e1: real, s2: real, e2: real)
    ensures DefaultClipPath(dir, s1, e1) == DefaultClipPath(dir, s2, e2)
            <==> Trunc(s1) == Trunc(s2) && Trunc(e1) == Trunc(e2)
  {
    var a, c := DefaultClipName(s1, e1), DefaultClipName(s2, e2);
    assert a[0] == 'c' && c[0] == 'c';
    PathJoinInjective(dir, a, c);
    if a == c {
      NoUnderscore(Trunc(s1));
      NoUnderscore(Trunc(s2));
      ClipNameParts(Strings.IntToDecimal(Trunc(s1)), Strings.IntToDecimal(Trunc(e1)),
                    Strings.IntToDecimal(Trunc(s2)), Strings.IntToDecimal(Trunc(e2)));
      Strings.IntToDecimalInjective(Trunc(s1), Trunc(s2));
      Strings.IntToDecimalInjective(Trunc(e1), Trunc(e2));
    }
  }

  // ---- extract_clip ----

  /** extract_clip returns the given output path, or the default one; on
      success the file there holds the requested cut of the source; nothing
      but that path changes; readers are released only on success. */
  lemma {:induction false} ExtractOutcome(b: Backend, dir: Path, fs: FileSystem, released: seq<Handle>,
                                          source: Path, start: real, end: real, output: Option<Path>)
    ensures var x := ExtractEffect(b, dir, fs, released, source, start, end, output);
            var target := if output.Some? then output.value else DefaultClipPath(dir, start, end);
            && (x.result.Ok? ==>
                  && x.result.value == target
                  && Open(b, fs, source).Some?
                  && b.subclip(Open(b, fs, source).value, start, end).Some?
                  && target in x.fs
                  && x.fs[target] == Video(b.subclip(Open(b, fs, source).value, start, end).value))
            && (x.result.Err? ==> x.released == released)
            && (forall p :: p != target ==> SameAt(x.fs, fs, p))
  {
  }

  // ---- add_text_overlay ----

  /** The captions of a list of overlays are those of its two halves, in order. */
  lemma {:induction false} OverlayLayersAppend(b: Backend, clip: Clip, xs: seq<OverlaySpec>, ys: seq<OverlaySpec>)
    ensures OverlayLayers(b, clip, xs + ys) == OverlayLayers(b, clip, xs) + OverlayLayers(b, clip, ys)
    decreases |ys|
  {
    if ys == [] {
      assert xs + ys == xs;
    } else {
      var zs := xs + ys;
      assert zs[..|zs| - 1] == xs + ys[..|ys| - 1];
      assert zs[|zs| - 1] == ys[|ys| - 1];
      OverlayLayersAppend(b, clip, xs, ys[..|ys| - 1]);
    }
  }

  /** An overlay that renders contributes its caption exactly at its place in
      the input order. */
  lemma {:induction false} OverlayKept(b: Backend, clip: Clip, overlays: seq<OverlaySpec>, k: nat)
    requires k < |overlays| && Renders(b, clip, overlays[k])
    ensures OverlayLayers(b, clip, overlays)
            == OverlayLayers(b, clip, overlays[..k]) + [Text(CaptionFor(clip, overlays[k]))]
               + OverlayLayers(b, clip, overlays[k + 1..])
  {
    assert overlays == overlays[..k] + [overlays[k]] + overlays[k + 1..];
    OverlayLayersAppend(b, clip, overlays[..k] + [overlays[k]], overlays[k + 1..]);
    OverlayLayersAppend(b, clip, overlays[..k], [overlays[k]]);
    assert [overlays[k]][..0] == [];
  }

  /** An overlay that fails is dropped, and the call goes on with the rest. */
  lemma {:induction false} OverlaySkipped(b: Backend, clip: Clip, overlays: seq<OverlaySpec>, k: nat)
    requires k < |overlays| && !Renders(b, clip, overlays[k])
    ensures OverlayLayers(b, clip, overlays)
            == OverlayLayers(b, clip, overlays[..k]) + OverlayLayers(b, clip, overlays[k + 1..])
  {
    assert overlays == overlays[..k] + [overlays[k]] + overlays[k + 1..];
    OverlayLayersAppend(b, clip, overlays[..k] + [overlays[k]], overlays[k + 1..]);
    OverlayLayersAppend(b, clip, overlays[..k], [overlays[k]]);
    assert [overlays[k]][..0] == [];
  }

  /** When every overlay renders, there is one caption per overlay, in order. */
  lemma {:induction false} OverlayAllRendered(b: Backend, clip: Clip, overlays: seq<OverlaySpec>)
    requires forall k :: 0 <= k < |overlays| ==> Renders(b, clip, overlays[k])
    ensures var r := OverlayLayers(b, clip, overlays);
            |r| == |overlays| && forall k :: 0 <= k < |r| ==> r[k] == Text(CaptionFor(clip, overlays[k]))
    decreases |overlays|
  {
    if overlays != [] {
      OverlayAllRendered(b, clip, overlays[..|overlays| - 1]);
    }
  }

  /** Every caption of the list ends by `limit` when every overlay asks for that. */
  lemma {:induction false} OverlayLayersEnd(b: Backend, clip: Clip, overlays: seq<OverlaySpec>, limit: real)
    requires forall k :: 0 <= k < |overlays| ==> CaptionFor(clip, overlays[k]).start + CaptionFor(clip, overlays[k]).duration <= limit
    ensures forall k :: 0 <= k < |OverlayLayers(b, clip, overlays)| ==> LayerEnd(OverlayLayers(b, clip, overlays)[k]) <= limit
    decreases |overlays|
  {
    if overlays != [] {
      var init, o := overlays[..|overlays| - 1], overlays[|overlays| - 1];
      assert forall k :: 0 <= k < |init| ==> init[k] == overlays[k];
      OverlayLayersEnd(b, clip, init, limit);
      var front := OverlayLayers(b, clip, init);
      var back := if Renders(b, clip, o) then [Text(CaptionFor(clip, o))] else [];
      assert OverlayLayers(b, clip, overlays) == front + back;
      assert forall k :: 0 <= k < |back| ==> LayerEnd(back[k]) <= limit;
      forall k | 0 <= k < |front + back| ensures LayerEnd((front + back)[k]) <= limit {
        if k < |front| {
          assert (front + back)[k] == front[k];
        } else {
          assert (front + back)[k] == back[k - |front|];
        }
      }
    }
  }

  lemma {:induction false} LayersEndAtLeast(layers: seq<Layer>, i: nat)
    requires i < |layers|
    ensures LayerEnd(layers[i]) <= LayersEnd(layers)
    decreases |layers|
  {
    if i < |layers| - 1 {
      LayersEndAtLeast(layers[..|layers| - 1], i);
    }
  }

  lemma {:induction false} LayersEndAtMost(layers: seq<Layer>, limit: real)
    requires 0.0 <= limit
    requires forall k :: 0 <= k < |layers| ==> LayerEnd(layers[k]) <= limit
    ensures LayersEnd(layers) <= limit
    decreases |layers|
  {
    if layers != [] {
      LayersEndAtMost(layers[..|layers| - 1], limit);
    }
  }

  /** add_text_overlay keeps the base clip as the first layer, with its frame
      size and sound; the result lasts at least as long as the clip, and
      exactly as long when every caption ends within it. */
  lemma {:induction false} WithOverlaysShape(b: Backend, clip: Clip, overlays: seq<OverlaySpec>)
    ensures var c := WithOverlays(b, clip, overlays);
            && c.layers[0] == Base(clip)
            && c.width == clip.width && c.height == clip.height && c.audio == clip.audio
            && c.fades == []
            && clip.duration <= c.duration
    ensures 0.0 <= clip.duration
            && (forall k :: 0 <= k < |overlays| ==>
                  CaptionFor(clip, overlays[k]).start + CaptionFor(clip, overlays[k]).duration <= clip.duration)
            ==> WithOverlays(b, clip, overlays).duration == clip.duration
  {
    var layers := [Base(clip)] + OverlayLayers(b, clip, overlays);
    LayersEndAtLeast(layers, 0);
    if 0.0 <= clip.duration
       && (forall k :: 0 <= k < |overlays| ==>
             CaptionFor(clip, overlays[k]).start + CaptionFor(clip, overlays[k]).duration <= clip.duration)
    {
      OverlayLayersEnd(b, clip, overlays, clip.duration);
      forall k | 0 <= k < |layers| ensures LayerEnd(layers[k]) <= clip.duration {
        if k > 0 {
          assert layers[k] == OverlayLayers(b, clip, overlays)[k - 1];
        }
      }
      LayersEndAtMost(layers, clip.duration);
    }
  }

  // ---- add_transition and compile_clips ----

  /** Transitions change no clip's length, so the compilation is as long with
      them as without. */
  lemma {:induction false} TransitionsKeepDuration(b: Backend, clips: seq<Clip>, addTransitions: bool, d: real)
    ensures TotalDuration(Transitioned(b, clips, addTransitions, d)) == TotalDuration(clips)
    decreases |clips|
  {
    if clips != [] {
      var cs := Transitioned(b, clips, addTransitions, d);
      assert cs[1..] == Transitioned(b, clips[1..], addTransitions, d);
      TransitionsKeepDuration(b, clips[1..], addTransitions, d);
    }
  }

  lemma {:induction false} TotalDurationPrefix(clips: seq<Clip>, k: nat)
    requires 0 < k <= |clips|
    ensures TotalDuration(clips[..k]) == clips[0].duration + TotalDuration(clips[1..][..k - 1])
  {
    assert clips[..k][1..] == clips[1..][..k - 1];
  }

  /** The concatenation plays the clips in list order, each starting where the
      ones before it end. */
  lemma {:induction false} SegmentsInOrder(clips: seq<Clip>, start: real)
    ensures var r := Segments(clips, start);
            forall k :: 0 <= k < |r| ==> r[k] == Segment(clips[k], start + TotalDuration(clips[..k]))
    decreases |clips|
  {
    if clips != [] {
      SegmentsInOrder(clips[1..], start + clips[0].duration);
      var r := Segments(clips, start);
      forall k | 0 <= k < |r| ensures r[k] == Segment(clips[k], start + TotalDuration(clips[..k])) {
        if k > 0 {
          TotalDurationPrefix(clips, k);
          assert r[k] == Segments(clips[1..], start + clips[0].duration)[k - 1];
        } else {
          assert clips[..0] == [];
        }
      }
    }
  }

  /** concatenate_videoclips plays the clips in list order: layer k of the
      concatenation is clip k, starting where the clips before it end. */
  lemma {:induction false} ConcatenationInOrder(clips: seq<Clip>)
    ensures var c := Concatenation(clips);
            |c.layers| == |clips|
            && forall k :: 0 <= k < |clips| ==> c.layers[k] == Segment(clips[k], TotalDuration(clips[..k]))
  {
    SegmentsInOrder(clips, 0.0);
  }

  /** compile_clips: it succeeds iff there is at least one clip and the
      library concatenates and writes them; the file written is the
      concatenation, in order, of the (transitioned) clips and lasts as long
      as the input clips together; nothing but the output path changes, and
      the readers are released only on success. */
  lemma {:induction false} CompileOutcome(b: Backend, fs: FileSystem, released: seq<Handle>,
                                          clips: seq<Clip>, output: Path, addTransitions: bool, d: real)
    ensures var x := CompileEffect(b, fs, released, clips, output, addTransitions, d);
            var cs := Transitioned(b, clips, addTransitions, d);
            && (x.result.Ok? <==> clips != [] && b.concatenates(cs) && b.encode(Concatenation(cs), output).Written?)
            && (x.result.Ok? ==>
                  && x.result.value == output
                  && output in x.fs && x.fs[output] == Video(Concatenation(cs))
                  && Concatenation(cs).duration == TotalDuration(clips)
                  && x.released == released + Handles(cs) + [VideoHandle(Concatenation(cs))])
            && (x.result.Err? ==> x.released == released)
            && (forall p :: p != output ==> SameAt(x.fs, fs, p))
  {
    TransitionsKeepDuration(b, clips, addTransitions, d);
  }

  // ---- add_audio_overlay ----

  /** add_audio_overlay: on success the output holds the video unchanged but
      for its sound, which is the narration (scaled, ending at the earlier of
      its own end and the video's) mixed over the video's scaled sound when it
      has one, and the narration alone otherwise. Nothing but the output path
      changes. */
  lemma {:induction false} AudioOverlayOutcome(b: Backend, fs: FileSystem, released: seq<Handle>, videoPath: Path,
                                               audioPath: Path, output: Path, audioVolume: real, videoVolume: real)
    ensures var x := AudioOverlayEffect(b, fs, released, videoPath, audioPath, output, audioVolume, videoVolume);
            x.result.Ok? ==>
              && x.result.value == output
              && Open(b, fs, videoPath).Some? && OpenAudio(b, fs, audioPath).Some?
              && var v := Open(b, fs, videoPath).value;
                 var n := NarrationTrack(OpenAudio(b, fs, audioPath).value, v.duration, audioVolume);
                 && End(n) == Min(End(OpenAudio(b, fs, audioPath).value), v.duration)
                 && End(n) <= v.duration
                 && output in x.fs
                 && x.fs[output] == Video(v.(audio := Some(if v.audio.Some? then Mixed([Scaled(v.audio.value, videoVolume), n]) else n)))
    ensures var x := AudioOverlayEffect(b, fs, released, videoPath, audioPath, output, audioVolume, videoVolume);
            && (x.result.Err? ==> x.released == released)
            && (forall p :: p != output ==> SameAt(x.fs, fs, p))
  {
  }

  // ---- create_viral_compilation ----

  /** Once a moment has raised, later moments change nothing. */
  lemma {:induction false} PhaseStaysFailed(b: Backend, dir: Path, source: Path, moments: seq<Moment>,
                                            opm: seq<seq<OverlaySpec>>, fs: FileSystem, rel: seq<Handle>,
                                            k: nat, j: nat)
    requires k <= j <= |moments|
    requires ExtractPhase(b, dir, source, moments, opm, fs, rel, k).failure.Some?
    ensures ExtractPhase(b, dir, source, moments, opm, fs, rel, j) == ExtractPhase(b, dir, source, moments, opm, fs, rel, k)
    decreases j
  {
    if j > k {
      PhaseStaysFailed(b, dir, source, moments, opm, fs, rel, k, j - 1);
    }
  }

  /** What one iteration does to the bookkeeping: either it raises before
      recording the temp path, or it records it and then either raises on
      reading it back or keeps the clip read back, overlaid iff the index
      has an overlay list. */
  predicate Advances(b: Backend, dir: Path, opm: seq<seq<OverlaySpec>>, i: nat, r: Run, r': Run) {
    || (r'.failure.Some? && r'.temps == r.temps && r'.loaded == r.loaded && r'.clips == r.clips)
    || (r'.failure.Some? && r'.temps == r.temps + [TempPath(dir, i)] && r'.loaded == r.loaded && r'.clips == r.clips)
    || (&& r'.failure.None?
        && r'.temps == r.temps + [TempPath(dir, i)]
        && |r'.loaded| == |r.loaded| + 1 && r'.loaded[..|r.loaded|] == r.loaded
        && r'.clips == r.clips + [Prepare(b, opm, i, r'.loaded[|r.loaded|])])
  }

  lemma {:induction false} MomentStepBookkeeping(b: Backend, dir: Path, source: Path, opm: seq<seq<OverlaySpec>>,
                                                 i: nat, m: Moment, r: Run)
    ensures Advances(b, dir, opm, i, r, MomentStep(b, dir, source, opm, i, m, r))
    ensures MomentStep(b, dir, source, opm, i, m, r).failure.None? ==> m.startTime.Some? && m.endTime.Some?
  {
    var r' := MomentStep(b, dir, source, opm, i, m, r);
    if r'.failure.None? {
      assert (r.loaded + [r'.loaded[|r.loaded|]])[..|r.loaded|] == r.loaded;
    }
  }

  /** Once the loop has raised, a further index leaves its state as it is. */
  lemma {:induction false} PhaseStepFailed(b: Backend, dir: Path, source: Path, moments: seq<Moment>,
                                           opm: seq<seq<OverlaySpec>>, fs: FileSystem, rel: seq<Handle>, k: nat)
    requires 0 < k <= |moments|
    requires ExtractPhase(b, dir, source, moments, opm, fs, rel, k - 1).failure.Some?
    ensures ExtractPhase(b, dir, source, moments, opm, fs, rel, k) == ExtractPhase(b, dir, source, moments, opm, fs, rel, k - 1)
  {
  }

  /** The loop state after k moments advances the state after k - 1 by one
      iteration when that one had not raised. */
  lemma {:induction false} PhaseStepAdvances(b: Backend, dir: Path, source: Path, moments: seq<Moment>,
                                             opm: seq<seq<OverlaySpec>>, fs: FileSystem, rel: seq<Handle>, k: nat)
    requires 0 < k <= |moments|
    requires ExtractPhase(b, dir, source, moments, opm, fs, rel, k - 1).failure.None?
    ensures Advances(b, dir, opm, k - 1, ExtractPhase(b, dir, source, moments, opm, fs, rel, k - 1),
                     ExtractPhase(b, dir, source, moments, opm, fs, rel, k))
  {
    MomentStepBookkeeping(b, dir, source, opm, k - 1, moments[k - 1], ExtractPhase(b, dir, source, moments, opm, fs, rel, k - 1));
  }

  /** A loop that has not raised after k moments had not raised after k - 1,
      and moment k - 1 had both of its times. */
  lemma {:induction false} PhaseStepTimes(b: Backend, dir: Path, source: Path, moments: seq<Moment>,
                                          opm: seq<seq<OverlaySpec>>, fs: FileSystem, rel: seq<Handle>, k: nat)
    requires 0 < k <= |moments|
    requires ExtractPhase(b, dir, source, moments, opm, fs, rel, k).failure.None?
    ensures ExtractPhase(b, dir, source, moments, opm, fs, rel, k - 1).failure.None?
    ensures moments[k - 1].startTime.Some? && moments[k - 1].endTime.Some?
  {
    MomentStepBookkeeping(b, dir, source, opm, k - 1, moments[k - 1], ExtractPhase(b, dir, source, moments, opm, fs, rel, k - 1));
  }

  /** One iteration records at most one temp path, and exactly one unless it raises. */
  lemma {:induction false} CountStep(b: Backend, dir: Path, opm: seq<seq<OverlaySpec>>, i: nat, r: Run, r': Run)
    requires Advances(b, dir, opm, i, r, r')
    requires |r.temps| == i
    ensures |r'.temps| <= i + 1 && (r'.failure.None? ==> |r'.temps| == i + 1)
  {
  }

  /** The temp path recorded at index j is still there after one iteration. */
  lemma {:induction false} TempAtStep(b: Backend, dir: Path, opm: seq<seq<OverlaySpec>>, i: nat, r: Run, r': Run, j: nat)
    requires Advances(b, dir, opm, i, r, r')
    requires |r.temps| == i && (j < i ==> r.temps[j] == TempPath(dir, j))
    requires j < |r'.temps|
    ensures r'.temps[j] == TempPath(dir, j)
  {
  }

  /** A list whose every entry is the temp path of its index is TempPaths. */
  lemma {:induction false} TempPathsPointwise(dir: Path, temps: seq<Path>)
    requires forall j :: 0 <= j < |temps| ==> temps[j] == TempPath(dir, j)
    ensures temps == TempPaths(dir, |temps|)
  {
  }

  /** The clip-list bookkeeping is kept by one iteration. */
  lemma {:induction false} ClipsStep(b: Backend, dir: Path, opm: seq<seq<OverlaySpec>>, i: nat, r: Run, r': Run)
    requires r.failure.Some? ==> r' == r
    requires r.failure.None? ==> Advances(b, dir, opm, i, r, r')
    requires |r.loaded| == |r.clips| <= |r.temps| && (r.failure.None? ==> |r.clips| == |r.temps|)
    ensures |r'.loaded| == |r'.clips| <= |r'.temps| && (r'.failure.None? ==> |r'.clips| == |r'.temps|)
  {
  }

  /** The clip kept at index j is still its prepared clip after one iteration. */
  lemma {:induction false} PreparedStep(b: Backend, dir: Path, opm: seq<seq<OverlaySpec>>, i: nat, r: Run, r': Run, j: nat)
    requires r.failure.Some? ==> r' == r
    requires r.failure.None? ==> Advances(b, dir, opm, i, r, r')
    requires |r.loaded| == |r.clips| && (r.failure.None? ==> |r.clips| == i)
    requires j < |r.clips| ==> r.clips[j] == Prepare(b, opm, j, r.loaded[j])
    requires j < |r'.clips| && j < |r'.loaded|
    ensures r'.clips[j] == Prepare(b, opm, j, r'.loaded[j])
  {
    if r.failure.None? && j < |r.clips| && r'.failure.None? {
      assert r'.loaded[j] == r'.loaded[..|r.loaded|][j];
    }
  }

  /** temp_clips holds at most one path per moment reached, and with no
      exception one for every moment so far. */
  lemma {:induction false} PhaseCount(b: Backend, dir: Path, source: Path, moments: seq<Moment>,
                                      opm: seq<seq<OverlaySpec>>, fs: FileSystem, rel: seq<Handle>, k: nat)
    requires k <= |moments|
    ensures |ExtractPhase(b, dir, source, moments, opm, fs, rel, k).temps| <= k
    ensures ExtractPhase(b, dir, source, moments, opm, fs, rel, k).failure.None? ==>
              |ExtractPhase(b, dir, source, moments, opm, fs, rel, k).temps| == k
  {
    if k > 0 {
      PhaseCount(b, dir, source, moments, opm, fs, rel, k - 1);
      if ExtractPhase(b, dir, source, moments, opm, fs, rel, k - 1).failure.Some? {
        PhaseStepFailed(b, dir, source, moments, opm, fs, rel, k);
      } else {
        PhaseStepAdvances(b, dir, source, moments, opm, fs, rel, k);
        CountStep(b, dir, opm, k - 1, ExtractPhase(b, dir, source, moments, opm, fs, rel, k - 1),
                  ExtractPhase(b, dir, source, moments, opm, fs, rel, k));
      }
    }
  }

  /** Entry j of temp_clips is the temp path of moment j. */
  lemma {:induction false} PhaseTempAt(b: Backend, dir: Path, source: Path, moments: seq<Moment>,
                                       opm: seq<seq<OverlaySpec>>, fs: FileSystem, rel: seq<Handle>, k: nat, j: nat)
    requires k <= |moments|
    requires j < |ExtractPhase(b, dir, source, moments, opm, fs, rel, k).temps|
    ensures ExtractPhase(b, dir, source, moments, opm, fs, rel, k).temps[j] == TempPath(dir, j)
  {
    if k > 0 {
      var r := ExtractPhase(b, dir, source, moments, opm, fs, rel, k - 1);
      if r.failure.Some? {
        PhaseStepFailed(b, dir, source, moments, opm, fs, rel, k);
        PhaseTempAt(b, dir, source, moments, opm, fs, rel, k - 1, j);
      } else {
        PhaseStepAdvances(b, dir, source, moments, opm, fs, rel, k);
        PhaseCount(b, dir, source, moments, opm, fs, rel, k - 1);
        if j < |r.temps| {
          PhaseTempAt(b, dir, source, moments, opm, fs, rel, k - 1, j);
        }
        TempAtStep(b, dir, opm, k - 1, r, ExtractPhase(b, dir, source, moments, opm, fs, rel, k), j);
      }
    }
  }

  /** temp_clips holds the temp paths of the moments extracted so far, in
      index order. */
  lemma {:induction false} PhaseTemps(b: Backend, dir: Path, source: Path, moments: seq<Moment>,
                                      opm: seq<seq<OverlaySpec>>, fs: FileSystem, rel: seq<Handle>, k: nat)
    requires k <= |moments|
    ensures ExtractPhase(b, dir, source, moments, opm, fs, rel, k).temps
            == TempPaths(dir, |ExtractPhase(b, dir, source, moments, opm, fs, rel, k).temps|)
  {
    var temps := ExtractPhase(b, dir, source, moments, opm, fs, rel, k).temps;
    forall j | 0 <= j < |temps| ensures temps[j] == TempPath(dir, j) {
      PhaseTempAt(b, dir, source, moments, opm, fs, rel, k, j);
    }
    TempPathsPointwise(dir, temps);
  }

  /** With no exception, every moment so far had both of its times. */
  lemma {:induction false} PhaseTimes(b: Backend, dir: Path, source: Path, moments: seq<Moment>,
                                      opm: seq<seq<OverlaySpec>>, fs: FileSystem, rel: seq<Handle>, k: nat)
    requires k <= |moments|
    requires ExtractPhase(b, dir, source, moments, opm, fs, rel, k).failure.None?
    ensures forall j :: 0 <= j < k ==> moments[j].startTime.Some? && moments[j].endTime.Some?
  {
    if k > 0 {
      PhaseStepTimes(b, dir, source, moments, opm, fs, rel, k);
      PhaseTimes(b, dir, source, moments, opm, fs, rel, k - 1);
    }
  }

  /** clip_objects has one clip per clip read back, in order, each overlaid
      iff its index has an overlay list. */
  lemma {:induction false} PhaseClips(b: Backend, dir: Path, source: Path, moments: seq<Moment>,
                                      opm: seq<seq<OverlaySpec>>, fs: FileSystem, rel: seq<Handle>, k: nat)
    requires k <= |moments|
    ensures var r := ExtractPhase(b, dir, source, moments, opm, fs, rel, k);
            |r.loaded| == |r.clips| <= |r.temps| && (r.failure.None? ==> |r.clips| == |r.temps|)
  {
    if k > 0 {
      PhaseClips(b, dir, source, moments, opm, fs, rel, k - 1);
      if ExtractPhase(b, dir, source, moments, opm, fs, rel, k - 1).failure.Some? {
        PhaseStepFailed(b, dir, source, moments, opm, fs, rel, k);
      } else {
        PhaseStepAdvances(b, dir, source, moments, opm, fs, rel, k);
        ClipsStep(b, dir, opm, k - 1, ExtractPhase(b, dir, source, moments, opm, fs, rel, k - 1),
                  ExtractPhase(b, dir, source, moments, opm, fs, rel, k));
      }
    }
  }

  /** Moment j's clip is the clip read back from its temp file, overlaid iff
      j has an overlay list. */
  lemma {:induction false} PhasePrepared(b: Backend, dir: Path, source: Path, moments: seq<Moment>,
                                         opm: seq<seq<OverlaySpec>>, fs: FileSystem, rel: seq<Handle>, k: nat, j: nat)
    requires k <= |moments|
    requires j < |ExtractPhase(b, dir, source, moments, opm, fs, rel, k).clips|
    requires j < |ExtractPhase(b, dir, source, moments, opm, fs, rel, k).loaded|
    ensures ExtractPhase(b, dir, source, moments, opm, fs, rel, k).clips[j]
            == Prepare(b, opm, j, ExtractPhase(b, dir, source, moments, opm, fs, rel, k).loaded[j])
  {
    if k > 0 {
      var r := ExtractPhase(b, dir, source, moments, opm, fs, rel, k - 1);
      if r.failure.Some? {
        PhaseStepFailed(b, dir, source, moments, opm, fs, rel, k);
        PhasePrepared(b, dir, source, moments, opm, fs, rel, k - 1, j);
      } else {
        PhaseStepAdvances(b, dir, source, moments, opm, fs, rel, k);
        PhaseClips(b, dir, source, moments, opm, fs, rel, k - 1);
        PhaseCount(b, dir, source, moments, opm, fs, rel, k - 1);
        if j < |r.clips| {
          PhasePrepared(b, dir, source, moments, opm, fs, rel, k - 1, j);
        }
        PreparedStep(b, dir, opm, k - 1, r, ExtractPhase(b, dir, source, moments, opm, fs, rel, k), j);
      }
    }
  }

  /** All of the loop's bookkeeping facts together. */
  lemma {:induction false} PhaseShape(b: Backend, dir: Path, source: Path, moments: seq<Moment>,
                                      opm: seq<seq<OverlaySpec>>, fs: FileSystem, rel: seq<Handle>, k: nat)
    requires k <= |moments|
    ensures var r := ExtractPhase(b, dir, source, moments, opm, fs, rel, k);
            && r.temps == TempPaths(dir, |r.temps|)
            && |r.loaded| == |r.clips| <= |r.temps| <= k
            && (r.failure.None? ==> |r.temps| == k && |r.clips| == k)
            && (r.failure.None? ==> forall j :: 0 <= j < k ==> moments[j].startTime.Some? && moments[j].endTime.Some?)
            && (forall j :: 0 <= j < |r.clips| ==> r.clips[j] == Prepare(b, opm, j, r.loaded[j]))
  {
    PhaseCount(b, dir, source, moments, opm, fs, rel, k);
    PhaseTemps(b, dir, source, moments, opm, fs, rel, k);
    PhaseClips(b, dir, source, moments, opm, fs, rel, k);
    forall j | 0 <= j < |ExtractPhase(b, dir, source, moments, opm, fs, rel, k).clips|
      ensures ExtractPhase(b, dir, source, moments, opm, fs, rel, k).clips[j]
              == Prepare(b, opm, j, ExtractPhase(b, dir, source, moments, opm, fs, rel, k).loaded[j])
    {
      PhasePrepared(b, dir, source, moments, opm, fs, rel, k, j);
    }
    if ExtractPhase(b, dir, source, moments, opm, fs, rel, k).failure.None? {
      PhaseTimes(b, dir, source, moments, opm, fs, rel, k);
    }
  }

  /** One iteration writes to no path but the temp path of its index. */
  lemma {:induction false} MomentStepFrame(b: Backend, dir: Path, source: Path, opm: seq<seq<OverlaySpec>>,
                                           i: nat, m: Moment, r: Run, p: Path)
    requires p != TempPath(dir, i)
    ensures SameAt(MomentStep(b, dir, source, opm, i, m, r).fs, r.fs, p)
  {
    if m.startTime.Some? && m.endTime.Some? {
      ExtractOutcome(b, dir, r.fs, r.released, source, m.startTime.value, m.endTime.value, Some(TempPath(dir, i)));
    }
  }

  /** The loop writes to no path but the temp paths of the moments it reached. */
  lemma {:induction false} PhaseFrame(b: Backend, dir: Path, source: Path, moments: seq<Moment>,
                                      opm: seq<seq<OverlaySpec>>, fs: FileSystem, rel: seq<Handle>, k: nat, p: Path)
    requires k <= |moments|
    requires forall j :: 0 <= j < k ==> p != TempPath(dir, j)
    ensures SameAt(ExtractPhase(b, dir, source, moments, opm, fs, rel, k).fs, fs, p)
  {
    if k > 0 {
      PhaseFrame(b, dir, source, moments, opm, fs, rel, k - 1, p);
      var r := ExtractPhase(b, dir, source, moments, opm, fs, rel, k - 1);
      if r.failure.None? {
        MomentStepFrame(b, dir, source, opm, k - 1, moments[k - 1], r, p);
      }
    }
  }

  /** c is moment m's cut of the video at `source` in fs: the moment has
      both times, the source opens, and subclip(start, end) gives c. */
  predicate IsCut(b: Backend, fs: FileSystem, source: Path, m: Moment, c: Clip) {
    && m.startTime.Some? && m.endTime.Some? && Open(b, fs, source).Some?
    && b.subclip(Open(b, fs, source).value, m.startTime.value, m.endTime.value) == Some(c)
  }

  /** An iteration that records its temp path had both times and cut them
      out of the source it read; the temp path holds that cut, and when
      nothing raised the clip read back is that cut. */
  lemma {:induction false} MomentStepCut(b: Backend, dir: Path, source: Path, opm: seq<seq<OverlaySpec>>,
                                         i: nat, m: Moment, r: Run)
    ensures var r' := MomentStep(b, dir, source, opm, i, m, r);
            r'.temps != r.temps ==>
              && m.startTime.Some? && m.endTime.Some?
              && Open(b, r.fs, source).Some?
              && var cut := b.subclip(Open(b, r.fs, source).value, m.startTime.value, m.endTime.value);
                 && cut.Some?
                 && TempPath(dir, i) in r'.fs && r'.fs[TempPath(dir, i)] == Video(cut.value)
                 && (r'.failure.None? ==> |r'.loaded| == |r.loaded| + 1 && r'.loaded[|r.loaded|] == cut.value)
  {
    if m.startTime.Some? && m.endTime.Some? {
      ExtractOutcome(b, dir, r.fs, r.released, source, m.startTime.value, m.endTime.value, Some(TempPath(dir, i)));
    }
  }

  /** Clip j read back by the loop is moment j's cut of the source video, as
      the source was before the loop, when the source is none of the temp
      paths the loop writes. */
  lemma {:induction false} PhaseLoaded(b: Backend, dir: Path, source: Path, moments: seq<Moment>,
                                       opm: seq<seq<OverlaySpec>>, fs: FileSystem, rel: seq<Handle>, k: nat, j: nat)
    requires k <= |moments|
    requires forall i :: 0 <= i < k ==> source != TempPath(dir, i)
    requires j < |ExtractPhase(b, dir, source, moments, opm, fs, rel, k).loaded|
    ensures j < k && IsCut(b, fs, source, moments[j], ExtractPhase(b, dir, source, moments, opm, fs, rel, k).loaded[j])
  {
    PhaseLoadedSize(b, dir, source, moments, opm, fs, rel, k);
    var r := ExtractPhase(b, dir, source, moments, opm, fs, rel, k - 1);
    PhaseLoadedSize(b, dir, source, moments, opm, fs, rel, k - 1);
    if r.failure.Some? {
      PhaseStepFailed(b, dir, source, moments, opm, fs, rel, k);
      PhaseLoaded(b, dir, source, moments, opm, fs, rel, k - 1, j);
    } else {
      if j < |r.loaded| {
        PhaseLoaded(b, dir, source, moments, opm, fs, rel, k - 1, j);
        PhaseLoadedKept(b, dir, source, moments, opm, fs, rel, k, j);
      } else {
        PhaseFrame(b, dir, source, moments, opm, fs, rel, k - 1, source);
        PhaseLoadedNew(b, dir, source, moments, opm, fs, rel, k);
        assert j == k - 1;
      }
    }
  }

  /** At most one clip is read back per moment, and one per moment when
      nothing raised. */
  lemma {:induction false} PhaseLoadedSize(b: Backend, dir: Path, source: Path, moments: seq<Moment>,
                                           opm: seq<seq<OverlaySpec>>, fs: FileSystem, rel: seq<Handle>, k: nat)
    requires k <= |moments|
    ensures |ExtractPhase(b, dir, source, moments, opm, fs, rel, k).loaded| <= k
    ensures ExtractPhase(b, dir, source, moments, opm, fs, rel, k).failure.None? ==>
              |ExtractPhase(b, dir, source, moments, opm, fs, rel, k).loaded| == k
  {
    PhaseShape(b, dir, source, moments, opm, fs, rel, k);
  }

  lemma {:induction false} PhaseLoadedKept(b: Backend, dir: Path, source: Path, moments: seq<Moment>,
                                           opm: seq<seq<OverlaySpec>>, fs: FileSystem, rel: seq<Handle>, k: nat, j: nat)
    requires 0 < k <= |moments|
    requires ExtractPhase(b, dir, source, moments, opm, fs, rel, k - 1).failure.None?
    requires j < |ExtractPhase(b, dir, source, moments, opm, fs, rel, k - 1).loaded|
    ensures j < |ExtractPhase(b, dir, source, moments, opm, fs, rel, k).loaded|
    ensures ExtractPhase(b, dir, source, moments, opm, fs, rel, k).loaded[j]
            == ExtractPhase(b, dir, source, moments, opm, fs, rel, k - 1).loaded[j]
  {
    PhaseStepIs(b, dir, source, moments, opm, fs, rel, k);
    LoadedKept(b, dir, source, opm, k - 1, moments[k - 1], ExtractPhase(b, dir, source, moments, opm, fs, rel, k - 1), j);
  }

  lemma {:induction false} PhaseLoadedNew(b: Backend, dir: Path, source: Path, moments: seq<Moment>,
                                          opm: seq<seq<OverlaySpec>>, fs: FileSystem, rel: seq<Handle>, k: nat)
    requires 0 < k <= |moments|
    requires ExtractPhase(b, dir, source, moments, opm, fs, rel, k - 1).failure.None?
    requires SameAt(ExtractPhase(b, dir, source, moments, opm, fs, rel, k - 1).fs, fs, source)
    requires |ExtractPhase(b, dir, source, moments, opm, fs, rel, k - 1).loaded|
             < |ExtractPhase(b, dir, source, moments, opm, fs, rel, k).loaded|
    ensures var n := |ExtractPhase(b, dir, source, moments, opm, fs, rel, k - 1).loaded|;
            && |ExtractPhase(b, dir, source, moments, opm, fs, rel, k).loaded| == n + 1
            && IsCut(b, fs, source, moments[k - 1], ExtractPhase(b, dir, source, moments, opm, fs, rel, k).loaded[n])
  {
    PhaseStepIs(b, dir, source, moments, opm, fs, rel, k);
    LoadedNew(b, dir, source, opm, k - 1, moments[k - 1], ExtractPhase(b, dir, source, moments, opm, fs, rel, k - 1), fs);
  }

  /** When the loop had not raised after k - 1 moments, the state after k is
      one iteration further. */
  lemma {:induction false} PhaseStepIs(b: Backend, dir: Path, source: Path, moments: seq<Moment>,
                                       opm: seq<seq<OverlaySpec>>, fs: FileSystem, rel: seq<Handle>, k: nat)
    requires 0 < k <= |moments|
    requires ExtractPhase(b, dir, source, moments, opm, fs, rel, k - 1).failure.None?
    ensures ExtractPhase(b, dir, source, moments, opm, fs, rel, k)
            == MomentStep(b, dir, source, opm, k - 1, moments[k - 1], ExtractPhase(b, dir, source, moments, opm, fs, rel, k - 1))
  {
  }

  /** One iteration keeps the clips already read back. */
  lemma {:induction false} LoadedKept(b: Backend, dir: Path, source: Path, opm: seq<seq<OverlaySpec>>,
                                      i: nat, m: Moment, r: Run, j: nat)
    requires j < |r.loaded|
    ensures j < |MomentStep(b, dir, source, opm, i, m, r).loaded|
    ensures MomentStep(b, dir, source, opm, i, m, r).loaded[j] == r.loaded[j]
  {
    MomentStepBookkeeping(b, dir, source, opm, i, m, r);
    var r' := MomentStep(b, dir, source, opm, i, m, r);
    assert r'.loaded[j] == r'.loaded[..|r.loaded|][j];
  }

  /** A clip read back by one iteration is its moment's cut of the source, as
      the source is in any filesystem that agrees with the loop's on it. */
  lemma {:induction false} LoadedNew(b: Backend, dir: Path, source: Path, opm: seq<seq<OverlaySpec>>,
                                     i: nat, m: Moment, r: Run, fs0: FileSystem)
    requires SameAt(r.fs, fs0, source)
    requires |r.loaded| < |MomentStep(b, dir, source, opm, i, m, r).loaded|
    ensures |MomentStep(b, dir, source, opm, i, m, r).loaded| == |r.loaded| + 1
    ensures IsCut(b, fs0, source, m, MomentStep(b, dir, source, opm, i, m, r).loaded[|r.loaded|])
  {
    MomentStepBookkeeping(b, dir, source, opm, i, m, r);
    MomentStepCut(b, dir, source, opm, i, m, r);
  }

  /** An extraction that fails after creating its file leaves it at the temp
      path of the next index, which was never recorded. */
  lemma {:induction false} PhasePartial(b: Backend, dir: Path, source: Path, moments: seq<Moment>,
                                        opm: seq<seq<OverlaySpec>>, fs: FileSystem, rel: seq<Handle>, k: nat)
    requires k <= |moments|
    ensures var r := ExtractPhase(b, dir, source, moments, opm, fs, rel, k);
            r.failure.Some? && r.failure.value.EncodeFailed? && r.failure.value.partial ==>
              r.failure.value.path == TempPath(dir, |r.temps|) && r.failure.value.path in r.fs
  {
    if k > 0 {
      var r := ExtractPhase(b, dir, source, moments, opm, fs, rel, k - 1);
      if r.failure.Some? {
        PhasePartial(b, dir, source, moments, opm, fs, rel, k - 1);
      } else {
        PhaseCount(b, dir, source, moments, opm, fs, rel, k - 1);
        MomentStepPartial(b, dir, source, opm, k - 1, moments[k - 1], r);
      }
    }
  }

  /** An iteration whose write fails after creating the file leaves it at the
      temp path of its index and does not record it. */
  lemma {:induction false} MomentStepPartial(b: Backend, dir: Path, source: Path, opm: seq<seq<OverlaySpec>>,
                                             i: nat, m: Moment, r: Run)
    ensures var r' := MomentStep(b, dir, source, opm, i, m, r);
            r'.failure.Some? && r'.failure.value.EncodeFailed? && r'.failure.value.partial ==>
              r'.failure.value.path == TempPath(dir, i) && r'.temps == r.temps && r'.failure.value.path in r'.fs
  {
  }

  /** The cleanup removes exactly the recorded temp paths that exist, and
      touches nothing else. */
  lemma {:induction false} CleanedSpec(fs: FileSystem, temps: seq<Path>)
    ensures forall p :: p in Cleaned(fs, temps) <==> p in fs && p !in temps
    ensures forall p :: p in Cleaned(fs, temps) ==> Cleaned(fs, temps)[p] == fs[p]
    decreases |temps|
  {
    if temps != [] {
      CleanedSpec(fs, temps[..|temps| - 1]);
      assert forall p :: p in temps <==> p in temps[..|temps| - 1] || p == temps[|temps| - 1] by {
        assert temps == temps[..|temps| - 1] + [temps[|temps| - 1]];
      }
    }
  }

  /** On success and on every exception, no recorded temp path exists
      afterwards; the recorded paths are the temp paths of the first
      moments, in order. */
  lemma {:induction false} CleanupComplete(b: Backend, dir: Path, fs: FileSystem, rel: seq<Handle>, source: Path,
                                           moments: seq<Moment>, opm: seq<seq<OverlaySpec>>, name: string)
    ensures var o := Compilation(b, dir, fs, rel, source, moments, opm, name);
            && o.temps == TempPaths(dir, |o.temps|) && |o.temps| <= |moments|
            && forall t :: t in o.temps ==> t !in o.fs
  {
    var r := ExtractPhase(b, dir, source, moments, opm, fs, rel, |moments|);
    PhaseShape(b, dir, source, moments, opm, fs, rel, |moments|);
    if r.failure.Some? {
      CleanedSpec(r.fs, r.temps);
    } else {
      var c := CompileEffect(b, r.fs, r.released, r.clips, PathJoin(dir, name), true, TransitionSeconds);
      CleanedSpec(c.fs, r.temps);
    }
  }

  /** Paths that are neither a moment's temp path nor the output keep their
      content, however the call ends. */
  lemma {:induction false} CompilationFrame(b: Backend, dir: Path, fs: FileSystem, rel: seq<Handle>, source: Path,
                                            moments: seq<Moment>, opm: seq<seq<OverlaySpec>>, name: string, p: Path)
    requires p != PathJoin(dir, name)
    requires forall j :: 0 <= j < |moments| ==> p != TempPath(dir, j)
    ensures SameAt(Compilation(b, dir, fs, rel, source, moments, opm, name).fs, fs, p)
  {
    var r := ExtractPhase(b, dir, source, moments, opm, fs, rel, |moments|);
    PhaseFrame(b, dir, source, moments, opm, fs, rel, |moments|, p);
    PhaseShape(b, dir, source, moments, opm, fs, rel, |moments|);
    assert p !in r.temps;
    if r.failure.Some? {
      CleanedSpec(r.fs, r.temps);
    } else {
      var out := PathJoin(dir, name);
      var c := CompileEffect(b, r.fs, r.released, r.clips, out, true, TransitionSeconds);
      CompileOutcome(b, r.fs, r.released, r.clips, out, true, TransitionSeconds);
      CleanedSpec(c.fs, r.temps);
    }
  }

  /** A partially written file named by the exception survives iff it is not
      a recorded temp path; when it is not the output, it is the unrecorded
      temp path of the moment that failed. */
  lemma {:induction false} PartialFileSurvives(b: Backend, dir: Path, fs: FileSystem, rel: seq<Handle>, source: Path,
                                               moments: seq<Moment>, opm: seq<seq<OverlaySpec>>, name: string, p: Path)
    requires Compilation(b, dir, fs, rel, source, moments, opm, name).result == Err(EncodeFailed(p, true))
    ensures var o := Compilation(b, dir, fs, rel, source, moments, opm, name);
            && (p in o.fs <==> p !in o.temps)
            && (p != PathJoin(dir, name) ==> p == TempPath(dir, |o.temps|) && p !in o.temps && p in o.fs)
  {
    var r := ExtractPhase(b, dir, source, moments, opm, fs, rel, |moments|);
    PhaseShape(b, dir, source, moments, opm, fs, rel, |moments|);
    PhasePartial(b, dir, source, moments, opm, fs, rel, |moments|);
    if r.failure.Some? {
      CleanedSpec(r.fs, r.temps);
      if p in r.temps {
        var j :| 0 <= j < |r.temps| && r.temps[j] == p;
        TempPathInjective(dir, j, |r.temps|);
      }
    } else {
      var out := PathJoin(dir, name);
      var c := CompileEffect(b, r.fs, r.released, r.clips, out, true, TransitionSeconds);
      CompileOutcome(b, r.fs, r.released, r.clips, out, true, TransitionSeconds);
      CleanedSpec(c.fs, r.temps);
    }
  }

  /** On success: every moment had both times, and a temp path and a clip
      were recorded for each, in index order (what each clip is, is stated by
      CompilationCuts); the output path is returned and, unless it is one of
      the temp paths, holds the concatenation of the clips with transitions,
      as long as those clips together. */
  lemma {:induction false} CompilationSuccess(b: Backend, dir: Path, fs: FileSystem, rel: seq<Handle>, source: Path,
                                              moments: seq<Moment>, opm: seq<seq<OverlaySpec>>, name: string)
    requires Compilation(b, dir, fs, rel, source, moments, opm, name).result.Ok?
    ensures var o := Compilation(b, dir, fs, rel, source, moments, opm, name);
            var out := PathJoin(dir, name);
            && o.result.value == out
            && moments != []
            && (forall j :: 0 <= j < |moments| ==> moments[j].startTime.Some? && moments[j].endTime.Some?)
            && o.temps == TempPaths(dir, |moments|)
            && |o.loaded| == |o.clips| == |moments|
            && (out in o.fs <==> out !in o.temps)
            && (out !in o.temps ==>
                  && o.fs[out] == Video(Concatenation(Transitioned(b, o.clips, true, TransitionSeconds)))
                  && o.fs[out].clip.duration == TotalDuration(o.clips))
  {
    var r := ExtractPhase(b, dir, source, moments, opm, fs, rel, |moments|);
    PhaseShape(b, dir, source, moments, opm, fs, rel, |moments|);
    var out := PathJoin(dir, name);
    var c := CompileEffect(b, r.fs, r.released, r.clips, out, true, TransitionSeconds);
    CompileOutcome(b, r.fs, r.released, r.clips, out, true, TransitionSeconds);
    CleanedSpec(c.fs, r.temps);
  }

  /** On success, clip j read back is exactly moment j's cut of the source
      video, and the clip compiled for it is that cut, overlaid iff j has an
      overlay list; so the compilation joins the moments' cuts in moment
      order. This needs the source to be none of the temp paths. */
  lemma {:induction false} CompilationCuts(b: Backend, dir: Path, fs: FileSystem, rel: seq<Handle>, source: Path,
                                           moments: seq<Moment>, opm: seq<seq<OverlaySpec>>, name: string)
    requires Compilation(b, dir, fs, rel, source, moments, opm, name).result.Ok?
    requires forall i :: 0 <= i < |moments| ==> source != TempPath(dir, i)
    ensures var o := Compilation(b, dir, fs, rel, source, moments, opm, name);
            && Open(b, fs, source).Some?
            && |o.loaded| == |o.clips| == |moments|
            && forall j :: 0 <= j < |moments| ==>
                 IsCut(b, fs, source, moments[j], o.loaded[j]) && o.clips[j] == Prepare(b, opm, j, o.loaded[j])
  {
    var r := ExtractPhase(b, dir, source, moments, opm, fs, rel, |moments|);
    CompilationSuccess(b, dir, fs, rel, source, moments, opm, name);
    PhaseShape(b, dir, source, moments, opm, fs, rel, |moments|);
    PhaseLoaded(b, dir, source, moments, opm, fs, rel, |moments|, 0);
    forall j | 0 <= j < |moments|
      ensures IsCut(b, fs, source, moments[j], r.loaded[j])
    {
      PhaseLoaded(b, dir, source, moments, opm, fs, rel, |moments|, j);
    }
  }

  /** A successful compilation answers with the output path it was named. */
  lemma {:induction false} CompilationAnswer(b: Backend, dir: Path, fs: FileSystem, rel: seq<Handle>, source: Path,
                                             moments: seq<Moment>, opm: seq<seq<OverlaySpec>>, name: string)
    requires Compilation(b, dir, fs, rel, source, moments, opm, name).result.Ok?
    ensures Compilation(b, dir, fs, rel, source, moments, opm, name).result.value == PathJoin(dir, name)
  {
    var r := ExtractPhase(b, dir, source, moments, opm, fs, rel, |moments|);
    CompileOutcome(b, r.fs, r.released, r.clips, PathJoin(dir, name), true, TransitionSeconds);
  }

  /** The output of a successful compilation is deleted by the cleanup iff its
      name is the temp name of one of the moments. */
  lemma {:induction false} OutputSurvivesIff(b: Backend, dir: Path, fs: FileSystem, rel: seq<Handle>, source: Path,
                                             moments: seq<Moment>, opm: seq<seq<OverlaySpec>>, name: string)
    requires Compilation(b, dir, fs, rel, source, moments, opm, name).result.Ok?
    requires !Strings.StartsWith(name, "/")
    ensures var o := Compilation(b, dir, fs, rel, source, moments, opm, name);
            PathJoin(dir, name) in o.fs <==> forall j :: 0 <= j < |moments| ==> name != TempName(j)
  {
    CompilationSuccess(b, dir, fs, rel, source, moments, opm, name);
    var o := Compilation(b, dir, fs, rel, source, moments, opm, name);
    var out := PathJoin(dir, name);
    forall j | 0 <= j < |moments| ensures out == o.temps[j] <==> name == TempName(j) {
      TempNameRelative(j);
      PathJoinInjective(dir, name, TempName(j));
    }
  }

  /** Moment i's clip carries text overlays iff i < len(text_overlays_per_moment);
      the others are the clips exactly as read back. */
  lemma {:induction false} OverlayIff(b: Backend, dir: Path, fs: FileSystem, rel: seq<Handle>, source: Path,
                                      moments: seq<Moment>, opm: seq<seq<OverlaySpec>>, name: string)
    ensures var o := Compilation(b, dir, fs, rel, source, moments, opm, name);
            && |o.clips| == |o.loaded|
            && (forall j :: 0 <= j < |o.clips| && j < |opm| ==> o.clips[j] == WithOverlays(b, o.loaded[j], opm[j]))
            && (forall j :: |opm| <= j < |o.clips| ==> o.clips[j] == o.loaded[j])
  {
    PhaseShape(b, dir, source, moments, opm, fs, rel, |moments|);
  }

  /** With no moments there is nothing to concatenate: the call raises and
      leaves the filesystem and the readers as they were. */
  lemma {:induction false} EmptyCompilationFails(b: Backend, dir: Path, fs: FileSystem, rel: seq<Handle>, source: Path,
                                                 opm: seq<seq<OverlaySpec>>, name: string)
    ensures var o := Compilation(b, dir, fs, rel, source, [], opm, name);
            o.result == Err(ConcatenateFailed) && o.fs == fs && o.released == rel && o.temps == []
  {
  }
}
