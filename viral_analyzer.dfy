/** ViralMomentAnalyzer: what it does with the language model's answers. The
    calls to the model are not part of this model: each answer is a
    parameter (None when the call raised or returned no content). json.loads
    is an oracle `loads` from text to a JSON value, None when it raises. */
module ViralAnalyzer {
  import opened Common
  import opened Records
  import opened Strings

  // ---- code fences ----

  /** The clean-up applied to every JSON answer: strip; when the text starts
      with ```, drop its first and last lines (if it has more than two), and
      then a leading "json" tag. It never lengthens the answer, and text that
      does not start with a fence once stripped is only stripped. */
  function StripCodeFence(raw: string): (r: string)
    ensures |r| <= |raw|
    ensures !StartsWith(Strip(raw), "```") ==> r == Strip(raw)
  {
    var content := Strip(raw);
    if StartsWith(content, "```") then DropJsonTag(Unfence(content)) else content
  }

  /** '\n'.join(lines[1:-1]) if len(lines) > 2 else the text itself: never
      longer than the text, and the text itself when it has at most one line
      break. */
  function Unfence(content: string): (r: string)
    ensures |r| <= |content|
    ensures Count(content, '\n') <= 1 ==> r == content
  {
    var lines := Split(content, '\n');
    SplitCount(content, '\n');
    if |lines| > 2 then
      InnerPieces(content, '\n');
      Join(lines[1..|lines| - 1], '\n')
    else content
  }

  /** content[4:].strip() when the content starts with "json"; shorter then,
      and the content itself otherwise. */
  function DropJsonTag(inner: string): (r: string)
    ensures |r| <= |inner|
    ensures StartsWith(inner, "json") ==> |r| <= |inner| - 4
    ensures !StartsWith(inner, "json") ==> r == inner
  {
    if StartsWith(inner, "json") then Strip(inner[4..]) else inner
  }

  /** Text already stripped and not fenced comes back unchanged. */
  lemma {:induction false} PlainTextUnchanged(s: string)
    requires s == [] || (!IsSpace(s[0]) && !IsSpace(s[|s| - 1]))
    requires !StartsWith(s, "```")
    ensures StripCodeFence(s) == s
  {
    StripLeftIdle(s);
    StripRightIdle(s);
  }

  /** Text of at least three lines loses its first and last line. */
  lemma {:induction false} UnfenceInner(c: string)
    requires Count(c, '\n') >= 2
    ensures '\n' in c && IndexOf(c, '\n') < LastIndexOf(c, '\n')
    ensures Unfence(c) == c[IndexOf(c, '\n') + 1..LastIndexOf(c, '\n')]
  {
    InnerPieces(c, '\n');
  }

  /** A fenced text of at least three lines becomes the text strictly between
      its first and its last line break, less a leading "json". */
  lemma {:induction false} FenceInner(raw: string)
    requires StartsWith(Strip(raw), "```") && Count(Strip(raw), '\n') >= 2
    ensures var c := Strip(raw);
            '\n' in c && IndexOf(c, '\n') < LastIndexOf(c, '\n')
            && var t := c[IndexOf(c, '\n') + 1..LastIndexOf(c, '\n')];
               StripCodeFence(raw) == if StartsWith(t, "json") then Strip(t[4..]) else t
  {
    UnfenceInner(Strip(raw));
  }

  /** A fenced text of one or two lines is left as it is. */
  lemma {:induction false} FenceShort(raw: string)
    requires StartsWith(Strip(raw), "```") && Count(Strip(raw), '\n') <= 1
    ensures StripCodeFence(raw) == Strip(raw)
  {
    var c := Strip(raw);
    SplitCount(c, '\n');
    assert Unfence(c) == c;
    assert c[0] == '`';
    assert !StartsWith(c, "json");
  }

  /** A JSON block written as ```lang / body / ``` gives back its body (less
      a leading "json", stripped), whatever the body's own lines. */
  lemma {:induction false} FencedBlock(lang: string, body: string)
    requires '\n' !in lang
    ensures var s := "```" + lang + "\n" + body + "\n```";
            StripCodeFence(s) == if StartsWith(body, "json") then Strip(body[4..]) else body
  {
    var s := "```" + lang + "\n" + body + "\n```";
    var a, z := "```" + lang, "```";
    FenceLayout(lang, body);
    FenceAround(s, a, body, z);
    assert StripCodeFence(s) == DropJsonTag(Unfence(s));
  }

  /** How a ```lang / body / ``` block is laid out. */
  lemma {:induction false} FenceLayout(lang: string, body: string)
    requires '\n' !in lang
    ensures var s := "```" + lang + "\n" + body + "\n```";
            && s == ("```" + lang) + "\n" + body + "\n" + "```"
            && Strip(s) == s && StartsWith(s, "```")
            && '\n' !in "```" + lang && '\n' !in "```"
  {
    var s := "```" + lang + "\n" + body + "\n```";
    var a := "```" + lang;
    assert s == a + "\n" + body + "\n" + "```";
    StripLeftIdle(s);
    StripRightIdle(s);
    assert s[..3] == "```";
    forall j | 0 <= j < |a| ensures a[j] != '\n' {
      if j >= 3 { assert a[j] == lang[j - 3]; }
    }
  }

  /** A text whose first and last lines are a and z unfences to what lies
      between them. */
  lemma {:induction false} FenceAround(s: string, a: string, m: string, z: string)
    requires s == a + "\n" + m + "\n" + z && '\n' !in a && '\n' !in z
    ensures Unfence(s) == m
  {
    Framed(s, a, m, z, '\n');
    CountFramed(s, a, m, z, '\n');
    UnfenceInner(s);
  }

  // ---- sorting by score ----

  /** x['score'] succeeds: x is an object with a "score" key. */
  predicate HasScore(x: Json) {
    x.Object? && "score" in x.fields
  }

  /** x['score'] is a number, so two such moments compare by it. */
  predicate Scored(x: Json) {
    HasScore(x) && Numeric(x.fields["score"])
  }

  predicate AllScored(ms: seq<Json>) {
    forall k :: 0 <= k < |ms| ==> Scored(ms[k])
  }

  /** The sort key x['score'], as a number. */
  function Key(x: Json): real {
    if Scored(x) then NumberOf(x.fields["score"]) else 0.0
  }

  predicate NonIncreasing(ms: seq<Json>) {
    forall i, j :: 0 <= i < j < |ms| ==> Key(ms[j]) <= Key(ms[i])
  }

  /** The moments whose key is v, in their order in `ms`. */
  function WithScore(ms: seq<Json>, v: real): seq<Json> {
    if ms == [] then []
    else (if Key(ms[0]) == v then [ms[0]] else []) + WithScore(ms[1..], v)
  }

  /** Put m before the first moment whose key is not greater than m's. */
  function Insert(m: Json, sorted: seq<Json>): (r: seq<Json>)
    ensures multiset(r) == multiset(sorted) + multiset{m}
  {
    if sorted == [] || Key(sorted[0]) <= Key(m) then [m] + sorted
    else
      assert sorted == [sorted[0]] + sorted[1..];
      [sorted[0]] + Insert(m, sorted[1..])
  }

  /** sorted(moments, key=lambda x: x['score'], reverse=True) on moments that
      all have a numeric score. */
  function SortByScore(ms: seq<Json>): (r: seq<Json>)
    requires AllScored(ms)
    ensures multiset(r) == multiset(ms) && |r| == |ms|
    ensures AllScored(r) && NonIncreasing(r)
  {
    if ms == [] then []
    else
      assert ms == [ms[0]] + ms[1..];
      var rest := SortByScore(ms[1..]);
      InsertSorted(ms[0], rest);
      InsertScored(ms[0], rest);
      Insert(ms[0], rest)
  }

  lemma {:induction false} InsertScored(m: Json, s: seq<Json>)
    requires Scored(m) && AllScored(s)
    ensures AllScored(Insert(m, s))
  {
    var r := Insert(m, s);
    forall k | 0 <= k < |r| ensures Scored(r[k]) {
      assert r[k] in multiset(r);
      assert r[k] in multiset(s) + multiset{m};
      if r[k] != m {
        assert r[k] in s;
      }
    }
  }

  lemma {:induction false} InsertSorted(m: Json, s: seq<Json>)
    requires NonIncreasing(s)
    ensures NonIncreasing(Insert(m, s))
    decreases |s|
  {
    if s != [] && Key(m) < Key(s[0]) {
      DropSorted(s);
      InsertSorted(m, s[1..]);
      forall k | 0 <= k < |s[1..]| ensures Key(s[1..][k]) <= Key(s[0]) {
        assert s[1..][k] == s[k + 1];
      }
      InsertBounded(m, s[1..], Key(s[0]));
      ConsSorted(s[0], Insert(m, s[1..]));
    }
  }

  lemma {:induction false} DropSorted(s: seq<Json>)
    requires s != [] && NonIncreasing(s)
    ensures NonIncreasing(s[1..])
  {
    forall i, j | 0 <= i < j < |s[1..]| ensures Key(s[1..][j]) <= Key(s[1..][i]) {
      assert s[1..][j] == s[j + 1] && s[1..][i] == s[i + 1];
    }
  }

  /** Inserting a moment no higher than x into moments no higher than x. */
  lemma {:induction false} InsertBounded(m: Json, s: seq<Json>, x: real)
    requires Key(m) <= x
    requires forall k :: 0 <= k < |s| ==> Key(s[k]) <= x
    ensures forall k :: 0 <= k < |Insert(m, s)| ==> Key(Insert(m, s)[k]) <= x
    decreases |s|
  {
    if s != [] && Key(s[0]) > Key(m) {
      forall k | 0 <= k < |s[1..]| ensures Key(s[1..][k]) <= x {
        assert s[1..][k] == s[k + 1];
      }
      InsertBounded(m, s[1..], x);
      var r := Insert(m, s);
      forall k | 0 <= k < |r| ensures Key(r[k]) <= x {
        if k > 0 { assert r[k] == Insert(m, s[1..])[k - 1]; }
      }
    } else {
      var r := [m] + s;
      forall k | 0 <= k < |r| ensures Key(r[k]) <= x {
        if k > 0 { assert r[k] == s[k - 1]; }
      }
    }
  }

  lemma {:induction false} ConsSorted(x: Json, t: seq<Json>)
    requires NonIncreasing(t)
    requires forall k :: 0 <= k < |t| ==> Key(t[k]) <= Key(x)
    ensures NonIncreasing([x] + t)
  {
    var r := [x] + t;
    forall i, j | 0 <= i < j < |r| ensures Key(r[j]) <= Key(r[i]) {
      assert r[j] == t[j - 1];
      if i > 0 { assert r[i] == t[i - 1]; }
    }
  }

  lemma {:induction false} WithScoreCons(x: Json, t: seq<Json>, v: real)
    ensures WithScore([x] + t, v) == (if Key(x) == v then [x] else []) + WithScore(t, v)
  {
    assert ([x] + t)[1..] == t;
  }

  /** Inserting keeps the moments of each key in order, m before the ones
      already there. */
  lemma {:induction false} InsertStable(m: Json, s: seq<Json>, v: real)
    ensures WithScore(Insert(m, s), v) == (if Key(m) == v then [m] else []) + WithScore(s, v)
    decreases |s|
  {
    if s != [] && Key(s[0]) > Key(m) {
      InsertStable(m, s[1..], v);
      WithScoreCons(s[0], Insert(m, s[1..]), v);
      assert s == [s[0]] + s[1..];
      WithScoreCons(s[0], s[1..], v);
      var a := if Key(s[0]) == v then [s[0]] else [];
      var b := if Key(m) == v then [m] else [];
      assert a == [] || b == [];
      assert WithScore(Insert(m, s), v) == a + (b + WithScore(s[1..], v));
    } else {
      WithScoreCons(m, s, v);
    }
  }

  /** The sort is stable: the moments of each score keep their input order. */
  lemma {:induction false} SortStable(ms: seq<Json>, v: real)
    requires AllScored(ms)
    ensures WithScore(SortByScore(ms), v) == WithScore(ms, v)
    decreases |ms|
  {
    if ms != [] {
      SortStable(ms[1..], v);
      InsertStable(ms[0], SortByScore(ms[1..]), v);
    }
  }

  // ---- analyze_transcription ----

  /** x['score'] succeeds on every item. */
  predicate AllHaveScore(ms: seq<Json>) {
    forall k :: 0 <= k < |ms| ==> HasScore(ms[k])
  }

  /** analyze_transcription once the model has answered. [] when the call
      raised, the answer does not parse, or it is not an array (sorting the
      keys or characters of anything else raises, or gives [] when empty);
      [] too when some item has no score. An array of at most one item is
      returned as it is; otherwise the moments, all with numeric scores, come
      back sorted by score, highest first, and stably. */
  function AnalyzeTranscription(response: Option<string>, loads: string -> Option<Json>): (r: seq<Json>)
    ensures response.None? ==> r == []
    ensures response.Some? ==>
              var parsed := loads(StripCodeFence(response.value));
              parsed.None? || !parsed.value.Array? ==> r == []
    ensures response.Some? && loads(StripCodeFence(response.value)).Some?
            && loads(StripCodeFence(response.value)).value.Array? ==>
              var ms := loads(StripCodeFence(response.value)).value.items;
              && (!AllHaveScore(ms) ==> r == [])
              && (AllHaveScore(ms) && |ms| <= 1 ==> r == ms)
              && (AllScored(ms) ==>
                    multiset(r) == multiset(ms) && NonIncreasing(r) && forall v :: WithScore(r, v) == WithScore(ms, v))
  {
    if response.None? then []
    else
      match loads(StripCodeFence(response.value))
      case None => []
      case Some(j) =>
        if !j.Array? || !AllHaveScore(j.items) then []
        else if |j.items| <= 1 then
          assert |j.items| == 1 ==> j.items == [j.items[0]];
          j.items
        else if AllScored(j.items) then
          assert forall v :: WithScore(SortByScore(j.items), v) == WithScore(j.items, v) by {
            forall v { SortStable(j.items, v); }
          }
          SortByScore(j.items)
        else []
  }

  // ---- generate_tts_script ----

  const TtsFallback: string := "Check out these incredible moments!"
  const SummaryLimit: nat := 3

  /** f"{value}" for a JSON value: a string is itself, null is "None", the
      booleans are "True" and "False"; numbers, arrays and objects are shown
      by `repr`, a parameter standing for Python's str() of them. */
  function Show(j: Json, repr: Json -> string): (r: string)
    ensures j.Str? ==> r == j.s
    ensures j.Null? ==> r == "None"
  {
    match j
    case Str(s) => s
    case Null => "None"
    case Bool(b) => if b then "True" else "False"
    case _ => repr(j)
  }

  /** m['start_time'], m['end_time'] and m['reason'] all succeed. */
  predicate HasSummaryKeys(m: Json) {
    m.Object? && "start_time" in m.fields && "end_time" in m.fields && "reason" in m.fields
  }

  /** f"- Moment {i+1} ({m['start_time']}s-{m['end_time']}s): {m['reason']}":
      it starts with the moment's number and ends with its reason. */
  function SummaryLine(i: nat, m: Json, repr: Json -> string): (r: string)
    requires HasSummaryKeys(m)
    ensures StartsWith(r, "- Moment " + NatToDecimal(i + 1) + " (")
    ensures var tail := "s): " + Show(m.fields["reason"], repr);
            |tail| <= |r| && r[|r| - |tail|..] == tail
  {
    var prefix := "- Moment " + NatToDecimal(i + 1) + " (";
    var tail := "s): " + Show(m.fields["reason"], repr);
    var r := prefix + Show(m.fields["start_time"], repr) + "s-" + Show(m.fields["end_time"], repr) + tail;
    assert r[..|prefix|] == prefix;
    assert r[|r| - |tail|..] == tail;
    r
  }

  /** The summary lines of the given moments, numbered by position; None when
      one of them lacks a key (a KeyError, or a TypeError for a moment that is
      not an object). */
  function SummaryLines(ms: seq<Json>, repr: Json -> string): (r: Option<seq<string>>)
    ensures r.Some? <==> forall k :: 0 <= k < |ms| ==> HasSummaryKeys(ms[k])
    ensures r.Some? ==> |r.value| == |ms| && forall k :: 0 <= k < |ms| ==> r.value[k] == SummaryLine(k, ms[k], repr)
  {
    if ms == [] then Some([])
    else
      match SummaryLines(ms[..|ms| - 1], repr)
      case None => None
      case Some(lines) =>
        if HasSummaryKeys(ms[|ms| - 1]) then Some(lines + [SummaryLine(|ms| - 1, ms[|ms| - 1], repr)]) else None
  }

  /** moments_summary: one line per moment for at most the first three; it
      exists iff each of those has its start, end and reason. */
  function MomentsSummary(ms: seq<Json>, repr: Json -> string): (r: Option<string>)
    ensures r.Some? <==> forall k :: 0 <= k < |ms| && k < SummaryLimit ==> HasSummaryKeys(ms[k])
  {
    var first := if |ms| <= SummaryLimit then ms else ms[..SummaryLimit];
    assert forall k :: 0 <= k < |first| ==> first[k] == ms[k];
    match SummaryLines(first, repr)
    case None => None
    case Some(lines) => Some(Join(lines, '\n'))
  }

  /** Only the first three moments matter to the summary. */
  lemma {:induction false} SummaryFirstThree(ms: seq<Json>, repr: Json -> string)
    requires |ms| > SummaryLimit
    ensures MomentsSummary(ms, repr) == MomentsSummary(ms[..SummaryLimit], repr)
  {
    assert ms[..SummaryLimit][..SummaryLimit] == ms[..SummaryLimit];
  }

  /** Text without a line break. */
  predicate OneLine(s: string) {
    '\n' !in s
  }

  /** The parts of a summary line hold no line break. */
  predicate OneLineParts(m: Json, repr: Json -> string)
    requires HasSummaryKeys(m)
  {
    OneLine(Show(m.fields["start_time"], repr)) && OneLine(Show(m.fields["end_time"], repr))
    && OneLine(Show(m.fields["reason"], repr))
  }

  /** A summary line holds no line break when its parts hold none. */
  lemma {:induction false} SummaryLineShape(i: nat, m: Json, repr: Json -> string)
    requires HasSummaryKeys(m) && OneLineParts(m, repr)
    ensures '\n' !in SummaryLine(i, m, repr)
  {
    var d := NatToDecimal(i + 1);
    var line := SummaryLine(i, m, repr);
    assert line == "- Moment " + d + " (" + Show(m.fields["start_time"], repr) + "s-"
                   + Show(m.fields["end_time"], repr) + "s): " + Show(m.fields["reason"], repr);
    assert forall j :: 0 <= j < |d| ==> d[j] != '\n';
  }

  /** When no part of a summarised moment holds a line break, the summary has
      exactly one line per summarised moment, the k-th numbered k+1. */
  lemma {:induction false} SummaryShape(ms: seq<Json>, repr: Json -> string)
    requires 0 < |ms|
    requires MomentsSummary(ms, repr).Some?
    requires forall k :: 0 <= k < |ms| && k < SummaryLimit ==> OneLineParts(ms[k], repr)
    ensures |Split(MomentsSummary(ms, repr).value, '\n')| == if |ms| <= SummaryLimit then |ms| else SummaryLimit
    ensures forall k :: 0 <= k < |Split(MomentsSummary(ms, repr).value, '\n')| ==>
              StartsWith(Split(MomentsSummary(ms, repr).value, '\n')[k], "- Moment " + NatToDecimal(k + 1) + " (")
  {
    var first := if |ms| <= SummaryLimit then ms else ms[..SummaryLimit];
    var lines := SummaryLines(first, repr).value;
    assert MomentsSummary(ms, repr).value == Join(lines, '\n');
    forall k | 0 <= k < |lines|
      ensures '\n' !in lines[k] && StartsWith(lines[k], "- Moment " + NatToDecimal(k + 1) + " (")
    {
      assert first[k] == ms[k] && k < SummaryLimit;
      SummaryLineShape(k, first[k], repr);
    }
    SplitJoin(lines, '\n');
  }

  /** generate_tts_script: None when building the summary raises (it is built
      before the call, outside the try); otherwise the model's answer
      stripped, or the fixed fallback when the call raised. `respond` is the
      model, given the summary the prompt is built from. */
  function GenerateTtsScript(ms: seq<Json>, respond: string -> Option<string>, repr: Json -> string): (r: Option<string>)
    ensures r.None? <==> MomentsSummary(ms, repr).None?
    ensures r.Some? && respond(MomentsSummary(ms, repr).value).None? ==> r.value == TtsFallback
    ensures r.Some? && respond(MomentsSummary(ms, repr).value).Some? ==> r.value == Strip(respond(MomentsSummary(ms, repr).value).value)
  {
    match MomentsSummary(ms, repr)
    case None => None
    case Some(summary) =>
      match respond(summary)
      case None => Some(TtsFallback)
      case Some(content) => Some(Strip(content))
  }

  // ---- generate_onscreen_text ----

  const FallbackText: string := "Watch this!"

  /** The single overlay returned on any error: the hook (or "Watch this!")
      at the top, from 0 for 2 seconds. */
  function FallbackOverlay(hook: Option<Json>): (o: Json)
    ensures o.Object? && o.fields.Keys == {"text", "delay", "duration", "position"}
    ensures o.fields["text"] == hook.GetOr(Str(FallbackText))
    ensures o.fields["delay"] == Number(0.0) && o.fields["duration"] == Number(2.0) && o.fields["position"] == Str("top")
  {
    Object(map["text" := hook.GetOr(Str(FallbackText)), "delay" := Number(0.0),
               "duration" := Number(2.0), "position" := Str("top")])
  }

  /** The prompt can be built: moment['reason'] exists, and
      moment['end_time'] - moment['start_time'] is a subtraction of numbers. */
  predicate PromptBuilds(m: Json) {
    m.Object? && "reason" in m.fields && "start_time" in m.fields && "end_time" in m.fields
    && Numeric(m.fields["start_time"]) && Numeric(m.fields["end_time"])
  }

  /** generate_onscreen_text: None when building the prompt raises; the
      parsed answer, whatever JSON value it is, when the call and the parse
      succeed; otherwise exactly the one fallback overlay. `respond` is the
      model, given the reason, the length and the hook the prompt is built
      from. */
  function GenerateOnscreenText(m: Json, respond: (string, real, string) -> Option<string>,
                                loads: string -> Option<Json>, repr: Json -> string): (r: Option<Json>)
    ensures r.None? <==> !PromptBuilds(m)
    ensures r.Some? ==>
              var hook := if "hook" in m.fields then Show(m.fields["hook"], repr) else "";
              var length := NumberOf(m.fields["end_time"]) - NumberOf(m.fields["start_time"]);
              var answer := respond(Show(m.fields["reason"], repr), length, hook);
              if answer.Some? && loads(StripCodeFence(answer.value)).Some?
              then r.value == loads(StripCodeFence(answer.value)).value
              else r.value == Array([FallbackOverlay(Field(m, "hook"))])
  {
    if !PromptBuilds(m) then None
    else
      var hook := if "hook" in m.fields then Show(m.fields["hook"], repr) else "";
      var length := NumberOf(m.fields["end_time"]) - NumberOf(m.fields["start_time"]);
      var answer := respond(Show(m.fields["reason"], repr), length, hook);
      if answer.Some? && loads(StripCodeFence(answer.value)).Some? then Some(loads(StripCodeFence(answer.value)).value)
      else Some(Array([FallbackOverlay(Field(m, "hook"))]))
  }
}
