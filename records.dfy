/** The records that travel between the analyzer, the web layer and the
    editor. The analyzer handles the values json.loads produces as they
    are (`Json`); the editor takes its moments and overlays as typed
    records, where every key may be missing, so each field is optional and
    a missing key is None. */
module Records {
  import opened Common

  /** A value json.loads can produce. Python's ints and floats are both
      `Number`; an object is a dictionary from keys to values. */
  datatype Json =
    | Null
    | Bool(b: bool)
    | Number(n: real)
    | Str(s: string)
    | Array(items: seq<Json>)
    | Object(fields: map<string, Json>)

  /** A value Python can subtract and compare as a number: an int, a float or
      a bool. */
  predicate Numeric(j: Json) {
    j.Number? || j.Bool?
  }

  /** The number a numeric value stands for: True is 1 and False is 0. */
  function NumberOf(j: Json): (r: real)
    ensures j.Number? ==> r == j.n
    ensures j.Bool? ==> r == if j.b then 1.0 else 0.0
  {
    match j
    case Number(n) => n
    case Bool(b) => if b then 1.0 else 0.0
    case _ => 0.0
  }

  /** d.get(key): the value under `key` when j is an object that has it. */
  function Field(j: Json, key: string): (r: Option<Json>)
    ensures r.Some? <==> j.Object? && key in j.fields
    ensures r.Some? ==> r.value == j.fields[key]
  {
    if j.Object? && key in j.fields then Some(j.fields[key]) else None
  }

  /** One candidate viral segment: {"start_time", "end_time", "score", "reason", "hook"}. */
  datatype Moment = Moment(
    startTime: Option<real>,
    endTime: Option<real>,
    score: Option<real>,
    reason: Option<string>,
    hook: Option<string>)

  /** One on-screen text instruction: {"text", "delay", "duration", "position"}. */
  datatype OverlaySpec = OverlaySpec(
    text: Option<string>,
    delay: Option<real>,
    duration: Option<real>,
    position: Option<string>)

  /** A key that is absent or holds a string. */
  predicate TextOrAbsent(j: Json, key: string) {
    Field(j, key).None? || Field(j, key).value.Str?
  }

  /** A key that is absent or holds a number. */
  predicate NumberOrAbsent(j: Json, key: string) {
    Field(j, key).None? || Numeric(Field(j, key).value)
  }

  /** The typed overlay a JSON object stands for, when its four keys, where
      present, hold values of the types the editor uses; other keys are
      ignored. */
  function OverlayOf(j: Json): (r: Option<OverlaySpec>)
    ensures r.Some? <==> j.Object? && TextOrAbsent(j, "text") && NumberOrAbsent(j, "delay")
                         && NumberOrAbsent(j, "duration") && TextOrAbsent(j, "position")
    ensures r.Some? ==> (r.value.text.Some? <==> "text" in j.fields) && (r.value.delay.Some? <==> "delay" in j.fields)
                        && (r.value.duration.Some? <==> "duration" in j.fields)
                        && (r.value.position.Some? <==> "position" in j.fields)
  {
    if j.Object? && TextOrAbsent(j, "text") && NumberOrAbsent(j, "delay")
       && NumberOrAbsent(j, "duration") && TextOrAbsent(j, "position")
    then
      Some(OverlaySpec(
        if "text" in j.fields then Some(j.fields["text"].s) else None,
        if "delay" in j.fields then Some(NumberOf(j.fields["delay"])) else None,
        if "duration" in j.fields then Some(NumberOf(j.fields["duration"])) else None,
        if "position" in j.fields then Some(j.fields["position"].s) else None))
    else None
  }
}
