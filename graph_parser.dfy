/** `GraphParser` (graph/core/graph_parser.py): turns raw error logs into
    lists of frames. A log whose first entry has no ASCII letter is taken as
    already preprocessed (comma-separated frame ids) when KA detection is on;
    every other input goes through `parse_with_regex` (graph/util.py), which
    runs one regular expression over each log; that per-log extraction is a
    parameter here. */
module GraphParsing {
  import opened Wrappers
  import Strings
  import TokenValidation

  datatype GraphParser = GraphParser(detectKa: bool)

  /** The frame lists and kept/excluded indices `validate` returns. */
  type Validation = (seq<seq<string>>, seq<int>, seq<int>)

  predicate IsAsciiLetter(c: char)
  {
    'a' <= c <= 'z' || 'A' <= c <= 'Z'
  }

  predicate NoLetter(s: string)
  {
    forall i :: 0 <= i < |s| ==> !IsAsciiLetter(s[i])
  }

  /** `re.search(r'[a-zA-Z]', s)`: where the first ASCII letter is. */
  function SearchLetter(s: string): (r: Option<nat>)
    ensures r.None? <==> NoLetter(s)
    ensures r.Some? ==> r.value < |s| && IsAsciiLetter(s[r.value])
    ensures r.Some? ==> forall i :: 0 <= i < r.value ==> !IsAsciiLetter(s[i])
  {
    if s == [] then None
    else if IsAsciiLetter(s[0]) then Some(0)
    else
      match SearchLetter(s[1..])
      case None => None
      case Some(k) => Some(k + 1)
  }

  /** `recognize_ka_preprocess`: the first log holds no ASCII letter; an
      empty input has no first log (IndexError). */
  function RecognizeKaPreprocess(errorLogs: seq<string>): (r: Result<bool>)
    ensures r.Err? <==> errorLogs == []
    ensures r.Err? ==> r.error == IndexError
    ensures r.Ok? ==> (r.value <==> NoLetter(errorLogs[0]))
  {
    if errorLogs == [] then Err(IndexError)
    else Ok(SearchLetter(errorLogs[0]).None?)
  }

  /** `self.detect_ka is True and recognize_ka_preprocess(error_logs) is True`:
      the test of the first log only runs with detection on. */
  function KaMode(p: GraphParser, errorLogs: seq<string>): (r: Result<bool>)
    ensures r.Err? <==> p.detectKa && errorLogs == []
    ensures r.Ok? ==> (r.value <==> p.detectKa && NoLetter(errorLogs[0]))
  {
    if !p.detectKa then Ok(false) else RecognizeKaPreprocess(errorLogs)
  }

  /** `[stacktrace.split(',') for stacktrace in error_logs]`. */
  function SplitAll(errorLogs: seq<string>): seq<seq<string>>
  {
    seq(|errorLogs|, k requires 0 <= k < |errorLogs| => Strings.Split(errorLogs[k], ','))
  }

  /** `parse_with_regex`: the frames `findFrames` finds in each log, one
      list per log. */
  function ParseWithRegex(errorLogs: seq<string>, findFrames: string -> seq<string>): (r: seq<seq<string>>)
    ensures |r| == |errorLogs|
  {
    seq(|errorLogs|, k requires 0 <= k < |errorLogs| => findFrames(errorLogs[k]))
  }

  /** `list(range(n))`. */
  function Range(n: nat): seq<int>
  {
    seq(n, i => i)
  }

  /** `parse`. */
  function Parse(p: GraphParser, errorLogs: seq<string>, findFrames: string -> seq<string>): Result<seq<seq<string>>>
  {
    match KaMode(p, errorLogs)
    case Err(e) => Err(e)
    case Ok(ka) => if ka then Ok(SplitAll(errorLogs)) else Ok(ParseWithRegex(errorLogs, findFrames))
  }

  /** `validate`. */
  function Validate(p: GraphParser, errorLogs: seq<string>, findFrames: string -> seq<string>, values: seq<string>): Result<Validation>
  {
    match KaMode(p, errorLogs)
    case Err(e) => Err(e)
    case Ok(ka) =>
      if ka then Ok((SplitAll(errorLogs), Range(|errorLogs|), []))
      else
        var v := TokenValidation.Validated(ParseWithRegex(errorLogs, findFrames), values);
        if |v.0| == 0 then Err(RuntimeError("Invalid error logs after preprocessing")) else Ok(v)
  }

  /** The comma split is undone by joining with ',', and no frame holds a
      comma. */
  lemma SplitAllJoins(errorLogs: seq<string>)
    ensures |SplitAll(errorLogs)| == |errorLogs|
    ensures forall k :: 0 <= k < |errorLogs| ==> Strings.Join(SplitAll(errorLogs)[k], [',']) == errorLogs[k]
    ensures forall k, f :: 0 <= k < |errorLogs| && f in SplitAll(errorLogs)[k] ==> ',' !in f
  {
    forall k | 0 <= k < |errorLogs|
      ensures Strings.Join(SplitAll(errorLogs)[k], [',']) == errorLogs[k]
      ensures forall f :: f in SplitAll(errorLogs)[k] ==> ',' !in f
    {
      Strings.JoinSplit(errorLogs[k], ',');
      Strings.SplitPartsHaveNoSeparator(errorLogs[k], ',');
    }
  }

  /** `parse` in its three cases: an empty input with detection on fails on
      the first log; a preprocessed input is split on commas, one frame list
      per log that joins back to the log; anything else is what the regex
      extractor makes of it. */
  lemma ParseCases(p: GraphParser, errorLogs: seq<string>, findFrames: string -> seq<string>)
    ensures p.detectKa && errorLogs == [] ==> Parse(p, errorLogs, findFrames) == Err(IndexError)
    ensures p.detectKa && errorLogs != [] && NoLetter(errorLogs[0]) ==>
      var r := Parse(p, errorLogs, findFrames);
      r.Ok? && |r.value| == |errorLogs| && forall k :: 0 <= k < |errorLogs| ==> Strings.Join(r.value[k], [',']) == errorLogs[k]
    ensures !p.detectKa || (errorLogs != [] && !NoLetter(errorLogs[0])) ==> Parse(p, errorLogs, findFrames) == Ok(ParseWithRegex(errorLogs, findFrames))
  {
    SplitAllJoins(errorLogs);
  }

  /** `validate` on a preprocessed input keeps every log, split on commas,
      in order, and excludes none. */
  lemma ValidateKa(p: GraphParser, errorLogs: seq<string>, findFrames: string -> seq<string>, values: seq<string>)
    requires p.detectKa && errorLogs != [] && NoLetter(errorLogs[0])
    ensures var r := Validate(p, errorLogs, findFrames, values);
      && r.Ok?
      && r.value.0 == Parse(p, errorLogs, findFrames).value
      && |r.value.1| == |errorLogs| && (forall k :: 0 <= k < |errorLogs| ==> r.value.1[k] == k)
      && r.value.2 == []
  {
  }

  /** Some trace keeps a frame once `VALUES` is stripped. */
  predicate SomeTraceValid(frames: seq<seq<string>>, values: seq<string>)
  {
    exists i :: 0 <= i < |frames| && !TokenValidation.AllConstrained(frames[i], values)
  }

  /** `validate` on any other input is `Evaluation.validate` of the
      extracted frames, with its shape, and fails exactly when every trace
      is made only of constrained frames. */
  lemma ValidateRegex(p: GraphParser, errorLogs: seq<string>, findFrames: string -> seq<string>, values: seq<string>)
    requires !p.detectKa || (errorLogs != [] && !NoLetter(errorLogs[0]))
    ensures var r := Validate(p, errorLogs, findFrames, values);
      && (r.Ok? <==> SomeTraceValid(ParseWithRegex(errorLogs, findFrames), values))
      && (r.Ok? ==> r.value == TokenValidation.Validated(Parse(p, errorLogs, findFrames).value, values))
      && (r.Ok? ==> TokenValidation.ValidatedShape(ParseWithRegex(errorLogs, findFrames), values, r.value))
      && (r.Err? ==> r.error == RuntimeError("Invalid error logs after preprocessing"))
  {
    var frames := ParseWithRegex(errorLogs, findFrames);
    var v := TokenValidation.Validated(frames, values);
    TokenValidation.ValidatedIsShaped(frames, values);
    if |v.0| > 0 {
      TokenValidation.ValidTokensEmpty(frames[v.1[0]], values);
    }
    if SomeTraceValid(frames, values) {
      var i :| 0 <= i < |frames| && !TokenValidation.AllConstrained(frames[i], values);
      assert i in v.1;
    }
  }

  /** Whatever path `validate` takes, a success keeps at least one trace:
      the caller's second assertion cannot fail after a non-empty input. */
  lemma ValidateNonEmpty(p: GraphParser, errorLogs: seq<string>, findFrames: string -> seq<string>, values: seq<string>)
    requires errorLogs != []
    ensures Validate(p, errorLogs, findFrames, values).Ok? ==> |Validate(p, errorLogs, findFrames, values).value.0| > 0
  {
  }
}
