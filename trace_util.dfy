/** graph/util.py: the per-position representation of a group of
    stacktraces, and the hand-written merge of two strings that keeps their
    common runs and marks every skipped stretch with a placeholder. */
module TraceUtil {
  import opened Wrappers

  // ---------------------------------------------------------------------------
  // Runs of equal characters
  // ---------------------------------------------------------------------------

  /** The length of the longest run of equal characters of `t1` from `a`
      and `t2` from `b`. */
  function RunLength(t1: string, t2: string, a: nat, b: nat): (k: nat)
    requires a <= |t1| && b <= |t2|
    ensures a + k <= |t1| && b + k <= |t2|
    ensures t1[a..a + k] == t2[b..b + k]
    ensures a + k == |t1| || b + k == |t2| || t1[a + k] != t2[b + k]
    decreases |t1| - a
  {
    if a < |t1| && b < |t2| && t1[a] == t2[b] then
      var k := RunLength(t1, t2, a + 1, b + 1);
      assert t1[a..a + 1 + k] == [t1[a]] + t1[a + 1..a + 1 + k];
      assert t2[b..b + 1 + k] == [t2[b]] + t2[b + 1..b + 1 + k];
      1 + k
    else 0
  }

  /** The longest common prefix of two strings. */
  function CommonPrefix(t1: string, t2: string): (p: string)
    ensures p <= t1 && p <= t2
    ensures |p| == |t1| || |p| == |t2| || t1[|p|] != t2[|p|]
  {
    t1[..RunLength(t1, t2, 0, 0)]
  }

  /** Some character occurs in both strings. */
  predicate Share(t1: string, t2: string)
  {
    exists a, b :: 0 <= a < |t1| && 0 <= b < |t2| && t1[a] == t2[b]
  }

  /** `lengths.index(max(lengths))`: the first position of the largest
      value. */
  function FirstMaxIndex(xs: seq<nat>): (k: nat)
    requires |xs| > 0
    ensures k < |xs|
    ensures forall t :: 0 <= t < |xs| ==> xs[t] <= xs[k]
    ensures forall t :: 0 <= t < k ==> xs[t] < xs[k]
  {
    if |xs| == 1 then 0
    else
      var k := FirstMaxIndex(xs[..|xs| - 1]);
      if xs[|xs| - 1] > xs[k] then |xs| - 1 else k
  }

  /** Row-major order on positions `(i, j)`. */
  predicate Before(p: (nat, nat), q: (nat, nat))
  {
    p.0 < q.0 || (p.0 == q.0 && p.1 < q.1)
  }

  /** Positions in row-major order, each strictly after the one before. */
  predicate Ascending(ps: seq<(nat, nat)>)
  {
    forall k, k' :: 0 <= k < k' < |ps| ==> Before(ps[k], ps[k'])
  }

  lemma AscendingSnoc(ps: seq<(nat, nat)>, p: (nat, nat))
    requires Ascending(ps) && (|ps| > 0 ==> Before(ps[|ps| - 1], p))
    ensures Ascending(ps + [p])
  {
    forall k | 0 <= k < |ps|
      ensures Before(ps[k], p)
    {
      if k < |ps| - 1 {
        assert Before(ps[k], ps[|ps| - 1]);
      }
    }
  }

  // ---------------------------------------------------------------------------
  // extract_longest_common_sequences
  // ---------------------------------------------------------------------------

  /** The scan of the mismatch branch: for every `i_t` from `i` and every
      `j_t` from `j` up to the next-to-last character of `text2`, each place
      where the characters agree is recorded with the length of the run
      starting there, in row-major order. The scan ends with `i_t` at the end
      of `text1` and `j_t` back at `j`. */
  method ScanRuns(text1: string, text2: string, i: nat, j: nat)
    returns (positions: seq<(nat, nat)>, lengths: seq<nat>, iT: nat, jT: nat)
    requires i < |text1| && j <= |text2|
    ensures |positions| == |lengths|
    ensures forall k :: 0 <= k < |positions| ==>
      && i <= positions[k].0 < |text1| && j <= positions[k].1 < |text2| - 1
      && text1[positions[k].0] == text2[positions[k].1]
      && lengths[k] == RunLength(text1, text2, positions[k].0, positions[k].1)
    ensures forall a, b :: i <= a < |text1| && j <= b < |text2| - 1 && text1[a] == text2[b] ==> (a, b) in positions
    ensures Ascending(positions)
    ensures iT == |text1| && jT == j
  {
    positions, lengths := [], [];
    iT, jT := i, j;
    while iT < |text1|
      invariant i <= iT <= |text1| && jT == j
      invariant Scanned(text1, text2, i, j, iT, positions, lengths)
      decreases |text1| - iT
    {
      ghost var positions0, lengths0 := positions, lengths;
      positions, lengths := ScanRow(text1, text2, i, j, iT, positions, lengths);
      ScannedStep(text1, text2, i, j, iT, positions0, lengths0, positions, lengths);
      iT := iT + 1;
      jT := j;
    }
  }

  /** What the scan has recorded once the rows `i..iT-1` are done. */
  ghost predicate Scanned(text1: string, text2: string, i: nat, j: nat, iT: nat, positions: seq<(nat, nat)>, lengths: seq<nat>)
  {
    && |positions| == |lengths|
    && (forall k :: 0 <= k < |positions| ==>
         && i <= positions[k].0 < iT && positions[k].0 < |text1| && j <= positions[k].1 < |text2| - 1
         && text1[positions[k].0] == text2[positions[k].1]
         && lengths[k] == RunLength(text1, text2, positions[k].0, positions[k].1))
    && (forall a, b :: i <= a < iT && a < |text1| && j <= b < |text2| - 1 && text1[a] == text2[b] ==> (a, b) in positions)
    && Ascending(positions)
  }

  /** Appending the places of row `iT` extends what was scanned by that row. */
  lemma ScannedStep(text1: string, text2: string, i: nat, j: nat, iT: nat,
                    positions0: seq<(nat, nat)>, lengths0: seq<nat>, positions: seq<(nat, nat)>, lengths: seq<nat>)
    requires i <= iT < |text1| && Scanned(text1, text2, i, j, iT, positions0, lengths0)
    requires |positions| == |lengths| && |positions0| <= |positions|
    requires positions[..|positions0|] == positions0 && lengths[..|lengths0|] == lengths0
    requires forall k :: |positions0| <= k < |positions| ==>
      && positions[k].0 == iT && j <= positions[k].1 < |text2| - 1
      && text1[iT] == text2[positions[k].1]
      && lengths[k] == RunLength(text1, text2, iT, positions[k].1)
    requires forall b :: j <= b < |text2| - 1 && text1[iT] == text2[b] ==> (iT, b) in positions
    requires Ascending(positions)
    ensures Scanned(text1, text2, i, j, iT + 1, positions, lengths)
  {
    forall k | 0 <= k < |positions0|
      ensures positions[k] == positions0[k] && lengths[k] == lengths0[k]
    {
      assert positions[..|positions0|][k] == positions[k];
      assert lengths[..|lengths0|][k] == lengths[k];
    }
    forall a, b | i <= a < iT + 1 && a < |text1| && j <= b < |text2| - 1 && text1[a] == text2[b]
      ensures (a, b) in positions
    {
      if a < iT {
        assert (a, b) in positions0;
        var k :| 0 <= k < |positions0| && positions0[k] == (a, b);
        assert positions[k] == (a, b);
      }
    }
  }

  /** One `i_t` of the scan: the inner loop over `j_t`. */
  method ScanRow(text1: string, text2: string, i: nat, j: nat, iT: nat, positions0: seq<(nat, nat)>, lengths0: seq<nat>)
    returns (positions: seq<(nat, nat)>, lengths: seq<nat>)
    requires i <= iT < |text1| && j <= |text2|
    requires |positions0| == |lengths0|
    requires forall k :: 0 <= k < |positions0| ==> i <= positions0[k].0 < iT
    requires Ascending(positions0)
    ensures |positions| == |lengths| && |positions0| <= |positions|
    ensures positions[..|positions0|] == positions0 && lengths[..|lengths0|] == lengths0
    ensures forall k :: |positions0| <= k < |positions| ==>
      && positions[k].0 == iT && j <= positions[k].1 < |text2| - 1
      && text1[iT] == text2[positions[k].1]
      && lengths[k] == RunLength(text1, text2, iT, positions[k].1)
    ensures forall b :: j <= b < |text2| - 1 && text1[iT] == text2[b] ==> (iT, b) in positions
    ensures Ascending(positions)
  {
    positions, lengths := positions0, lengths0;
    var jT: int := j;
    while jT < |text2| - 1
      invariant j <= jT && (j < |text2| ==> jT <= |text2| - 1)
      invariant |positions| == |lengths| && |positions0| <= |positions|
      invariant positions[..|positions0|] == positions0 && lengths[..|lengths0|] == lengths0
      invariant forall k :: |positions0| <= k < |positions| ==>
        && positions[k].0 == iT && j <= positions[k].1 < jT && positions[k].1 < |text2| - 1
        && text1[iT] == text2[positions[k].1]
        && lengths[k] == RunLength(text1, text2, iT, positions[k].1)
      invariant forall b :: j <= b < jT && b < |text2| - 1 && text1[iT] == text2[b] ==> (iT, b) in positions
      invariant Ascending(positions)
      decreases |text2| - jT
    {
      if text1[iT] == text2[jT] {
        var run := MatchRun(text1, text2, iT, jT);
        AscendingSnoc(positions, (iT, jT as nat));
        positions := positions + [(iT, jT as nat)];
        lengths := lengths + [run];
      }
      jT := jT + 1;
    }
  }

  /** The innermost loop: how far the characters keep agreeing. */
  method MatchRun(text1: string, text2: string, a: nat, b: nat) returns (run: nat)
    requires a <= |text1| && b <= |text2|
    ensures run == RunLength(text1, text2, a, b)
  {
    var a1, b1 := a, b;
    while a1 < |text1| && b1 < |text2| && text1[a1] == text2[b1]
      invariant a <= a1 <= |text1| && b1 - b == a1 - a && b1 <= |text2|
      invariant RunLength(text1, text2, a, b) == (a1 - a) + RunLength(text1, text2, a1, b1)
      decreases |text1| - a1
    {
      a1, b1 := a1 + 1, b1 + 1;
    }
    run := b1 - b;
  }

  /** What the loop of `extract_longest_common_sequences` keeps: nothing is
      written before the first round; an empty input stays empty; equal
      inputs are copied in step; after the first round the common prefix
      has been copied; and inputs sharing no character get one marker and
      stop. */
  ghost predicate Progress(text1: string, text2: string, representation: string, i: nat, j: nat, alterText: string)
  {
    && i <= |text1| && j <= |text2|
    && (i == 0 && j == 0 ==> alterText == [])
    && (text1 == [] || text2 == [] ==> alterText == [])
    && (text1 == text2 ==> i == j && alterText == text1[..i])
    && ((i == 0 && j == 0) || CommonPrefix(text1, text2) <= alterText)
    && (!Share(text1, text2) ==> (i == 0 && j == 0) || (i == |text1| && alterText == representation))
  }

  /** `extract_longest_common_sequences(text1, text2, representation)`.
      Where the current characters agree, their whole run is copied; where
      they differ, the scan picks the place with the longest run (the first
      one among equals), the skipped stretch becomes one `representation`
      marker, and the copy resumes there; when no place agrees, one marker
      ends the result. Every round moves `i + j` forward, so the loop ends. */
  method ExtractLongestCommonSequences(text1: string, text2: string, representation: string)
    returns (alterText: string)
    ensures text1 == [] || text2 == [] ==> alterText == []
    ensures text1 == text2 ==> alterText == text1
    ensures CommonPrefix(text1, text2) <= alterText
    ensures text1 != [] && text2 != [] && !Share(text1, text2) ==> alterText == representation
  {
    alterText := [];
    var i: nat, j: nat := 0, 0;
    while i < |text1| && j < |text2|
      invariant Progress(text1, text2, representation, i, j, alterText)
      decreases |text1| + |text2| - i - j
    {
      if text1[i] == text2[j] {
        i, j, alterText := CopyRun(text1, text2, representation, i, j, alterText);
      } else {
        i, j, alterText := SkipToRun(text1, text2, representation, i, j, alterText);
      }
    }
    if text1 == text2 {
      assert text1[..i] == text1;
    }
  }

  /** The agreeing branch: copy characters while they agree. */
  method CopyRun(text1: string, text2: string, representation: string, i: nat, j: nat, alterText0: string)
    returns (i': nat, j': nat, alterText: string)
    requires Progress(text1, text2, representation, i, j, alterText0)
    requires i < |text1| && j < |text2| && text1[i] == text2[j]
    ensures Progress(text1, text2, representation, i', j', alterText) && i' + j' > i + j
  {
    var iT, jT := i, j;
    alterText := alterText0;
    while iT < |text1| && jT < |text2| && text1[iT] == text2[jT]
      invariant i <= iT <= |text1| && jT - j == iT - i && jT <= |text2|
      invariant alterText == alterText0 + text1[i..iT] && text1[i..iT] == text2[j..jT]
      decreases |text1| - iT
    {
      assert text1[i..iT + 1] == text1[i..iT] + [text1[iT]];
      assert text2[j..jT + 1] == text2[j..jT] + [text2[jT]];
      alterText := alterText + [text1[iT]];
      iT, jT := iT + 1, jT + 1;
    }
    CopyProgress(text1, text2, representation, i, j, alterText0, iT, jT);
    i', j' := iT, jT;
  }

  /** Copying the whole agreeing run from `(i, j)` keeps `Progress`. */
  lemma CopyProgress(text1: string, text2: string, representation: string, i: nat, j: nat, alterText0: string, iT: nat, jT: nat)
    requires Progress(text1, text2, representation, i, j, alterText0)
    requires i < |text1| && j < |text2| && text1[i] == text2[j]
    requires i <= iT <= |text1| && jT - j == iT - i && jT <= |text2| && text1[i..iT] == text2[j..jT]
    requires iT == |text1| || jT == |text2| || text1[iT] != text2[jT]
    ensures Progress(text1, text2, representation, iT, jT, alterText0 + text1[i..iT]) && iT + jT > i + j
  {
    if i == 0 && j == 0 {
      assert alterText0 + text1[i..iT] == text1[..iT] == text2[..iT];
    }
  }

  /** The disagreeing branch: resume at the place with the longest run, or
      at the end of `text1` when no place agrees, after one marker. */
  method SkipToRun(text1: string, text2: string, representation: string, i: nat, j: nat, alterText0: string)
    returns (i': nat, j': nat, alterText: string)
    requires Progress(text1, text2, representation, i, j, alterText0)
    requires i < |text1| && j < |text2| && text1[i] != text2[j]
    ensures Progress(text1, text2, representation, i', j', alterText) && i' + j' > i + j
  {
    var positions, lengths, iT, jT := ScanRuns(text1, text2, i, j);
    if |lengths| > 0 {
      var k := FirstMaxIndex(lengths);
      i', j' := positions[k].0, positions[k].1;
      alterText := alterText0 + representation;
    } else {
      i', j' := iT, jT;
      alterText := alterText0 + representation;
    }
    SkipProgress(text1, text2, representation, i, j, alterText0, i', j');
  }

  /** The disagreeing branch keeps `Progress`, whether it resumes at an
      agreeing place after `(i, j)` or, when the scan found none, at the end
      of `text1`. */
  lemma SkipProgress(text1: string, text2: string, representation: string, i: nat, j: nat, alterText0: string, i': nat, j': nat)
    requires Progress(text1, text2, representation, i, j, alterText0)
    requires i < |text1| && j < |text2| && text1[i] != text2[j]
    requires || (i' == |text1| && j' == j && forall a, b :: i <= a < |text1| && j <= b < |text2| - 1 ==> text1[a] != text2[b])
             || (i <= i' < |text1| && j <= j' < |text2| - 1 && text1[i'] == text2[j'])
    ensures Progress(text1, text2, representation, i', j', alterText0 + representation) && i' + j' > i + j
  {
  }

  // ---------------------------------------------------------------------------
  // find_stacktrace_representation
  // ---------------------------------------------------------------------------

  /** `min(len(stacktrace) for stacktrace in list_stacktrace)`. */
  function MinLength(traces: seq<seq<string>>): (m: nat)
    requires |traces| > 0
    ensures forall t :: 0 <= t < |traces| ==> m <= |traces[t]|
    ensures exists t :: 0 <= t < |traces| && m == |traces[t]|
  {
    if |traces| == 1 then |traces[0]|
    else
      var m := MinLength(traces[..|traces| - 1]);
      var last := |traces[|traces| - 1]|;
      assert forall t :: 0 <= t < |traces| - 1 ==> traces[..|traces| - 1][t] == traces[t];
      if last < m then last else m
  }

  /** Every trace has the first trace's frame at position `i`. */
  predicate AllAgree(traces: seq<seq<string>>, i: nat)
    requires |traces| > 0 && i < MinLength(traces)
  {
    forall t :: 0 <= t < |traces| ==> traces[t][i] == traces[0][i]
  }

  /** Every trace after the first has the second trace's frame at `i`. */
  predicate OthersAgree(traces: seq<seq<string>>, i: nat)
    requires |traces| > 1 && i < MinLength(traces)
  {
    forall t :: 1 <= t < |traces| ==> traces[t][i] == traces[1][i]
  }

  /** A frame wrapped as a disagreement: `'===>' + rep + '<==='`. */
  predicate Wrapped(s: string)
  {
    |s| >= 8 && s[..4] == "===>" && s[|s| - 4..] == "<==="
  }

  /** `rep` represents the non-empty group `traces` as
      `find_stacktrace_representation` promises. */
  predicate Represents(traces: seq<seq<string>>, rep: seq<string>)
    requires |traces| > 0
  {
    && |rep| == MinLength(traces)
    && (forall i :: 0 <= i < |rep| ==>
          if AllAgree(traces, i) then rep[i] == traces[0][i] else Wrapped(rep[i]))
    && (forall i :: 0 <= i < |rep| && !AllAgree(traces, i) && OthersAgree(traces, i) ==>
          rep[i] == "===>" + traces[1][i] + "<===")
    && ((forall t :: 0 <= t < |traces| ==> traces[t] == traces[0]) ==> rep == traces[0])
  }

  /** `find_stacktrace_representation`: `None` for an empty group (the
      assertion). Otherwise one entry per position of the shortest trace:
      the shared frame where all traces agree, a wrapped merge of the
      differing frames where they do not; when every trace after the first
      has the same frame there, the merge is that frame. A group of
      identical traces is represented by the trace itself. */
  method FindStacktraceRepresentation(traces: seq<seq<string>>) returns (r: Option<seq<string>>)
    ensures r.None? <==> |traces| == 0
    ensures r.Some? ==> |r.value| == MinLength(traces)
    ensures r.Some? ==> forall i :: 0 <= i < |r.value| ==>
      if AllAgree(traces, i) then r.value[i] == traces[0][i] else Wrapped(r.value[i])
    ensures r.Some? ==> forall i :: 0 <= i < |r.value| && !AllAgree(traces, i) && OthersAgree(traces, i) ==>
      r.value[i] == "===>" + traces[1][i] + "<==="
    ensures r.Some? && (forall t :: 0 <= t < |traces| ==> traces[t] == traces[0]) ==> r.value == traces[0]
    ensures r.Some? ==> Represents(traces, r.value)
  {
    if |traces| == 0 {
      return None;
    }
    var minLength := MinLength(traces);
    var representation: seq<string> := [];
    for i := 0 to minLength
      invariant |representation| == i
      invariant forall p :: 0 <= p < i ==>
        if AllAgree(traces, p) then representation[p] == traces[0][p] else Wrapped(representation[p])
      invariant forall p :: 0 <= p < i && !AllAgree(traces, p) && OthersAgree(traces, p) ==>
        representation[p] == "===>" + traces[1][p] + "<==="
    {
      var entry := Position(traces, i);
      representation := representation + [entry];
    }
    IdenticalTraces(traces);
    return Some(representation);
  }

  /** The body of the outer loop for position `i`. */
  method Position(traces: seq<seq<string>>, i: nat) returns (entry: string)
    requires |traces| > 0 && i < MinLength(traces)
    ensures if AllAgree(traces, i) then entry == traces[0][i] else Wrapped(entry)
    ensures !AllAgree(traces, i) && OthersAgree(traces, i) ==> entry == "===>" + traces[1][i] + "<==="
  {
    var validation := true;
    var frame := traces[0][i];
    var diff: seq<string> := [];
    for j := 1 to |traces|
      invariant validation <==> forall t :: 1 <= t < j ==> traces[t][i] == frame
      invariant validation <==> diff == []
      invariant forall d :: d in diff ==> exists t :: 1 <= t < j && d == traces[t][i]
    {
      if traces[j][i] != frame {
        validation := false;
        diff := diff + [traces[j][i]];
      }
    }
    if validation {
      entry := frame;
    } else {
      var methodRep := diff[0];
      assert diff[0] in diff;
      var remaining := set d | d in diff;
      ghost var others := |traces| > 1 && OthersAgree(traces, i);
      while remaining != {}
        invariant others ==> methodRep == traces[1][i] && forall d :: d in remaining ==> d == traces[1][i]
        decreases remaining
      {
        HasFrame(remaining);
        var d :| d in remaining;
        methodRep := ExtractLongestCommonSequences(methodRep, d, "[...]");
        remaining := remaining - {d};
      }
      entry := "===>" + methodRep + "<===";
      assert entry[..4] == "===>" && entry[|entry| - 4..] == "<===";
    }
  }

  lemma HasFrame(s: set<string>)
    requires s != {}
    ensures exists d :: d in s
  {
    if forall d :: d !in s {
      assert false;
    }
  }

  /** When all traces are the same, the shortest length is theirs and they
      agree at every position. */
  lemma IdenticalTraces(traces: seq<seq<string>>)
    requires |traces| > 0
    ensures (forall t :: 0 <= t < |traces| ==> traces[t] == traces[0]) ==>
      MinLength(traces) == |traces[0]| && forall i :: 0 <= i < |traces[0]| ==> AllAgree(traces, i)
  {
  }
}
