/** `Evaluation` (core/graph_evaluation.py): per-cluster statistics over a
    group of error logs: how many logs, how many distinct valid traces, and
    one representative trace. `Evaluation.validate` is the TokenValidation
    module; the parser's regex extraction and `Constraint.VALUES` are passed
    in. */
module GraphEvaluation {
  import opened Wrappers
  import Strings
  import TraceUtil
  import TokenValidation
  import GraphParsing
  import GraphAlgorithms
  import Report

  type ClusterKey = GraphAlgorithms.ClusterKey

  /** `' '.join(stacktrace)` for every trace of the group. */
  function Lines(traces: seq<seq<string>>): (r: seq<string>)
    ensures |r| == |traces|
  {
    seq(|traces|, k requires 0 <= k < |traces| => Strings.Join(traces[k], " "))
  }

  /** `set(lines)`. */
  function Distinct(lines: seq<string>): (r: set<string>)
    ensures |r| <= |lines|
    ensures forall k :: 0 <= k < |lines| ==> lines[k] in r
    ensures forall s :: s in r ==> exists k :: 0 <= k < |lines| && s == lines[k]
  {
    if lines == [] then {}
    else
      var n := |lines| - 1;
      var prev := Distinct(lines[..n]);
      assert forall k :: 0 <= k < n ==> lines[..n][k] == lines[k];
      prev + {lines[n]}
  }

  /** `set([' '.join(stacktrace) for stacktrace in list_stacktrace])`. */
  function UniqueStacktraces(traces: seq<seq<string>>): set<string>
  {
    Distinct(Lines(traces))
  }

  /** A group has exactly one distinct trace iff it is non-empty and every
      trace joins to the same line as the first. */
  lemma MatchExactly(traces: seq<seq<string>>)
    ensures |UniqueStacktraces(traces)| == 1 <==>
      traces != [] && forall k :: 0 <= k < |traces| ==> Lines(traces)[k] == Lines(traces)[0]
  {
    SingletonIff(Lines(traces), UniqueStacktraces(traces));
  }

  /** A non-empty group has between one distinct trace and one per trace. */
  lemma UniqueBounds(traces: seq<seq<string>>)
    requires traces != []
    ensures 1 <= |UniqueStacktraces(traces)| <= |traces|
  {
    assert Lines(traces)[0] in UniqueStacktraces(traces);
  }

  /** A set made of the elements of `xs` has one element iff `xs` is
      non-empty and constant. */
  lemma SingletonIff<T>(xs: seq<T>, u: set<T>)
    requires forall k :: 0 <= k < |xs| ==> xs[k] in u
    requires forall s :: s in u ==> exists k :: 0 <= k < |xs| && s == xs[k]
    ensures |u| == 1 <==> xs != [] && forall k :: 0 <= k < |xs| ==> xs[k] == xs[0]
  {
    if xs != [] {
      if forall k :: 0 <= k < |xs| ==> xs[k] == xs[0] {
        assert u == {xs[0]};
      } else {
        var k :| 0 <= k < |xs| && xs[k] != xs[0];
        SubsetSize({xs[0], xs[k]}, u);
      }
    }
  }

  lemma SubsetSize<T>(a: set<T>, b: set<T>)
    requires a <= b
    ensures |a| <= |b|
  {
    assert b == a + (b - a);
  }

  /** `fit` succeeds: the group is non-empty and the parser validates it. */
  predicate FitSucceeds(p: GraphParsing.GraphParser, errorLogs: seq<string>, findFrames: string -> seq<string>, values: seq<string>)
  {
    errorLogs != [] && GraphParsing.Validate(p, errorLogs, findFrames, values).Ok?
  }

  /** A `KeyError` on a cluster id: the integer id, or the string 'other'. */
  function MissingKey(k: ClusterKey): Error
  {
    match k
    case Id(j) => IntKeyError(j)
    case Other => KeyError("other")
  }

  /** Python's `xs[i]`: a negative index counts from the end. */
  function PyIndex(xs: seq<string>, i: int): (r: Result<string>)
    ensures r.Ok? <==> -|xs| <= i < |xs|
    ensures r.Err? ==> r.error == IndexError
  {
    if 0 <= i < |xs| then Ok(xs[i])
    else if -|xs| <= i < 0 then Ok(xs[|xs| + i])
    else Err(IndexError)
  }

  /** `[valid_error_logs[docid] for docid in docids]`. */
  function SubLogs(logs: seq<string>, docids: seq<int>): (r: Result<seq<string>>)
    ensures r.Ok? <==> forall i :: 0 <= i < |docids| ==> -|logs| <= docids[i] < |logs|
    ensures r.Ok? ==> |r.value| == |docids|
    ensures r.Ok? ==> forall i :: 0 <= i < |docids| && 0 <= docids[i] ==> r.value[i] == logs[docids[i]]
    ensures r.Err? ==> r.error == IndexError
  {
    if docids == [] then Ok([])
    else
      match PyIndex(logs, docids[0])
      case Err(e) => Err(e)
      case Ok(log) =>
        match SubLogs(logs, docids[1..])
        case Err(e) => Err(e)
        case Ok(rest) => Ok([log] + rest)
  }

  /** The statistics of the valid traces `traces` of a group of
      `numErrorLogs` logs: the distinct traces, their number (at least one,
      at most one per log) and share, whether there is exactly one, and a
      representation of the traces. */
  ghost predicate Statistics(traces: seq<seq<string>>, numErrorLogs: nat, unique: Option<set<string>>,
                             numUnique: nat, percent: real, matchExactly: bool, representation: Option<seq<string>>)
  {
    && |traces| > 0
    && unique == Some(UniqueStacktraces(traces))
    && numUnique == |UniqueStacktraces(traces)|
    && 1 <= numUnique <= numErrorLogs
    && percent == (numUnique as real) / (numErrorLogs as real)
    && 0.0 < percent <= 1.0
    && (matchExactly <==> numUnique == 1)
    && representation.Some? && TraceUtil.Represents(traces, representation.value)
  }

  class Evaluation {
    const graphParser: GraphParsing.GraphParser
    var numErrorLogs: nat
    var numUniqueStacktrace: nat
    var percentUniqueStacktrace: real
    var uniqueStacktrace: Option<set<string>>
    var matchExactly: bool
    var representation: Option<seq<string>>
    /** Set by `generate_evaluation_report` after `fit`. */
    var docids: seq<int>
    var errorLogIds: Option<seq<string>>

    /** `Evaluation(graph_parser)`: zero counts, no statistics yet. */
    constructor (graphParser: GraphParsing.GraphParser)
      ensures this.graphParser == graphParser
      ensures numErrorLogs == 0 && numUniqueStacktrace == 0 && percentUniqueStacktrace == 0.0
      ensures uniqueStacktrace.None? && !matchExactly && representation.None?
      ensures docids == [] && errorLogIds.None?
    {
      this.graphParser := graphParser;
      numErrorLogs := 0;
      numUniqueStacktrace := 0;
      percentUniqueStacktrace := 0.0;
      uniqueStacktrace := None;
      matchExactly := false;
      representation := None;
      docids := [];
      errorLogIds := None;
    }

    /** The statistics `fit` leaves for the group `errorLogs`. */
    ghost predicate Fitted(errorLogs: seq<string>, findFrames: string -> seq<string>, values: seq<string>)
      reads this`numErrorLogs, this`uniqueStacktrace, this`numUniqueStacktrace, this`percentUniqueStacktrace
      reads this`matchExactly, this`representation
    {
      var v := GraphParsing.Validate(graphParser, errorLogs, findFrames, values);
      && errorLogs != [] && v.Ok? && numErrorLogs == |errorLogs|
      && Statistics(v.value.0, numErrorLogs, uniqueStacktrace, numUniqueStacktrace,
                    percentUniqueStacktrace, matchExactly, representation)
    }

    /** Lines 21-25 of `fit`: the statistics of the valid traces of a group
        whose size is already recorded. */
    method Summarize(listStacktrace: seq<seq<string>>)
      requires 1 <= |listStacktrace| <= numErrorLogs
      modifies this
      ensures Statistics(listStacktrace, numErrorLogs, uniqueStacktrace, numUniqueStacktrace,
                         percentUniqueStacktrace, matchExactly, representation)
      ensures numErrorLogs == old(numErrorLogs) && docids == old(docids) && errorLogIds == old(errorLogIds)
    {
      UniqueBounds(listStacktrace);
      var unique := UniqueStacktraces(listStacktrace);
      uniqueStacktrace := Some(unique);
      numUniqueStacktrace := |unique|;
      RatioBounds(numUniqueStacktrace, numErrorLogs);
      percentUniqueStacktrace := (numUniqueStacktrace as real) / (numErrorLogs as real);
      matchExactly := numUniqueStacktrace == 1;
      representation := TraceUtil.FindStacktraceRepresentation(listStacktrace);
    }

    /** `fit`. `num_error_logs` is set first; an empty group fails the first
        assertion, a failing `validate` propagates its error, and both leave
        the other statistics as they were. Otherwise the statistics are
        those of `Fitted`. */
    method Fit(errorLogs: seq<string>, findFrames: string -> seq<string>, values: seq<string>) returns (r: Result<()>)
      modifies this
      ensures numErrorLogs == |errorLogs|
      ensures r.Ok? <==> FitSucceeds(graphParser, errorLogs, findFrames, values)
      ensures errorLogs == [] ==> r == Err(AssertionError("No input data found"))
      ensures errorLogs != [] && GraphParsing.Validate(graphParser, errorLogs, findFrames, values).Err? ==>
        r == Err(GraphParsing.Validate(graphParser, errorLogs, findFrames, values).error)
      ensures r.Ok? ==> Fitted(errorLogs, findFrames, values)
      ensures r.Err? ==> numUniqueStacktrace == old(numUniqueStacktrace) && percentUniqueStacktrace == old(percentUniqueStacktrace)
      ensures r.Err? ==> uniqueStacktrace == old(uniqueStacktrace) && matchExactly == old(matchExactly)
      ensures r.Err? ==> representation == old(representation)
      ensures docids == old(docids) && errorLogIds == old(errorLogIds)
    {
      numErrorLogs := |errorLogs|;
      if numErrorLogs == 0 {
        return Err(AssertionError("No input data found"));
      }
      var v := GraphParsing.Validate(graphParser, errorLogs, findFrames, values);
      if v.Err? {
        return Err(v.error);
      }
      var listStacktrace := v.value.0;
      GraphParsing.ValidateNonEmpty(graphParser, errorLogs, findFrames, values);
      ValidateKeepsAtMost(graphParser, errorLogs, findFrames, values);
      Summarize(listStacktrace);
      return Ok(());
    }
  }

  /** The share of distinct traces is a fraction in (0, 1]. */
  lemma RatioBounds(a: nat, b: nat)
    requires 1 <= a <= b
    ensures 0.0 < (a as real) / (b as real) <= 1.0
  {
  }

  /** `validate` keeps at most one frame list per log. */
  lemma ValidateKeepsAtMost(p: GraphParsing.GraphParser, errorLogs: seq<string>, findFrames: string -> seq<string>, values: seq<string>)
    ensures GraphParsing.Validate(p, errorLogs, findFrames, values).Ok? ==>
      |GraphParsing.Validate(p, errorLogs, findFrames, values).value.0| <= |errorLogs|
  {
    TokenValidation.ValidatedCount(GraphParsing.ParseWithRegex(errorLogs, findFrames), values);
  }

  /** The error-log ids of cluster `k`, when the report has any. */
  function IdsOf(ids: Option<map<ClusterKey, seq<string>>>, k: ClusterKey): Option<seq<string>>
    requires ids.Some? ==> k in ids.value
  {
    if ids.None? then None else Some(ids.value[k])
  }

  /** The loop body of `generate_evaluation_report` gets through cluster
      `k`: its error-log ids are found (when there are any), its docids index
      `valid_error_logs`, and `fit` succeeds on the logs they pick. */
  predicate ClusterSucceeds(p: GraphParsing.GraphParser, logs: seq<string>, docs: seq<int>,
                            ids: Option<map<ClusterKey, seq<string>>>, k: ClusterKey,
                            findFrames: string -> seq<string>, values: seq<string>)
  {
    && (ids.Some? ==> k in ids.value)
    && SubLogs(logs, docs).Ok?
    && FitSucceeds(p, SubLogs(logs, docs).value, findFrames, values)
  }

  /** `e` is the evaluation made for a cluster with docids `docs`: fitted on
      the logs they pick, and carrying the docids and error-log ids. */
  ghost predicate Reported(e: Evaluation, p: GraphParsing.GraphParser, logs: seq<string>, docs: seq<int>,
                           ids: Option<seq<string>>, findFrames: string -> seq<string>, values: seq<string>)
    reads e
  {
    && e.graphParser == p && e.docids == docs && e.errorLogIds == ids
    && SubLogs(logs, docs).Ok? && e.Fitted(SubLogs(logs, docs).value, findFrames, values)
  }

  /** No two clusters share an `Evaluation`. */
  predicate Injective(m: map<ClusterKey, Evaluation>)
  {
    forall k, k' :: k in m && k' in m && k != k' ==> m[k] != m[k']
  }

  lemma InjectiveAdd(m: map<ClusterKey, Evaluation>, k: ClusterKey, e: Evaluation)
    requires Injective(m) && forall k' :: k' in m ==> m[k'] != e
    ensures Injective(m[k := e])
  {
  }

  /** Every cluster of `docs` gets through the loop body. */
  predicate AllSucceed(p: GraphParsing.GraphParser, logs: seq<string>, docs: map<ClusterKey, seq<int>>,
                       ids: Option<map<ClusterKey, seq<string>>>, findFrames: string -> seq<string>, values: seq<string>)
  {
    forall k :: k in docs ==> ClusterSucceeds(p, logs, docs[k], ids, k, findFrames, values)
  }

  /** Lines 32-38 of `generate_evaluation_report` for cluster `k`: look up
      its error-log ids, pick its logs, and fit a new `Evaluation` on them. */
  method EvaluateCluster(graphParser: GraphParsing.GraphParser, validErrorLogs: seq<string>, docids: seq<int>,
                         ids: Option<map<ClusterKey, seq<string>>>, k: ClusterKey,
                         findFrames: string -> seq<string>, values: seq<string>)
    returns (r: Result<Evaluation>)
    ensures r.Ok? <==> ClusterSucceeds(graphParser, validErrorLogs, docids, ids, k, findFrames, values)
    ensures ids.Some? && k !in ids.value ==> r == Err(MissingKey(k))
    ensures r.Ok? ==> fresh(r.value)
    ensures r.Ok? ==> Reported(r.value, graphParser, validErrorLogs, docids, IdsOf(ids, k), findFrames, values)
  {
    if ids.Some? && k !in ids.value {
      return Err(MissingKey(k));
    }
    var errorLogIds := IdsOf(ids, k);
    var subErrorLogs := SubLogs(validErrorLogs, docids);
    if subErrorLogs.Err? {
      return Err(subErrorLogs.error);
    }
    r := FitCluster(graphParser, subErrorLogs.value, docids, errorLogIds, findFrames, values);
  }

  /** Lines 36-38 of `generate_evaluation_report`: a new `Evaluation` fitted
      on the cluster's logs `subErrorLogs`, then given its docids and
      error-log ids. */
  method FitCluster(graphParser: GraphParsing.GraphParser, subErrorLogs: seq<string>, docids: seq<int>,
                    errorLogIds: Option<seq<string>>, findFrames: string -> seq<string>, values: seq<string>)
    returns (r: Result<Evaluation>)
    ensures r.Ok? <==> FitSucceeds(graphParser, subErrorLogs, findFrames, values)
    ensures r.Ok? ==> fresh(r.value)
    ensures r.Ok? ==> && r.value.graphParser == graphParser && r.value.docids == docids
                      && r.value.errorLogIds == errorLogIds && r.value.Fitted(subErrorLogs, findFrames, values)
  {
    var evaluation := new Evaluation(graphParser);
    var fitted := evaluation.Fit(subErrorLogs, findFrames, values);
    if fitted.Err? {
      return Err(fitted.error);
    }
    evaluation.docids := docids;
    evaluation.errorLogIds := errorLogIds;
    return Ok(evaluation);
  }

  /** `generate_evaluation_report`: one new, separately fitted `Evaluation`
      per cluster of `clusterid_docids_map`, visited in the dictionary's
      order (any order here). It fails (AttributeError) without a docids
      map, and otherwise exactly when some cluster's step fails: a missing
      error-log id entry (KeyError), a docid out of range (IndexError), or
      `fit`'s own error. */
  method GenerateEvaluationReport(graphParser: GraphParsing.GraphParser, validErrorLogs: seq<string>,
                                  clusterReport: Report.ClusterReport,
                                  findFrames: string -> seq<string>, values: seq<string>)
    returns (r: Result<map<ClusterKey, Evaluation>>)
    ensures clusterReport.clusteridDocidsMap.None? ==> r == Err(AttributeError)
    ensures r.Ok? <==> (clusterReport.clusteridDocidsMap.Some? &&
      AllSucceed(graphParser, validErrorLogs, clusterReport.clusteridDocidsMap.value,
                 clusterReport.clusteridErrorlogidsMap, findFrames, values))
    ensures r.Ok? ==> r.value.Keys == clusterReport.clusteridDocidsMap.value.Keys
    ensures r.Ok? ==> forall k :: k in r.value ==>
      Reported(r.value[k], graphParser, validErrorLogs, clusterReport.clusteridDocidsMap.value[k],
               IdsOf(clusterReport.clusteridErrorlogidsMap, k), findFrames, values)
    ensures r.Ok? ==> Injective(r.value)
  {
    if clusterReport.clusteridDocidsMap.None? {
      return Err(AttributeError);
    }
    var docs := clusterReport.clusteridDocidsMap.value;
    var ids := clusterReport.clusteridErrorlogidsMap;
    var evaluations: map<ClusterKey, Evaluation> := map[];
    var remaining := docs.Keys;
    while remaining != {}
      invariant remaining <= docs.Keys
      invariant evaluations.Keys == docs.Keys - remaining
      invariant forall k :: k in evaluations ==> ClusterSucceeds(graphParser, validErrorLogs, docs[k], ids, k, findFrames, values)
      invariant forall k :: k in evaluations ==>
        Reported(evaluations[k], graphParser, validErrorLogs, docs[k], IdsOf(ids, k), findFrames, values)
      invariant Injective(evaluations)
      decreases |remaining|
    {
      var k :| k in remaining;
      var evaluation := EvaluateCluster(graphParser, validErrorLogs, docs[k], ids, k, findFrames, values);
      if evaluation.Err? {
        return Err(evaluation.error);
      }
      InjectiveAdd(evaluations, k, evaluation.value);
      evaluations := evaluations[k := evaluation.value];
      remaining := remaining - {k};
    }
    return Ok(evaluations);
  }
}
