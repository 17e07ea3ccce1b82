/** `ClusterReport` (graph/core/report.py): the record a clustering run
    hands back, and `gather_report`, which turns the docids of each cluster
    into the caller's error-log ids through `docid_uuid_map`. */
module Report {
  import opened Wrappers
  import GraphAlgorithms

  type ClusterKey = GraphAlgorithms.ClusterKey

  /** `[docid_uuid_map[docid] for docid in docids]`: the uuid of every docid
      in order, or a KeyError for the first docid without one. */
  function MapDocids(docidUuid: map<int, string>, docids: seq<int>): (r: Result<seq<string>>)
    ensures r.Ok? <==> forall i :: 0 <= i < |docids| ==> docids[i] in docidUuid
    ensures r.Ok? ==> |r.value| == |docids|
    ensures r.Ok? ==> forall i :: 0 <= i < |docids| ==> r.value[i] == docidUuid[docids[i]]
    ensures r.Err? ==> exists i :: FirstMissing(docidUuid, docids, i) && r.error == IntKeyError(docids[i])
  {
    if docids == [] then Ok([])
    else if docids[0] !in docidUuid then Err(IntKeyError(docids[0]))
    else
      match MapDocids(docidUuid, docids[1..])
      case Err(e) => Err(e)
      case Ok(rest) => Ok([docidUuid[docids[0]]] + rest)
  }

  /** `docids[i]` is the first docid without a uuid. */
  predicate FirstMissing(docidUuid: map<int, string>, docids: seq<int>, i: int)
  {
    0 <= i < |docids| && docids[i] !in docidUuid && forall j :: 0 <= j < i ==> docids[j] in docidUuid
  }

  /** Every docid of every cluster has a uuid. */
  predicate AllMapped(docidUuid: map<int, string>, docs: map<ClusterKey, seq<int>>)
  {
    forall k :: k in docs ==> MapDocids(docidUuid, docs[k]).Ok?
  }

  /** Entries of `ids` are the uuids of their cluster's docids. */
  predicate Regrouped(docidUuid: map<int, string>, docs: map<ClusterKey, seq<int>>, ids: map<ClusterKey, seq<string>>)
  {
    forall k :: k in ids ==> k in docs && MapDocids(docidUuid, docs[k]) == Ok(ids[k])
  }

  class ClusterReport {
    /** The name of the algorithm set the analyzer ran, such as 'default'. */
    var clusterAlgorithms: Option<string>
    var docidUuidMap: Option<map<int, string>>
    var scoreMatrix: Option<GraphAlgorithms.Scores>
    var clusteridDocidsMap: Option<map<ClusterKey, seq<int>>>
    var clusteridErrorlogidsMap: Option<map<ClusterKey, seq<string>>>
    var labels: Option<seq<int>>
    var evaluationReport: Option<map<ClusterKey, object>>

    /** `ClusterReport(...)`: every argument is stored as given; the
        `clusterid_docids_mapping` argument becomes `clusterid_docids_map`. */
    constructor (clusterAlgorithms: Option<string>,
                 docidUuidMap: Option<map<int, string>>,
                 labels: Option<seq<int>>,
                 clusteridDocidsMapping: Option<map<ClusterKey, seq<int>>>,
                 clusteridErrorlogidsMap: Option<map<ClusterKey, seq<string>>>,
                 scoreMatrix: Option<GraphAlgorithms.Scores>,
                 evaluationReport: Option<map<ClusterKey, object>>)
      ensures this.clusterAlgorithms == clusterAlgorithms
      ensures this.docidUuidMap == docidUuidMap
      ensures this.scoreMatrix == scoreMatrix
      ensures this.clusteridDocidsMap == clusteridDocidsMapping
      ensures this.clusteridErrorlogidsMap == clusteridErrorlogidsMap
      ensures this.labels == labels
      ensures this.evaluationReport == evaluationReport
    {
      this.clusterAlgorithms := clusterAlgorithms;
      this.docidUuidMap := docidUuidMap;
      this.scoreMatrix := scoreMatrix;
      this.clusteridDocidsMap := clusteridDocidsMapping;
      this.clusteridErrorlogidsMap := clusteridErrorlogidsMap;
      this.labels := labels;
      this.evaluationReport := evaluationReport;
    }

    /** `gather_report`. Without `docid_uuid_map` nothing happens. Otherwise
        `clusterid_errorlogids_map` is reset to `{}` and filled cluster by
        cluster, in the dictionary's order (any order here): a missing
        `clusterid_docids_map` is an AttributeError, and a docid without a
        uuid a KeyError that leaves the entries made so far. On success the
        new map has exactly the clusters of `clusterid_docids_map`, each
        with its docids mapped element-wise. Only that field changes. */
    method GatherReport() returns (r: Result<()>)
      modifies this
      ensures clusterAlgorithms == old(clusterAlgorithms) && docidUuidMap == old(docidUuidMap)
      ensures scoreMatrix == old(scoreMatrix) && clusteridDocidsMap == old(clusteridDocidsMap)
      ensures labels == old(labels) && evaluationReport == old(evaluationReport)
      ensures docidUuidMap.None? ==> r.Ok? && clusteridErrorlogidsMap == old(clusteridErrorlogidsMap)
      ensures docidUuidMap.Some? && clusteridDocidsMap.None? ==>
        r == Err(AttributeError) && clusteridErrorlogidsMap == Some(map[])
      ensures docidUuidMap.Some? && clusteridDocidsMap.Some? ==>
        && clusteridErrorlogidsMap.Some?
        && Regrouped(docidUuidMap.value, clusteridDocidsMap.value, clusteridErrorlogidsMap.value)
        && (r.Ok? <==> AllMapped(docidUuidMap.value, clusteridDocidsMap.value))
        && (r.Ok? ==> clusteridErrorlogidsMap.value.Keys == clusteridDocidsMap.value.Keys)
        && (r.Err? ==> r.error.IntKeyError?)
    {
      if docidUuidMap.None? {
        return Ok(());
      }
      var uuids := docidUuidMap.value;
      clusteridErrorlogidsMap := Some(map[]);
      if clusteridDocidsMap.None? {
        return Err(AttributeError);
      }
      var docs := clusteridDocidsMap.value;
      var ids: map<ClusterKey, seq<string>> := map[];
      var remaining := docs.Keys;
      while remaining != {}
        invariant remaining <= docs.Keys
        invariant ids.Keys == docs.Keys - remaining
        invariant Regrouped(uuids, docs, ids)
        invariant clusteridErrorlogidsMap == Some(ids)
        invariant clusterAlgorithms == old(clusterAlgorithms) && docidUuidMap == old(docidUuidMap)
        invariant scoreMatrix == old(scoreMatrix) && clusteridDocidsMap == old(clusteridDocidsMap)
        invariant labels == old(labels) && evaluationReport == old(evaluationReport)
        decreases |remaining|
      {
        var k :| k in remaining;
        var mapped := MapDocids(uuids, docs[k]);
        if mapped.Err? {
          return Err(mapped.error);
        }
        ids := ids[k := mapped.value];
        clusteridErrorlogidsMap := Some(ids);
        remaining := remaining - {k};
      }
      return Ok(());
    }
  }
}
