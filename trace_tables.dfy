/** The five tables of `StacktraceManager` (graph/core/graph_manager.py) as a
    value, and `track` written as a function of the old tables. The class that
    updates them in place is `GraphManagers.StacktraceManager`. */
module TraceTables {
  import opened Wrappers
  import opened Strings
  import opened GraphPool
  import opened GraphPoolFacts

  datatype Tables = Tables(
    uuid: seq<int>,
    stacktrace: map<string, seq<string>>,
    nodeStacktrace: map<string, seq<Node>>,
    freqStacktrace: map<string, int>,
    uuidNodesMap: map<int, seq<Node>>)

  const NoTables: Tables := Tables([], map[], map[], map[], map[])

  /** `[node_pool[H(st)] for st in stacktrace]`. */
  function NodesOf(h: Hasher, pool: Pool, s: seq<string>): seq<Node>
    requires HasFrames(h, pool, s)
  {
    seq(|s|, i requires 0 <= i < |s| => pool[h(s[i])])
  }

  function Names(nodes: seq<Node>): seq<string>
  {
    seq(|nodes|, i requires 0 <= i < |nodes| => nodes[i].name)
  }

  /** `track(node_pool, _id, stacktrace)`: the id is appended first, so a
      KeyError in the node lookup (false) still leaves it in `uuid`. */
  function TrackSpec(h: Hasher, pool: Pool, t: Tables, id: int, s: seq<string>): (r: (Tables, bool))
    ensures r.0.uuid == t.uuid + [id]
    ensures r.1 == HasFrames(h, pool, s)
    ensures !r.1 ==> r.0 == t.(uuid := t.uuid + [id])
  {
    var t1 := t.(uuid := t.uuid + [id]);
    if !HasFrames(h, pool, s) then (t1, false)
    else
      var k := h(Join(s, " "));
      var nodes := NodesOf(h, pool, s);
      (t1.(stacktrace := t.stacktrace[k := s],
           nodeStacktrace := t.nodeStacktrace[k := nodes],
           freqStacktrace := t.freqStacktrace[k := Get(t.freqStacktrace, k) + 1],
           uuidNodesMap := t.uuidNodesMap[id := nodes]), true)
  }

  /** `for _id, stacktrace in zip(ids, list_stacktrace): track(...)`, stopping
      at the first KeyError; the pairs beyond the shorter list are ignored. */
  function TrackAll(h: Hasher, pool: Pool, t: Tables, ids: seq<int>, traces: seq<seq<string>>): (r: (Tables, bool))
    decreases |ids|
  {
    var n := Min(|ids|, |traces|);
    if n == 0 then (t, true)
    else
      var prev := TrackAll(h, pool, t, ids[..n - 1], traces[..n - 1]);
      if !prev.1 then prev else TrackSpec(h, pool, prev.0, ids[n - 1], traces[n - 1])
  }

  lemma {:induction false} TrackAllFailurePersists(h: Hasher, pool: Pool, t: Tables, ids: seq<int>, traces: seq<seq<string>>, k: nat)
    requires k <= |ids| && k <= |traces| && !TrackAll(h, pool, t, ids[..k], traces[..k]).1
    ensures TrackAll(h, pool, t, ids, traces) == TrackAll(h, pool, t, ids[..k], traces[..k])
    decreases |ids| - k
  {
    var n := Min(|ids|, |traces|);
    if k < n {
      assert ids[..k + 1][..k] == ids[..k] && traces[..k + 1][..k] == traces[..k];
      assert TrackAll(h, pool, t, ids[..k + 1], traces[..k + 1]) == TrackAll(h, pool, t, ids[..k], traces[..k]);
      TrackAllFailurePersists(h, pool, t, ids, traces, k + 1);
    } else {
      TrackAllTruncates(h, pool, t, ids, traces);
      assert ids[..k][..n] == ids[..n] && traces[..k][..n] == traces[..n];
      TrackAllTruncates(h, pool, t, ids[..k], traces[..k]);
    }
  }

  /** `zip` ignores the pairs beyond the shorter list. */
  lemma TrackAllTruncates(h: Hasher, pool: Pool, t: Tables, ids: seq<int>, traces: seq<seq<string>>)
    ensures var n := Min(|ids|, |traces|);
      TrackAll(h, pool, t, ids, traces) == TrackAll(h, pool, t, ids[..n], traces[..n])
  {
    var n := Min(|ids|, |traces|);
    if n > 0 {
      assert ids[..n][..n - 1] == ids[..n - 1] && traces[..n][..n - 1] == traces[..n - 1];
    }
  }

  /** Number of traces of the list whose space-joined text hashes to `k`. */
  function KeyCount(h: Hasher, traces: seq<seq<string>>, k: string): nat
  {
    if traces == [] then 0
    else KeyCount(h, traces[..|traces| - 1], k) + (if TraceKey(h, traces[|traces| - 1]) == k then 1 else 0)
  }

  predicate AllHaveFrames(h: Hasher, pool: Pool, traces: seq<seq<string>>)
  {
    forall j | 0 <= j < |traces| :: HasFrames(h, pool, traces[j])
  }

  /** Tracking a trace whose frames are all named nodes of the pool stores the
      trace under its key, and maps the id to a node list whose names are the
      frames in order; the trace's frequency grows by one. */
  lemma TrackRecordsTrace(h: Hasher, pool: Pool, t: Tables, id: int, s: seq<string>)
    requires WellNamed(h, pool, s)
    ensures var r := TrackSpec(h, pool, t, id, s);
      && r.1
      && r.0.stacktrace[TraceKey(h, s)] == s
      && Names(r.0.uuidNodesMap[id]) == s
      && Names(r.0.nodeStacktrace[TraceKey(h, s)]) == s
      && r.0.freqStacktrace[TraceKey(h, s)] == Get(t.freqStacktrace, TraceKey(h, s)) + 1
  {
    var nodes := NodesOf(h, pool, s);
    assert Names(nodes) == s;
  }

  /** Tracking a batch whose frames all have nodes succeeds, appends the ids
      of the zipped pairs to `uuid` in order, and raises each key's
      frequency by the number of tracked traces with that key. */
  lemma TrackAllCounts(h: Hasher, pool: Pool, t: Tables, ids: seq<int>, traces: seq<seq<string>>, k: string)
    requires AllHaveFrames(h, pool, traces)
    ensures var r := TrackAll(h, pool, t, ids, traces);
      && r.1
      && r.0.uuid == t.uuid + ids[..Min(|ids|, |traces|)]
      && Get(r.0.freqStacktrace, k) == Get(t.freqStacktrace, k) + KeyCount(h, traces[..Min(|ids|, |traces|)], k)
  {
    var n := Min(|ids|, |traces|);
    TrackAllTruncates(h, pool, t, ids, traces);
    AllHaveFramesPrefix(h, pool, traces, n);
    TrackAllCountsZipped(h, pool, t, ids[..n], traces[..n], k);
  }

  lemma AllHaveFramesPrefix(h: Hasher, pool: Pool, traces: seq<seq<string>>, n: nat)
    requires n <= |traces| && AllHaveFrames(h, pool, traces)
    ensures AllHaveFrames(h, pool, traces[..n])
  {
    forall j | 0 <= j < n ensures HasFrames(h, pool, traces[..n][j]) {
      assert traces[..n][j] == traces[j];
    }
  }

  /** `TrackAllCounts` for lists of equal length. */
  lemma {:induction false} TrackAllCountsZipped(h: Hasher, pool: Pool, t: Tables, ids: seq<int>, traces: seq<seq<string>>, k: string)
    requires |ids| == |traces| && AllHaveFrames(h, pool, traces)
    ensures var r := TrackAll(h, pool, t, ids, traces);
      && r.1
      && r.0.uuid == t.uuid + ids
      && Get(r.0.freqStacktrace, k) == Get(t.freqStacktrace, k) + KeyCount(h, traces, k)
    decreases |ids|
  {
    if ids != [] {
      var n := |ids| - 1;
      AllHaveFramesPrefix(h, pool, traces, n);
      TrackAllCountsZipped(h, pool, t, ids[..n], traces[..n], k);
      var prev := TrackAll(h, pool, t, ids[..n], traces[..n]);
      TrackCounts(h, pool, prev.0, ids[n], traces[n], k);
      assert ids[..n] + [ids[n]] == ids;
    }
  }

  /** One tracked trace raises its own key's frequency by one and no other. */
  lemma TrackCounts(h: Hasher, pool: Pool, t: Tables, id: int, s: seq<string>, k: string)
    requires HasFrames(h, pool, s)
    ensures var r := TrackSpec(h, pool, t, id, s);
      && r.1 && r.0.uuid == t.uuid + [id]
      && Get(r.0.freqStacktrace, k) == Get(t.freqStacktrace, k) + (if TraceKey(h, s) == k then 1 else 0)
  {
  }

  /** Trace identity is the hash of the space-joined text, so two different
      traces whose joined texts agree share one entry of every table. */
  lemma JoinedTextConflates(h: Hasher)
    ensures TraceKey(h, ["a b"]) == TraceKey(h, ["a", "b"])
  {
    var parts: seq<string> := ["a", "b"];
    assert parts[1..] == ["b"];
    assert Join(parts, " ") == "a" + " " + "b" == "a b";
  }
}
