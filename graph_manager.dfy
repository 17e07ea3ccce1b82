/** The stateful managers of graph/core/graph_manager.py: `NodeManager`, whose
    `pool` dict is updated in place, and `StacktraceManager`, whose five tables
    are. Each method is proved against the functions of module GraphPool (and
    `TrackSpec` below), whose properties are proved in module GraphPoolFacts. */
module GraphManagers {
  import opened Wrappers
  import opened Strings
  import opened GraphPool
  import opened TraceTables
  import opened GraphBatches

  class NodeManager {
    var pool: Pool

    constructor()
      ensures pool == map[]
    {
      pool := map[];
    }

    /** `get_node(name)`: the node at the hash of the name; None is a KeyError. */
    function GetNode(h: Hasher, name: string): (r: Option<Node>)
      reads this
      ensures r.Some? <==> h(name) in pool
      ensures r.Some? ==> r.value == pool[h(name)]
    {
      if h(name) in pool then Some(pool[h(name)]) else None
    }

    /** `init_nodes(stacktrace, static_attribute)`: registration, then edges,
        then frequencies. On a KeyError (ok false) the pool is left as the
        registrations before the failing frame made it. */
    method InitNodes(h: Hasher, s: seq<string>, attr: Attr) returns (ok: bool)
      modifies this
      ensures ok == InitNodesSpec(h, old(pool), s, attr).Some?
      ensures ok ==> pool == InitNodesSpec(h, old(pool), s, attr).value
      ensures !ok ==> exists k :: 0 <= k < |s| && RegisterFrames(h, old(pool), s[..k], attr) == Some(pool)
                                   && RegisterFrame(h, pool, s[k], attr).None?
    {
      ok := RegisterTrace(h, s, attr);
      if ok {
        LinkTrace(h, s);
        CountTrace(h, s, h(Join(s, " ")));
      }
    }

    /** The first loop of `init_nodes`: a fresh node at `H(m)` unless `m`
        itself is a key, then `weight += 1` at `H(m)`. */
    method RegisterTrace(h: Hasher, s: seq<string>, attr: Attr) returns (ok: bool)
      modifies this
      ensures ok == RegisterFrames(h, old(pool), s, attr).Some?
      ensures ok ==> pool == RegisterFrames(h, old(pool), s, attr).value
      ensures !ok ==> exists k :: 0 <= k < |s| && RegisterFrames(h, old(pool), s[..k], attr) == Some(pool)
                                   && RegisterFrame(h, pool, s[k], attr).None?
    {
      var i := 0;
      while i < |s|
        invariant 0 <= i <= |s|
        invariant RegisterFrames(h, old(pool), s[..i], attr) == Some(pool)
      {
        RegisterFramesStep(h, old(pool), s, i, attr, pool);
        ok := RegisterStep(h, s[i], attr);
        if !ok {
          RegisterFramesFailurePersists(h, old(pool), s, i + 1, attr);
          return;
        }
        i := i + 1;
      }
      assert s[..i] == s;
      return true;
    }

    /** One pass of the registration loop, on frame `m`. */
    method RegisterStep(h: Hasher, m: string, attr: Attr) returns (ok: bool)
      modifies this
      ensures ok == RegisterFrame(h, old(pool), m, attr).Some?
      ensures ok ==> pool == RegisterFrame(h, old(pool), m, attr).value
      ensures !ok ==> pool == old(pool)
    {
      if m !in pool {
        pool := pool[h(m) := NewNode(m, attr)];
      }
      if h(m) !in pool {
        return false;
      }
      pool := pool[h(m) := pool[h(m)].(weight := pool[h(m)].weight + 1)];
      return true;
    }

    /** The edge loop shared by `init_nodes` and `init_edges`: for each
        adjacent pair, `node.out_edge[H(next_node.name)] += 1`, then
        `next_node.in_edge[H(node.name)] += 1` on the entry as it is after the
        first update (the two are one node when the frames are equal). */
    method LinkTrace(h: Hasher, s: seq<string>)
      requires HasFrames(h, pool, s)
      modifies this
      ensures pool == LinkEdges(h, old(pool), s)
    {
      var i := 0;
      while i + 1 < |s|
        invariant 0 <= i && (s == [] || i < |s|)
        invariant HasFrames(h, pool, s)
        invariant pool == LinkEdges(h, old(pool), s[..Min(i + 1, |s|)])
      {
        LinkEdgesStep(h, old(pool), s, i);
        LinkStep(h, s[i], s[i + 1]);
        i := i + 1;
      }
      assert s[..Min(i + 1, |s|)] == s;
    }

    /** One pass of the edge loop, on the frames `a` then `b`. */
    method LinkStep(h: Hasher, a: string, b: string)
      requires h(a) in pool && h(b) in pool
      modifies this
      ensures pool == LinkPair(h, old(pool), a, b)
    {
      var node := pool[h(a)];
      var next := pool[h(b)];
      pool := pool[h(a) := node.(outEdge := Bump(node.outEdge, h(next.name)))];
      var next' := pool[h(b)];
      pool := pool[h(b) := next'.(inEdge := Bump(next'.inEdge, h(node.name)))];
    }

    /** The frequency loop shared by `init_nodes` and `init_edges`, under the
        trace's key `t = H(' '.join(stacktrace))`: `fre_id_stacktrace[t] += 1`
        at every frame. */
    method CountTrace(h: Hasher, s: seq<string>, t: string)
      requires HasFrames(h, pool, s)
      modifies this
      ensures pool == CountInTrace(h, old(pool), s, t)
    {
      var i := 0;
      while i < |s|
        invariant 0 <= i <= |s|
        invariant HasFrames(h, pool, s)
        invariant pool == CountInTrace(h, old(pool), s[..i], t)
      {
        CountInTraceStep(h, old(pool), s, t, i);
        CountStep(h(s[i]), t);
        i := i + 1;
      }
      assert s[..i] == s;
    }

    /** `init_pool(flatten_methods, flatten_static_attributes)`. An
        AssertionError (None input or unequal lengths) leaves the pool
        untouched; a KeyError stops the weight loop at the first frame whose
        hash has no node. */
    method InitPool(h: Hasher, ms: Option<seq<string>>, attrs: Option<seq<Attr>>) returns (ok: bool)
      modifies this
      ensures (ms.None? || attrs.None? || |ms.value| != |attrs.value|) ==> !ok && pool == old(pool)
      ensures ms.Some? && attrs.Some? && |ms.value| == |attrs.value| ==>
        && ok == InitPoolSpec(h, old(pool), ms.value, attrs.value).Some?
        && (ok ==> pool == InitPoolSpec(h, old(pool), ms.value, attrs.value).value)
        && (!ok ==> exists k :: (0 <= k < |ms.value| &&
              AddWeights(h, old(pool) + FreshNodes(h, old(pool), ms.value, attrs.value), ms.value[..k]) == Some(pool) &&
              h(ms.value[k]) !in pool))
    {
      if ms.None? || attrs.None? || |ms.value| != |attrs.value| {
        return false;
      }
      var methods := ms.value;
      pool := pool + FreshNodes(h, pool, methods, attrs.value);
      ghost var updated := pool;
      var i := 0;
      while i < |methods|
        invariant 0 <= i <= |methods|
        invariant AddWeights(h, updated, methods[..i]) == Some(pool)
      {
        AddWeightsStep(h, updated, methods, i, pool);
        var k := h(methods[i]);
        if k !in pool {
          AddWeightsFailurePersists(h, updated, methods, i + 1);
          return false;
        }
        pool := pool[k := pool[k].(weight := pool[k].weight + 1)];
        i := i + 1;
      }
      assert methods[..i] == methods;
      return true;
    }

    /** `init_edges(list_stacktrace)`: edges then frequencies, trace by trace.
        A KeyError (ok false) is raised on the first trace with a frame whose
        hash has no node; nodes keep their names and weights either way. */
    method InitEdges(h: Hasher, traces: seq<seq<string>>) returns (ok: bool)
      modifies this
      ensures SameNodes(pool, old(pool))
      ensures ok == InitEdgesSpec(h, old(pool), traces).Some?
      ensures ok ==> pool == InitEdgesSpec(h, old(pool), traces).value
      ensures !ok ==> exists j :: 0 <= j < |traces| && InitEdgesSpec(h, old(pool), traces[..j]).Some? &&
                                   !HasFrames(h, InitEdgesSpec(h, old(pool), traces[..j]).value, traces[j])
    {
      var j := 0;
      while j < |traces|
        invariant 0 <= j <= |traces|
        invariant InitEdgesSpec(h, old(pool), traces[..j]) == Some(pool)
        invariant SameNodes(pool, old(pool))
      {
        assert traces[..j + 1][..j] == traces[..j];
        var s := traces[j];
        if !HasFrames(h, pool, s) {
          ok := LinkAndCountPartial(h, s);
          InitEdgesFailurePersists(h, old(pool), traces, j + 1);
          return;
        }
        LinkTrace(h, s);
        CountTrace(h, s, h(Join(s, " ")));
        j := j + 1;
      }
      assert traces[..j] == traces;
      return true;
    }

    /** The passes of `init_edges` over a trace holding a frame whose hash has
        no node: the edges and frequencies counted before the failing lookup
        stay, and the KeyError is reported as false. */
    method LinkAndCountPartial(h: Hasher, s: seq<string>) returns (ok: bool)
      requires !HasFrames(h, pool, s)
      modifies this
      ensures !ok && SameNodes(pool, old(pool))
    {
      ok := LinkPartial(h, s);
      if !ok {
        return;
      }
      ghost var linked := pool;
      assert !HasFrames(h, pool, s);
      ok := CountPartial(h, s, h(Join(s, " ")));
      SameNodesTrans(pool, linked, old(pool));
    }

    /** The edge loop of `init_edges`, stopping with false at the first pair
        with a frame whose hash has no node. */
    method LinkPartial(h: Hasher, s: seq<string>) returns (ok: bool)
      modifies this
      ensures SameNodes(pool, old(pool))
    {
      var i := 0;
      while i + 1 < |s|
        invariant 0 <= i && SameNodes(pool, old(pool))
      {
        if h(s[i]) !in pool || h(s[i + 1]) !in pool {
          return false;
        }
        ghost var before := pool;
        LinkStep(h, s[i], s[i + 1]);
        SameNodesTrans(pool, before, old(pool));
        i := i + 1;
      }
      return true;
    }

    /** The frequency loop of `init_edges`, under the trace's key `t`, on a
        trace with a frame whose hash has no node: it reaches that frame and
        reports false. */
    method CountPartial(h: Hasher, s: seq<string>, t: string) returns (ok: bool)
      requires !HasFrames(h, pool, s)
      modifies this
      ensures !ok && SameNodes(pool, old(pool))
    {
      var i := 0;
      while i < |s|
        invariant 0 <= i <= |s| && SameNodes(pool, old(pool))
        invariant forall j :: 0 <= j < i ==> h(s[j]) in old(pool)
      {
        var k := h(s[i]);
        if k !in pool {
          return false;
        }
        ghost var before := pool;
        CountStep(k, t);
        SameNodesTrans(pool, before, old(pool));
        i := i + 1;
      }
      assert false;
    }

    /** One pass of the frequency loop: `fre_id_stacktrace[t] += 1` at `k`. */
    method CountStep(k: string, t: string)
      requires k in pool
      modifies this
      ensures pool == old(pool)[k := old(pool)[k].(freIdStacktrace := Bump(old(pool)[k].freIdStacktrace, t))]
      ensures SameNodes(pool, old(pool))
    {
      pool := pool[k := pool[k].(freIdStacktrace := Bump(pool[k].freIdStacktrace, t))];
    }
  }

  class StacktraceManager {
    var uuid: seq<int>
    var stacktrace: map<string, seq<string>>
    var nodeStacktrace: map<string, seq<Node>>
    var freqStacktrace: map<string, int>
    var uuidNodesMap: map<int, seq<Node>>

    constructor()
      ensures Contents() == NoTables
    {
      uuid, stacktrace, nodeStacktrace, freqStacktrace, uuidNodesMap := [], map[], map[], map[], map[];
    }

    function Contents(): Tables
      reads this
    {
      Tables(uuid, stacktrace, nodeStacktrace, freqStacktrace, uuidNodesMap)
    }

    /** `track(node_pool, _id, stacktrace)`: the id is appended before the
        node lookup, whose KeyError (false) leaves the other tables as they
        were. */
    method Track(h: Hasher, nodePool: Pool, id: int, s: seq<string>) returns (ok: bool)
      modifies this
      ensures (Contents(), ok) == TrackSpec(h, nodePool, old(Contents()), id, s)
    {
      uuid := uuid + [id];
      if !HasFrames(h, nodePool, s) {
        return false;
      }
      var nodes := NodesOf(h, nodePool, s);
      var k := h(Join(s, " "));
      stacktrace := stacktrace[k := s];
      nodeStacktrace := nodeStacktrace[k := nodes];
      freqStacktrace := freqStacktrace[k := Get(freqStacktrace, k) + 1];
      uuidNodesMap := uuidNodesMap[id := nodes];
      return true;
    }
  }

  /** `GraphManager`: a node manager and a stacktrace manager (those of the
      loaded graph when it is constructed) that `add` fills and then discards. */
  class GraphManager {
    var nodeManager: NodeManager
    var stacktraceManager: StacktraceManager

    constructor(nodes: NodeManager, traces: StacktraceManager)
      ensures nodeManager == nodes && stacktraceManager == traces
    {
      nodeManager, stacktraceManager := nodes, traces;
    }

    /** `add(uuid, data, static_attributes)`. On success `built` and
        `builtTables` are the graph as `__post_action__` hands it to the
        distributor, after which both managers are fresh and empty. */
    method Add(h: Hasher, env: EnvVar, b: Batch) returns (ok: bool, built: Pool, builtTables: Tables)
      modifies this, nodeManager, stacktraceManager
      ensures ok == AddSpec(h, env, old(nodeManager.pool), old(stacktraceManager.Contents()), b).Some?
      ensures ok ==> (built, builtTables) == AddSpec(h, env, old(nodeManager.pool), old(stacktraceManager.Contents()), b).value
      ensures ok ==> fresh(nodeManager) && fresh(stacktraceManager)
      ensures ok ==> nodeManager.pool == map[] && stacktraceManager.Contents() == NoTables
    {
      built, builtTables := map[], NoTables;
      if b.Single? && b.trace != [] {
        return false, built, builtTables;
      }
      if env.forceSpeedup || NumData(b) >= env.maxIterData {
        match b
        case Single(_, _, _) =>
          ok := PrepareSpeedUp(h, env, [], [], None);
        case Many(ids, traces, attrs) =>
          ok := PrepareSpeedUp(h, env, ids, traces, attrs);
      } else {
        ok := PrepareOneShot(h, b);
      }
      if !ok {
        return;
      }
      built, builtTables := nodeManager.pool, stacktraceManager.Contents();
      PostAction();
    }

    /** `__post_action__`: both managers are replaced by empty ones. */
    method PostAction()
      modifies this
      ensures fresh(nodeManager) && fresh(stacktraceManager)
      ensures nodeManager.pool == map[] && stacktraceManager.Contents() == NoTables
    {
      nodeManager := new NodeManager();
      stacktraceManager := new StacktraceManager();
    }

    /** `__prepare_one_shot__`. */
    method PrepareOneShot(h: Hasher, b: Batch) returns (ok: bool)
      modifies nodeManager, stacktraceManager
      ensures ok == OneShotSpec(h, old(nodeManager.pool), old(stacktraceManager.Contents()), b).Some?
      ensures ok ==> (nodeManager.pool, stacktraceManager.Contents())
                     == OneShotSpec(h, old(nodeManager.pool), old(stacktraceManager.Contents()), b).value
    {
      var valid := OneShotRecords(stacktraceManager.uuid, b);
      if !AllDicts(valid.2) {
        return false;
      }
      ok := AddListStacktrace(h, valid.0, valid.1, valid.2);
    }

    /** `__add_list_stacktrace__`: `init_nodes` then `track` for each record. */
    method AddListStacktrace(h: Hasher, ids: seq<int>, traces: seq<seq<string>>, attrs: seq<Attr>) returns (ok: bool)
      requires |ids| == |traces| == |attrs|
      modifies nodeManager, stacktraceManager
      ensures ok == AddList(h, old(nodeManager.pool), old(stacktraceManager.Contents()), ids, traces, attrs).Some?
      ensures ok ==> (nodeManager.pool, stacktraceManager.Contents())
                     == AddList(h, old(nodeManager.pool), old(stacktraceManager.Contents()), ids, traces, attrs).value
    {
      ghost var pool0, t0 := nodeManager.pool, stacktraceManager.Contents();
      var i := 0;
      while i < |ids|
        invariant 0 <= i <= |ids|
        invariant AddList(h, pool0, t0, ids[..i], traces[..i], attrs[..i]) == Some((nodeManager.pool, stacktraceManager.Contents()))
      {
        AddListStep(h, pool0, t0, ids, traces, attrs, i, (nodeManager.pool, stacktraceManager.Contents()));
        ok := AddSingleStacktrace(h, ids[i], traces[i], attrs[i]);
        if !ok {
          AddListFailurePersists(h, pool0, t0, ids, traces, attrs, i + 1);
          return;
        }
        i := i + 1;
      }
      AddListWhole(h, pool0, t0, ids, traces, attrs);
      return true;
    }

    /** `__add_single_stacktrace__`. */
    method AddSingleStacktrace(h: Hasher, id: int, s: seq<string>, attr: Attr) returns (ok: bool)
      modifies nodeManager, stacktraceManager
      ensures ok == AddOne(h, old(nodeManager.pool), old(stacktraceManager.Contents()), id, s, attr).Some?
      ensures ok ==> (nodeManager.pool, stacktraceManager.Contents())
                     == AddOne(h, old(nodeManager.pool), old(stacktraceManager.Contents()), id, s, attr).value
    {
      ok := nodeManager.InitNodes(h, s, attr);
      if !ok {
        return;
      }
      ok := stacktraceManager.Track(h, nodeManager.pool, id, s);
    }

    /** `__prepare_speed_up__`: the chunk loop; a chunk size of 0 raises
        ZeroDivisionError (false). */
    method PrepareSpeedUp(h: Hasher, env: EnvVar, ids: seq<int>, traces: seq<seq<string>>, attrs: Option<seq<Attr>>)
      returns (ok: bool)
      modifies nodeManager, stacktraceManager
      ensures ok == SpeedUpSpec(h, env, old(nodeManager.pool), old(stacktraceManager.Contents()), ids, traces, attrs).Some?
      ensures ok ==> (nodeManager.pool, stacktraceManager.Contents())
                     == SpeedUpSpec(h, env, old(nodeManager.pool), old(stacktraceManager.Contents()), ids, traces, attrs).value
    {
      var c := env.chunkSize;
      if c == 0 {
        return false;
      }
      ghost var pool0, t0 := nodeManager.pool, stacktraceManager.Contents();
      var n := |traces|;
      var iterations := Iterations(n, c);
      ghost var visited: seq<(nat, nat)> := [];
      var i := 0;
      while i < iterations
        invariant 0 <= i
        invariant visited + ChunksFrom(n, c, i, iterations) == Chunks(n, c)
        invariant forall k :: 0 <= k < |visited| ==> visited[k].0 <= visited[k].1
        invariant ChunkFold(h, pool0, t0, ids, traces, attrs, visited) == Some((nodeManager.pool, stacktraceManager.Contents()))
        decreases iterations - i
      {
        ChunksFromUnfold(n, c, i, iterations);
        if i * c >= Min(n, (i + 1) * c) {
          break;
        }
        var start: nat, end: nat := i * c, Min(n, (i + 1) * c);
        ghost var rest := ChunksFrom(n, c, i + 1, iterations);
        assert (visited + [(start, end)]) + rest == Chunks(n, c);
        ChunkFoldSnoc(h, pool0, t0, ids, traces, attrs, visited, start, end);
        ok := AddWithSpeedup(h, Slice(ids, start, end), Slice(traces, start, end), ChunkAttrs(ids, attrs, start, end));
        if !ok {
          ChunkFoldFailurePersists(h, pool0, t0, ids, traces, attrs, visited + [(start, end)], rest);
          return;
        }
        visited := visited + [(start, end)];
        i := i + 1;
      }
      assert visited == Chunks(n, c);
      return true;
    }

    /** `__add_with_speedup__`: the chunk's pool, then its traces tracked. */
    method AddWithSpeedup(h: Hasher, ids: seq<int>, traces: seq<seq<string>>, attrs: seq<Attr>) returns (ok: bool)
      modifies nodeManager, stacktraceManager
      ensures ok == ChunkStep(h, old(nodeManager.pool), old(stacktraceManager.Contents()), ids, traces, attrs).Some?
      ensures ok ==> (nodeManager.pool, stacktraceManager.Contents())
                     == ChunkStep(h, old(nodeManager.pool), old(stacktraceManager.Contents()), ids, traces, attrs).value
    {
      ok := BuildChunkPool(h, traces, attrs);
      if !ok {
        return;
      }
      ok := TrackChunk(h, ids, traces);
    }

    /** `init_pool` on the flattened frames, each paired with the chunk's
        whole attribute list, then `init_edges`. */
    method BuildChunkPool(h: Hasher, traces: seq<seq<string>>, attrs: seq<Attr>) returns (ok: bool)
      modifies nodeManager
      ensures ok == ChunkPool(h, old(nodeManager.pool), traces, attrs).Some?
      ensures ok ==> nodeManager.pool == ChunkPool(h, old(nodeManager.pool), traces, attrs).value
    {
      var methods := Flatten(traces);
      ok := nodeManager.InitPool(h, Some(methods), Some(ListAttrs(|methods|, attrs)));
      if !ok {
        return;
      }
      ok := nodeManager.InitEdges(h, traces);
    }

    /** `for _id, stacktrace in zip(ids, list_stacktrace): track(...)`. */
    method TrackChunk(h: Hasher, ids: seq<int>, traces: seq<seq<string>>) returns (ok: bool)
      modifies stacktraceManager
      ensures (stacktraceManager.Contents(), ok) == TrackAll(h, nodeManager.pool, old(stacktraceManager.Contents()), ids, traces)
    {
      var n := Min(|ids|, |traces|);
      var i := 0;
      while i < n
        invariant 0 <= i <= n
        invariant TrackAll(h, nodeManager.pool, old(stacktraceManager.Contents()), ids[..i], traces[..i])
                  == (stacktraceManager.Contents(), true)
      {
        assert ids[..i + 1][..i] == ids[..i] && traces[..i + 1][..i] == traces[..i];
        ok := stacktraceManager.Track(h, nodeManager.pool, ids[i], traces[i]);
        if !ok {
          TrackAllFailurePersists(h, nodeManager.pool, old(stacktraceManager.Contents()), ids, traces, i + 1);
          return;
        }
        i := i + 1;
      }
      TrackAllTruncates(h, nodeManager.pool, old(stacktraceManager.Contents()), ids, traces);
      return true;
    }
  }
}
