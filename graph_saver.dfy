/** `GraphSaver` (build/graph_saver.py): the dictionary that `__graph2json__`
    builds from a node manager and a stacktrace manager, and the format
    dispatch of `save`. A JSON object is a record whose every key may be
    missing, so that the loader can be stated over objects of any shape. */
module GraphSaver {
  import opened Wrappers
  import opened GraphPool
  import opened TraceTables

  /** One element of `node_pool`: the keys written by `node2dict`. There is
      no `static_attribute` key. */
  datatype NodeEntry = NodeEntry(
    hashId: Option<string>,
    name: Option<string>,
    weight: Option<int>,
    outEdge: Option<map<string, int>>,
    inEdge: Option<map<string, int>>,
    freIdStacktrace: Option<map<string, int>>)

  /** The `stacktrace_manager` object; node lists are lists of hashes. */
  datatype TablesObject = TablesObject(
    uuid: Option<seq<int>>,
    stacktrace: Option<map<string, seq<string>>>,
    nodeStacktrace: Option<map<string, seq<string>>>,
    freqStacktrace: Option<map<string, int>>,
    uuidNodesMap: Option<map<int, seq<string>>>)

  datatype GraphObject = GraphObject(nodePool: Option<seq<NodeEntry>>, stacktraceManager: Option<TablesObject>)

  /** `order` lists every key of the pool exactly once: the iteration order
      of `pool.items()`. */
  predicate Enumerates(order: seq<string>, pool: Pool)
  {
    && (forall i, j :: 0 <= i < j < |order| ==> order[i] != order[j])
    && (forall k :: k in pool ==> k in order)
    && (forall i :: 0 <= i < |order| ==> order[i] in pool)
  }

  /** `node2dict(hash_id, node)`. */
  function NodeToEntry(key: string, node: Node): NodeEntry
  {
    NodeEntry(Some(key), Some(node.name), Some(node.weight), Some(node.outEdge), Some(node.inEdge),
              Some(node.freIdStacktrace))
  }

  /** `[H(n.name) for n in nodes]`. */
  function HashNames(h: Hasher, nodes: seq<Node>): (r: seq<string>)
    ensures |r| == |nodes| && forall i :: 0 <= i < |nodes| ==> r[i] == h(nodes[i].name)
  {
    seq(|nodes|, i requires 0 <= i < |nodes| => h(nodes[i].name))
  }

  /** `{k: [H(n.name) for n in v] for k, v in m.items()}`. */
  function HashNamesMap<K>(h: Hasher, m: map<K, seq<Node>>): (r: map<K, seq<string>>)
    ensures r.Keys == m.Keys
  {
    map k | k in m :: HashNames(h, m[k])
  }

  function NodeEntries(pool: Pool, order: seq<string>): seq<NodeEntry>
    requires forall i :: 0 <= i < |order| ==> order[i] in pool
  {
    seq(|order|, i requires 0 <= i < |order| => NodeToEntry(order[i], pool[order[i]]))
  }

  /** `__graph2json__`. */
  function Graph2Json(h: Hasher, pool: Pool, order: seq<string>, t: Tables): GraphObject
    requires forall i :: 0 <= i < |order| ==> order[i] in pool
  {
    GraphObject(
      Some(NodeEntries(pool, order)),
      Some(TablesObject(
        Some(t.uuid),
        Some(t.stacktrace),
        Some(HashNamesMap(h, t.nodeStacktrace)),
        Some(t.freqStacktrace),
        Some(HashNamesMap(h, t.uuidNodesMap)))))
  }

  /** What `save` writes: the pickled managers for 'pickle'; for 'hdf5' and
      for any other format, the `__graph2json__` object as JSON. */
  datatype Saved = Pickled(pool: Pool, tables: Tables) | JsonText(graph: GraphObject)

  function Save(h: Hasher, formatType: string, pool: Pool, order: seq<string>, t: Tables): (r: Saved)
    requires forall i :: 0 <= i < |order| ==> order[i] in pool
    ensures r.Pickled? <==> formatType == "pickle"
    ensures r.Pickled? ==> r.pool == pool && r.tables == t
    ensures r.JsonText? ==> r.graph == Graph2Json(h, pool, order, t)
  {
    if formatType == "pickle" then Pickled(pool, t)
    else if formatType == "hdf5" then JsonText(Graph2Json(h, pool, order, t))
    else JsonText(Graph2Json(h, pool, order, t))
  }

  /** A sequence without repetitions has as many elements as its set. */
  lemma {:induction false} DistinctCard(xs: seq<string>)
    requires forall i, j :: 0 <= i < j < |xs| ==> xs[i] != xs[j]
    ensures |set x | x in xs| == |xs|
  {
    if xs != [] {
      var n := |xs| - 1;
      DistinctCard(xs[..n]);
      assert (set x | x in xs) == (set x | x in xs[..n]) + {xs[n]};
      assert xs[n] !in (set x | x in xs[..n]);
    }
  }

  /** `node_pool` has one entry per pool item: as many entries as keys, and
      for each key exactly one entry, carrying that node's name, weight,
      edge maps and frequencies. */
  lemma Graph2JsonOneEntryPerNode(h: Hasher, pool: Pool, order: seq<string>, t: Tables)
    requires Enumerates(order, pool)
    ensures var entries := Graph2Json(h, pool, order, t).nodePool.value;
      && |entries| == |pool|
      && forall k :: k in pool ==>
           exists i :: && 0 <= i < |entries| && entries[i] == NodeToEntry(k, pool[k])
                       && forall j :: 0 <= j < |entries| && entries[j].hashId == Some(k) ==> j == i
  {
    DistinctCard(order);
    assert (set x | x in order) == pool.Keys;
    var entries := NodeEntries(pool, order);
    forall k | k in pool
      ensures exists i :: && 0 <= i < |entries| && entries[i] == NodeToEntry(k, pool[k])
                          && forall j :: 0 <= j < |entries| && entries[j].hashId == Some(k) ==> j == i
    {
      var i :| 0 <= i < |order| && order[i] == k;
      assert entries[i] == NodeToEntry(k, pool[k]);
    }
  }

  /** `uuid`, `stacktrace` and `freq_stacktrace` are copied unchanged; the two
      node-list maps keep their keys and list lengths and hold each node's
      name hash. */
  lemma Graph2JsonCopiesTables(h: Hasher, pool: Pool, order: seq<string>, t: Tables)
    requires forall i :: 0 <= i < |order| ==> order[i] in pool
    ensures var s := Graph2Json(h, pool, order, t).stacktraceManager.value;
      && s.uuid == Some(t.uuid) && s.stacktrace == Some(t.stacktrace) && s.freqStacktrace == Some(t.freqStacktrace)
      && s.nodeStacktrace.value.Keys == t.nodeStacktrace.Keys
      && (forall k :: k in t.nodeStacktrace ==>
            |s.nodeStacktrace.value[k]| == |t.nodeStacktrace[k]|
            && forall i :: 0 <= i < |t.nodeStacktrace[k]| ==> s.nodeStacktrace.value[k][i] == h(t.nodeStacktrace[k][i].name))
      && s.uuidNodesMap.value.Keys == t.uuidNodesMap.Keys
      && (forall k :: k in t.uuidNodesMap ==>
            |s.uuidNodesMap.value[k]| == |t.uuidNodesMap[k]|
            && forall i :: 0 <= i < |t.uuidNodesMap[k]| ==> s.uuidNodesMap.value[k][i] == h(t.uuidNodesMap[k][i].name))
  {
  }
}
