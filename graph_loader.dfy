/** `GraphLoader.__json2graph__` (graph/build/graph_loader.py): the managers
    rebuilt from a `__graph2json__` object. Any missing key, in the object or
    in a pool lookup, is a KeyError that the loader turns into None. */
module GraphLoader {
  import opened Wrappers
  import opened GraphPool
  import opened TraceTables
  import opened GraphSaver

  /** Every key `dict2node` and the pool comprehension read is present. */
  predicate EntryComplete(e: NodeEntry)
  {
    e.hashId.Some? && e.name.Some? && e.weight.Some? && e.outEdge.Some? && e.inEdge.Some? && e.freIdStacktrace.Some?
  }

  /** `dict2node(dictionary)`: the static attribute stays None. */
  function EntryNode(e: NodeEntry): (r: Option<Node>)
    ensures r.Some? <==> EntryComplete(e)
    ensures r.Some? ==> r.value.staticAttribute == AttrNone && r.value.name == e.name.value
  {
    if !EntryComplete(e) then None
    else Some(Node(e.name.value, e.weight.value, e.outEdge.value, e.inEdge.value, e.freIdStacktrace.value, AttrNone))
  }

  /** `{d['hash_id']: dict2node(d) for d in node_pool}`: a later entry with
      the same hash replaces an earlier one. */
  function PoolOf(entries: seq<NodeEntry>): Option<Pool>
  {
    if entries == [] then Some(map[])
    else
      var n := |entries| - 1;
      match PoolOf(entries[..n])
      case None => None
      case Some(pool) =>
        match EntryNode(entries[n])
        case None => None
        case Some(node) => Some(pool[entries[n].hashId.value := node])
  }

  /** Every hash of every list of `m` is one of `keys`. */
  predicate AllResolve<K>(keys: set<string>, m: map<K, seq<string>>)
  {
    forall k, i :: k in m && 0 <= i < |m[k]| ==> m[k][i] in keys
  }

  /** `[pool[x] for x in hashes]` for every list of the map. */
  function ResolveMap<K>(pool: Pool, m: map<K, seq<string>>): (r: Option<map<K, seq<Node>>>)
    ensures r.Some? <==> AllResolve(pool.Keys, m)
    ensures r.Some? ==> r.value.Keys == m.Keys
    ensures r.Some? ==> forall k :: k in m ==> |r.value[k]| == |m[k]|
  {
    if AllResolve(pool.Keys, m) then
      Some(map k | k in m :: seq(|m[k]|, i requires 0 <= i < |m[k]| => pool[m[k][i]]))
    else None
  }

  /** `__json2graph__`. */
  function Json2Graph(j: GraphObject): Option<(Pool, Tables)>
  {
    if j.nodePool.None? || j.stacktraceManager.None? then None
    else
      var s := j.stacktraceManager.value;
      match PoolOf(j.nodePool.value)
      case None => None
      case Some(pool) =>
        if s.uuid.None? || s.stacktrace.None? || s.nodeStacktrace.None? || s.freqStacktrace.None? || s.uuidNodesMap.None?
        then None
        else
          match ResolveMap(pool, s.nodeStacktrace.value)
          case None => None
          case Some(nodeLists) =>
            match ResolveMap(pool, s.uuidNodesMap.value)
            case None => None
            case Some(uuidLists) =>
              Some((pool, Tables(s.uuid.value, s.stacktrace.value, nodeLists, s.freqStacktrace.value, uuidLists)))
  }

  /** The hashes the entries declare. */
  function HashIds(entries: seq<NodeEntry>): set<string>
  {
    set i | 0 <= i < |entries| && entries[i].hashId.Some? :: entries[i].hashId.value
  }

  /** The pool exists iff every entry is complete. */
  lemma {:induction false} PoolOfDefined(entries: seq<NodeEntry>)
    ensures PoolOf(entries).Some? <==> forall i :: 0 <= i < |entries| ==> EntryComplete(entries[i])
  {
    if entries != [] {
      var n := |entries| - 1;
      PoolOfDefined(entries[..n]);
      assert forall i :: 0 <= i < n ==> entries[..n][i] == entries[i];
    }
  }

  /** The pool has exactly one key per distinct entry hash. */
  lemma {:induction false} PoolOfKeys(entries: seq<NodeEntry>)
    requires PoolOf(entries).Some?
    ensures PoolOf(entries).value.Keys == HashIds(entries)
  {
    if entries != [] {
      var n := |entries| - 1;
      PoolOfKeys(entries[..n]);
      assert forall i :: 0 <= i < n ==> entries[..n][i] == entries[i];
      assert HashIds(entries) == HashIds(entries[..n]) + {entries[n].hashId.value};
    }
  }

  /** Each node of the pool is `dict2node` of an entry with its hash; in
      particular no node keeps a static attribute. */
  lemma {:induction false} PoolOfNodes(entries: seq<NodeEntry>)
    requires PoolOf(entries).Some?
    ensures var pool := PoolOf(entries).value;
      forall k :: k in pool ==>
        exists i :: 0 <= i < |entries| && entries[i].hashId == Some(k) && EntryNode(entries[i]) == Some(pool[k])
  {
    if entries != [] {
      var n := |entries| - 1;
      var prefix := entries[..n];
      PoolOfNodes(prefix);
      var pool, prev := PoolOf(entries).value, PoolOf(prefix).value;
      forall k | k in pool
        ensures exists i :: 0 <= i < |entries| && entries[i].hashId == Some(k) && EntryNode(entries[i]) == Some(pool[k])
      {
        if k != entries[n].hashId.value {
          var i :| 0 <= i < n && prefix[i].hashId == Some(k) && EntryNode(prefix[i]) == Some(prev[k]);
          assert entries[i] == prefix[i];
        }
      }
    }
  }

  /** Every key the loader reads is present, and every hash of a node list
      names an entry of `node_pool`. */
  predicate Loadable(j: GraphObject)
  {
    && j.nodePool.Some? && j.stacktraceManager.Some?
    && (forall i :: 0 <= i < |j.nodePool.value| ==> EntryComplete(j.nodePool.value[i]))
    && var s := j.stacktraceManager.value;
       && s.uuid.Some? && s.stacktrace.Some? && s.nodeStacktrace.Some? && s.freqStacktrace.Some? && s.uuidNodesMap.Some?
       && AllResolve(HashIds(j.nodePool.value), s.nodeStacktrace.value)
       && AllResolve(HashIds(j.nodePool.value), s.uuidNodesMap.value)
  }

  /** Loading succeeds exactly when no key is missing. */
  lemma Json2GraphDefined(j: GraphObject)
    ensures Json2Graph(j).Some? <==> Loadable(j)
  {
    if j.nodePool.Some? {
      PoolOfDefined(j.nodePool.value);
      if PoolOf(j.nodePool.value).Some? && j.stacktraceManager.Some? {
        PoolOfKeys(j.nodePool.value);
      }
    }
  }

  /** A loaded graph's pool keys are the entries' hashes and no node keeps a
      static attribute; `uuid`, `stacktrace` and `freq_stacktrace` are
      copied, and each hash list becomes the list of the pool nodes it names,
      of the same length. */
  lemma Json2GraphContents(j: GraphObject)
    requires Json2Graph(j).Some?
    ensures var pool, t := Json2Graph(j).value.0, Json2Graph(j).value.1;
      var s := j.stacktraceManager.value;
      && pool.Keys == HashIds(j.nodePool.value)
      && (forall k :: k in pool ==> pool[k].staticAttribute == AttrNone)
      && t.uuid == s.uuid.value && t.stacktrace == s.stacktrace.value && t.freqStacktrace == s.freqStacktrace.value
      && t.nodeStacktrace.Keys == s.nodeStacktrace.value.Keys
      && (forall k :: k in t.nodeStacktrace ==>
            |t.nodeStacktrace[k]| == |s.nodeStacktrace.value[k]|
            && forall i :: 0 <= i < |t.nodeStacktrace[k]| ==> t.nodeStacktrace[k][i] == pool[s.nodeStacktrace.value[k][i]])
      && t.uuidNodesMap.Keys == s.uuidNodesMap.value.Keys
      && (forall k :: k in t.uuidNodesMap ==>
            |t.uuidNodesMap[k]| == |s.uuidNodesMap.value[k]|
            && forall i :: 0 <= i < |t.uuidNodesMap[k]| ==> t.uuidNodesMap[k][i] == pool[s.uuidNodesMap.value[k][i]])
  {
    var entries := j.nodePool.value;
    PoolOfKeys(entries);
    PoolOfNodes(entries);
    var pool := PoolOf(entries).value;
    forall k | k in pool ensures pool[k].staticAttribute == AttrNone {
      var i :| 0 <= i < |entries| && entries[i].hashId == Some(k) && EntryNode(entries[i]) == Some(pool[k]);
    }
  }

  // ---------------------------------------------------------------------------
  // Round trip
  // ---------------------------------------------------------------------------

  /** Every pool key is the hash of its node's name, as `init_nodes`,
      `init_pool` and `init_edges` key them. */
  predicate WellKeyed(h: Hasher, pool: Pool)
  {
    forall k :: k in pool ==> h(pool[k].name) == k
  }

  /** Every node of the trace tables has its name's hash in the pool. */
  predicate TablesInPool(h: Hasher, pool: Pool, t: Tables)
  {
    NamesIn(h, pool.Keys, t.nodeStacktrace) && NamesIn(h, pool.Keys, t.uuidNodesMap)
  }

  /** The name hash of every node of every list of `m` is one of `keys`. */
  predicate NamesIn<K>(h: Hasher, keys: set<string>, m: map<K, seq<Node>>)
  {
    forall k, i :: k in m && 0 <= i < |m[k]| ==> h(m[k][i].name) in keys
  }

  /** The node as it is loaded back: everything but the static attribute. */
  function Stripped(node: Node): Node
  {
    node.(staticAttribute := AttrNone)
  }

  lemma {:induction false} PoolOfEntries(pool: Pool, ks: seq<string>)
    requires forall i :: 0 <= i < |ks| ==> ks[i] in pool
    ensures PoolOf(NodeEntries(pool, ks)) == Some(map k | k in ks :: Stripped(pool[k]))
  {
    if ks != [] {
      var n := |ks| - 1;
      assert NodeEntries(pool, ks)[..n] == NodeEntries(pool, ks[..n]);
      PoolOfEntries(pool, ks[..n]);
      assert (map k | k in ks :: Stripped(pool[k])) == (map k | k in ks[..n] :: Stripped(pool[k]))[ks[n] := Stripped(pool[ks[n]])];
    }
  }

  /** The saved node entries load back as the pool without static
      attributes, still keyed by the hash of each node's name. */
  lemma LoadedPool(h: Hasher, pool: Pool, order: seq<string>)
    requires Enumerates(order, pool) && WellKeyed(h, pool)
    ensures var loaded := map k | k in pool :: Stripped(pool[k]);
      && PoolOf(NodeEntries(pool, order)) == Some(loaded)
      && loaded.Keys == pool.Keys
      && WellKeyed(h, loaded)
  {
    var loaded := map k | k in pool :: Stripped(pool[k]);
    PoolOfEntries(pool, order);
    assert (map k | k in order :: Stripped(pool[k])) == loaded;
  }

  /** Resolving the name hashes of a node-list map against a well-keyed
      pool that holds them gives back lists of nodes with the same names. */
  lemma ResolveHashNames<K>(h: Hasher, pool: Pool, m: map<K, seq<Node>>)
    requires Injective(h) && WellKeyed(h, pool)
    requires NamesIn(h, pool.Keys, m)
    ensures var r := ResolveMap(pool, HashNamesMap(h, m));
      && r.Some? && r.value.Keys == m.Keys
      && forall k :: k in m ==> Names(r.value[k]) == Names(m[k])
  {
    var hm := HashNamesMap(h, m);
    assert AllResolve(pool.Keys, hm);
    var r := ResolveMap(pool, hm).value;
    forall k | k in m ensures Names(r[k]) == Names(m[k]) {
      forall i | 0 <= i < |m[k]| ensures r[k][i].name == m[k][i].name {
        assert r[k][i] == pool[h(m[k][i].name)];
      }
    }
  }

  /** Loading what `__graph2json__` produced gives back every pool key with
      the same name, weight, edges and frequencies (and no static attribute),
      the same `uuid`, `stacktrace` and `freq_stacktrace`, and node lists of
      the same lengths whose nodes have the same names. */
  lemma RoundTrip(h: Hasher, pool: Pool, order: seq<string>, t: Tables)
    requires Injective(h) && Enumerates(order, pool) && WellKeyed(h, pool) && TablesInPool(h, pool, t)
    ensures var r := Json2Graph(Graph2Json(h, pool, order, t));
      && r.Some?
      && r.value.0 == (map k | k in pool :: Stripped(pool[k]))
      && r.value.1.uuid == t.uuid && r.value.1.stacktrace == t.stacktrace && r.value.1.freqStacktrace == t.freqStacktrace
      && r.value.1.nodeStacktrace.Keys == t.nodeStacktrace.Keys
      && (forall k :: k in t.nodeStacktrace ==> Names(r.value.1.nodeStacktrace[k]) == Names(t.nodeStacktrace[k]))
      && r.value.1.uuidNodesMap.Keys == t.uuidNodesMap.Keys
      && (forall k :: k in t.uuidNodesMap ==> Names(r.value.1.uuidNodesMap[k]) == Names(t.uuidNodesMap[k]))
  {
    var loaded := map k | k in pool :: Stripped(pool[k]);
    LoadedPool(h, pool, order);
    ResolveHashNames(h, loaded, t.nodeStacktrace);
    ResolveHashNames(h, loaded, t.uuidNodesMap);
    var nodeLists := ResolveMap(loaded, HashNamesMap(h, t.nodeStacktrace)).value;
    var uuidLists := ResolveMap(loaded, HashNamesMap(h, t.uuidNodesMap)).value;
    assert Json2Graph(Graph2Json(h, pool, order, t))
      == Some((loaded, Tables(t.uuid, t.stacktrace, nodeLists, t.freqStacktrace, uuidLists)));
  }
}
