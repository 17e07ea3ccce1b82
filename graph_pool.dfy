/** The frame vocabulary of graph/core/graph_manager.py as values: nodes, the
    node pool keyed by frame hash, and the pool updates performed by
    `NodeManager.init_nodes`, `init_pool` and `init_edges`, each written as a
    function of the old pool. The classes that perform these updates in place
    are in module GraphManagers. */
module GraphPool {
  import opened Wrappers
  import opened Strings

  /** The content hash of a string (an MD5 hex digest in the source), left
      abstract: every operation takes it as a parameter. */
  type Hasher = string -> string

  ghost predicate Injective(h: Hasher)
  {
    forall a, b :: h(a) == h(b) ==> a == b
  }

  /** The value stored as a node's `static_attribute`: None, a dict, or a list
      (the speed-up path stores a whole chunk's attribute list on each node). */
  datatype Attr = AttrNone | AttrDict(entries: seq<(string, Attr)>) | AttrList(items: seq<Attr>)

  /** `{'static_attribute': None}`, the attribute given to records that come without one. */
  const DefaultAttr: Attr := AttrDict([("static_attribute", AttrNone)])

  datatype Node = Node(
    name: string,
    weight: int,
    outEdge: map<string, int>,
    inEdge: map<string, int>,
    freIdStacktrace: map<string, int>,
    staticAttribute: Attr)

  /** `Node(name, static_attribute=attr)`: weight 0 and empty counters. */
  function NewNode(name: string, attr: Attr): Node
  {
    Node(name, 0, map[], map[], map[], attr)
  }

  type Pool = map<string, Node>

  function Min(a: int, b: int): int
  {
    if a <= b then a else b
  }

  /** `d.get(k, 0)`. */
  function Get(m: map<string, int>, k: string): int
  {
    if k in m then m[k] else 0
  }

  /** `d[k] = d.get(k, 0) + 1`. */
  function Bump(m: map<string, int>, k: string): (r: map<string, int>)
    ensures r.Keys == m.Keys + {k}
    ensures forall j :: Get(r, j) == Get(m, j) + (if j == k then 1 else 0)
  {
    m[k := Get(m, k) + 1]
  }

  /** `convert_hash_stacktrace`: the hash of every frame, in order. */
  function HashAll(h: Hasher, s: seq<string>): (r: seq<string>)
    ensures |r| == |s| && forall i :: 0 <= i < |s| ==> r[i] == h(s[i])
  {
    seq(|s|, i requires 0 <= i < |s| => h(s[i]))
  }

  /** The hash of `' '.join(stacktrace)`, the key of a trace. */
  function TraceKey(h: Hasher, s: seq<string>): string
  {
    h(Join(s, " "))
  }

  predicate HasFrames(h: Hasher, pool: Pool, s: seq<string>)
  {
    forall i | 0 <= i < |s| :: h(s[i]) in pool
  }

  /** Keys, names, weights and attributes agree: only edges and frequencies may differ. */
  ghost predicate SameNodes(p: Pool, q: Pool)
  {
    p.Keys == q.Keys &&
    forall k :: k in p ==> p[k].name == q[k].name && p[k].weight == q[k].weight &&
                           p[k].staticAttribute == q[k].staticAttribute
  }

  lemma SameNodesUpdate(p: Pool, q: Pool, k: string, n: Node)
    requires SameNodes(p, q) && k in p
    requires n.name == p[k].name && n.weight == p[k].weight && n.staticAttribute == p[k].staticAttribute
    ensures SameNodes(p[k := n], q)
  {
  }

  lemma SameNodesTrans(p: Pool, q: Pool, r: Pool)
    requires SameNodes(p, q) && SameNodes(q, r)
    ensures SameNodes(p, r)
  {
  }

  /** Number of adjacent positions holding `a` then `b`. */
  function PairCount(s: seq<string>, a: string, b: string): nat
  {
    if |s| < 2 then 0
    else PairCount(s[..|s| - 1], a, b) + (if s[|s| - 2] == a && s[|s| - 1] == b then 1 else 0)
  }

  // ---------------------------------------------------------------------------
  // init_nodes, first loop: registration of each frame (graph_manager.py:218-221)
  // ---------------------------------------------------------------------------

  /** One iteration: a fresh node replaces the entry at `h(m)` unless the frame
      string `m` itself is a key of the pool; then the weight at `h(m)` grows by
      one, a KeyError (None) when that entry does not exist. */
  function RegisterFrame(h: Hasher, pool: Pool, m: string, attr: Attr): (r: Option<Pool>)
    ensures r.Some? ==> pool.Keys <= r.value.Keys && h(m) in r.value
  {
    var p := if m !in pool then pool[h(m) := NewNode(m, attr)] else pool;
    if h(m) in p then Some(p[h(m) := p[h(m)].(weight := p[h(m)].weight + 1)]) else None
  }

  function RegisterFrames(h: Hasher, pool: Pool, s: seq<string>, attr: Attr): (r: Option<Pool>)
    ensures r.Some? ==> pool.Keys <= r.value.Keys && HasFrames(h, r.value, s)
    decreases |s|
  {
    if s == [] then Some(pool)
    else
      match RegisterFrames(h, pool, s[..|s| - 1], attr)
      case None => None
      case Some(p) => RegisterFrame(h, p, s[|s| - 1], attr)
  }

  /** One more frame: registering `i + 1` frames is registering the next
      frame on the pool after `i`. */
  lemma RegisterFramesStep(h: Hasher, pool: Pool, s: seq<string>, i: nat, attr: Attr, p: Pool)
    requires i < |s| && RegisterFrames(h, pool, s[..i], attr) == Some(p)
    ensures RegisterFrames(h, pool, s[..i + 1], attr) == RegisterFrame(h, p, s[i], attr)
  {
    assert s[..i + 1][..i] == s[..i];
  }

  lemma {:induction false} RegisterFramesFailurePersists(h: Hasher, pool: Pool, s: seq<string>, n: nat, attr: Attr)
    requires n <= |s| && RegisterFrames(h, pool, s[..n], attr).None?
    ensures RegisterFrames(h, pool, s, attr).None?
    decreases |s| - n
  {
    if n < |s| {
      assert s[..n + 1][..n] == s[..n];
      RegisterFramesFailurePersists(h, pool, s, n + 1, attr);
    } else {
      assert s[..n] == s;
    }
  }

  // ---------------------------------------------------------------------------
  // Edge counting (graph_manager.py:223-229 and 252-258)
  // ---------------------------------------------------------------------------

  /** One adjacent pair (a, b): `a.out_edge[H(b.name)] += 1`, then
      `b.in_edge[H(a.name)] += 1` on the (possibly same) node at `h(b)`. */
  function LinkPair(h: Hasher, pool: Pool, a: string, b: string): (r: Pool)
    requires h(a) in pool && h(b) in pool
    ensures SameNodes(r, pool)
    ensures forall k :: k in r ==> r[k].freIdStacktrace == pool[k].freIdStacktrace
  {
    var node := pool[h(a)];
    var next := pool[h(b)];
    var p1 := pool[h(a) := node.(outEdge := Bump(node.outEdge, h(next.name)))];
    var next1 := p1[h(b)];
    p1[h(b) := next1.(inEdge := Bump(next1.inEdge, h(node.name)))]
  }

  /** All adjacent pairs of a trace, left to right. */
  function LinkEdges(h: Hasher, pool: Pool, s: seq<string>): (r: Pool)
    requires HasFrames(h, pool, s)
    ensures SameNodes(r, pool)
    ensures forall k :: k in r ==> r[k].freIdStacktrace == pool[k].freIdStacktrace
    decreases |s|
  {
    if |s| < 2 then pool
    else
      var p := LinkEdges(h, pool, s[..|s| - 1]);
      LinkPair(h, p, s[|s| - 2], s[|s| - 1])
  }

  /** One more pair for the edge loop. */
  lemma LinkEdgesStep(h: Hasher, pool: Pool, s: seq<string>, i: nat)
    requires HasFrames(h, pool, s) && i + 1 < |s|
    ensures HasFrames(h, pool, s[..i + 1]) && HasFrames(h, pool, s[..i + 2])
    ensures h(s[i]) in LinkEdges(h, pool, s[..i + 1]) && h(s[i + 1]) in LinkEdges(h, pool, s[..i + 1])
    ensures LinkEdges(h, pool, s[..i + 2]) == LinkPair(h, LinkEdges(h, pool, s[..i + 1]), s[i], s[i + 1])
  {
    assert s[..i + 2][..i + 1] == s[..i + 1];
  }

  /** `pool[H(m)].fre_id_stacktrace[t] += 1` for every frame `m` of the trace. */
  function CountInTrace(h: Hasher, pool: Pool, s: seq<string>, t: string): (r: Pool)
    requires HasFrames(h, pool, s)
    ensures SameNodes(r, pool)
    ensures forall k :: k in r ==> r[k].outEdge == pool[k].outEdge && r[k].inEdge == pool[k].inEdge
    decreases |s|
  {
    if s == [] then pool
    else
      var p := CountInTrace(h, pool, s[..|s| - 1], t);
      var k := h(s[|s| - 1]);
      p[k := p[k].(freIdStacktrace := Bump(p[k].freIdStacktrace, t))]
  }
  /** One more frame for the frequency loop. */
  lemma CountInTraceStep(h: Hasher, pool: Pool, s: seq<string>, t: string, i: nat)
    requires HasFrames(h, pool, s) && i < |s|
    ensures HasFrames(h, pool, s[..i]) && HasFrames(h, pool, s[..i + 1])
    ensures var p := CountInTrace(h, pool, s[..i], t);
      h(s[i]) in p &&
      CountInTrace(h, pool, s[..i + 1], t) == p[h(s[i]) := p[h(s[i])].(freIdStacktrace := Bump(p[h(s[i])].freIdStacktrace, t))]
  {
    assert s[..i + 1][..i] == s[..i];
  }


  /** The edge and frequency passes that `init_nodes` and `init_edges` share for one trace. */
  function LinkAndCount(h: Hasher, pool: Pool, s: seq<string>): (r: Pool)
    requires HasFrames(h, pool, s)
    ensures SameNodes(r, pool)
  {
    CountInTrace(h, LinkEdges(h, pool, s), s, TraceKey(h, s))
  }

  /** `NodeManager.init_nodes(stacktrace, static_attribute)`; None is a KeyError. */
  function InitNodesSpec(h: Hasher, pool: Pool, s: seq<string>, attr: Attr): Option<Pool>
  {
    match RegisterFrames(h, pool, s, attr)
    case None => None
    case Some(p) => Some(LinkAndCount(h, p, s))
  }

  // ---------------------------------------------------------------------------
  // init_pool (graph_manager.py:237-248)
  // ---------------------------------------------------------------------------

  /** The dict comprehension of `init_pool`: a fresh node per frame whose string
      is not a key of the pool; a later duplicate overwrites an earlier one. */
  function FreshNodes(h: Hasher, pool: Pool, ms: seq<string>, attrs: seq<Attr>): (r: map<string, Node>)
    requires |ms| == |attrs|
    decreases |ms|
  {
    if ms == [] then map[]
    else
      var n := |ms| - 1;
      var prev := FreshNodes(h, pool, ms[..n], attrs[..n]);
      if ms[n] !in pool then prev[h(ms[n]) := NewNode(ms[n], attrs[n])] else prev
  }

  /** `pool[H(m)].weight += 1` for every frame; None is a KeyError. */
  function AddWeights(h: Hasher, pool: Pool, ms: seq<string>): (r: Option<Pool>)
    ensures r.Some? ==> r.value.Keys == pool.Keys
    decreases |ms|
  {
    if ms == [] then Some(pool)
    else
      match AddWeights(h, pool, ms[..|ms| - 1])
      case None => None
      case Some(p) =>
        var k := h(ms[|ms| - 1]);
        if k in p then Some(p[k := p[k].(weight := p[k].weight + 1)]) else None
  }
  /** One more name: the weight at its hash grows by one, or a KeyError. */
  lemma AddWeightsStep(h: Hasher, pool: Pool, ms: seq<string>, i: nat, p: Pool)
    requires i < |ms| && AddWeights(h, pool, ms[..i]) == Some(p)
    ensures AddWeights(h, pool, ms[..i + 1])
         == if h(ms[i]) in p then Some(p[h(ms[i]) := p[h(ms[i])].(weight := p[h(ms[i])].weight + 1)]) else None
  {
    assert ms[..i + 1][..i] == ms[..i];
  }


  lemma {:induction false} AddWeightsFailurePersists(h: Hasher, pool: Pool, ms: seq<string>, n: nat)
    requires n <= |ms| && AddWeights(h, pool, ms[..n]).None?
    ensures AddWeights(h, pool, ms).None?
    decreases |ms| - n
  {
    if n < |ms| {
      assert ms[..n + 1][..n] == ms[..n];
      AddWeightsFailurePersists(h, pool, ms, n + 1);
    } else {
      assert ms[..n] == ms;
    }
  }

  /** `NodeManager.init_pool` once its argument checks have passed. */
  function InitPoolSpec(h: Hasher, pool: Pool, ms: seq<string>, attrs: seq<Attr>): Option<Pool>
    requires |ms| == |attrs|
  {
    AddWeights(h, pool + FreshNodes(h, pool, ms, attrs), ms)
  }

  // ---------------------------------------------------------------------------
  // init_edges (graph_manager.py:250-263)
  // ---------------------------------------------------------------------------

  /** `NodeManager.init_edges(list_stacktrace)`; None is a KeyError. */
  function InitEdgesSpec(h: Hasher, pool: Pool, traces: seq<seq<string>>): (r: Option<Pool>)
    ensures r.Some? ==> r.value.Keys == pool.Keys
    decreases |traces|
  {
    if traces == [] then Some(pool)
    else
      match InitEdgesSpec(h, pool, traces[..|traces| - 1])
      case None => None
      case Some(p) =>
        var s := traces[|traces| - 1];
        if HasFrames(h, p, s) then Some(LinkAndCount(h, p, s)) else None
  }

  lemma {:induction false} InitEdgesFailurePersists(h: Hasher, pool: Pool, traces: seq<seq<string>>, n: nat)
    requires n <= |traces| && InitEdgesSpec(h, pool, traces[..n]).None?
    ensures InitEdgesSpec(h, pool, traces).None?
    decreases |traces| - n
  {
    if n < |traces| {
      assert traces[..n + 1][..n] == traces[..n];
      InitEdgesFailurePersists(h, pool, traces, n + 1);
    } else {
      assert traces[..n] == traces;
    }
  }

  // ---------------------------------------------------------------------------
  // One-hot membership rows (graph_manager.py:125-137, bigdata.py:152-153)
  // ---------------------------------------------------------------------------

  /** `np.isin(keys, hashes).astype(int32)`. */
  function MembershipRow(keys: seq<string>, hashes: seq<string>): (row: seq<int>)
    ensures |row| == |keys|
  {
    seq(|keys|, k requires 0 <= k < |keys| => if keys[k] in hashes then 1 else 0)
  }

  /** `GraphManager.__convert_to_ohv__`: the pool keys (in the pool's order) and
      one membership row per trace. */
  function ConvertToOhv(h: Hasher, keys: seq<string>, traces: seq<seq<string>>): (r: (seq<string>, seq<seq<int>>))
    ensures r.0 == keys && |r.1| == |traces|
    ensures forall j, k :: 0 <= j < |traces| && 0 <= k < |keys| ==>
      |r.1[j]| == |keys| &&
      (r.1[j][k] == 1 <==> exists i :: 0 <= i < |traces[j]| && h(traces[j][i]) == keys[k]) &&
      (r.1[j][k] == 0 <==> forall i :: 0 <= i < |traces[j]| ==> h(traces[j][i]) != keys[k])
  {
    (keys, seq(|traces|, i requires 0 <= i < |traces| => MembershipRow(keys, HashAll(h, traces[i]))))
  }

  function Sum(row: seq<int>): int
  {
    if row == [] then 0 else row[0] + Sum(row[1..])
  }

  predicate Distinct(xs: seq<string>)
  {
    forall i, j | 0 <= i < j < |xs| :: xs[i] != xs[j]
  }

  /** The frames of a trace that the vocabulary knows. */
  function KnownFrames(h: Hasher, keys: seq<string>, s: seq<string>): set<string>
  {
    set f | f in s && h(f) in keys
  }
}
