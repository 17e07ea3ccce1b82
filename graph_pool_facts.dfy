/** What the pool updates of graph/core/graph_manager.py do to the counters,
    proved about the functions of module GraphPool. "Generic" below means that
    no frame string happens to equal a pool key (or the hash of a frame), which
    is the case the presence test of the source behaves in. */
module GraphPoolFacts {
  import opened Wrappers
  import opened Strings
  import opened GraphPool

  function HashSet(h: Hasher, s: seq<string>): set<string>
  {
    set f | f in s :: h(f)
  }

  /** No frame string equals a key of the pool or the hash of a frame. */
  ghost predicate NoFrameIsKey(h: Hasher, pool: Pool, s: seq<string>)
  {
    forall i :: 0 <= i < |s| ==> s[i] !in pool && s[i] !in HashSet(h, s)
  }

  /** Every frame of the trace has a node at its hash, named by that frame. */
  ghost predicate WellNamed(h: Hasher, pool: Pool, s: seq<string>)
  {
    forall i :: 0 <= i < |s| ==> h(s[i]) in pool && pool[h(s[i])].name == s[i]
  }

  // ---------------------------------------------------------------------------
  // init_nodes
  // ---------------------------------------------------------------------------

  lemma HashSetSnoc(h: Hasher, s: seq<string>, m: string)
    ensures HashSet(h, s + [m]) == HashSet(h, s) + {h(m)}
  {
    var t := s + [m];
    forall k | k in HashSet(h, t) ensures k in HashSet(h, s) + {h(m)} {
      var f :| f in t && h(f) == k;
      if f != m {
        assert f in s;
      }
    }
    forall k | k in HashSet(h, s) ensures k in HashSet(h, t) {
      var f :| f in s && h(f) == k;
      assert f in t;
    }
  }

  lemma RegisterFrameFresh(h: Hasher, p: Pool, m: string, attr: Attr)
    requires m !in p
    ensures RegisterFrame(h, p, m, attr) == Some(p[h(m) := Node(m, 1, map[], map[], map[], attr)])
  {
    var q := p[h(m) := NewNode(m, attr)];
    assert q[h(m) := q[h(m)].(weight := 1)] == p[h(m) := Node(m, 1, map[], map[], map[], attr)];
  }

  /** Registration in the generic case: every frame's entry is replaced by a
      fresh node of weight exactly 1, whatever the trace's repetitions, and the
      rest of the pool is untouched. */
  lemma {:induction false} RegisterFramesGeneric(h: Hasher, pool: Pool, s: seq<string>, attr: Attr)
    requires Injective(h) && NoFrameIsKey(h, pool, s)
    ensures RegisterFrames(h, pool, s, attr).Some?
    ensures var p := RegisterFrames(h, pool, s, attr).value;
      && p.Keys == pool.Keys + HashSet(h, s)
      && (forall i :: 0 <= i < |s| ==> p[h(s[i])] == Node(s[i], 1, map[], map[], map[], attr))
      && (forall k :: k in pool && k !in HashSet(h, s) ==> p[k] == pool[k])
    decreases |s|
  {
    if s != [] {
      var n := |s| - 1;
      var s', m := s[..n], s[n];
      assert s == s' + [m];
      HashSetSnoc(h, s', m);
      assert NoFrameIsKey(h, pool, s') by {
        forall i | 0 <= i < |s'| ensures s'[i] !in pool && s'[i] !in HashSet(h, s') {
          assert s'[i] == s[i];
        }
      }
      RegisterFramesGeneric(h, pool, s', attr);
      var p' := RegisterFrames(h, pool, s', attr).value;
      assert m !in pool && m !in HashSet(h, s);
      assert m !in p';
      RegisterFrameFresh(h, p', m, attr);
      var p := p'[h(m) := Node(m, 1, map[], map[], map[], attr)];
      assert RegisterFrames(h, pool, s, attr) == Some(p);
      forall i | 0 <= i < |s| ensures p[h(s[i])] == Node(s[i], 1, map[], map[], map[], attr) {
        if h(s[i]) == h(m) {
          assert s[i] == m;
        } else {
          assert s[i] == s'[i];
        }
      }
    }
  }

  /** Each adjacent pair (a, b) adds one to `a.out_edge[H(b)]` and one to
      `b.in_edge[H(a)]`: the counters grow by the number of such pairs. */
  lemma {:induction false} LinkEdgesCounts(h: Hasher, pool: Pool, s: seq<string>, a: string, b: string)
    requires Injective(h) && WellNamed(h, pool, s)
    ensures var r := LinkEdges(h, pool, s);
      && (h(a) in pool ==> Get(r[h(a)].outEdge, h(b)) == Get(pool[h(a)].outEdge, h(b)) + PairCount(s, a, b))
      && (h(b) in pool ==> Get(r[h(b)].inEdge, h(a)) == Get(pool[h(b)].inEdge, h(a)) + PairCount(s, a, b))
    decreases |s|
  {
    if |s| >= 2 {
      var s' := s[..|s| - 1];
      assert WellNamed(h, pool, s') by {
        forall i | 0 <= i < |s'| ensures h(s'[i]) in pool && pool[h(s'[i])].name == s'[i] {
          assert s'[i] == s[i];
        }
      }
      LinkEdgesCounts(h, pool, s', a, b);
      var q := LinkEdges(h, pool, s');
      var x, y := s[|s| - 2], s[|s| - 1];
      assert q[h(x)].name == x && q[h(y)].name == y;
      assert LinkPair(h, q, x, y) == LinkEdges(h, pool, s);
      LinkPairCounts(h, q, x, y, a, b);
    }
  }

  /** One pair (x, y) adds one to the counters of (a, b) when it is (a, b). */
  lemma LinkPairCounts(h: Hasher, q: Pool, x: string, y: string, a: string, b: string)
    requires Injective(h) && h(x) in q && h(y) in q && q[h(x)].name == x && q[h(y)].name == y
    ensures var r := LinkPair(h, q, x, y);
      && (h(a) in q ==> Get(r[h(a)].outEdge, h(b)) == Get(q[h(a)].outEdge, h(b)) + (if a == x && b == y then 1 else 0))
      && (h(b) in q ==> Get(r[h(b)].inEdge, h(a)) == Get(q[h(b)].inEdge, h(a)) + (if a == x && b == y then 1 else 0))
  {
  }

  /** Each frame's `fre_id_stacktrace[t]` grows by the frame's number of
      occurrences in the trace. */
  lemma {:induction false} CountInTraceCounts(h: Hasher, pool: Pool, s: seq<string>, t: string, f: string)
    requires Injective(h) && HasFrames(h, pool, s) && h(f) in pool
    ensures Get(CountInTrace(h, pool, s, t)[h(f)].freIdStacktrace, t)
         == Get(pool[h(f)].freIdStacktrace, t) + multiset(s)[f]
    decreases |s|
  {
    if s != [] {
      var s' := s[..|s| - 1];
      CountInTraceCounts(h, pool, s', t, f);
      assert s == s' + [s[|s| - 1]];
    }
  }

  /** `init_nodes` in the generic case: each frame f of the trace ends with a
      node at H(f) named f, of weight 1, whose out-edges count the pairs
      (f, b), whose in-edges count the pairs (a, f), and whose frequency for
      this trace is f's number of occurrences. */
  lemma InitNodesGeneric(h: Hasher, pool: Pool, s: seq<string>, attr: Attr)
    requires Injective(h) && NoFrameIsKey(h, pool, s)
    ensures InitNodesSpec(h, pool, s, attr).Some?
    ensures var r := InitNodesSpec(h, pool, s, attr).value;
      forall i :: 0 <= i < |s| ==>
        && h(s[i]) in r
        && r[h(s[i])].name == s[i] && r[h(s[i])].weight == 1
        && r[h(s[i])].staticAttribute == attr
        && (forall b :: Get(r[h(s[i])].outEdge, h(b)) == PairCount(s, s[i], b))
        && (forall a :: Get(r[h(s[i])].inEdge, h(a)) == PairCount(s, a, s[i]))
        && Get(r[h(s[i])].freIdStacktrace, TraceKey(h, s)) == multiset(s)[s[i]]
  {
    RegisterFramesGeneric(h, pool, s, attr);
    var p := RegisterFrames(h, pool, s, attr).value;
    var q := LinkEdges(h, p, s);
    var r := CountInTrace(h, q, s, TraceKey(h, s));
    assert WellNamed(h, p, s);
    forall i | 0 <= i < |s|
      ensures h(s[i]) in r
      ensures (forall b :: Get(r[h(s[i])].outEdge, h(b)) == PairCount(s, s[i], b))
      ensures (forall a :: Get(r[h(s[i])].inEdge, h(a)) == PairCount(s, a, s[i]))
      ensures Get(r[h(s[i])].freIdStacktrace, TraceKey(h, s)) == multiset(s)[s[i]]
    {
      forall b ensures Get(r[h(s[i])].outEdge, h(b)) == PairCount(s, s[i], b) {
        LinkEdgesCounts(h, p, s, s[i], b);
      }
      forall a ensures Get(r[h(s[i])].inEdge, h(a)) == PairCount(s, a, s[i]) {
        LinkEdgesCounts(h, p, s, a, s[i]);
      }
      CountInTraceCounts(h, q, s, TraceKey(h, s), s[i]);
    }
  }

  /** Registering the same trace twice leaves each frame's weight at 1: the
      fresh node of the second registration replaces the first. */
  lemma InitNodesTwiceKeepsWeightOne(h: Hasher, pool: Pool, s: seq<string>, attr: Attr)
    requires Injective(h) && NoFrameIsKey(h, pool, s)
    requires forall i :: 0 <= i < |s| ==> s[i] !in HashSet(h, s)
    ensures InitNodesSpec(h, pool, s, attr).Some?
    ensures var p := InitNodesSpec(h, pool, s, attr).value;
      && InitNodesSpec(h, p, s, attr).Some?
      && forall i :: 0 <= i < |s| ==> InitNodesSpec(h, p, s, attr).value[h(s[i])].weight == 1
  {
    InitNodesGeneric(h, pool, s, attr);
    RegisterFramesGeneric(h, pool, s, attr);
    var p := InitNodesSpec(h, pool, s, attr).value;
    assert p.Keys == pool.Keys + HashSet(h, s);
    assert NoFrameIsKey(h, p, s);
    InitNodesGeneric(h, p, s, attr);
  }

  // ---------------------------------------------------------------------------
  // init_pool
  // ---------------------------------------------------------------------------

  /** The fresh nodes of `init_pool` when no name is a key: one node per
      hash, holding its name, weight 0 and no edges or frequencies. */
  ghost predicate FreshShape(h: Hasher, fr: map<string, Node>, ms: seq<string>)
  {
    && fr.Keys == HashSet(h, ms)
    && forall i :: 0 <= i < |ms| ==>
         fr[h(ms[i])].name == ms[i] && fr[h(ms[i])].weight == 0 &&
         fr[h(ms[i])].outEdge == map[] && fr[h(ms[i])].inEdge == map[] &&
         fr[h(ms[i])].freIdStacktrace == map[]
  }

  lemma {:induction false} FreshNodesGeneric(h: Hasher, pool: Pool, ms: seq<string>, attrs: seq<Attr>)
    requires Injective(h) && |ms| == |attrs|
    requires forall i :: 0 <= i < |ms| ==> ms[i] !in pool
    ensures FreshShape(h, FreshNodes(h, pool, ms, attrs), ms)
    decreases |ms|
  {
    if ms != [] {
      var n := |ms| - 1;
      FreshNodesGeneric(h, pool, ms[..n], attrs[..n]);
      var prev := FreshNodes(h, pool, ms[..n], attrs[..n]);
      var fr := prev[h(ms[n]) := NewNode(ms[n], attrs[n])];
      assert ms[n] !in pool;
      assert FreshNodes(h, pool, ms, attrs) == fr;
      assert ms == ms[..n] + [ms[n]];
      assert HashSet(h, ms) == HashSet(h, ms[..n]) + {h(ms[n])};
      forall i | 0 <= i < |ms|
        ensures fr[h(ms[i])] == NewNode(ms[i], fr[h(ms[i])].staticAttribute)
      {
        if h(ms[i]) == h(ms[n]) {
          assert ms[i] == ms[n];
        } else {
          assert ms[i] == ms[..n][i];
        }
      }
    }
  }

  lemma {:induction false} AddWeightsCounts(h: Hasher, pool: Pool, ms: seq<string>, f: string)
    requires Injective(h) && HasFrames(h, pool, ms) && h(f) in pool
    ensures AddWeights(h, pool, ms).Some?
    ensures var r := AddWeights(h, pool, ms).value;
      && r[h(f)].weight == pool[h(f)].weight + multiset(ms)[f]
      && r[h(f)].name == pool[h(f)].name
      && r[h(f)].outEdge == pool[h(f)].outEdge && r[h(f)].inEdge == pool[h(f)].inEdge
      && r[h(f)].freIdStacktrace == pool[h(f)].freIdStacktrace
    decreases |ms|
  {
    if ms != [] {
      var n := |ms| - 1;
      assert HasFrames(h, pool, ms[..n]);
      AddWeightsCounts(h, pool, ms[..n], f);
      assert ms == ms[..n] + [ms[n]];
    }
  }

  /** `init_pool` in the generic case: the node at H(f) is a fresh node named
      f whose weight is the number of occurrences of f in `flatten_methods`. */
  lemma InitPoolGeneric(h: Hasher, pool: Pool, ms: seq<string>, attrs: seq<Attr>)
    requires Injective(h) && |ms| == |attrs|
    requires forall i :: 0 <= i < |ms| ==> ms[i] !in pool
    ensures InitPoolSpec(h, pool, ms, attrs).Some?
    ensures var r := InitPoolSpec(h, pool, ms, attrs).value;
      && r.Keys == pool.Keys + HashSet(h, ms)
      && forall i :: 0 <= i < |ms| ==>
           r[h(ms[i])].name == ms[i] && r[h(ms[i])].weight == multiset(ms)[ms[i]] &&
           r[h(ms[i])].outEdge == map[] && r[h(ms[i])].inEdge == map[]
  {
    FreshNodesGeneric(h, pool, ms, attrs);
    var p := pool + FreshNodes(h, pool, ms, attrs);
    assert HasFrames(h, p, ms);
    forall i | 0 <= i < |ms|
      ensures AddWeights(h, p, ms).Some?
      ensures var r := AddWeights(h, p, ms).value;
        r[h(ms[i])].name == ms[i] && r[h(ms[i])].weight == multiset(ms)[ms[i]] &&
        r[h(ms[i])].outEdge == map[] && r[h(ms[i])].inEdge == map[]
    {
      AddWeightsCounts(h, p, ms, ms[i]);
    }
    if ms == [] {
      assert AddWeights(h, p, ms).Some?;
    }
  }

  // ---------------------------------------------------------------------------
  // init_edges
  // ---------------------------------------------------------------------------

  /** Pairs (a, b) over all traces of a batch. */
  function TotalPairCount(traces: seq<seq<string>>, a: string, b: string): nat
  {
    if traces == [] then 0
    else TotalPairCount(traces[..|traces| - 1], a, b) + PairCount(traces[|traces| - 1], a, b)
  }

  ghost predicate WellNamedAll(h: Hasher, pool: Pool, traces: seq<seq<string>>)
  {
    forall j :: 0 <= j < |traces| ==> WellNamed(h, pool, traces[j])
  }

  /** `init_edges` over a pool that already holds every frame (as `init_pool`
      leaves it): it succeeds, and each out/in counter grows by the number of
      adjacent pairs over the whole batch. */
  lemma {:induction false} InitEdgesCounts(h: Hasher, pool: Pool, traces: seq<seq<string>>, a: string, b: string)
    requires Injective(h) && WellNamedAll(h, pool, traces)
    ensures InitEdgesSpec(h, pool, traces).Some?
    ensures var r := InitEdgesSpec(h, pool, traces).value;
      && SameNodes(r, pool)
      && (h(a) in pool ==> Get(r[h(a)].outEdge, h(b)) == Get(pool[h(a)].outEdge, h(b)) + TotalPairCount(traces, a, b))
      && (h(b) in pool ==> Get(r[h(b)].inEdge, h(a)) == Get(pool[h(b)].inEdge, h(a)) + TotalPairCount(traces, a, b))
    decreases |traces|
  {
    if traces != [] {
      var n := |traces| - 1;
      var prefix, s := traces[..n], traces[n];
      assert WellNamedAll(h, pool, prefix) by {
        forall j | 0 <= j < n ensures WellNamed(h, pool, prefix[j]) {
          assert prefix[j] == traces[j];
        }
      }
      InitEdgesCounts(h, pool, prefix, a, b);
      var p := InitEdgesSpec(h, pool, prefix).value;
      WellNamedTransfer(h, pool, p, s);
      LinkEdgesCounts(h, p, s, a, b);
      var q := LinkEdges(h, p, s);
      var r := CountInTrace(h, q, s, TraceKey(h, s));
      assert InitEdgesSpec(h, pool, traces) == Some(r);
    }
  }

  lemma WellNamedTransfer(h: Hasher, pool: Pool, p: Pool, s: seq<string>)
    requires WellNamed(h, pool, s) && SameNodes(p, pool)
    ensures WellNamed(h, p, s)
  {
  }

  // ---------------------------------------------------------------------------
  // Membership rows
  // ---------------------------------------------------------------------------

  function Elems(xs: seq<string>): set<string>
  {
    set x | x in xs
  }

  lemma ElemsCons(xs: seq<string>)
    requires xs != []
    ensures Elems(xs) == {xs[0]} + Elems(xs[1..])
  {
    assert xs == [xs[0]] + xs[1..];
  }

  lemma {:induction false} SumOfRow(keys: seq<string>, hashes: seq<string>)
    requires Distinct(keys)
    ensures Sum(MembershipRow(keys, hashes)) == |Elems(keys) * Elems(hashes)|
    decreases |keys|
  {
    if keys != [] {
      var rest := keys[1..];
      DistinctTail(keys);
      SumOfRow(rest, hashes);
      var row := MembershipRow(keys, hashes);
      assert row[1..] == MembershipRow(rest, hashes);
      InterCons(keys, Elems(hashes));
    }
  }

  /** The tail of a list without repetitions has none, nor its head. */
  lemma DistinctTail(keys: seq<string>)
    requires Distinct(keys) && keys != []
    ensures Distinct(keys[1..]) && keys[0] !in Elems(keys[1..])
  {
    var rest := keys[1..];
    forall i, j | 0 <= i < j < |rest| ensures rest[i] != rest[j] {
      assert rest[i] == keys[i + 1] && rest[j] == keys[j + 1];
    }
    forall i | 0 <= i < |rest| ensures rest[i] != keys[0] {
      assert rest[i] == keys[i + 1];
    }
  }

  /** A new head adds one to the intersection exactly when it is in `hs`. */
  lemma InterCons(keys: seq<string>, hs: set<string>)
    requires keys != [] && keys[0] !in Elems(keys[1..])
    ensures |Elems(keys) * hs| == |Elems(keys[1..]) * hs| + (if keys[0] in hs then 1 else 0)
  {
    ElemsCons(keys);
    if keys[0] in hs {
      assert Elems(keys) * hs == (Elems(keys[1..]) * hs) + {keys[0]};
    } else {
      assert Elems(keys) * hs == Elems(keys[1..]) * hs;
    }
  }

  lemma {:induction false} InjectiveImageSize(h: Hasher, xs: set<string>)
    requires Injective(h)
    ensures |set x | x in xs :: h(x)| == |xs|
    decreases |xs|
  {
    if xs != {} {
      var x :| x in xs;
      var rest := xs - {x};
      InjectiveImageSize(h, rest);
      var img := set y | y in xs :: h(y);
      var imgRest := set y | y in rest :: h(y);
      assert img == imgRest + {h(x)};
      assert h(x) !in imgRest;
    }
  }

  /** The number of ones in a trace's membership row is the number of distinct
      frames of the trace that the vocabulary knows; frames it does not know
      contribute nothing. */
  lemma MembershipWeight(h: Hasher, keys: seq<string>, s: seq<string>)
    requires Injective(h) && Distinct(keys)
    ensures Sum(MembershipRow(keys, HashAll(h, s))) == |KnownFrames(h, keys, s)|
  {
    var hashes := HashAll(h, s);
    SumOfRow(keys, hashes);
    var known := KnownFrames(h, keys, s);
    InjectiveImageSize(h, known);
    var lhs := Elems(keys) * Elems(hashes);
    var img := set f | f in known :: h(f);
    assert lhs == img by {
      forall k | k in lhs ensures k in img {
        var i :| 0 <= i < |hashes| && hashes[i] == k;
        assert s[i] in known;
      }
      forall k | k in img ensures k in lhs {
        var f :| f in known && h(f) == k;
        var i :| 0 <= i < |s| && s[i] == f;
        assert hashes[i] == k;
      }
    }
  }
}
