/** `GraphManager.add` of graph/core/graph_manager.py as a function of the
    managers' contents: the choice between the one-shot and the chunked
    ("speed-up") path, the filtering of ids already tracked, the chunk bounds,
    and what each path builds. `GraphManagers.GraphManager` performs the same
    steps in place. */
module GraphBatches {
  import opened Wrappers
  import opened Strings
  import opened GraphPool
  import opened TraceTables

  /** The settings `GraphEnvVar.CHUNK_SIZE`, `MAX_ITER_DATA` and `FORCE_SPEEDUP`
      (graph/build/graph_configure.py), which a configuration may override. */
  datatype EnvVar = EnvVar(chunkSize: int, maxIterData: int, forceSpeedup: bool)

  const DefaultEnvVar: EnvVar := EnvVar(5000, 10000, false)

  /** The arguments of `add`: a single id with its trace, or lists. A single
      id's `static_attributes` stays as given (AttrNone for None); a list's is
      None or a list of attributes. */
  datatype Batch =
    | Single(id: int, trace: seq<string>, attr: Attr)
    | Many(ids: seq<int>, traces: seq<seq<string>>, attrs: Option<seq<Attr>>)

  /** `len(data)`. */
  function NumData(b: Batch): nat
  {
    match b
    case Single(_, trace, _) => |trace|
    case Many(_, traces, _) => |traces|
  }

  /** Python's `//`, which rounds toward minus infinity. */
  function FloorDiv(a: int, b: int): (q: int)
    requires b != 0
    ensures b > 0 ==> q * b <= a < q * b + b
    ensures b < 0 ==> q * b >= a > q * b + b
  {
    if b > 0 then a / b else (-a) / (-b)
  }

  /** Python's `%`, whose result takes the sign of the divisor. */
  function FloorMod(a: int, b: int): int
    requires b != 0
  {
    a - b * FloorDiv(a, b)
  }

  /** `iterations` of `__prepare_speed_up__`. */
  function Iterations(n: nat, c: int): int
    requires c != 0
  {
    if FloorMod(n, c) != 0 then FloorDiv(n, c) + 1 else FloorDiv(n, c)
  }

  /** The `(start_idx, end_idx)` pairs the chunk loop visits from iteration
      `i` on, stopping at the `break`. */
  function ChunksFrom(n: nat, c: int, i: nat, iterations: int): (r: seq<(nat, nat)>)
    requires c != 0
    ensures forall k :: 0 <= k < |r| ==> r[k].0 < r[k].1 <= n
    decreases iterations - i
  {
    if i >= iterations then []
    else
      var start, end := i * c, Min(n, (i + 1) * c);
      if start >= end then []
      else
        assert c > 0;
        [(start, end)] + ChunksFrom(n, c, i + 1, iterations)
  }

  function Chunks(n: nat, c: int): seq<(nat, nat)>
    requires c != 0
  {
    ChunksFrom(n, c, 0, Iterations(n, c))
  }

  /** `seq[a:b]` for `0 <= a <= b`: the bounds are clipped to the length. */
  function Slice<T>(xs: seq<T>, a: nat, b: nat): (r: seq<T>)
    requires a <= b
    ensures |r| == Min(b, |xs|) - Min(a, |xs|)
  {
    if a >= |xs| then [] else xs[a..Min(b, |xs|)]
  }

  function Flatten(traces: seq<seq<string>>): seq<string>
  {
    if traces == [] then [] else Flatten(traces[..|traces| - 1]) + traces[|traces| - 1]
  }

  // ---------------------------------------------------------------------------
  // The one-shot path
  // ---------------------------------------------------------------------------

  /** `__valid_non_existing_data_in_graph__` on lists: the zipped records
      (cut to the shortest list) whose id is not in `tracked`, in order. */
  function ValidNonExisting(tracked: seq<int>, ids: seq<int>, traces: seq<seq<string>>, attrs: seq<Attr>)
    : (r: (seq<int>, seq<seq<string>>, seq<Attr>))
    ensures |r.0| == |r.1| == |r.2|
    decreases |ids|
  {
    var n := Min(|ids|, Min(|traces|, |attrs|));
    if n == 0 then ([], [], [])
    else
      var prev := ValidNonExisting(tracked, ids[..n - 1], traces[..n - 1], attrs[..n - 1]);
      if ids[n - 1] in tracked then prev
      else (prev.0 + [ids[n - 1]], prev.1 + [traces[n - 1]], prev.2 + [attrs[n - 1]])
  }

  /** One record of `__add_list_stacktrace__`: `init_nodes`, then `track`. */
  function AddOne(h: Hasher, pool: Pool, t: Tables, id: int, s: seq<string>, attr: Attr): Option<(Pool, Tables)>
  {
    match InitNodesSpec(h, pool, s, attr)
    case None => None
    case Some(p) =>
      var (t', ok) := TrackSpec(h, p, t, id, s);
      if ok then Some((p, t')) else None
  }

  /** `__add_list_stacktrace__` on lists of equal length: the records one by
      one, stopping at the first exception. */
  function AddList(h: Hasher, pool: Pool, t: Tables, ids: seq<int>, traces: seq<seq<string>>, attrs: seq<Attr>)
    : Option<(Pool, Tables)>
    requires |ids| == |traces| == |attrs|
    decreases |ids|
  {
    if ids == [] then Some((pool, t))
    else
      var n := |ids| - 1;
      match AddList(h, pool, t, ids[..n], traces[..n], attrs[..n])
      case None => None
      case Some(state) => AddOne(h, state.0, state.1, ids[n], traces[n], attrs[n])
  }

  /** One more record: the state after `i + 1` records is `AddOne` on the
      state after `i`. */
  lemma AddListStep(h: Hasher, pool: Pool, t: Tables, ids: seq<int>, traces: seq<seq<string>>, attrs: seq<Attr>,
                    i: nat, state: (Pool, Tables))
    requires |ids| == |traces| == |attrs| && i < |ids|
    requires AddList(h, pool, t, ids[..i], traces[..i], attrs[..i]) == Some(state)
    ensures AddList(h, pool, t, ids[..i + 1], traces[..i + 1], attrs[..i + 1])
         == AddOne(h, state.0, state.1, ids[i], traces[i], attrs[i])
  {
    assert ids[..i + 1][..i] == ids[..i] && traces[..i + 1][..i] == traces[..i] && attrs[..i + 1][..i] == attrs[..i];
  }

  /** All the records taken as a prefix are all the records. */
  lemma AddListWhole(h: Hasher, pool: Pool, t: Tables, ids: seq<int>, traces: seq<seq<string>>, attrs: seq<Attr>)
    requires |ids| == |traces| == |attrs|
    ensures AddList(h, pool, t, ids[..|ids|], traces[..|ids|], attrs[..|ids|]) == AddList(h, pool, t, ids, traces, attrs)
  {
    assert ids[..|ids|] == ids && traces[..|ids|] == traces && attrs[..|ids|] == attrs;
  }

  lemma {:induction false} AddListFailurePersists(h: Hasher, pool: Pool, t: Tables, ids: seq<int>, traces: seq<seq<string>>,
                                                  attrs: seq<Attr>, k: nat)
    requires |ids| == |traces| == |attrs| && k <= |ids|
    requires AddList(h, pool, t, ids[..k], traces[..k], attrs[..k]).None?
    ensures AddList(h, pool, t, ids, traces, attrs).None?
    decreases |ids| - k
  {
    if k < |ids| {
      assert ids[..k + 1][..k] == ids[..k] && traces[..k + 1][..k] == traces[..k] && attrs[..k + 1][..k] == attrs[..k];
      AddListFailurePersists(h, pool, t, ids, traces, attrs, k + 1);
    } else {
      assert ids[..k] == ids && traces[..k] == traces && attrs[..k] == attrs;
    }
  }

  /** `n` default attribute values. */
  function Defaults(n: nat): (r: seq<Attr>)
    ensures |r| == n && forall k :: 0 <= k < n ==> r[k] == DefaultAttr
  {
    seq(n, _ => DefaultAttr)
  }

  /** The (id, trace, attribute) records the one-shot path keeps: those whose
      id is not tracked yet; a missing attribute list means defaults. */
  function OneShotRecords(tracked: seq<int>, b: Batch): (seq<int>, seq<seq<string>>, seq<Attr>)
  {
    match b
    case Single(id, trace, attr) => ValidNonExisting(tracked, [id], [trace], [attr])
    case Many(ids, traces, attrs) =>
      ValidNonExisting(tracked, ids, traces, if attrs.None? then Defaults(|traces|) else attrs.value)
  }

  /** `assert isinstance(attr, dict)` for each kept attribute. */
  predicate AllDicts(attrs: seq<Attr>)
  {
    forall k :: 0 <= k < |attrs| ==> attrs[k].AttrDict?
  }

  /** `__prepare_one_shot__`: default attributes for a list, the filter on
      tracked ids, the check that every kept attribute is a dict, then the
      records one by one. */
  function OneShotSpec(h: Hasher, pool: Pool, t: Tables, b: Batch): Option<(Pool, Tables)>
  {
    var valid := OneShotRecords(t.uuid, b);
    if !AllDicts(valid.2) then None
    else AddList(h, pool, t, valid.0, valid.1, valid.2)
  }

  // ---------------------------------------------------------------------------
  // The chunked path
  // ---------------------------------------------------------------------------

  /** `n` copies of the chunk's attribute list, one per flattened frame. */
  function ListAttrs(n: nat, attrs: seq<Attr>): (r: seq<Attr>)
    ensures |r| == n && forall k :: 0 <= k < n ==> r[k] == AttrList(attrs)
  {
    seq(n, _ => AttrList(attrs))
  }

  /** The pool after the first two steps of `__add_with_speedup__`:
      `init_pool` over the flattened frames, each carrying the chunk's whole
      attribute list, then `init_edges`. */
  function ChunkPool(h: Hasher, pool: Pool, traces: seq<seq<string>>, attrs: seq<Attr>): Option<Pool>
  {
    var ms := Flatten(traces);
    match InitPoolSpec(h, pool, ms, ListAttrs(|ms|, attrs))
    case None => None
    case Some(p1) => InitEdgesSpec(h, p1, traces)
  }

  /** `__add_with_speedup__`: the chunk's pool, then `track` for every zipped
      (id, trace). */
  function ChunkStep(h: Hasher, pool: Pool, t: Tables, ids: seq<int>, traces: seq<seq<string>>, attrs: seq<Attr>)
    : Option<(Pool, Tables)>
  {
    match ChunkPool(h, pool, traces, attrs)
    case None => None
    case Some(p2) =>
      var r := TrackAll(h, p2, t, ids, traces);
      if r.1 then Some((p2, r.0)) else None
  }

  /** The attributes of one chunk: defaults as many as the chunk's ids, or a
      slice of the given list. */
  function ChunkAttrs(ids: seq<int>, attrs: Option<seq<Attr>>, start: nat, end: nat): seq<Attr>
    requires start <= end
  {
    if attrs.None? then Defaults(|Slice(ids, start, end)|) else Slice(attrs.value, start, end)
  }

  /** The chunks of `chunks` processed in order, stopping at the first exception. */
  function ChunkFold(h: Hasher, pool: Pool, t: Tables, ids: seq<int>, traces: seq<seq<string>>,
                     attrs: Option<seq<Attr>>, chunks: seq<(nat, nat)>): Option<(Pool, Tables)>
    requires forall k :: 0 <= k < |chunks| ==> chunks[k].0 <= chunks[k].1
    decreases |chunks|
  {
    if chunks == [] then Some((pool, t))
    else
      var n := |chunks| - 1;
      var start, end := chunks[n].0, chunks[n].1;
      match ChunkFold(h, pool, t, ids, traces, attrs, chunks[..n])
      case None => None
      case Some(state) =>
        ChunkStep(h, state.0, state.1, Slice(ids, start, end), Slice(traces, start, end), ChunkAttrs(ids, attrs, start, end))
  }

  /** Processing one more chunk after a successful prefix. */
  lemma ChunkFoldSnoc(h: Hasher, pool: Pool, t: Tables, ids: seq<int>, traces: seq<seq<string>>,
                      attrs: Option<seq<Attr>>, done: seq<(nat, nat)>, start: nat, end: nat)
    requires forall k :: 0 <= k < |done| ==> done[k].0 <= done[k].1
    requires start <= end && ChunkFold(h, pool, t, ids, traces, attrs, done).Some?
    ensures forall k :: 0 <= k < |done| + 1 ==> (done + [(start, end)])[k].0 <= (done + [(start, end)])[k].1
    ensures var state := ChunkFold(h, pool, t, ids, traces, attrs, done).value;
      ChunkFold(h, pool, t, ids, traces, attrs, done + [(start, end)])
      == ChunkStep(h, state.0, state.1, Slice(ids, start, end), Slice(traces, start, end), ChunkAttrs(ids, attrs, start, end))
  {
    assert (done + [(start, end)])[..|done|] == done;
  }

  lemma {:induction false} ChunkFoldFailurePersists(h: Hasher, pool: Pool, t: Tables, ids: seq<int>, traces: seq<seq<string>>,
                                                    attrs: Option<seq<Attr>>, done: seq<(nat, nat)>, rest: seq<(nat, nat)>)
    requires forall k :: 0 <= k < |done| ==> done[k].0 <= done[k].1
    requires forall k :: 0 <= k < |rest| ==> rest[k].0 <= rest[k].1
    requires ChunkFold(h, pool, t, ids, traces, attrs, done).None?
    ensures ChunkFold(h, pool, t, ids, traces, attrs, done + rest).None?
    decreases |rest|
  {
    if rest != [] {
      var n := |rest| - 1;
      ChunkFoldFailurePersists(h, pool, t, ids, traces, attrs, done, rest[..n]);
      assert (done + rest)[..|done + rest| - 1] == done + rest[..n];
    } else {
      assert done + rest == done;
    }
  }

  /** `__prepare_speed_up__`; a chunk size of 0 is a ZeroDivisionError. */
  function SpeedUpSpec(h: Hasher, env: EnvVar, pool: Pool, t: Tables, ids: seq<int>, traces: seq<seq<string>>,
                       attrs: Option<seq<Attr>>): Option<(Pool, Tables)>
  {
    if env.chunkSize == 0 then None
    else ChunkFold(h, pool, t, ids, traces, attrs, Chunks(|traces|, env.chunkSize))
  }

  /** `add` up to `__post_action__`: the type assertions, then the path. A
      single id comes with one trace, whose frames are strings rather than
      lists, so the assertion on `data` fails unless the trace is empty; and
      then no chunk is visited on the chunked path. */
  function AddSpec(h: Hasher, env: EnvVar, pool: Pool, t: Tables, b: Batch): Option<(Pool, Tables)>
  {
    if b.Single? && b.trace != [] then None
    else if env.forceSpeedup || NumData(b) >= env.maxIterData then
      match b
      case Single(_, _, _) => SpeedUpSpec(h, env, pool, t, [], [], None)
      case Many(ids, traces, attrs) => SpeedUpSpec(h, env, pool, t, ids, traces, attrs)
    else OneShotSpec(h, pool, t, b)
  }

  // ---------------------------------------------------------------------------
  // Chunk bounds
  // ---------------------------------------------------------------------------

  lemma {:induction false} MulMono(a: int, b: int, c: int)
    requires 0 <= a <= b && 0 <= c
    ensures a * c <= b * c
    decreases b - a
  {
    if a < b {
      MulMono(a, b - 1, c);
      assert b * c == (b - 1) * c + c;
    }
  }

  /** The floor quotient of a count by a positive chunk size is not
      negative, and the division is exact when the remainder is zero. */
  lemma QuotientFacts(n: nat, c: int)
    requires c > 0
    ensures FloorDiv(n, c) >= 0
    ensures FloorMod(n, c) == 0 <==> FloorDiv(n, c) * c == n
  {
    var q := FloorDiv(n, c);
    assert c * q == q * c;
  }

  /** Every iteration of the chunk loop starts below the count. */
  lemma IterationBelow(n: nat, c: int, i: int)
    requires c > 0 && 0 <= i < Iterations(n, c)
    ensures i * c < n
  {
    var q := FloorDiv(n, c);
    QuotientFacts(n, c);
    if FloorMod(n, c) == 0 {
      MulMono(i, q - 1, c);
      assert (q - 1) * c == q * c - c;
    } else {
      MulMono(i, q, c);
    }
  }

  lemma IterationsBounds(n: nat, c: int)
    requires c > 0
    ensures Iterations(n, c) >= 0
    ensures Iterations(n, c) * c >= n
    ensures forall i :: 0 <= i < Iterations(n, c) ==> i * c < n
    ensures n > 0 ==> Iterations(n, c) >= 1
  {
    var q := FloorDiv(n, c);
    QuotientFacts(n, c);
    forall i | 0 <= i < Iterations(n, c) ensures i * c < n {
      IterationBelow(n, c, i);
    }
    if FloorMod(n, c) != 0 {
      assert (q + 1) * c == q * c + c;
    }
  }

  /** One iteration of the chunk loop: it stops at an empty range, and a
      nonempty one starts at a natural number. */
  lemma ChunksFromUnfold(n: nat, c: int, i: nat, iterations: int)
    requires c != 0 && i < iterations
    ensures var start, end := i * c, Min(n, (i + 1) * c);
      && (start >= end ==> ChunksFrom(n, c, i, iterations) == [])
      && (start < end ==> start >= 0 && ChunksFrom(n, c, i, iterations) == [(start, end)] + ChunksFrom(n, c, i + 1, iterations))
  {
    if c < 0 {
      assert (i + 1) * c == i * c + c;
    }
  }

  lemma {:induction false} ChunksFromShape(n: nat, c: int, i: nat)
    requires c > 0 && i <= Iterations(n, c)
    ensures var r := ChunksFrom(n, c, i, Iterations(n, c));
      && |r| == Iterations(n, c) - i
      && forall k :: 0 <= k < |r| ==> r[k] == ((i + k) * c, Min(n, (i + k + 1) * c))
    decreases Iterations(n, c) - i
  {
    var iters := Iterations(n, c);
    if i < iters {
      IterationsBounds(n, c);
      assert i * c < n;
      assert i * c < (i + 1) * c;
      ChunksFromShape(n, c, i + 1);
      var r := ChunksFrom(n, c, i, iters);
      forall k | 0 <= k < |r| ensures r[k] == ((i + k) * c, Min(n, (i + k + 1) * c)) {
        if k > 0 {
          assert r[k] == ChunksFrom(n, c, i + 1, iters)[k - 1];
          assert i + 1 + (k - 1) == i + k;
        }
      }
    }
  }

  /** The chunk loop never reaches its `break` and its slices are in order,
      adjacent (so disjoint) and cover `0 .. n-1`: chunk k is
      `[k*C, min(n, (k+1)*C))` and the last one ends at n. */
  lemma ChunksCoverRange(n: nat, c: int)
    requires c > 0
    ensures var r := Chunks(n, c);
      && |r| == Iterations(n, c)
      && (forall k :: 0 <= k < |r| ==> r[k] == (k * c, Min(n, (k + 1) * c)) && r[k].0 < r[k].1)
      && (forall k :: 0 <= k < |r| - 1 ==> r[k].1 == r[k + 1].0)
      && (r == [] <==> n == 0)
      && (r != [] ==> r[0].0 == 0 && r[|r| - 1].1 == n)
  {
    IterationsBounds(n, c);
    ChunksFromShape(n, c, 0);
    var r := Chunks(n, c);
    forall k | 0 <= k < |r| - 1 ensures r[k].1 == r[k + 1].0 {
      assert (k + 1) * c < n;
    }
    if r != [] {
      var last := |r| - 1;
      assert (last + 1) * c == Iterations(n, c) * c;
    }
  }

  // ---------------------------------------------------------------------------
  // Ids tracked by each path
  // ---------------------------------------------------------------------------

  lemma {:induction false} TrackAllUuid(h: Hasher, pool: Pool, t: Tables, ids: seq<int>, traces: seq<seq<string>>)
    ensures var r := TrackAll(h, pool, t, ids, traces);
      r.1 ==> r.0.uuid == t.uuid + ids[..Min(|ids|, |traces|)]
    decreases |ids|
  {
    var n := Min(|ids|, |traces|);
    if n > 0 {
      var ids', traces' := ids[..n - 1], traces[..n - 1];
      TrackAllUuid(h, pool, t, ids', traces');
      assert Min(|ids'|, |traces'|) == n - 1;
      assert ids'[..n - 1] + [ids[n - 1]] == ids[..n];
    }
  }

  predicate Adjacent(chunks: seq<(nat, nat)>, n: nat)
  {
    && (forall k :: 0 <= k < |chunks| ==> chunks[k].0 <= chunks[k].1 <= n)
    && (forall k :: 0 <= k < |chunks| - 1 ==> chunks[k].1 == chunks[k + 1].0)
    && (chunks != [] ==> chunks[0].0 == 0)
  }

  function End(chunks: seq<(nat, nat)>): nat
  {
    if chunks == [] then 0 else chunks[|chunks| - 1].1
  }

  lemma ChunkStepUuid(h: Hasher, pool: Pool, t: Tables, ids: seq<int>, traces: seq<seq<string>>, attrs: seq<Attr>)
    ensures var r := ChunkStep(h, pool, t, ids, traces, attrs);
      r.Some? ==> r.value.1.uuid == t.uuid + ids[..Min(|ids|, |traces|)]
  {
    var p2 := ChunkPool(h, pool, traces, attrs);
    if p2.Some? {
      TrackAllUuid(h, p2.value, t, ids, traces);
    }
  }

  lemma SliceAppend(ids: seq<int>, start: nat, end: nat)
    requires start <= end
    ensures ids[..Min(|ids|, start)] + Slice(ids, start, end) == ids[..Min(|ids|, end)]
  {
  }

  lemma AdjacentPrefix(chunks: seq<(nat, nat)>, n: nat)
    requires Adjacent(chunks, n) && chunks != []
    ensures Adjacent(chunks[..|chunks| - 1], n)
    ensures End(chunks[..|chunks| - 1]) == chunks[|chunks| - 1].0
  {
  }

  lemma {:induction false} ChunkFoldUuid(h: Hasher, pool: Pool, t: Tables, ids: seq<int>, traces: seq<seq<string>>,
                                         attrs: Option<seq<Attr>>, chunks: seq<(nat, nat)>)
    requires Adjacent(chunks, |traces|)
    ensures var r := ChunkFold(h, pool, t, ids, traces, attrs, chunks);
      r.Some? ==> r.value.1.uuid == t.uuid + ids[..Min(|ids|, End(chunks))]
    decreases |chunks|
  {
    if chunks != [] {
      var n := |chunks| - 1;
      var start, end := chunks[n].0, chunks[n].1;
      var prefix := chunks[..n];
      AdjacentPrefix(chunks, |traces|);
      ChunkFoldUuid(h, pool, t, ids, traces, attrs, prefix);
      var prev := ChunkFold(h, pool, t, ids, traces, attrs, prefix);
      if prev.Some? {
        assert ChunkFold(h, pool, t, ids, traces, attrs, chunks)
            == ChunkStep(h, prev.value.0, prev.value.1, Slice(ids, start, end), Slice(traces, start, end),
                         ChunkAttrs(ids, attrs, start, end));
        ChunkUuid(h, prev.value.0, prev.value.1, t.uuid, ids, traces, attrs, start, end);
      }
    }
  }

  /** A chunk `[start, end)` processed after the ids before `start` were
      appended leaves the ids before `end` appended. */
  lemma ChunkUuid(h: Hasher, pool: Pool, t: Tables, u: seq<int>, ids: seq<int>, traces: seq<seq<string>>,
                  attrs: Option<seq<Attr>>, start: nat, end: nat)
    requires start <= end <= |traces| && t.uuid == u + ids[..Min(|ids|, start)]
    ensures var step := ChunkStep(h, pool, t, Slice(ids, start, end), Slice(traces, start, end), ChunkAttrs(ids, attrs, start, end));
      step.Some? ==> step.value.1.uuid == u + ids[..Min(|ids|, end)]
  {
    var cids, ctraces := Slice(ids, start, end), Slice(traces, start, end);
    ChunkStepUuid(h, pool, t, cids, ctraces, ChunkAttrs(ids, attrs, start, end));
    var step := ChunkStep(h, pool, t, cids, ctraces, ChunkAttrs(ids, attrs, start, end));
    assert |ctraces| == end - start;
    if step.Some? {
      UuidStep(u, t.uuid, step.value.1.uuid, ids, start, end, |ctraces|);
    }
  }

  lemma UuidStep(u: seq<int>, before: seq<int>, after: seq<int>, ids: seq<int>, start: nat, end: nat, width: nat)
    requires start <= end && width == end - start
    requires before == u + ids[..Min(|ids|, start)]
    requires after == before + Slice(ids, start, end)[..Min(|Slice(ids, start, end)|, width)]
    ensures after == u + ids[..Min(|ids|, end)]
  {
    var cids := Slice(ids, start, end);
    assert cids[..Min(|cids|, width)] == cids;
    SliceAppend(ids, start, end);
  }

  /** On success the chunked path tracks every id that `zip` pairs with a
      trace, in order: chunk by chunk the slices add up to the whole prefix. */
  lemma SpeedUpTracksAll(h: Hasher, env: EnvVar, pool: Pool, t: Tables, ids: seq<int>, traces: seq<seq<string>>,
                         attrs: Option<seq<Attr>>)
    requires env.chunkSize > 0
    ensures var r := SpeedUpSpec(h, env, pool, t, ids, traces, attrs);
      r.Some? ==> r.value.1.uuid == t.uuid + ids[..Min(|ids|, |traces|)]
  {
    var chunks := Chunks(|traces|, env.chunkSize);
    ChunksCoverRange(|traces|, env.chunkSize);
    ChunkFoldUuid(h, pool, t, ids, traces, attrs, chunks);
  }

  /** `Kept(tracked, ids, n)`: the positions below n whose id is not tracked, ascending. */
  function Kept(tracked: seq<int>, ids: seq<int>, n: nat): (r: seq<nat>)
    requires n <= |ids|
    ensures forall k :: 0 <= k < |r| ==> r[k] < n
  {
    if n == 0 then [] else Kept(tracked, ids, n - 1) + (if ids[n - 1] in tracked then [] else [n - 1])
  }

  /** The one-shot filter keeps exactly the zipped records whose id is not
      tracked, at ascending positions, each record whole. */
  lemma {:induction false} ValidNonExistingKeeps(tracked: seq<int>, ids: seq<int>, traces: seq<seq<string>>, attrs: seq<Attr>)
    ensures var n := Min(|ids|, Min(|traces|, |attrs|));
      var P := Kept(tracked, ids, n);
      var r := ValidNonExisting(tracked, ids, traces, attrs);
      && |P| == |r.0|
      && (forall k :: 0 <= k < |P| ==> r.0[k] == ids[P[k]] && r.1[k] == traces[P[k]] && r.2[k] == attrs[P[k]])
    decreases |ids|
  {
    var n := Min(|ids|, Min(|traces|, |attrs|));
    if n > 0 {
      var ids', traces', attrs' := ids[..n - 1], traces[..n - 1], attrs[..n - 1];
      ValidNonExistingKeeps(tracked, ids', traces', attrs');
      assert Min(|ids'|, Min(|traces'|, |attrs'|)) == n - 1;
      KeptAgree(tracked, ids', ids, n - 1);
    }
  }

  predicate Increasing(xs: seq<int>)
  {
    forall k1, k2 :: 0 <= k1 < k2 < |xs| ==> xs[k1] < xs[k2]
  }

  /** The kept positions ascend and are exactly those whose id is not tracked. */
  lemma KeptExactly(tracked: seq<int>, ids: seq<int>, n: nat)
    requires n <= |ids|
    ensures var P := Kept(tracked, ids, n);
      && (forall k1, k2 :: 0 <= k1 < k2 < |P| ==> P[k1] < P[k2])
      && (forall j :: 0 <= j < n ==> (j in P <==> ids[j] !in tracked))
  {
    KeptAscending(tracked, ids, n);
    KeptMembers(tracked, ids, n);
  }

  lemma {:induction false} KeptAscending(tracked: seq<int>, ids: seq<int>, n: nat)
    requires n <= |ids|
    ensures Increasing(Kept(tracked, ids, n))
  {
    if n > 0 {
      KeptAscending(tracked, ids, n - 1);
      var prev := Kept(tracked, ids, n - 1);
      if ids[n - 1] !in tracked {
        assert Kept(tracked, ids, n) == prev + [n - 1];
      }
    }
  }

  lemma {:induction false} KeptMembers(tracked: seq<int>, ids: seq<int>, n: nat)
    requires n <= |ids|
    ensures var P := Kept(tracked, ids, n);
      forall j :: 0 <= j < n ==> (j in P <==> ids[j] !in tracked)
  {
    if n > 0 {
      KeptMembers(tracked, ids, n - 1);
      var prev := Kept(tracked, ids, n - 1);
      assert n - 1 !in prev;
    }
  }

  lemma {:induction false} KeptAgree(tracked: seq<int>, ids: seq<int>, ids2: seq<int>, m: nat)
    requires m <= |ids| && m <= |ids2| && ids[..m] == ids2[..m]
    ensures Kept(tracked, ids, m) == Kept(tracked, ids2, m)
    decreases m
  {
    if m > 0 {
      assert ids[..m - 1] == ids[..m][..m - 1] && ids2[..m - 1] == ids2[..m][..m - 1];
      assert ids[m - 1] == ids[..m][m - 1];
      KeptAgree(tracked, ids, ids2, m - 1);
    }
  }

  lemma {:induction false} AddListUuid(h: Hasher, pool: Pool, t: Tables, ids: seq<int>, traces: seq<seq<string>>, attrs: seq<Attr>)
    requires |ids| == |traces| == |attrs|
    ensures var r := AddList(h, pool, t, ids, traces, attrs);
      r.Some? ==> r.value.1.uuid == t.uuid + ids
    decreases |ids|
  {
    if ids != [] {
      var n := |ids| - 1;
      AddListUuid(h, pool, t, ids[..n], traces[..n], attrs[..n]);
      var prev := AddList(h, pool, t, ids[..n], traces[..n], attrs[..n]);
      if prev.Some? {
        AddOneUuid(h, prev.value.0, prev.value.1, ids[n], traces[n], attrs[n]);
      }
      assert ids[..n] + [ids[n]] == ids;
    }
  }

  /** A record that is added is appended to `uuid`. */
  lemma AddOneUuid(h: Hasher, pool: Pool, t: Tables, id: int, s: seq<string>, attr: Attr)
    ensures var r := AddOne(h, pool, t, id, s, attr);
      r.Some? ==> r.value.1.uuid == t.uuid + [id]
  {
  }

  lemma {:induction false} ValidNonExistingAllTracked(tracked: seq<int>, ids: seq<int>, traces: seq<seq<string>>, attrs: seq<Attr>)
    requires forall j :: 0 <= j < |ids| ==> ids[j] in tracked
    ensures ValidNonExisting(tracked, ids, traces, attrs) == ([], [], [])
    decreases |ids|
  {
    var n := Min(|ids|, Min(|traces|, |attrs|));
    if n > 0 {
      ValidNonExistingAllTracked(tracked, ids[..n - 1], traces[..n - 1], attrs[..n - 1]);
    }
  }

  /** On success the one-shot path tracks exactly the ids the filter kept, in
      order. */
  lemma OneShotTracksNew(h: Hasher, pool: Pool, t: Tables, ids: seq<int>, traces: seq<seq<string>>, attrs: Option<seq<Attr>>)
    ensures var a := if attrs.None? then Defaults(|traces|) else attrs.value;
      var r := OneShotSpec(h, pool, t, Many(ids, traces, attrs));
      r.Some? ==> r.value.1.uuid == t.uuid + ValidNonExisting(t.uuid, ids, traces, a).0
  {
    var a := if attrs.None? then Defaults(|traces|) else attrs.value;
    var valid := ValidNonExisting(t.uuid, ids, traces, a);
    AddListUuid(h, pool, t, valid.0, valid.1, valid.2);
  }

  /** A list whose ids are all tracked already leaves the pool and the tables
      as they were. */
  lemma OneShotSkipsTracked(h: Hasher, pool: Pool, t: Tables, ids: seq<int>, traces: seq<seq<string>>, attrs: Option<seq<Attr>>)
    requires forall j :: 0 <= j < |ids| ==> ids[j] in t.uuid
    ensures OneShotSpec(h, pool, t, Many(ids, traces, attrs)) == Some((pool, t))
  {
    var a := if attrs.None? then Defaults(|traces|) else attrs.value;
    ValidNonExistingAllTracked(t.uuid, ids, traces, a);
  }
}
