/** `SparseMatrixClustering` (graph/core/graph_algorithms.py): the in-memory
    greedy threshold clusterer over a square score matrix, the folding of
    small clusters into an 'other' bucket, and the per-document labels. The
    score matrix is a parameter (the source computes cosine similarities of
    one-hot rows). */
module GraphAlgorithms {

  /** A key of `clusterid_docids_mapping`: an integer id, or 'other'. */
  datatype ClusterKey = Id(id: int) | Other

  type Scores = seq<seq<real>>

  /** An `n x n` score matrix, as `doc_doc_similarity(x, x.T)` yields. */
  predicate Square(score: Scores)
  {
    forall i :: 0 <= i < |score| ==> |score[i]| == |score|
  }

  predicate InRange(xs: seq<int>, n: int)
  {
    forall i :: 0 <= i < |xs| ==> 0 <= xs[i] < n
  }

  predicate Ascending(xs: seq<int>)
  {
    forall i, j :: 0 <= i < j < |xs| ==> xs[i] < xs[j]
  }

  /** `list(range(n))`. */
  function Upto(n: nat): (r: seq<int>)
    ensures |r| == n && forall i :: 0 <= i < n ==> r[i] == i
  {
    seq(n, i requires 0 <= i < n => i)
  }

  /** `[x for x in xs if x != v]`. */
  function Without(xs: seq<int>, v: int): (r: seq<int>)
    ensures |r| <= |xs| && (v in xs ==> |r| < |xs|)
    ensures forall x :: x in r <==> x in xs && x != v
  {
    if xs == [] then [] else (if xs[0] != v then [xs[0]] else []) + Without(xs[1..], v)
  }

  /** `xs.remove(v)`: drops the first occurrence (a missing value raises). */
  function RemoveFirst(xs: seq<int>, v: int): seq<int>
    requires v in xs
  {
    if xs[0] == v then xs[1..] else [xs[0]] + RemoveFirst(xs[1..], v)
  }

  /** The members of `xs`, in order, whose score against pivot `p` reaches
      the threshold. */
  function Above(score: Scores, p: int, threshold: real, xs: seq<int>): (r: seq<int>)
    requires Square(score) && 0 <= p < |score| && InRange(xs, |score|)
    ensures |r| <= |xs| && InRange(r, |score|)
  {
    if xs == [] then []
    else
      var last := xs[|xs| - 1];
      Above(score, p, threshold, xs[..|xs| - 1]) + (if score[p][last] >= threshold then [last] else [])
  }

  /** The members of `xs`, in order, whose score against pivot `p` is below
      the threshold. */
  function Below(score: Scores, p: int, threshold: real, xs: seq<int>): (r: seq<int>)
    requires Square(score) && 0 <= p < |score| && InRange(xs, |score|)
    ensures |r| <= |xs| && InRange(r, |score|)
  {
    if xs == [] then []
    else
      var last := xs[|xs| - 1];
      Below(score, p, threshold, xs[..|xs| - 1]) + (if score[p][last] >= threshold then [] else [last])
  }

  /** The clusters `__cluster__` opens from the unassigned ids `docIds`, in
      id order: the first unassigned id is the pivot, and every other
      unassigned id whose score against it reaches the threshold joins it. */
  function Greedy(score: Scores, threshold: real, docIds: seq<int>): seq<seq<int>>
    requires Square(score) && InRange(docIds, |score|)
    decreases |docIds|
  {
    if docIds == [] then []
    else
      var pivot := docIds[0];
      var sub := Without(docIds, pivot);
      InRangeSubset(docIds, sub, |score|);
      [[pivot] + Above(score, pivot, threshold, sub)] + Greedy(score, threshold, Below(score, pivot, threshold, sub))
  }

  // ---------------------------------------------------------------------------
  // Facts about the filters
  // ---------------------------------------------------------------------------

  lemma InRangeSubset(xs: seq<int>, ys: seq<int>, n: int)
    requires InRange(xs, n) && forall y :: y in ys ==> y in xs
    ensures InRange(ys, n)
  {
    forall i | 0 <= i < |ys|
      ensures 0 <= ys[i] < n
    {
      assert ys[i] in ys;
      var j :| 0 <= j < |xs| && xs[j] == ys[i];
    }
  }

  lemma InRangeMembers(xs: seq<int>, n: int)
    requires InRange(xs, n)
    ensures forall x :: x in xs ==> 0 <= x < n
  {
    forall x | x in xs
      ensures 0 <= x < n
    {
      var i :| 0 <= i < |xs| && xs[i] == x;
    }
  }

  lemma {:induction false} WithoutHead(xs: seq<int>)
    requires xs != [] && Ascending(xs)
    ensures Without(xs, xs[0]) == xs[1..]
  {
    assert forall x :: x in xs[1..] ==> x != xs[0];
    WithoutAbsent(xs[1..], xs[0]);
  }

  lemma {:induction false} WithoutAbsent(xs: seq<int>, v: int)
    requires v !in xs
    ensures Without(xs, v) == xs
  {
    if xs != [] {
      WithoutAbsent(xs[1..], v);
    }
  }

  /** Removing the value at the front of `b` skips over an `a` without it. */
  lemma {:induction false} RemoveFirstSkip(a: seq<int>, b: seq<int>, v: int)
    requires v !in a && b != [] && b[0] == v
    ensures v in a + b && RemoveFirst(a + b, v) == a + b[1..]
  {
    if a != [] {
      assert (a + b)[1..] == a[1..] + b;
      RemoveFirstSkip(a[1..], b, v);
    }
  }

  /** The members of each filter: the members of `xs` on its side of the
      threshold. */
  lemma {:induction false} FilterMembers(score: Scores, p: int, threshold: real, xs: seq<int>)
    requires Square(score) && 0 <= p < |score| && InRange(xs, |score|)
    ensures forall x :: x in Above(score, p, threshold, xs) <==> x in xs && score[p][x] >= threshold
    ensures forall x :: x in Below(score, p, threshold, xs) <==> x in xs && score[p][x] < threshold
  {
    if xs != [] {
      var init := xs[..|xs| - 1];
      FilterMembers(score, p, threshold, init);
      assert xs == init + [xs[|xs| - 1]];
    }
  }

  /** The two filters split `xs` without losing or adding anything. */
  lemma {:induction false} AboveBelowSplit(score: Scores, p: int, threshold: real, xs: seq<int>)
    requires Square(score) && 0 <= p < |score| && InRange(xs, |score|)
    ensures multiset(Above(score, p, threshold, xs)) + multiset(Below(score, p, threshold, xs)) == multiset(xs)
  {
    if xs != [] {
      var init := xs[..|xs| - 1];
      var last := xs[|xs| - 1];
      AboveBelowSplit(score, p, threshold, init);
      assert xs == init + [last];
      assert multiset(xs) == multiset(init) + multiset{last};
      var a, b := Above(score, p, threshold, init), Below(score, p, threshold, init);
      if score[p][last] >= threshold {
        assert multiset(a + [last]) == multiset(a) + multiset{last};
      } else {
        assert multiset(b + [last]) == multiset(b) + multiset{last};
      }
    }
  }

  /** Both filters keep an ascending list ascending. */
  lemma {:induction false} FiltersAscending(score: Scores, p: int, threshold: real, xs: seq<int>)
    requires Square(score) && 0 <= p < |score| && InRange(xs, |score|) && Ascending(xs)
    ensures Ascending(Above(score, p, threshold, xs)) && Ascending(Below(score, p, threshold, xs))
  {
    if xs != [] {
      var init := xs[..|xs| - 1];
      var last := xs[|xs| - 1];
      assert xs == init + [last];
      AscendingInit(init, last);
      FiltersAscending(score, p, threshold, init);
      FilterMembers(score, p, threshold, init);
      var a, b := Above(score, p, threshold, init), Below(score, p, threshold, init);
      if score[p][last] >= threshold {
        AscendingSnoc(a, last);
      } else {
        AscendingSnoc(b, last);
      }
    }
  }

  /** Dropping the last element keeps a list ascending, and that element is
      above all the others. */
  lemma AscendingInit(init: seq<int>, last: int)
    requires Ascending(init + [last])
    ensures Ascending(init) && forall x :: x in init ==> x < last
  {
    var xs := init + [last];
    forall x | x in init
      ensures x < last
    {
      var j :| 0 <= j < |init| && init[j] == x;
      assert xs[j] == x && xs[|init|] == last;
    }
    assert forall i :: 0 <= i < |init| ==> init[i] == xs[i];
  }

  lemma AscendingSnoc(xs: seq<int>, v: int)
    requires Ascending(xs) && forall x :: x in xs ==> x < v
    ensures Ascending(xs + [v])
  {
    assert forall i :: 0 <= i < |xs| ==> xs[i] in xs;
  }

  // ---------------------------------------------------------------------------
  // The greedy clustering
  // ---------------------------------------------------------------------------

  /** One round of `__cluster__`: the first unassigned id is the pivot,
      and every other unassigned id scoring at least the threshold against
      it moves from `doc_ids` into the pivot's cluster. */
  method Round(score: Scores, threshold: real, docIds: seq<int>) returns (cluster: seq<int>, docIds': seq<int>)
    requires Square(score) && InRange(docIds, |score|) && Ascending(docIds) && docIds != []
    ensures var sub := Without(docIds, docIds[0]);
      && InRange(sub, |score|)
      && cluster == [docIds[0]] + Above(score, docIds[0], threshold, sub)
      && docIds' == Below(score, docIds[0], threshold, sub)
    ensures InRange(docIds', |score|) && Ascending(docIds')
    ensures Greedy(score, threshold, docIds) == [cluster] + Greedy(score, threshold, docIds')
  {
    var pivot := docIds[0];
    var sub := Without(docIds, pivot);
    WithoutHead(docIds);
    InRangeSubset(docIds, sub, |score|);
    FiltersAscending(score, pivot, threshold, sub);
    docIds' := RemoveFirst(docIds, pivot);
    cluster, docIds' := MoveSimilar(score, pivot, threshold, sub, [pivot], docIds');
  }

  /** The loop of a round over `sub`, the unassigned ids other than the
      pivot: each one scoring at least the threshold is appended to the
      cluster and removed from `doc_ids`. */
  method MoveSimilar(score: Scores, pivot: int, threshold: real, sub: seq<int>, cluster0: seq<int>, docIds0: seq<int>)
    returns (cluster: seq<int>, docIds: seq<int>)
    requires Square(score) && 0 <= pivot < |score| && InRange(sub, |score|) && Ascending(sub) && docIds0 == sub
    ensures cluster == cluster0 + Above(score, pivot, threshold, sub)
    ensures docIds == Below(score, pivot, threshold, sub)
  {
    cluster, docIds := cluster0, docIds0;
    for k := 0 to |sub|
      invariant cluster == cluster0 + Above(score, pivot, threshold, sub[..k])
      invariant docIds == Below(score, pivot, threshold, sub[..k]) + sub[k..]
    {
      cluster, docIds := MoveOne(score, pivot, threshold, sub, k, cluster0, cluster, docIds);
    }
    assert sub[..|sub|] == sub;
  }

  /** One iteration of the loop of a round: `doc_id = sub[k]` moves from
      `doc_ids` to the cluster when it scores at least the threshold. */
  method MoveOne(score: Scores, pivot: int, threshold: real, sub: seq<int>, k: nat, ghost cluster0: seq<int>,
                 cluster: seq<int>, docIds: seq<int>)
    returns (cluster': seq<int>, docIds': seq<int>)
    requires Square(score) && 0 <= pivot < |score| && InRange(sub, |score|) && Ascending(sub) && k < |sub|
    requires cluster == cluster0 + Above(score, pivot, threshold, sub[..k])
    requires docIds == Below(score, pivot, threshold, sub[..k]) + sub[k..]
    ensures cluster' == cluster0 + Above(score, pivot, threshold, sub[..k + 1])
    ensures docIds' == Below(score, pivot, threshold, sub[..k + 1]) + sub[k + 1..]
  {
    var docId := sub[k];
    RoundStep(score, pivot, threshold, sub, k);
    cluster', docIds' := cluster, docIds;
    if score[pivot][docId] >= threshold {
      cluster' := cluster + [docId];
      docIds' := RemoveFirst(docIds, docId);
    }
  }

  /** One iteration of the round's loop over `sub`: a similar id moves from
      `doc_ids` to the cluster, any other stays. */
  lemma RoundStep(score: Scores, pivot: int, threshold: real, sub: seq<int>, k: nat)
    requires Square(score) && 0 <= pivot < |score| && InRange(sub, |score|) && Ascending(sub) && k < |sub|
    ensures score[pivot][sub[k]] >= threshold ==>
      && Above(score, pivot, threshold, sub[..k + 1]) == Above(score, pivot, threshold, sub[..k]) + [sub[k]]
      && sub[k] in Below(score, pivot, threshold, sub[..k]) + sub[k..]
      && RemoveFirst(Below(score, pivot, threshold, sub[..k]) + sub[k..], sub[k])
         == Below(score, pivot, threshold, sub[..k + 1]) + sub[k + 1..]
    ensures score[pivot][sub[k]] < threshold ==>
      && Above(score, pivot, threshold, sub[..k + 1]) == Above(score, pivot, threshold, sub[..k])
      && Below(score, pivot, threshold, sub[..k]) + sub[k..] == Below(score, pivot, threshold, sub[..k + 1]) + sub[k + 1..]
  {
    var pre, docId, post := sub[..k], sub[k], sub[k + 1..];
    assert sub[..k + 1] == pre + [docId] && sub[k..] == [docId] + post;
    PrefixInRange(sub, k + 1, |score|);
    if score[pivot][docId] >= threshold {
      RoundStepSimilar(score, pivot, threshold, pre, docId, post);
    } else {
      RoundStepOther(score, pivot, threshold, pre, docId, post);
    }
  }

  /** A prefix of an ascending list of ids below `n` is one too. */
  lemma PrefixInRange(xs: seq<int>, k: nat, n: int)
    requires InRange(xs, n) && Ascending(xs) && k <= |xs|
    ensures InRange(xs[..k], n) && Ascending(xs[..k])
  {
  }

  /** One iteration of the round's loop over `sub = pre + [docId] + post`,
      on a similar id: it moves from `doc_ids` to the cluster. */
  lemma RoundStepSimilar(score: Scores, pivot: int, threshold: real, pre: seq<int>, docId: int, post: seq<int>)
    requires Square(score) && 0 <= pivot < |score| && InRange(pre + [docId], |score|) && Ascending(pre + [docId])
    requires 0 <= docId < |score| && score[pivot][docId] >= threshold
    ensures InRange(pre, |score|)
    ensures Above(score, pivot, threshold, pre + [docId]) == Above(score, pivot, threshold, pre) + [docId]
    ensures docId in Below(score, pivot, threshold, pre) + ([docId] + post)
    ensures RemoveFirst(Below(score, pivot, threshold, pre) + ([docId] + post), docId)
         == Below(score, pivot, threshold, pre + [docId]) + post
  {
    FiltersSnoc(score, pivot, threshold, pre, docId);
    AscendingInit(pre, docId);
    FilterMembers(score, pivot, threshold, pre);
    RemoveFirstSkip(Below(score, pivot, threshold, pre), [docId] + post, docId);
  }

  /** One iteration of the round's loop, on an id that is not similar: it
      stays in `doc_ids`. */
  lemma RoundStepOther(score: Scores, pivot: int, threshold: real, pre: seq<int>, docId: int, post: seq<int>)
    requires Square(score) && 0 <= pivot < |score| && InRange(pre + [docId], |score|)
    requires 0 <= docId < |score| && score[pivot][docId] < threshold
    ensures InRange(pre, |score|)
    ensures Above(score, pivot, threshold, pre + [docId]) == Above(score, pivot, threshold, pre)
    ensures Below(score, pivot, threshold, pre) + ([docId] + post) == Below(score, pivot, threshold, pre + [docId]) + post
  {
    FiltersSnoc(score, pivot, threshold, pre, docId);
    var below := Below(score, pivot, threshold, pre);
    assert below + ([docId] + post) == (below + [docId]) + post;
  }

  /** Both filters on a list with one more element at the end. */
  lemma FiltersSnoc(score: Scores, p: int, threshold: real, xs: seq<int>, v: int)
    requires Square(score) && 0 <= p < |score| && InRange(xs + [v], |score|)
    ensures InRange(xs, |score|) && 0 <= v < |score|
    ensures Above(score, p, threshold, xs + [v])
         == Above(score, p, threshold, xs) + (if score[p][v] >= threshold then [v] else [])
    ensures Below(score, p, threshold, xs + [v])
         == Below(score, p, threshold, xs) + (if score[p][v] >= threshold then [] else [v])
  {
    assert (xs + [v])[..|xs|] == xs && (xs + [v])[|xs|] == v;
    assert forall i :: 0 <= i < |xs| ==> xs[i] == (xs + [v])[i];
  }

  /** `__cluster__`. The mapping's keys are the consecutive ids `0..k-1` in
      insertion order, so it is held as the list of its values. */
  method Cluster(score: Scores, threshold: real) returns (clusters: seq<seq<int>>)
    requires Square(score)
    ensures clusters == Greedy(score, threshold, Upto(|score|))
  {
    var n := |score|;
    var docIds := Upto(n);
    clusters := [];
    while |docIds| > 0
      invariant InRange(docIds, n) && Ascending(docIds)
      invariant clusters + Greedy(score, threshold, docIds) == Greedy(score, threshold, Upto(n))
      decreases |docIds|
    {
      var cluster, docIds' := Round(score, threshold, docIds);
      assert (clusters + [cluster]) + Greedy(score, threshold, docIds') == clusters + Greedy(score, threshold, docIds);
      clusters, docIds := clusters + [cluster], docIds';
    }
  }

  /** The documents of a list of clusters, in order. */
  function Concat(cs: seq<seq<int>>): seq<int>
  {
    if cs == [] then [] else cs[0] + Concat(cs[1..])
  }

  /** `__cluster__` partitions its ids: every id of `docIds` occurs exactly
      once across the clusters. */
  lemma {:induction false} GreedyPartition(score: Scores, threshold: real, docIds: seq<int>)
    requires Square(score) && InRange(docIds, |score|) && Ascending(docIds)
    ensures multiset(Concat(Greedy(score, threshold, docIds))) == multiset(docIds)
    decreases |docIds|
  {
    if docIds != [] {
      var pivot := docIds[0];
      var sub := Without(docIds, pivot);
      WithoutHead(docIds);
      var rest := Below(score, pivot, threshold, sub);
      FiltersAscending(score, pivot, threshold, sub);
      GreedyPartition(score, threshold, rest);
      AboveBelowSplit(score, pivot, threshold, sub);
      var cs := Greedy(score, threshold, docIds);
      assert cs[1..] == Greedy(score, threshold, rest);
      assert docIds == [pivot] + sub;
    }
  }

  /** A cluster opened by its pivot `c[0]`: nonempty, ascending, made of ids
      of `docIds`, and every non-pivot member scores at least the threshold
      against the pivot. */
  predicate Opened(score: Scores, threshold: real, c: seq<int>, docIds: seq<int>)
    requires Square(score)
  {
    && |c| > 0 && Ascending(c) && InRange(c, |score|) && (forall x :: x in c ==> x in docIds)
    && forall i :: 1 <= i < |c| ==> score[c[0]][c[i]] >= threshold
  }

  /** Every cluster of `cs` is opened by its pivot. */
  predicate AllOpened(score: Scores, threshold: real, cs: seq<seq<int>>, docIds: seq<int>)
    requires Square(score)
  {
    forall j :: 0 <= j < |cs| ==> Opened(score, threshold, cs[j], docIds)
  }

  /** A later cluster holds only ids above an earlier pivot that score below
      the threshold against it. */
  predicate Maximal(score: Scores, threshold: real, cs: seq<seq<int>>)
    requires Square(score)
  {
    forall j, j', x :: 0 <= j < j' < |cs| && x in cs[j'] ==>
      && |cs[j]| > 0 && 0 <= cs[j][0] < x < |score|
      && score[cs[j][0]][x] < threshold
  }

  /** No id is in two clusters. */
  predicate Disjoint(cs: seq<seq<int>>)
  {
    forall j, j', x :: 0 <= j < |cs| && 0 <= j' < |cs| && x in cs[j] && x in cs[j'] ==> j == j'
  }

  /** Every cluster is opened by its pivot and holds only ids similar enough
      to it. */
  lemma {:induction false} GreedyOpened(score: Scores, threshold: real, docIds: seq<int>)
    requires Square(score) && InRange(docIds, |score|) && Ascending(docIds)
    ensures AllOpened(score, threshold, Greedy(score, threshold, docIds), docIds)
    decreases |docIds|
  {
    if docIds != [] {
      var pivot, sub := docIds[0], docIds[1..];
      GreedyStep(score, threshold, docIds);
      var rest := Below(score, pivot, threshold, sub);
      GreedyOpened(score, threshold, rest);
      HeadOpened(score, threshold, docIds);
      FilterMembers(score, pivot, threshold, sub);
      OpenedCons(score, threshold, Greedy(score, threshold, docIds)[0], Greedy(score, threshold, rest), rest, docIds);
    }
  }

  lemma OpenedCons(score: Scores, threshold: real, head: seq<int>, tail: seq<seq<int>>, rest: seq<int>, docIds: seq<int>)
    requires Square(score) && Opened(score, threshold, head, docIds) && AllOpened(score, threshold, tail, rest)
    requires forall x :: x in rest ==> x in docIds
    ensures AllOpened(score, threshold, [head] + tail, docIds)
  {
    forall j | 0 <= j < |tail|
      ensures Opened(score, threshold, tail[j], docIds)
    {
      assert Opened(score, threshold, tail[j], rest);
    }
  }

  /** One step of `Greedy` on an ascending list: the pivot is the head,
      and the rest of the ids are the tail. */
  lemma GreedyStep(score: Scores, threshold: real, docIds: seq<int>)
    requires Square(score) && InRange(docIds, |score|) && Ascending(docIds) && docIds != []
    ensures InRange(docIds[1..], |score|) && Ascending(docIds[1..])
    ensures var pivot, sub := docIds[0], docIds[1..];
      && Ascending(Below(score, pivot, threshold, sub))
      && Greedy(score, threshold, docIds) ==
         [[pivot] + Above(score, pivot, threshold, sub)] + Greedy(score, threshold, Below(score, pivot, threshold, sub))
  {
    WithoutHead(docIds);
    InRangeSubset(docIds, docIds[1..], |score|);
    FiltersAscending(score, docIds[0], threshold, docIds[1..]);
  }

  /** The first cluster is opened by the first id. */
  lemma HeadOpened(score: Scores, threshold: real, docIds: seq<int>)
    requires Square(score) && InRange(docIds, |score|) && Ascending(docIds) && docIds != []
    ensures Opened(score, threshold, Greedy(score, threshold, docIds)[0], docIds)
  {
    WithoutHead(docIds);
    InRangeSubset(docIds, docIds[1..], |score|);
    PivotOpened(score, threshold, docIds);
  }

  /** The pivot and the ids after it that reach the threshold against it. */
  lemma PivotOpened(score: Scores, threshold: real, docIds: seq<int>)
    requires Square(score) && InRange(docIds, |score|) && Ascending(docIds) && docIds != []
    requires InRange(docIds[1..], |score|)
    ensures Opened(score, threshold, [docIds[0]] + Above(score, docIds[0], threshold, docIds[1..]), docIds)
  {
    var pivot, sub := docIds[0], docIds[1..];
    FiltersAscending(score, pivot, threshold, sub);
    FilterMembers(score, pivot, threshold, sub);
    var above := Above(score, pivot, threshold, sub);
    var c := [pivot] + above;
    assert forall x :: x in sub ==> pivot < x && x in docIds;
    forall i | 1 <= i < |c|
      ensures c[i] == above[i - 1] && c[i] in above
    {
    }
    ConsAscending(pivot, above);
    assert InRange(c, |score|);
  }

  /** An ascending list stays ascending behind a smaller head. */
  lemma ConsAscending(p: int, xs: seq<int>)
    requires Ascending(xs) && forall x :: x in xs ==> p < x
    ensures Ascending([p] + xs)
  {
    var c := [p] + xs;
    forall i, j | 0 <= i < j < |c|
      ensures c[i] < c[j]
    {
      assert c[j] == xs[j - 1] && xs[j - 1] in xs;
      if i > 0 {
        assert c[i] == xs[i - 1];
      }
    }
  }

  /** Maximality: the pivot was the smallest id still unassigned, and its
      round took every id similar enough, so a later cluster holds only ids
      above it that score below the threshold against it. */
  lemma {:induction false} GreedyMaximal(score: Scores, threshold: real, docIds: seq<int>)
    requires Square(score) && InRange(docIds, |score|) && Ascending(docIds)
    ensures Maximal(score, threshold, Greedy(score, threshold, docIds))
    decreases |docIds|
  {
    if docIds != [] {
      var pivot, sub := docIds[0], docIds[1..];
      GreedyStep(score, threshold, docIds);
      var rest := Below(score, pivot, threshold, sub);
      GreedyMaximal(score, threshold, rest);
      GreedyOpened(score, threshold, rest);
      RestAbovePivot(score, threshold, docIds);
      MaximalCons(score, threshold, Greedy(score, threshold, docIds)[0], Greedy(score, threshold, rest), rest);
    }
  }

  /** The ids left for later rounds lie above the pivot and score below the
      threshold against it. */
  lemma RestAbovePivot(score: Scores, threshold: real, docIds: seq<int>)
    requires Square(score) && InRange(docIds, |score|) && Ascending(docIds) && docIds != []
    ensures InRange(docIds[1..], |score|)
    ensures forall x :: x in Below(score, docIds[0], threshold, docIds[1..]) ==>
      docIds[0] < x < |score| && score[docIds[0]][x] < threshold
  {
    var pivot, sub := docIds[0], docIds[1..];
    InRangeSubset(docIds, sub, |score|);
    FilterMembers(score, pivot, threshold, sub);
    forall x | x in sub
      ensures pivot < x
    {
      var i :| 0 <= i < |sub| && sub[i] == x;
      assert docIds[i + 1] == x;
    }
    InRangeMembers(sub, |score|);
  }

  /** A pivot cluster in front of the clusters opened from ids above the
      pivot that score below the threshold against it. */
  lemma MaximalCons(score: Scores, threshold: real, head: seq<int>, tail: seq<seq<int>>, rest: seq<int>)
    requires Square(score) && |head| > 0 && 0 <= head[0] < |score|
    requires Maximal(score, threshold, tail) && AllOpened(score, threshold, tail, rest)
    requires forall x :: x in rest ==> head[0] < x < |score| && score[head[0]][x] < threshold
    ensures Maximal(score, threshold, [head] + tail)
  {
    var cs := [head] + tail;
    forall j, j', x | 0 <= j < j' < |cs| && x in cs[j']
      ensures |cs[j]| > 0 && 0 <= cs[j][0] < x < |score| && score[cs[j][0]][x] < threshold
    {
      assert cs[j'] == tail[j' - 1];
      assert Opened(score, threshold, tail[j' - 1], rest);
      if j > 0 {
        assert cs[j] == tail[j - 1];
      }
    }
  }

  /** No id is in two clusters: a later cluster's members score below the
      threshold against an earlier pivot, whose own members reach it. */
  lemma GreedyDisjoint(score: Scores, threshold: real, docIds: seq<int>)
    requires Square(score) && InRange(docIds, |score|) && Ascending(docIds)
    ensures Disjoint(Greedy(score, threshold, docIds))
  {
    var cs := Greedy(score, threshold, docIds);
    GreedyOpened(score, threshold, docIds);
    GreedyMaximal(score, threshold, docIds);
    forall j, j', x | 0 <= j < j' < |cs| && x in cs[j']
      ensures x !in cs[j]
    {
      LaterNotEarlier(score, threshold, cs, docIds, j, j', x);
    }
  }

  /** An id of a later cluster is not in an earlier one: it is not the
      earlier pivot (it is above it), and it scores below the threshold
      against that pivot, which every other member reaches. */
  lemma LaterNotEarlier(score: Scores, threshold: real, cs: seq<seq<int>>, docIds: seq<int>, j: int, j': int, x: int)
    requires Square(score) && AllOpened(score, threshold, cs, docIds) && Maximal(score, threshold, cs)
    requires 0 <= j < j' < |cs| && x in cs[j']
    ensures x !in cs[j]
  {
    var c := cs[j];
    assert Opened(score, threshold, c, docIds);
    assert c[0] < x && score[c[0]][x] < threshold;
    forall i | 0 <= i < |c|
      ensures c[i] != x
    {
      if i > 0 {
        assert score[c[0]][c[i]] >= threshold;
      }
    }
  }

  /** An id of the partitioned list lies in some cluster. */
  lemma {:induction false} ConcatMember(cs: seq<seq<int>>, x: int)
    requires x in Concat(cs)
    ensures exists j :: 0 <= j < |cs| && x in cs[j]
  {
    if x !in cs[0] {
      ConcatMember(cs[1..], x);
      var j :| 0 <= j < |cs[1..]| && x in cs[1..][j];
      assert x in cs[j + 1];
    }
  }

  // ---------------------------------------------------------------------------
  // Abnormal clusters
  // ---------------------------------------------------------------------------

  /** The mapping `__cluster__` returns. */
  function ToMap(clusters: seq<seq<int>>): (m: map<ClusterKey, seq<int>>)
    ensures forall key :: key in m <==> key.Id? && 0 <= key.id < |clusters|
  {
    map k | 0 <= k < |clusters| :: Id(k) := clusters[k]
  }

  /** The members of the clusters of at most `minSamples` documents, in id
      order: the 'other' bucket. */
  function Small(clusters: seq<seq<int>>, minSamples: int): seq<int>
  {
    if clusters == [] then []
    else
      var last := clusters[|clusters| - 1];
      Small(clusters[..|clusters| - 1], minSamples) + (if |last| <= minSamples then last else [])
  }

  /** The members of the clusters of more than `minSamples` documents, in
      id order. */
  function Large(clusters: seq<seq<int>>, minSamples: int): seq<int>
  {
    if clusters == [] then []
    else
      var last := clusters[|clusters| - 1];
      Large(clusters[..|clusters| - 1], minSamples) + (if |last| <= minSamples then [] else last)
  }

  lemma {:induction false} ConcatAppend(cs: seq<seq<int>>, c: seq<int>)
    ensures Concat(cs + [c]) == Concat(cs) + c
  {
    if cs != [] {
      assert (cs + [c])[1..] == cs[1..] + [c];
      ConcatAppend(cs[1..], c);
    }
  }

  /** Folding the small clusters into 'other' neither loses nor duplicates a
      document: the kept clusters and the 'other' bucket together hold the
      documents of all clusters, with their multiplicities. */
  lemma {:induction false} SmallLargeSplit(clusters: seq<seq<int>>, minSamples: int)
    ensures multiset(Small(clusters, minSamples)) + multiset(Large(clusters, minSamples)) == multiset(Concat(clusters))
  {
    if clusters != [] {
      var n := |clusters| - 1;
      SmallLargeSplit(clusters[..n], minSamples);
      assert clusters == clusters[..n] + [clusters[n]];
      ConcatAppend(clusters[..n], clusters[n]);
    }
  }

  /** `__exclude_abnormaly__`: with detection on, the clusters of at most
      `minSamples` documents are deleted and their members gathered under
      'other', which exists only when it is nonempty. */
  /** The clusters of more than `minSamples` documents, under their ids. */
  function Kept(clusters: seq<seq<int>>, minSamples: int): map<ClusterKey, seq<int>>
  {
    map k | 0 <= k < |clusters| && |clusters[k]| > minSamples :: Id(k) := clusters[k]
  }

  function Excluded(clusters: seq<seq<int>>, minSamples: int, detection: bool): map<ClusterKey, seq<int>>
  {
    if !detection then ToMap(clusters)
    else
      var kept := Kept(clusters, minSamples);
      var other := Small(clusters, minSamples);
      if |other| > 0 then kept[Other := other] else kept
  }

  /** `__exclude_abnormaly__` on the mapping of `__cluster__`: collect the
      small clusters' members and keys in id order, delete the keys, then
      add 'other' when it is nonempty. */
  method ExcludeAbnormaly(clusters: seq<seq<int>>, minSamples: int, detection: bool)
    returns (mapping: map<ClusterKey, seq<int>>)
    ensures mapping == Excluded(clusters, minSamples, detection)
  {
    mapping := ToMap(clusters);
    if detection {
      var other, abnormalKeys := CollectSmall(clusters, minSamples);
      mapping := DeleteKeys(mapping, abnormalKeys);
      DeleteSmall(clusters, minSamples, abnormalKeys);
      if |other| > 0 {
        mapping := mapping[Other := other];
      }
    }
  }

  /** The first loop of `__exclude_abnormaly__`: the members of the small
      clusters, and their keys. */
  method CollectSmall(clusters: seq<seq<int>>, minSamples: int) returns (other: seq<int>, abnormalKeys: seq<ClusterKey>)
    ensures other == Small(clusters, minSamples)
    ensures forall key :: key in abnormalKeys <==> key.Id? && 0 <= key.id < |clusters| && |clusters[key.id]| <= minSamples
  {
    other, abnormalKeys := [], [];
    for k := 0 to |clusters|
      invariant other == Small(clusters[..k], minSamples)
      invariant forall key :: key in abnormalKeys <==> key.Id? && 0 <= key.id < k && |clusters[key.id]| <= minSamples
    {
      assert clusters[..k + 1][..k] == clusters[..k];
      if |clusters[k]| <= minSamples {
        other := other + clusters[k];
        abnormalKeys := abnormalKeys + [Id(k)];
      }
    }
    assert clusters[..|clusters|] == clusters;
  }

  /** `del m[k]` for every `k` of `keys` (each of them present). */
  method DeleteKeys(m: map<ClusterKey, seq<int>>, keys: seq<ClusterKey>) returns (r: map<ClusterKey, seq<int>>)
    ensures r == m - KeySet(keys)
  {
    r := m;
    for t := 0 to |keys|
      invariant r == m - KeySet(keys[..t])
    {
      assert keys[..t + 1] == keys[..t] + [keys[t]];
      assert KeySet(keys[..t + 1]) == KeySet(keys[..t]) + {keys[t]};
      r := r - {keys[t]};
    }
    assert keys[..|keys|] == keys;
  }

  function KeySet(keys: seq<ClusterKey>): set<ClusterKey>
  {
    set k | k in keys
  }

  /** Deleting the keys of the small clusters leaves the large ones. */
  lemma DeleteSmall(clusters: seq<seq<int>>, minSamples: int, keys: seq<ClusterKey>)
    requires forall key :: key in keys <==> key.Id? && 0 <= key.id < |clusters| && |clusters[key.id]| <= minSamples
    ensures ToMap(clusters) - KeySet(keys) == Kept(clusters, minSamples)
  {
  }

  /** The 'other' bucket holds exactly the members of the small clusters. */
  lemma {:induction false} SmallMembers(clusters: seq<seq<int>>, minSamples: int, x: int)
    ensures x in Small(clusters, minSamples) <==>
            exists k :: 0 <= k < |clusters| && |clusters[k]| <= minSamples && x in clusters[k]
  {
    if clusters != [] {
      var n := |clusters| - 1;
      SmallMembers(clusters[..n], minSamples, x);
      if x in Small(clusters, minSamples) && x !in Small(clusters[..n], minSamples) {
        assert |clusters[n]| <= minSamples && x in clusters[n];
      }
      if exists k :: 0 <= k < |clusters| && |clusters[k]| <= minSamples && x in clusters[k] {
        var k :| 0 <= k < |clusters| && |clusters[k]| <= minSamples && x in clusters[k];
        if k < n {
          assert clusters[..n][k] == clusters[k];
        }
      }
    }
  }

  /** What `__exclude_abnormaly__` keeps: with detection off, everything;
      otherwise exactly the clusters of more than `minSamples` documents,
      unchanged, plus 'other' exactly when some small cluster has a member,
      holding exactly the small clusters' members. */
  lemma ExcludedContents(clusters: seq<seq<int>>, minSamples: int, detection: bool)
    ensures var m := Excluded(clusters, minSamples, detection);
      && (forall k :: Id(k) in m <==> 0 <= k < |clusters| && (!detection || |clusters[k]| > minSamples))
      && (forall k :: Id(k) in m ==> m[Id(k)] == clusters[k])
      && (Other in m <==> detection && exists k :: 0 <= k < |clusters| && |clusters[k]| <= minSamples && |clusters[k]| > 0)
      && (forall x :: Other in m ==> (x in m[Other] <==> exists k :: 0 <= k < |clusters| && |clusters[k]| <= minSamples && x in clusters[k]))
  {
    var m := Excluded(clusters, minSamples, detection);
    forall x
      ensures x in Small(clusters, minSamples) <==>
              exists k :: 0 <= k < |clusters| && |clusters[k]| <= minSamples && x in clusters[k]
    {
      SmallMembers(clusters, minSamples, x);
    }
    if detection && exists k :: 0 <= k < |clusters| && |clusters[k]| <= minSamples && |clusters[k]| > 0 {
      var k :| 0 <= k < |clusters| && |clusters[k]| <= minSamples && |clusters[k]| > 0;
      assert clusters[k][0] in Small(clusters, minSamples);
    }
    if detection && |Small(clusters, minSamples)| > 0 {
      assert Small(clusters, minSamples)[0] in Small(clusters, minSamples);
    }
  }

  // ---------------------------------------------------------------------------
  // Labels
  // ---------------------------------------------------------------------------

  /** The label `__relabel__` writes for the members of a key. */
  function LabelOf(key: ClusterKey): int
  {
    match key
    case Id(c) => c
    case Other => -1
  }

  /** `labels[docid] = value` for every `docid` of `docids`. */
  method LabelAll(labels: array<int>, docids: seq<int>, value: int)
    requires forall x :: x in docids ==> 0 <= x < labels.Length
    modifies labels
    ensures forall d :: 0 <= d < labels.Length ==> labels[d] == if d in docids then value else old(labels[d])
  {
    for t := 0 to |docids|
      invariant forall d :: 0 <= d < labels.Length ==> labels[d] == if d in docids[..t] then value else old(labels[d])
    {
      assert docids[..t + 1] == docids[..t] + [docids[t]];
      assert docids[t] in docids;
      labels[docids[t]] := value;
    }
    assert docids[..|docids|] == docids;
  }

  /** `__relabel__`: an array of `n` zeros in which the members of cluster
      `c` get `c` and those of 'other' get -1. The keys are visited in any
      order; since no document is in two lists, the order does not matter. */
  method Relabel(mapping: map<ClusterKey, seq<int>>, n: nat) returns (labels: array<int>)
    requires forall k, d :: k in mapping && d in mapping[k] ==> 0 <= d < n
    requires forall k1, k2, d :: k1 in mapping && k2 in mapping && d in mapping[k1] && d in mapping[k2] ==> k1 == k2
    ensures fresh(labels) && labels.Length == n
    ensures forall k, d :: k in mapping && d in mapping[k] ==> labels[d] == LabelOf(k)
    ensures forall d :: 0 <= d < n && (forall k :: k in mapping ==> d !in mapping[k]) ==> labels[d] == 0
  {
    labels := new int[n](_ => 0);
    var keys := mapping.Keys;
    while keys != {}
      invariant keys <= mapping.Keys
      invariant forall k, d :: k in mapping && k !in keys && d in mapping[k] ==> labels[d] == LabelOf(k)
      invariant forall d :: 0 <= d < n && (forall k :: k in mapping && k !in keys ==> d !in mapping[k]) ==> labels[d] == 0
      decreases keys
    {
      HasKey(keys);
      var key :| key in keys;
      LabelAll(labels, mapping[key], LabelOf(key));
      keys := keys - {key};
    }
  }

  lemma HasKey(s: set<ClusterKey>)
    requires s != {}
    ensures exists x :: x in s
  {
    if forall x :: x !in s {
      assert false;
    }
  }

  /** `d` lies in some cluster of `cs`. */
  ghost predicate InSome(cs: seq<seq<int>>, d: int)
  {
    exists j :: 0 <= j < |cs| && d in cs[j]
  }

  /** Every id below `n` lies in some cluster. */
  ghost predicate Covers(cs: seq<seq<int>>, n: int)
  {
    forall d :: 0 <= d < n ==> InSome(cs, d)
  }

  /** The key under which `__exclude_abnormaly__` files cluster `j`. */
  function KeyOf(cs: seq<seq<int>>, j: int, minSamples: int, detection: bool): ClusterKey
    requires 0 <= j < |cs|
  {
    if detection && |cs[j]| <= minSamples then Other else Id(j)
  }

  /** `__cluster__` covers every document. */
  lemma GreedyCovers(score: Scores, threshold: real)
    requires Square(score)
    ensures Covers(Greedy(score, threshold, Upto(|score|)), |score|)
  {
    var n := |score|;
    var cs := Greedy(score, threshold, Upto(n));
    GreedyPartition(score, threshold, Upto(n));
    forall d | 0 <= d < n
      ensures InSome(cs, d)
    {
      assert Upto(n)[d] == d;
      assert d in multiset(Concat(cs));
      ConcatMember(cs, d);
    }
  }

  /** Every member of every cluster is below `n`. */
  predicate Within(cs: seq<seq<int>>, n: int)
  {
    forall j, d :: 0 <= j < |cs| && d in cs[j] ==> 0 <= d < n
  }

  /** What `__relabel__` needs of a mapping: ids below `n`, none under two
      keys. */
  predicate Labelable(m: map<ClusterKey, seq<int>>, n: int)
  {
    && (forall k, d :: k in m && d in m[k] ==> 0 <= d < n)
    && (forall k1, k2, d :: k1 in m && k2 in m && d in m[k1] && d in m[k2] ==> k1 == k2)
  }

  /** Each document of cluster `j` is under `KeyOf(j)` in `m`. */
  predicate FiledUnder(cs: seq<seq<int>>, m: map<ClusterKey, seq<int>>, minSamples: int, detection: bool)
  {
    forall j, d :: 0 <= j < |cs| && d in cs[j] ==>
      KeyOf(cs, j, minSamples, detection) in m && d in m[KeyOf(cs, j, minSamples, detection)]
  }

  /** The greedy clusters hold ids below the matrix size. */
  lemma GreedyWithin(score: Scores, threshold: real)
    requires Square(score)
    ensures Within(Greedy(score, threshold, Upto(|score|)), |score|)
  {
    var n := |score|;
    var cs := Greedy(score, threshold, Upto(n));
    GreedyOpened(score, threshold, Upto(n));
    forall j, d | 0 <= j < |cs| && d in cs[j]
      ensures 0 <= d < n
    {
      assert Opened(score, threshold, cs[j], Upto(n));
      InRangeMembers(cs[j], n);
    }
  }

  /** After `__exclude_abnormaly__` of disjoint clusters below `n`, the
      lists hold ids below `n`, no id is under two keys, and each document
      of cluster `j` is under `KeyOf(j)`: what `__relabel__` needs to give
      every document one label. */
  lemma ExcludedKeys(cs: seq<seq<int>>, n: int, minSamples: int, detection: bool)
    requires Within(cs, n) && Disjoint(cs)
    ensures Labelable(Excluded(cs, minSamples, detection), n)
    ensures FiledUnder(cs, Excluded(cs, minSamples, detection), minSamples, detection)
  {
    var m := Excluded(cs, minSamples, detection);
    ExcludedContents(cs, minSamples, detection);
    forall k, d | k in m && d in m[k]
      ensures exists j :: 0 <= j < |cs| && d in cs[j] && k == KeyOf(cs, j, minSamples, detection)
    {
      if k == Other {
        var j :| 0 <= j < |cs| && |cs[j]| <= minSamples && d in cs[j];
        assert k == KeyOf(cs, j, minSamples, detection);
      } else {
        assert d in cs[k.id];
      }
    }
    forall j, d | 0 <= j < |cs| && d in cs[j]
      ensures KeyOf(cs, j, minSamples, detection) in m && d in m[KeyOf(cs, j, minSamples, detection)]
    {
      if detection && |cs[j]| <= minSamples {
        assert |cs[j]| > 0;
      }
    }
  }

  // ---------------------------------------------------------------------------
  // The clusterer
  // ---------------------------------------------------------------------------

  class SparseMatrixClustering {
    var clusterSimThreshold: real
    var scoreMat: Scores
    var clusteridDocidsMapping: map<ClusterKey, seq<int>>
    var minSamples: int
    var abnormalyDetection: bool
    var labels: array<int>

    /** `min_samples` is 3 and abnormality detection is on. */
    constructor (threshold: real)
      ensures clusterSimThreshold == threshold && minSamples == 3 && abnormalyDetection
      ensures scoreMat == [] && clusteridDocidsMapping == map[] && labels.Length == 0
    {
      clusterSimThreshold := threshold;
      scoreMat := [];
      clusteridDocidsMapping := map[];
      minSamples := 3;
      abnormalyDetection := true;
      labels := new int[0];
    }

    /** `fit` on a given score matrix: cluster, fold the small clusters, and
        label. Every document lies in exactly one greedy cluster `j`, and its
        label is `j`, or -1 when detection is on and that cluster has at most
        `min_samples` documents. */
    method Fit(score: Scores)
      requires Square(score)
      modifies this
      ensures scoreMat == score && clusterSimThreshold == old(clusterSimThreshold)
      ensures minSamples == old(minSamples) && abnormalyDetection == old(abnormalyDetection)
      ensures var cs := Greedy(score, clusterSimThreshold, Upto(|score|));
        && clusteridDocidsMapping == Excluded(cs, minSamples, abnormalyDetection)
        && fresh(labels) && labels.Length == |score|
        && Covers(cs, |score|) && Disjoint(cs)
        && forall j, d :: 0 <= j < |cs| && d in cs[j] ==>
             0 <= d < labels.Length && labels[d] == LabelOf(KeyOf(cs, j, minSamples, abnormalyDetection))
    {
      scoreMat := score;
      var n := |score|;
      var cs := Cluster(score, clusterSimThreshold);
      GreedyCovers(score, clusterSimThreshold);
      GreedyDisjoint(score, clusterSimThreshold, Upto(n));
      GreedyWithin(score, clusterSimThreshold);
      var mapping := ExcludeAbnormaly(cs, minSamples, abnormalyDetection);
      ExcludedKeys(cs, n, minSamples, abnormalyDetection);
      clusteridDocidsMapping := mapping;
      labels := Relabel(mapping, n);
    }
  }
}
