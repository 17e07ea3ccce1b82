/** `PerformanceSaver` (graph/viz/graph_render.py): before a graph is drawn,
    the lightest frames are marked for removal so that at most
    `STANDARD_MAX_NODES` remain (300, 500 or 1000 by the requested response
    time), extended over ties of weight up to a bound; `filter` then drops
    them from the drawn graph and its layout. */
module GraphRender {
  import opened Wrappers
  import opened GraphPool
  import GraphManagers
  import GraphSaver

  const MaxShort: int := 300
  const MaxMedium: int := 500
  const MaxLong: int := 1000
  const MinLostInformation: int := 100

  /** The only values the class attribute `STANDARD_MAX_NODES` takes. */
  predicate ValidLimit(m: Option<int>)
  {
    m.None? || m.value == MaxShort || m.value == MaxMedium || m.value == MaxLong
  }

  /** The class attribute `STANDARD_MAX_NODES`, shared by every
      `PerformanceSaver`: None until some `validate` sets it. */
  class RenderLimits {
    var standardMaxNodes: Option<int>

    ghost predicate Valid()
      reads this
    {
      ValidLimit(standardMaxNodes)
    }

    constructor ()
      ensures standardMaxNodes.None? && Valid()
    {
      standardMaxNodes := None;
    }
  }

  // ---------------------------------------------------------------------------
  // token_counter_map
  // ---------------------------------------------------------------------------

  /** `{node.name: node.weight for hash_id, node in pool.items()}` with the
      pool visited in `order`: a later node of the same name overwrites the
      weight. */
  function TokenCounter(pool: Pool, order: seq<string>): map<string, int>
    requires forall i :: 0 <= i < |order| ==> order[i] in pool
  {
    if order == [] then map[]
    else
      var n := |order| - 1;
      var node := pool[order[n]];
      assert forall i :: 0 <= i < n ==> order[..n][i] == order[i];
      TokenCounter(pool, order[..n])[node.name := node.weight]
  }

  /** The keys of the token map in the dictionary's order: each name where
      it was first inserted. */
  function TokenOrder(pool: Pool, order: seq<string>): seq<string>
    requires forall i :: 0 <= i < |order| ==> order[i] in pool
  {
    if order == [] then []
    else
      var n := |order| - 1;
      var name := pool[order[n]].name;
      assert forall i :: 0 <= i < n ==> order[..n][i] == order[i];
      var prev := TokenOrder(pool, order[..n]);
      if name in prev then prev else prev + [name]
  }

  /** The key order lists every key of the token map once. */
  lemma {:induction false} TokenOrderKeys(pool: Pool, order: seq<string>)
    requires forall i :: 0 <= i < |order| ==> order[i] in pool
    ensures Distinct(TokenOrder(pool, order))
    ensures forall x :: x in TokenOrder(pool, order) <==> x in TokenCounter(pool, order)
  {
    if order != [] {
      var n := |order| - 1;
      assert forall i :: 0 <= i < n ==> order[..n][i] == order[i];
      TokenOrderKeys(pool, order[..n]);
    }
  }

  /** `token_counter_map.items()`. */
  function TokenItems(pool: Pool, order: seq<string>): seq<(string, int)>
    requires forall i :: 0 <= i < |order| ==> order[i] in pool
  {
    TokenOrderKeys(pool, order);
    var names := TokenOrder(pool, order);
    var m := TokenCounter(pool, order);
    seq(|names|, i requires 0 <= i < |names| => (names[i], m[names[i]]))
  }

  /** The weight of the node that was visited last under `name`. */
  function LastWeight(pool: Pool, order: seq<string>, name: string): Option<int>
    requires forall i :: 0 <= i < |order| ==> order[i] in pool
  {
    if order == [] then None
    else if pool[order[|order| - 1]].name == name then Some(pool[order[|order| - 1]].weight)
    else LastWeight(pool, order[..|order| - 1], name)
  }

  /** The token map has one entry per distinct node name, holding the weight
      of the last node of that name; the items list every entry once, so
      `num_total_tokens` is the number of items. */
  lemma {:induction false} TokenCounterLastWins(pool: Pool, order: seq<string>)
    requires forall i :: 0 <= i < |order| ==> order[i] in pool
    ensures forall n :: n in TokenCounter(pool, order) <==> LastWeight(pool, order, n).Some?
    ensures forall n :: n in TokenCounter(pool, order) ==> TokenCounter(pool, order)[n] == LastWeight(pool, order, n).value
    ensures |TokenCounter(pool, order).Keys| == |TokenItems(pool, order)|
  {
    if order != [] {
      var n := |order| - 1;
      TokenCounterLastWins(pool, order[..n]);
      assert forall i :: 0 <= i < n ==> order[..n][i] == order[i];
    }
    var names := TokenOrder(pool, order);
    TokenOrderKeys(pool, order);
    GraphSaver.DistinctCard(names);
    assert (set x | x in names) == TokenCounter(pool, order).Keys;
  }

  // ---------------------------------------------------------------------------
  // sorted(..., key=weight)
  // ---------------------------------------------------------------------------

  predicate AscendingWeights(s: seq<(string, int)>)
  {
    forall i, j :: 0 <= i < j < |s| ==> s[i].1 <= s[j].1
  }

  function Weights(s: seq<(string, int)>): (ws: seq<int>)
    ensures |ws| == |s|
  {
    seq(|s|, i requires 0 <= i < |s| => s[i].1)
  }

  /** Puts `x` after every entry of `s` that is not heavier. */
  function InsertByWeight(x: (string, int), s: seq<(string, int)>): (r: seq<(string, int)>)
    ensures multiset(r) == multiset(s) + multiset{x}
    ensures |r| == |s| + 1
  {
    if s == [] then [x]
    else if x.1 < s[0].1 then [x] + s
    else
      assert s == [s[0]] + s[1..];
      [s[0]] + InsertByWeight(x, s[1..])
  }

  /** Inserting into a sorted list keeps it sorted. */
  lemma {:induction false} InsertAscending(x: (string, int), s: seq<(string, int)>)
    requires AscendingWeights(s)
    ensures AscendingWeights(InsertByWeight(x, s))
  {
    if s != [] && x.1 >= s[0].1 {
      var rest := InsertByWeight(x, s[1..]);
      InsertAscending(x, s[1..]);
      forall j | 0 <= j < |rest|
        ensures s[0].1 <= rest[j].1
      {
        assert rest[j] in multiset(rest);
        if rest[j] != x {
          assert rest[j] in multiset(s[1..]);
        }
      }
    }
  }

  /** `sorted(items, key=lambda x: x[1])`: the same items by ascending weight. */
  function SortByWeight(items: seq<(string, int)>): (r: seq<(string, int)>)
    ensures AscendingWeights(r)
    ensures multiset(r) == multiset(items)
    ensures |r| == |items|
  {
    if items == [] then []
    else
      var n := |items| - 1;
      assert items == items[..n] + [items[n]];
      var prev := SortByWeight(items[..n]);
      InsertAscending(items[n], prev);
      InsertByWeight(items[n], prev)
  }

  // ---------------------------------------------------------------------------
  // The cut
  // ---------------------------------------------------------------------------

  /** Lines 40-47: starting at `pivot`, the cut moves right while the
      weights at `pivot` and `pivot + 1` agree, until it passes 100. */
  function CutAsWritten(ws: seq<int>, pivot: nat): (c: nat)
    requires pivot + 1 < |ws| && (pivot <= MinLostInformation ==> MinLostInformation + 2 < |ws|)
    ensures pivot <= c < |ws| - 1
    decreases if pivot <= MinLostInformation then MinLostInformation + 1 - pivot else 0
  {
    if ws[pivot] != ws[pivot + 1] then pivot
    else if pivot > MinLostInformation then pivot
    else CutAsWritten(ws, pivot + 1)
  }

  /** Over ascending weights the cut removes at least `pivot` and at most
      max(`pivot`, 101) entries; it only moves across entries of the weight
      at `pivot`; and unless it stopped at the bound, the first kept entry is
      lighter than every entry after it. */
  lemma {:induction false} CutAsWrittenBounds(ws: seq<int>, pivot: nat)
    requires pivot + 1 < |ws| && (pivot <= MinLostInformation ==> MinLostInformation + 2 < |ws|)
    requires forall i, j :: 0 <= i < j < |ws| ==> ws[i] <= ws[j]
    ensures var c := CutAsWritten(ws, pivot);
      && pivot <= c < |ws| - 1
      && c <= (if pivot > MinLostInformation + 1 then pivot else MinLostInformation + 1)
      && (forall j :: pivot <= j <= c ==> ws[j] == ws[pivot])
      && (c <= MinLostInformation ==> forall j :: c < j < |ws| ==> ws[c] < ws[j])
    decreases if pivot <= MinLostInformation then MinLostInformation + 1 - pivot else 0
  {
    if ws[pivot] == ws[pivot + 1] && pivot <= MinLostInformation {
      CutAsWrittenBounds(ws, pivot + 1);
    }
  }

  /** The loop compares the first kept weight with the next one, not with
      the last removed weight, so it can keep a frame as light as a removed
      one without reaching the bound: with 301 frames of weights 1, 1, 2,
      ..., 2 and room for 300, it removes one frame of weight 1 and keeps
      the other. */
  lemma CutAsWrittenSplitsTie()
    ensures var ws := [1, 1] + seq(299, _ => 2);
      && |ws| == 301
      && CutAsWritten(ws, 1) == 1 && ws[0] == ws[1]
  {
    var ws := [1, 1] + seq(299, _ => 2);
    assert ws[0] == 1 && ws[1] == 1 && ws[2] == 2;
  }

  /** `remove_node_names` of a graph of `total` tokens with limit `max`: a
      prefix of the sorted items, at least the excess and at most
      max(excess, 101) long, extended from the excess only over items of
      equal weight, never heavier than a kept item, and, unless the bound
      stopped it, followed by a kept item lighter than every later one. */
  ghost predicate RemovedPrefix(items: seq<(string, int)>, max: int, removed: seq<(string, int)>)
  {
    var sorted := SortByWeight(items);
    var excess := |items| - max;
    && removed <= sorted
    && 0 <= excess <= |removed| < |sorted| - 1
    && |removed| <= (if excess > MinLostInformation + 1 then excess else MinLostInformation + 1)
    && (forall j :: excess <= j <= |removed| ==> sorted[j].1 == sorted[excess].1)
    && (forall i, j :: 0 <= i < |removed| <= j < |sorted| ==> sorted[i].1 <= sorted[j].1)
    && (|removed| <= MinLostInformation ==> forall j :: |removed| < j < |sorted| ==> sorted[|removed|].1 < sorted[j].1)
  }

  /** Lines 40-47 of `validate`: the tie-extension loop over the sorted
      items. */
  method PivotCutting(sorted: seq<(string, int)>, numLeftover: nat) returns (pivot: nat)
    requires numLeftover + 1 < |sorted| && (numLeftover <= MinLostInformation ==> MinLostInformation + 2 < |sorted|)
    ensures pivot == CutAsWritten(Weights(sorted), numLeftover)
  {
    ghost var ws := Weights(sorted);
    pivot := numLeftover;
    while sorted[pivot].1 == sorted[pivot + 1].1
      invariant numLeftover <= pivot && pivot + 1 < |sorted|
      invariant pivot <= MinLostInformation + 1 || pivot == numLeftover
      invariant CutAsWritten(ws, pivot) == CutAsWritten(ws, numLeftover)
      decreases if pivot <= MinLostInformation then MinLostInformation + 1 - pivot else 0
    {
      if pivot > MinLostInformation {
        break;
      }
      pivot := pivot + 1;
    }
  }

  /** The cut of the sorted items is a `RemovedPrefix`. */
  lemma CutRemovesPrefix(items: seq<(string, int)>, max: int)
    requires ValidLimit(Some(max)) && |items| > max
    ensures var sorted := SortByWeight(items);
      RemovedPrefix(items, max, sorted[..CutAsWritten(Weights(sorted), |items| - max)])
  {
    var sorted := SortByWeight(items);
    var ws := Weights(sorted);
    assert forall i :: 0 <= i < |ws| ==> ws[i] == sorted[i].1;
    CutAsWrittenBounds(ws, |items| - max);
    var c := CutAsWritten(ws, |items| - max);
    var removed := sorted[..c];
    assert |removed| == c;
    assert forall i :: 0 <= i < |removed| ==> removed[i] == sorted[i];
  }

  /** Lines 38-48 of `validate`: sort the items by weight and cut off the
      lightest, at least as many as exceed `max`. */
  method Lightest(items: seq<(string, int)>, max: int) returns (removed: seq<(string, int)>)
    requires ValidLimit(Some(max)) && |items| > max
    ensures removed == SortByWeight(items)[..CutAsWritten(Weights(SortByWeight(items)), |items| - max)]
    ensures RemovedPrefix(items, max, removed)
  {
    var descOrderedTokens := SortByWeight(items);
    var numLeftover := |items| - max;
    numLeftover := PivotCutting(descOrderedTokens, numLeftover);
    removed := descOrderedTokens[..numLeftover];
    CutRemovesPrefix(items, max);
  }

  /** Lines 37-47 of `validate`: above the limit the lightest items replace
      `before`; otherwise it is kept. */
  method MarkLightest(items: seq<(string, int)>, max: int, before: seq<(string, int)>) returns (after: seq<(string, int)>)
    requires ValidLimit(Some(max))
    ensures Marked(items, max, before, after)
  {
    after := before;
    var numTotalTokens := |items|;
    if numTotalTokens > max {
      after := Lightest(items, max);
    }
  }

  /** What `validate` leaves in `remove_node_names` (`after`, formerly
      `before`) for the token items `items` under the limit `max`. */
  ghost predicate Marked(items: seq<(string, int)>, max: int, before: seq<(string, int)>, after: seq<(string, int)>)
  {
    if |items| <= max then after == before
    else
      && ValidLimit(Some(max))
      && after == SortByWeight(items)[..CutAsWritten(Weights(SortByWeight(items)), |items| - max)]
      && RemovedPrefix(items, max, after)
  }

  class PerformanceSaver {
    const graphManager: GraphManagers.GraphManager
    var responseTime: string
    var edgeProperty: map<string, bool>
    var removeNodeNames: seq<(string, int)>

    /** Lines 15-19 of `__init__`: the fields before `validate` runs. */
    constructor (graphManager: GraphManagers.GraphManager, responseTime: string)
      ensures this.graphManager == graphManager && this.responseTime == responseTime
      ensures edgeProperty == map[] && removeNodeNames == []
    {
      this.graphManager := graphManager;
      this.responseTime := responseTime;
      edgeProperty := map[];
      removeNodeNames := [];
    }

    method LoadShortTimeResponseProperty()
      modifies this
      ensures edgeProperty == old(edgeProperty)["plot" := false]
      ensures responseTime == old(responseTime) && removeNodeNames == old(removeNodeNames)
    {
      edgeProperty := edgeProperty["plot" := false];
    }

    method LoadMediumTimeResponseProperty()
      modifies this
      ensures edgeProperty == old(edgeProperty)["plot" := false]
      ensures responseTime == old(responseTime) && removeNodeNames == old(removeNodeNames)
    {
      edgeProperty := edgeProperty["plot" := false];
    }

    method LoadLongTimeResponseProperty()
      modifies this
      ensures edgeProperty == old(edgeProperty)["plot" := true]
      ensures responseTime == old(responseTime) && removeNodeNames == old(removeNodeNames)
    {
      edgeProperty := edgeProperty["plot" := true];
    }

    /** Lines 27-35 of `validate`: the response time sets the shared limit
        and the `plot` edge property; an unknown one changes neither. */
    method ApplyResponseTime(limits: RenderLimits)
      requires limits.Valid()
      modifies this, limits
      ensures limits.Valid() && responseTime == old(responseTime) && removeNodeNames == old(removeNodeNames)
      ensures responseTime == "short" ==> limits.standardMaxNodes == Some(MaxShort) && edgeProperty == old(edgeProperty)["plot" := false]
      ensures responseTime == "medium" ==> limits.standardMaxNodes == Some(MaxMedium) && edgeProperty == old(edgeProperty)["plot" := false]
      ensures responseTime == "long" ==> limits.standardMaxNodes == Some(MaxLong) && edgeProperty == old(edgeProperty)["plot" := true]
      ensures responseTime != "short" && responseTime != "medium" && responseTime != "long" ==>
        limits.standardMaxNodes == old(limits.standardMaxNodes) && edgeProperty == old(edgeProperty)
    {
      if responseTime == "short" {
        limits.standardMaxNodes := Some(MaxShort);
        LoadShortTimeResponseProperty();
      } else if responseTime == "medium" {
        limits.standardMaxNodes := Some(MaxMedium);
        LoadMediumTimeResponseProperty();
      } else if responseTime == "long" {
        limits.standardMaxNodes := Some(MaxLong);
        LoadLongTimeResponseProperty();
      }
    }

    /** `validate`, with the node pool visited in `order`. The response time
        sets the shared limit and the `plot` edge property; an unknown one
        keeps whatever limit an earlier saver set, and comparing with no
        limit at all is a TypeError. Above the limit, `remove_node_names`
        becomes the lightest items, at least as many as the excess. */
    method Validate(limits: RenderLimits, order: seq<string>) returns (r: Result<()>)
      requires limits.Valid()
      requires GraphSaver.Enumerates(order, graphManager.nodeManager.pool)
      modifies this, limits
      ensures limits.Valid() && responseTime == old(responseTime)
      ensures responseTime == "short" ==> limits.standardMaxNodes == Some(MaxShort) && edgeProperty == old(edgeProperty)["plot" := false]
      ensures responseTime == "medium" ==> limits.standardMaxNodes == Some(MaxMedium) && edgeProperty == old(edgeProperty)["plot" := false]
      ensures responseTime == "long" ==> limits.standardMaxNodes == Some(MaxLong) && edgeProperty == old(edgeProperty)["plot" := true]
      ensures responseTime != "short" && responseTime != "medium" && responseTime != "long" ==>
        limits.standardMaxNodes == old(limits.standardMaxNodes) && edgeProperty == old(edgeProperty)
      ensures r.Err? <==> limits.standardMaxNodes.None?
      ensures r.Err? ==> r.error == TypeError && removeNodeNames == old(removeNodeNames)
      ensures r.Ok? ==> Marked(TokenItems(graphManager.nodeManager.pool, order), limits.standardMaxNodes.value,
                               old(removeNodeNames), removeNodeNames)
    {
      var items := TokenItems(graphManager.nodeManager.pool, order);
      ApplyResponseTime(limits);
      if limits.standardMaxNodes.None? {
        return Err(TypeError);
      }
      var max := limits.standardMaxNodes.value;
      removeNodeNames := MarkLightest(items, max, removeNodeNames);
      return Ok(());
    }

    /** `PerformanceSaver(graph_manager, response_time)`: the fields of the
        constructor, then `validate`, whose TypeError escapes the
        construction. */
    static method Create(limits: RenderLimits, graphManager: GraphManagers.GraphManager, responseTime: string,
                         order: seq<string>)
      returns (r: Result<PerformanceSaver>)
      requires limits.Valid()
      requires GraphSaver.Enumerates(order, graphManager.nodeManager.pool)
      modifies limits
      ensures limits.Valid()
      ensures r.Err? <==> limits.standardMaxNodes.None?
      ensures r.Ok? ==> fresh(r.value) && r.value.graphManager == graphManager && r.value.responseTime == responseTime
      ensures r.Ok? ==> Marked(TokenItems(graphManager.nodeManager.pool, order), limits.standardMaxNodes.value,
                               [], r.value.removeNodeNames)
    {
      var saver := new PerformanceSaver(graphManager, responseTime);
      var validated := saver.Validate(limits, order);
      if validated.Err? {
        return Err(validated.error);
      }
      return Ok(saver);
    }

    /** The names of the items marked for removal. */
    function RemovedNames(): (names: set<string>)
      reads this
      ensures forall i :: 0 <= i < |removeNodeNames| ==> removeNodeNames[i].0 in names
    {
      set i | 0 <= i < |removeNodeNames| :: removeNodeNames[i].0
    }

    /** `filter`: drops the removed names from the graph (missing ones are
        ignored) and from the layout `position`, where a missing or repeated
        name is a KeyError; the sizes of the two must then agree, or the
        assertion fails. The graph and layout are returned. */
    method Filter<P>(graph: set<string>, position: map<string, P>) returns (r: Result<(set<string>, map<string, P>)>)
      ensures r.Ok? <==> AllDeletable(removeNodeNames, position) && |graph - RemovedNames()| == |(position - RemovedNames()).Keys|
      ensures r.Ok? ==> r.value == (graph - RemovedNames(), position - RemovedNames())
      ensures r.Err? && !AllDeletable(removeNodeNames, position) ==> r.error.KeyError?
      ensures r.Err? && AllDeletable(removeNodeNames, position) ==> r.error.AssertionError?
    {
      var names := RemovedNames();
      var g := graph - names;
      var pos := position;
      for i := 0 to |removeNodeNames|
        invariant AllDeletable(removeNodeNames[..i], position)
        invariant pos == position - NameSet(removeNodeNames[..i])
      {
        var name := removeNodeNames[i].0;
        assert removeNodeNames[..i + 1] == removeNodeNames[..i] + [removeNodeNames[i]];
        if name !in pos {
          DeletableExtend(removeNodeNames, position, i);
          return Err(KeyError(name));
        }
        pos := map k | k in pos && k != name :: pos[k];
      }
      assert removeNodeNames[..|removeNodeNames|] == removeNodeNames;
      assert NameSet(removeNodeNames) == names;
      if |g| != |pos.Keys| {
        return Err(AssertionError("Mismatched between Graph length and Position length"));
      }
      return Ok((g, pos));
    }
  }

  function NameSet(items: seq<(string, int)>): set<string>
  {
    set i | 0 <= i < |items| :: items[i].0
  }

  /** Deleting the names of `items` one by one from `position` never misses:
      each is present and none repeats. */
  predicate AllDeletable<P>(items: seq<(string, int)>, position: map<string, P>)
  {
    forall i :: 0 <= i < |items| ==> items[i].0 in position && forall j :: 0 <= j < i ==> items[j].0 != items[i].0
  }

  /** A prefix that deletes cleanly followed by a name that is missing (or
      already deleted) does not delete cleanly, nor does anything that
      extends it. */
  lemma DeletableExtend<P>(items: seq<(string, int)>, position: map<string, P>, i: nat)
    requires i < |items| && AllDeletable(items[..i], position)
    requires items[i].0 !in position - NameSet(items[..i])
    ensures !AllDeletable(items, position)
  {
    if items[i].0 in position {
      var j :| 0 <= j < i && items[..i][j].0 == items[i].0;
    }
  }

  /** When the layout covers exactly the graph's nodes, removing names that
      are all in it keeps the two sizes equal, so `filter`'s assertion holds. */
  lemma FilterKeepsAgreement<P>(graph: set<string>, position: map<string, P>, names: set<string>)
    requires position.Keys == graph
    ensures |graph - names| == |(position - names).Keys|
  {
    assert (position - names).Keys == graph - names;
  }
}
