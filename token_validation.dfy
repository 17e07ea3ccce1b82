/** `Evaluation.validate` (core/graph_evaluation.py): each trace loses the
    frames listed in `Constraint.VALUES`; a trace with frames left is kept,
    with its index, and a trace left empty is excluded by index. `VALUES`
    is passed in. */
module TokenValidation {

  /** `[token for token in tokens if token not in VALUES]`. */
  function ValidTokens(tokens: seq<string>, values: seq<string>): (r: seq<string>)
    ensures |r| <= |tokens|
    ensures forall t :: t in r <==> t in tokens && t !in values
  {
    if tokens == [] then []
    else (if tokens[0] in values then [] else [tokens[0]]) + ValidTokens(tokens[1..], values)
  }

  /** The filter keeps the frames in their order: filtering a concatenation
      concatenates the filtered parts. */
  lemma {:induction false} ValidTokensAppend(a: seq<string>, b: seq<string>, values: seq<string>)
    ensures ValidTokens(a + b, values) == ValidTokens(a, values) + ValidTokens(b, values)
  {
    if a != [] {
      assert (a + b)[1..] == a[1..] + b;
      ValidTokensAppend(a[1..], b, values);
    } else {
      assert a + b == b;
    }
  }

  /** A trace without constrained frames passes unchanged. */
  lemma {:induction false} ValidTokensUnconstrained(tokens: seq<string>, values: seq<string>)
    requires forall t :: t in tokens ==> t !in values
    ensures ValidTokens(tokens, values) == tokens
  {
    if tokens != [] {
      ValidTokensUnconstrained(tokens[1..], values);
    }
  }

  /** What `validate` returns for the traces `tokensList`. */
  function Validated(tokensList: seq<seq<string>>, values: seq<string>): (seq<seq<string>>, seq<int>, seq<int>)
  {
    if tokensList == [] then ([], [], [])
    else
      var n := |tokensList| - 1;
      var prev := Validated(tokensList[..n], values);
      var valid := ValidTokens(tokensList[n], values);
      if |valid| > 0 then (prev.0 + [valid], prev.1 + [n], prev.2) else (prev.0, prev.1, prev.2 + [n])
  }

  predicate Increasing(xs: seq<int>)
  {
    forall i, j :: 0 <= i < j < |xs| ==> xs[i] < xs[j]
  }

  /** Every constrained frame of a trace is in `VALUES`. */
  predicate AllConstrained(tokens: seq<string>, values: seq<string>)
  {
    forall t :: t in tokens ==> t in values
  }

  /** One filtered trace per kept index, none of them empty. */
  ghost predicate KeptShape(tokensList: seq<seq<string>>, values: seq<string>, r: (seq<seq<string>>, seq<int>, seq<int>))
  {
    && |r.0| == |r.1|
    && forall k :: 0 <= k < |r.1| ==>
         0 <= r.1[k] < |tokensList| && r.0[k] == ValidTokens(tokensList[r.1[k]], values) && |r.0[k]| > 0
  }

  /** Kept and excluded indices ascend, lie below `n`, and each index below
      `n` is on exactly one side. */
  ghost predicate IndexShape(n: int, r: (seq<seq<string>>, seq<int>, seq<int>))
  {
    Partition(n, r.1, r.2)
  }

  /** `kept` and `excluded` ascend, lie below `n` and split `0..n-1`. */
  ghost predicate Partition(n: int, kept: seq<int>, excluded: seq<int>)
  {
    && Increasing(kept) && Increasing(excluded)
    && (forall k :: 0 <= k < |kept| ==> 0 <= kept[k] < n)
    && (forall k :: 0 <= k < |excluded| ==> 0 <= excluded[k] < n)
    && (forall i :: 0 <= i < n ==> (i in kept <==> i !in excluded))
  }

  /** An index is excluded exactly when all its frames are constrained. */
  ghost predicate ExcludedShape(tokensList: seq<seq<string>>, values: seq<string>, r: (seq<seq<string>>, seq<int>, seq<int>))
  {
    forall i :: 0 <= i < |tokensList| ==> (i in r.2 <==> AllConstrained(tokensList[i], values))
  }

  /** The shape of `validate`'s result. */
  ghost predicate ValidatedShape(tokensList: seq<seq<string>>, values: seq<string>, r: (seq<seq<string>>, seq<int>, seq<int>))
  {
    KeptShape(tokensList, values, r) && IndexShape(|tokensList|, r) && ExcludedShape(tokensList, values, r)
  }

  /** An empty filtered trace is one whose every frame is constrained. */
  lemma ValidTokensEmpty(tokens: seq<string>, values: seq<string>)
    ensures |ValidTokens(tokens, values)| == 0 <==> AllConstrained(tokens, values)
  {
    var v := ValidTokens(tokens, values);
    if |v| > 0 {
      assert v[0] in v;
    }
  }

  lemma {:induction false} ValidatedKept(tokensList: seq<seq<string>>, values: seq<string>)
    ensures KeptShape(tokensList, values, Validated(tokensList, values))
  {
    if tokensList != [] {
      var n := |tokensList| - 1;
      ValidatedKept(tokensList[..n], values);
      assert forall i :: 0 <= i < n ==> tokensList[..n][i] == tokensList[i];
    }
  }

  lemma {:induction false} ValidatedIndices(tokensList: seq<seq<string>>, values: seq<string>)
    ensures IndexShape(|tokensList|, Validated(tokensList, values))
  {
    if tokensList != [] {
      var n := |tokensList| - 1;
      ValidatedIndices(tokensList[..n], values);
      var prev := Validated(tokensList[..n], values);
      PartitionSnoc(n, prev.1, prev.2);
      PartitionSnoc(n, prev.2, prev.1);
      PartitionSymmetric(n + 1, prev.2 + [n], prev.1);
    }
  }

  lemma PartitionSymmetric(n: int, kept: seq<int>, excluded: seq<int>)
    requires Partition(n, kept, excluded)
    ensures Partition(n, excluded, kept)
  {
  }

  /** Placing index `n` on the first side keeps the shape of the indices
      below it. */
  lemma PartitionSnoc(n: nat, kept: seq<int>, excluded: seq<int>)
    requires Partition(n, kept, excluded)
    ensures Partition(n + 1, kept + [n], excluded)
  {
    assert forall k :: 0 <= k < |kept| ==> kept[k] in kept;
    assert forall k :: 0 <= k < |excluded| ==> excluded[k] in excluded;
    assert n !in kept && n !in excluded;
  }

  lemma {:induction false} ValidatedExcluded(tokensList: seq<seq<string>>, values: seq<string>)
    ensures ExcludedShape(tokensList, values, Validated(tokensList, values))
  {
    if tokensList != [] {
      var n := |tokensList| - 1;
      ValidatedExcluded(tokensList[..n], values);
      ValidatedIndices(tokensList[..n], values);
      ValidTokensEmpty(tokensList[n], values);
      var prev := Validated(tokensList[..n], values);
      assert forall i :: 0 <= i < n ==> tokensList[..n][i] == tokensList[i];
      assert n !in prev.2;
    }
  }

  /** Every trace is either kept or excluded. */
  lemma {:induction false} ValidatedCount(tokensList: seq<seq<string>>, values: seq<string>)
    ensures |Validated(tokensList, values).0| == |Validated(tokensList, values).1|
    ensures |Validated(tokensList, values).1| + |Validated(tokensList, values).2| == |tokensList|
  {
    if tokensList != [] {
      ValidatedCount(tokensList[..|tokensList| - 1], values);
    }
  }

  lemma ValidatedIsShaped(tokensList: seq<seq<string>>, values: seq<string>)
    ensures ValidatedShape(tokensList, values, Validated(tokensList, values))
  {
    ValidatedKept(tokensList, values);
    ValidatedIndices(tokensList, values);
    ValidatedExcluded(tokensList, values);
  }

  /** `validate`: the loop over `enumerate(tokens_list)`. */
  method Validate(tokensList: seq<seq<string>>, values: seq<string>)
    returns (result: seq<seq<string>>, resultIndices: seq<int>, exclude: seq<int>)
    ensures (result, resultIndices, exclude) == Validated(tokensList, values)
    ensures ValidatedShape(tokensList, values, (result, resultIndices, exclude))
  {
    result, resultIndices, exclude := [], [], [];
    for i := 0 to |tokensList|
      invariant (result, resultIndices, exclude) == Validated(tokensList[..i], values)
    {
      assert tokensList[..i + 1][..i] == tokensList[..i];
      var validTokens := ValidTokens(tokensList[i], values);
      if |validTokens| > 0 {
        resultIndices := resultIndices + [i];
        result := result + [validTokens];
      } else {
        exclude := exclude + [i];
      }
    }
    assert tokensList[..|tokensList|] == tokensList;
    ValidatedIsShaped(tokensList, values);
  }
}
