/** The out-of-core greedy clusterer of bigdata/core/bigdata.py. The HDF5
    files are maps from the node paths the code builds to the arrays stored
    there; block scores come from a similarity on membership rows that is a
    parameter (cosine similarity in the source). Lists the source takes from
    sets are built in whatever order the set yields. */
module BigData {
  import opened Wrappers
  import opened Strings
  import opened GraphPool

  // ---------------------------------------------------------------------------
  // Node paths
  // ---------------------------------------------------------------------------

  function ChunkName(i: nat): string
  {
    "chunk_" + NatToString(i)
  }

  /** The two paths `write_into_file` returns for chunk `i`. */
  function UuidKey(i: nat): string
  {
    "/uuid/" + ChunkName(i)
  }

  function DataKey(i: nat): string
  {
    "/data/" + ChunkName(i)
  }

  /** `'/gmat_{i}'` and its child `'sub_mat_{j}'`, as `write_to_coord_x_y`
      stores them. */
  function BlockKey(i: nat, j: nat): string
  {
    "/gmat_" + NatToString(i) + "/sub_mat_" + NatToString(j)
  }

  lemma PrefixCancel(p: string, x: string, y: string)
    requires p + x == p + y
    ensures x == y
  {
    assert x == (p + x)[|p|..];
  }

  /** Different chunk indices never share a path. */
  lemma ChunkKeysInjective(i: nat, j: nat)
    ensures UuidKey(i) == UuidKey(j) ==> i == j
    ensures DataKey(i) == DataKey(j) ==> i == j
    ensures UuidKey(i) != DataKey(j)
  {
    assert UuidKey(i)[1] == 'u' && DataKey(j)[1] == 'd';
    if UuidKey(i) == UuidKey(j) {
      assert UuidKey(i) == "/uuid/chunk_" + NatToString(i) && UuidKey(j) == "/uuid/chunk_" + NatToString(j);
      PrefixCancel("/uuid/chunk_", NatToString(i), NatToString(j));
      NatToStringInjective(i, j);
    }
    if DataKey(i) == DataKey(j) {
      assert DataKey(i) == "/data/chunk_" + NatToString(i) && DataKey(j) == "/data/chunk_" + NatToString(j);
      PrefixCancel("/data/chunk_", NatToString(i), NatToString(j));
      NatToStringInjective(i, j);
    }
  }

  /** Every ordered pair of chunks has its own block path: N² blocks. */
  lemma BlockKeyInjective(i: nat, j: nat, i': nat, j': nat)
    requires BlockKey(i, j) == BlockKey(i', j')
    ensures i == i' && j == j'
  {
    var a, b, a', b' := NatToString(i), NatToString(j), NatToString(i'), NatToString(j');
    assert BlockKey(i, j) == "/gmat_" + (a + ['/'] + ("sub_mat_" + b));
    assert BlockKey(i', j') == "/gmat_" + (a' + ['/'] + ("sub_mat_" + b'));
    PrefixCancel("/gmat_", a + ['/'] + ("sub_mat_" + b), a' + ['/'] + ("sub_mat_" + b'));
    NatToStringIsDigits(i);
    NatToStringIsDigits(i');
    SplitAtFirst(a, "sub_mat_" + b, a', "sub_mat_" + b', '/');
    PrefixCancel("sub_mat_", b, b');
    NatToStringInjective(i, i');
    NatToStringInjective(j, j');
  }

  // ---------------------------------------------------------------------------
  // Matrices
  // ---------------------------------------------------------------------------

  /** The similarity of two membership rows. */
  type Similarity = (seq<int>, seq<int>) -> real

  /** A stored block of scores: its rows and its number of columns. */
  datatype Block = Block(rows: seq<seq<real>>, cols: nat)

  /** `doc_doc_similarity(a, b.T)`: the score of every row of `a` against
      every row of `b`. */
  function BlockOf(sim: Similarity, a: seq<seq<int>>, b: seq<seq<int>>): (r: Block)
    ensures |r.rows| == |a| && r.cols == |b| && forall k :: 0 <= k < |a| ==> |r.rows[k]| == |b|
  {
    Block(seq(|a|, k requires 0 <= k < |a| => seq(|b|, c requires 0 <= c < |b| => sim(a[k], b[c]))), |b|)
  }

  predicate ZeroRow(row: seq<int>)
  {
    forall c :: 0 <= c < |row| ==> row[c] == 0
  }

  /** Some row of the matrix has norm 0, which fails the denominator
      assertion of `doc_doc_similarity`. */
  predicate HasZeroRow(m: seq<seq<int>>)
  {
    exists r :: 0 <= r < |m| && ZeroRow(m[r])
  }

  /** A chunk on which `doc_doc_similarity` raises: an empty chunk is stored
      as a one-dimensional array, whose missing second dimension is an
      IndexError, and a row of norm 0 fails the denominator assertion. */
  predicate Degenerate(m: seq<seq<int>>)
  {
    |m| == 0 || HasZeroRow(m)
  }

  predicate AnyDegenerate(chunks: seq<seq<seq<int>>>)
  {
    exists i :: 0 <= i < |chunks| && Degenerate(chunks[i])
  }

  /** Number of documents in the chunks before chunk `i`. */
  function Offset(chunks: seq<seq<seq<int>>>, i: nat): nat
    requires i <= |chunks|
  {
    if i == 0 then 0 else Offset(chunks, i - 1) + |chunks[i - 1]|
  }

  function Total(chunks: seq<seq<seq<int>>>): nat
  {
    Offset(chunks, |chunks|)
  }

  /** The membership row of document `d` among the chunks before `n`: row
      `d - Offset(j)` of the chunk `j` that holds it. */
  function DocRow(chunks: seq<seq<seq<int>>>, n: nat, d: int): seq<int>
    requires n <= |chunks| && 0 <= d < Offset(chunks, n)
    decreases n
  {
    if d >= Offset(chunks, n - 1) then chunks[n - 1][d - Offset(chunks, n - 1)] else DocRow(chunks, n - 1, d)
  }

  /** The membership row of document `d` of the whole collection. */
  function Doc(chunks: seq<seq<seq<int>>>, d: int): seq<int>
    requires 0 <= d < Total(chunks)
  {
    DocRow(chunks, |chunks|, d)
  }

  /** The scores of document `p` against every document of the collection. */
  function ScoreRow(sim: Similarity, chunks: seq<seq<seq<int>>>, p: int): (row: seq<real>)
    requires 0 <= p < Total(chunks)
    ensures |row| == Total(chunks)
  {
    seq(Total(chunks), x requires 0 <= x < Total(chunks) => sim(Doc(chunks, p), Doc(chunks, x)))
  }

  /** Documents `p` and `x` exist and `x` scores at least `threshold`
      against `p`. */
  predicate Scored(sim: Similarity, chunks: seq<seq<seq<int>>>, p: int, x: int, threshold: real)
  {
    0 <= p < Total(chunks) && 0 <= x < Total(chunks) && sim(Doc(chunks, p), Doc(chunks, x)) >= threshold
  }

  /** Every block of every ordered chunk pair is stored with its shape. */
  predicate Shaped(blocks: map<string, Block>, chunks: seq<seq<seq<int>>>)
  {
    forall i, j :: 0 <= i < |chunks| && 0 <= j < |chunks| ==>
      && BlockKey(i, j) in blocks
      && |blocks[BlockKey(i, j)].rows| == |chunks[i]|
      && blocks[BlockKey(i, j)].cols == |chunks[j]|
      && forall r :: 0 <= r < |chunks[i]| ==> |blocks[BlockKey(i, j)].rows[r]| == |chunks[j]|
  }

  // ---------------------------------------------------------------------------
  // Clusters
  // ---------------------------------------------------------------------------

  function Elems(xs: seq<int>): set<int>
  {
    set x | x in xs
  }

  /** `range(lo, hi)` as a set. */
  function Range(lo: int, hi: int): (r: set<int>)
    ensures forall x :: x in r <==> lo <= x < hi
    decreases hi - lo
  {
    if lo >= hi then {} else Range(lo, hi - 1) + {hi - 1}
  }

  /** Total length of the lists of clusters `0..n-1`. */
  function SumLens(cmap: map<int, seq<int>>, n: nat): nat
    requires forall k :: 0 <= k < n ==> k in cmap
  {
    if n == 0 then 0 else SumLens(cmap, n - 1) + |cmap[n - 1]|
  }

  lemma {:induction false} SumLensFrame(c1: map<int, seq<int>>, c2: map<int, seq<int>>, n: nat)
    requires forall k :: 0 <= k < n ==> k in c1 && k in c2 && |c1[k]| == |c2[k]|
    ensures SumLens(c1, n) == SumLens(c2, n)
  {
    if n > 0 {
      SumLensFrame(c1, c2, n - 1);
    }
  }

  /** No value occurs twice. */
  ghost predicate NoRepeats(xs: seq<int>)
  {
    forall v :: multiset(xs)[v] <= 1
  }

  /** The cluster map after some allocations: ids `0..cid-1` each hold a
      nonempty list of distinct documents below `total`; the grouped list
      has no repetition and is exactly the union of the clusters; no
      document is in two clusters; and the lengths add up to the number of
      grouped entries (the assertion of the scan). */
  ghost predicate ScanState(cmap: map<int, seq<int>>, cid: nat, grouped: seq<int>, total: nat)
  {
    && (forall k :: k in cmap <==> 0 <= k < cid)
    && SumLens(cmap, cid) == |grouped|
    && NoRepeats(grouped)
    && (forall x :: x in grouped ==> 0 <= x < total)
    && (forall x :: x in grouped ==> exists k :: k in cmap && x in cmap[k])
    && (forall k :: k in cmap ==> |cmap[k]| > 0 && NoRepeats(cmap[k]) && forall x :: x in cmap[k] ==> x in grouped)
    && (forall k1, k2, x :: k1 in cmap && k2 in cmap && k1 != k2 && x in cmap[k1] ==> x !in cmap[k2])
  }

  /** The final report: consecutive ids from 0, each list nonempty, strictly
      ascending and made of document indices, and no document in two
      clusters. */
  ghost predicate Clustering(cmap: map<int, seq<int>>, total: nat)
  {
    && (forall k :: k in cmap <==> 0 <= k < |cmap|)
    && (forall k :: k in cmap ==> |cmap[k]| > 0 && StrictlySorted(cmap[k]) && forall x :: x in cmap[k] ==> 0 <= x < total)
    && (forall k1, k2, x :: k1 in cmap && k2 in cmap && k1 != k2 && x in cmap[k1] ==> x !in cmap[k2])
  }

  predicate StrictlySorted(xs: seq<int>)
  {
    forall i, j :: 0 <= i < j < |xs| ==> xs[i] < xs[j]
  }

  /** Document `x` is in no cluster. */
  predicate Unclustered(cmap: map<int, seq<int>>, x: int)
  {
    forall k :: k in cmap ==> x !in cmap[k]
  }

  /** Document `x` lies in the last chunk: the only place where the scan may
      stop before grouping a document. */
  predicate InLastChunk(chunks: seq<seq<seq<int>>>, x: int)
  {
    |chunks| > 0 && Offset(chunks, |chunks| - 1) <= x
  }

  /** A cluster as the pivot loop allocates it: the pivot last, every other
      member a later document scoring at least `threshold` against it. */
  ghost predicate PivotLast(c: seq<int>, sim: Similarity, chunks: seq<seq<seq<int>>>, threshold: real)
  {
    |c| > 0 && forall t :: 0 <= t < |c| - 1 ==> c[|c| - 1] < c[t] && Scored(sim, chunks, c[|c| - 1], c[t], threshold)
  }

  ghost predicate PivotsLast(cmap: map<int, seq<int>>, sim: Similarity, chunks: seq<seq<seq<int>>>, threshold: real)
  {
    forall k :: k in cmap ==> PivotLast(cmap[k], sim, chunks, threshold)
  }

  /** The meaning of the reported clusters: each list starts with its pivot,
      and every other member scores at least `threshold` against it. */
  ghost predicate PivotsFirst(cmap: map<int, seq<int>>, sim: Similarity, chunks: seq<seq<seq<int>>>, threshold: real)
  {
    forall k, t :: k in cmap && 0 < t < |cmap[k]| ==> Scored(sim, chunks, cmap[k][0], cmap[k][t], threshold)
  }

  predicate Sorted(xs: seq<int>)
  {
    forall i, j :: 0 <= i < j < |xs| ==> xs[i] <= xs[j]
  }

  /** `sorted(xs)`, by insertion. */
  function Insert(x: int, xs: seq<int>): (r: seq<int>)
    ensures multiset(r) == multiset(xs) + multiset{x}
  {
    if xs == [] then [x]
    else if x <= xs[0] then [x] + xs
    else
      assert xs == [xs[0]] + xs[1..];
      [xs[0]] + Insert(x, xs[1..])
  }

  lemma {:induction false} InsertSorted(x: int, xs: seq<int>)
    requires Sorted(xs)
    ensures Sorted(Insert(x, xs))
  {
    if xs != [] && x > xs[0] {
      InsertSorted(x, xs[1..]);
      var r' := Insert(x, xs[1..]);
      assert xs[0] <= r'[0] by {
        if xs[1..] != [] && x > xs[1] {
          assert r'[0] == xs[1];
        }
      }
      var r := [xs[0]] + r';
      forall i, j | 0 <= i < j < |r|
        ensures r[i] <= r[j]
      {
        if i == 0 {
          assert r[j] == r'[j - 1] && r'[0] <= r'[j - 1];
        } else {
          assert r[i] == r'[i - 1] && r[j] == r'[j - 1];
        }
      }
    }
  }

  function SortInts(xs: seq<int>): (r: seq<int>)
    ensures Sorted(r) && multiset(r) == multiset(xs)
  {
    if xs == [] then []
    else
      assert xs == xs[..|xs| - 1] + [xs[|xs| - 1]];
      InsertSorted(xs[|xs| - 1], SortInts(xs[..|xs| - 1]));
      Insert(xs[|xs| - 1], SortInts(xs[..|xs| - 1]))
  }

  lemma HasElement(s: set<int>)
    requires s != {}
    ensures exists x :: x in s
  {
    if forall x :: x !in s {
      assert false;
    }
  }

  /** A set turned into a list: each element once, in whatever order. */
  method ListOfSet(s: set<int>) returns (xs: seq<int>)
    ensures Elems(xs) == s && |xs| == |s| && NoRepeats(xs)
  {
    xs := [];
    var rest := s;
    while rest != {}
      invariant Elems(xs) + rest == s && Elems(xs) !! rest && |xs| + |rest| == |s|
      invariant NoRepeats(xs)
      decreases rest
    {
      HasElement(rest);
      var x :| x in rest;
      xs := xs + [x];
      rest := rest - {x};
    }
  }

  // ---------------------------------------------------------------------------
  // Step 2: the block matrix
  // ---------------------------------------------------------------------------

  /** The block of chunks `i` and `j` is stored under its path. */
  ghost predicate Stored(blocks: map<string, Block>, sim: Similarity, chunks: seq<seq<seq<int>>>, i: nat, j: nat)
    requires i < |chunks| && j < |chunks|
  {
    BlockKey(i, j) in blocks && blocks[BlockKey(i, j)] == BlockOf(sim, chunks[i], chunks[j])
  }

  /** The blocks of all rows before `i`, and of row `i` before column `j`, are stored. */
  ghost predicate StoredUpTo(blocks: map<string, Block>, sim: Similarity, chunks: seq<seq<seq<int>>>, i: nat, j: nat)
  {
    && (forall i', j' :: 0 <= i' < i && i' < |chunks| && 0 <= j' < |chunks| ==> Stored(blocks, sim, chunks, i', j'))
    && (forall j' :: i < |chunks| && 0 <= j' < j && j' < |chunks| ==> Stored(blocks, sim, chunks, i, j'))
  }

  lemma StoreKeeps(blocks: map<string, Block>, sim: Similarity, chunks: seq<seq<seq<int>>>, i: nat, j: nat)
    requires i < |chunks| && j < |chunks| && StoredUpTo(blocks, sim, chunks, i, j)
    ensures StoredUpTo(blocks[BlockKey(i, j) := BlockOf(sim, chunks[i], chunks[j])], sim, chunks, i, j + 1)
  {
    var blocks' := blocks[BlockKey(i, j) := BlockOf(sim, chunks[i], chunks[j])];
    forall i', j' | 0 <= i' < |chunks| && 0 <= j' < |chunks| && (i' < i || (i' == i && j' <= j))
      ensures Stored(blocks', sim, chunks, i', j')
    {
      if i' != i || j' != j {
        assert Stored(blocks, sim, chunks, i', j');
        if BlockKey(i', j') == BlockKey(i, j) {
          BlockKeyInjective(i', j', i, j);
        }
      }
    }
  }

  /** The block of every ordered chunk pair is stored under its path. */
  ghost predicate Computed(blocks: map<string, Block>, sim: Similarity, chunks: seq<seq<seq<int>>>)
  {
    forall i, j :: 0 <= i < |chunks| && 0 <= j < |chunks| ==>
      BlockKey(i, j) in blocks && blocks[BlockKey(i, j)] == BlockOf(sim, chunks[i], chunks[j])
  }

  /** The nested loop of `execute` that writes `doc_doc_similarity` of every
      ordered chunk pair under `'/gmat_i/sub_mat_j'`. An empty chunk or one
      with an all-zero row makes the similarity raise: already for `i = 0`,
      whose row of blocks pairs chunk 0 with every chunk. */
  method ComputeBlocks(sim: Similarity, chunks: seq<seq<seq<int>>>) returns (ok: bool, blocks: map<string, Block>)
    ensures ok <==> !AnyDegenerate(chunks)
    ensures ok ==> Computed(blocks, sim, chunks)
  {
    blocks := map[];
    var n := |chunks|;
    for i := 0 to n
      invariant StoredUpTo(blocks, sim, chunks, i, 0)
      invariant i > 0 ==> !AnyDegenerate(chunks)
    {
      for j := 0 to n
        invariant StoredUpTo(blocks, sim, chunks, i, j)
        invariant i > 0 || forall j' :: 0 <= j' < j ==> !Degenerate(chunks[j'])
        invariant i > 0 || j == 0 || !Degenerate(chunks[0])
      {
        if Degenerate(chunks[i]) || Degenerate(chunks[j]) {
          return false, blocks;
        }
        StoreKeeps(blocks, sim, chunks, i, j);
        blocks := blocks[BlockKey(i, j) := BlockOf(sim, chunks[i], chunks[j])];
      }
    }
    forall i, j | 0 <= i < n && 0 <= j < n
      ensures BlockKey(i, j) in blocks && blocks[BlockKey(i, j)] == BlockOf(sim, chunks[i], chunks[j])
    {
      assert Stored(blocks, sim, chunks, i, j);
    }
    return true, blocks;
  }

  // ---------------------------------------------------------------------------
  // Step 3: the row/pivot scan
  // ---------------------------------------------------------------------------

  lemma {:induction false} OffsetMono(chunks: seq<seq<seq<int>>>, i: nat, j: nat)
    requires i <= j <= |chunks|
    ensures Offset(chunks, i) <= Offset(chunks, j)
    decreases j - i
  {
    if i < j {
      OffsetMono(chunks, i, j - 1);
    }
  }

  /** The scores of row `r` of chunk `i` against every document of chunks
      `0..n-1`, in document order. */
  function WideRow(blocks: map<string, Block>, chunks: seq<seq<seq<int>>>, i: nat, r: int, n: nat): (row: seq<real>)
    requires Shaped(blocks, chunks) && i < |chunks| && n <= |chunks| && 0 <= r < |chunks[i]|
    ensures |row| == Offset(chunks, n)
  {
    if n == 0 then [] else WideRow(blocks, chunks, i, r, n - 1) + blocks[BlockKey(i, n - 1)].rows[r]
  }

  /** Document `d` of chunk `i` is row `d - Offset(i)` of that chunk. */
  lemma {:induction false} DocInChunk(chunks: seq<seq<seq<int>>>, n: nat, i: nat, d: int)
    requires i < n <= |chunks| && Offset(chunks, i) <= d < Offset(chunks, i + 1)
    ensures d < Offset(chunks, n) && DocRow(chunks, n, d) == chunks[i][d - Offset(chunks, i)]
    decreases n
  {
    OffsetMono(chunks, i + 1, n);
    if n - 1 > i {
      OffsetMono(chunks, i + 1, n - 1);
      DocInChunk(chunks, n - 1, i, d);
    }
  }

  /** Entry `x` of a stacked row is the score of the row's document against
      document `x`. */
  lemma {:induction false} WideRowScore(blocks: map<string, Block>, sim: Similarity, chunks: seq<seq<seq<int>>>,
                                        i: nat, r: int, n: nat, x: int)
    requires Shaped(blocks, chunks) && Computed(blocks, sim, chunks)
    requires i < |chunks| && n <= |chunks| && 0 <= r < |chunks[i]| && 0 <= x < Offset(chunks, n)
    ensures WideRow(blocks, chunks, i, r, n)[x] == sim(chunks[i][r], DocRow(chunks, n, x))
    decreases n
  {
    if x < Offset(chunks, n - 1) {
      WideRowScore(blocks, sim, chunks, i, r, n - 1, x);
    } else {
      assert blocks[BlockKey(i, n - 1)] == BlockOf(sim, chunks[i], chunks[n - 1]);
    }
  }

  /** Over the computed blocks, the stacked row `wide` of row `r` of chunk
      `i` is the score row of document `p = Offset(i) + r`. */
  lemma StackedScores(blocks: map<string, Block>, sim: Similarity, chunks: seq<seq<seq<int>>>, i: nat, r: int,
                      p: int, wide: seq<real>)
    requires Shaped(blocks, chunks) && Computed(blocks, sim, chunks)
    requires i < |chunks| && 0 <= r < |chunks[i]| && p == Offset(chunks, i) + r
    requires wide == WideRow(blocks, chunks, i, r, |chunks|)
    ensures 0 <= p < Total(chunks) && wide == ScoreRow(sim, chunks, p)
  {
    DocInChunk(chunks, |chunks|, i, p);
    var scores := ScoreRow(sim, chunks, p);
    forall x | 0 <= x < Total(chunks)
      ensures wide[x] == scores[x]
    {
      WideRowScore(blocks, sim, chunks, i, r, |chunks|, x);
      assert scores[x] == sim(Doc(chunks, p), Doc(chunks, x));
    }
    assert |wide| == |scores|;
  }

  /** `np.hstack` of `sub_mat_j[rel]` over the chunks `j` of group `i`: row
      `k` holds the scores of row `rel[k]` against every document. An empty
      accumulator (`row_matrix.size == 0`) is replaced rather than extended,
      so with no rows selected the width is the last block's. */
  method StackRows(blocks: map<string, Block>, chunks: seq<seq<seq<int>>>, i: nat, rel: seq<int>)
    returns (rows: seq<seq<real>>, width: nat)
    requires Shaped(blocks, chunks) && i < |chunks|
    requires forall r :: 0 <= r < |rel| ==> 0 <= rel[r] < |chunks[i]|
    ensures |rows| == |rel| && forall k :: 0 <= k < |rows| ==> |rows[k]| == width
    ensures forall k :: 0 <= k < |rows| ==> rows[k] == WideRow(blocks, chunks, i, rel[k], |chunks|)
    ensures |rel| > 0 ==> width == Total(chunks)
  {
    rows, width := [], 0;
    for j := 0 to |chunks|
      invariant Stacked(blocks, chunks, i, rel, j, rows, width)
    {
      rows, width := StackChunk(blocks, chunks, i, rel, j, rows, width);
    }
  }

  /** The accumulator of `StackRows` after the chunks before `j`. */
  ghost predicate Stacked(blocks: map<string, Block>, chunks: seq<seq<seq<int>>>, i: nat, rel: seq<int>, j: nat,
                          rows: seq<seq<real>>, width: nat)
    requires Shaped(blocks, chunks) && i < |chunks| && j <= |chunks|
    requires forall r :: 0 <= r < |rel| ==> 0 <= rel[r] < |chunks[i]|
  {
    && (j == 0 ==> rows == [] && width == 0)
    && (j > 0 ==> |rows| == |rel|)
    && (forall k :: 0 <= k < |rows| ==> |rows[k]| == width)
    && (j > 0 ==> forall k :: 0 <= k < |rows| ==> rows[k] == WideRow(blocks, chunks, i, rel[k], j))
    && (|rel| > 0 ==> width == Offset(chunks, j))
  }

  /** One chunk of `StackRows`: the selected rows of block `(i, j)` are put
      beside the accumulator, or replace it while it is empty. */
  method StackChunk(blocks: map<string, Block>, chunks: seq<seq<seq<int>>>, i: nat, rel: seq<int>, j: nat,
                    rows: seq<seq<real>>, width: nat)
    returns (rows': seq<seq<real>>, width': nat)
    requires Shaped(blocks, chunks) && i < |chunks| && j < |chunks|
    requires forall r :: 0 <= r < |rel| ==> 0 <= rel[r] < |chunks[i]|
    requires Stacked(blocks, chunks, i, rel, j, rows, width)
    ensures Stacked(blocks, chunks, i, rel, j + 1, rows', width')
  {
    var sub := blocks[BlockKey(i, j)];
    var picked := seq(|rel|, r requires 0 <= r < |rel| => sub.rows[rel[r]]);
    if |rows| * width != 0 {
      rows' := seq(|rel|, r requires 0 <= r < |rel| => rows[r] + picked[r]);
      width' := width + sub.cols;
    } else {
      rows', width' := picked, sub.cols;
    }
  }

  function GetList(m: map<int, seq<int>>, k: int): seq<int>
  {
    if k in m then m[k] else []
  }

  /** The positions `c` after `start` whose score reaches `threshold`,
      counted from `start`: `np.where(row[start:] >= threshold)[0]`. */
  function Offsets(row: seq<real>, start: nat, threshold: real): (r: set<int>)
    ensures forall c :: c in r <==> 0 <= c < |row| - start && row[start + c] >= threshold
  {
    if |row| <= start then {}
    else Offsets(row[..|row| - 1], start, threshold)
         + (if row[|row| - 1] >= threshold then {|row| - 1 - start} else {})
  }

  /** The documents joining the pivot's cluster as the scan computes them:
      the offsets past the pivot, intersected with the ungrouped documents
      as if they were document indices. */
  function SimilarAsWritten(row: seq<real>, absPivot: nat, threshold: real, leftoverJ: set<int>): set<int>
  {
    Offsets(row, absPivot + 1, threshold) * leftoverJ
  }

  /** The documents joining the pivot's cluster: the ungrouped documents
      after the pivot whose score against it reaches the threshold. */
  function Similar(row: seq<real>, absPivot: nat, threshold: real, leftoverJ: set<int>): (r: set<int>)
    ensures forall x :: x in r <==> x in leftoverJ && absPivot < x < |row| && row[x] >= threshold
  {
    var offsets := Offsets(row, absPivot + 1, threshold);
    assert forall x :: x in leftoverJ && absPivot < x < |row| && row[x] >= threshold ==> x - (absPivot + 1) in offsets;
    set c | c in offsets && absPivot + 1 + c in leftoverJ :: absPivot + 1 + c
  }

  /** Two documents, each fully similar to the other, pivot 0: the scan as
      written puts the pivot itself into its own cluster a second time and
      leaves document 1 out; the corrected selection takes document 1. */
  lemma SimilarAsWrittenRegroupsPivot()
    ensures SimilarAsWritten([1.0, 1.0], 0, 1.0, {0, 1}) == {0}
    ensures Similar([1.0, 1.0], 0, 1.0, {0, 1}) == {1}
  {
    var offsets := Offsets([1.0, 1.0], 1, 1.0);
    assert 0 in offsets;
    assert forall c :: c in offsets ==> c == 0;
  }

  /** The pivot candidates as the scan computes them: the positions of the
      stacked rows, shifted by the chunk's first document, that are still
      ungrouped. */
  function CandidatesAsWritten(inc: nat, rowCount: nat, leftoverJ: set<int>): set<int>
  {
    Range(inc, inc + rowCount) * leftoverJ
  }

  /** The pivot candidates: the chunk's documents whose rows were stacked and
      that are still ungrouped. */
  function Candidates(leftoverAbsI: seq<int>, leftoverJ: set<int>): (r: set<int>)
    ensures forall x :: x in r <==> x in leftoverAbsI && x in leftoverJ
  {
    Elems(leftoverAbsI) * leftoverJ
  }

  /** Chunk 1 holds documents 2 and 3 and document 2 is already grouped (with
      document 0), so only document 3's row is stacked. As written the
      candidates are the positions `{2}` minus the grouped documents: none,
      and document 3 never becomes a pivot or joins a cluster. */
  lemma CandidatesAsWrittenSkipsRow()
    ensures CandidatesAsWritten(2, 1, Range(0, 4) - {2, 0}) == {}
    ensures Candidates([3], Range(0, 4) - {2, 0}) == {3}
  {
    assert 3 in Range(0, 4) - {2, 0};
  }

  /** The document whose scores the scan reads for a pivot as written:
      `row_matrix[rel_pivot]`, with `rel_pivot` the pivot's position in its
      chunk, while the stacked rows are only those of the chunk's ungrouped
      documents. None is the IndexError past the last stacked row. */
  function PivotRowDocAsWritten(leftoverAbsI: seq<int>, inc: nat, absPivot: nat): Option<int>
  {
    if inc <= absPivot && absPivot - inc < |leftoverAbsI| then Some(leftoverAbsI[absPivot - inc]) else None
  }

  /** The stacked row of a pivot: the position of the pivot among the stacked
      documents. */
  function PivotRow(leftoverAbsI: seq<int>, absPivot: int): (k: nat)
    requires absPivot in leftoverAbsI
    ensures k < |leftoverAbsI| && leftoverAbsI[k] == absPivot
  {
    if leftoverAbsI[0] == absPivot then 0 else 1 + PivotRow(leftoverAbsI[1..], absPivot)
  }

  /** Chunk 1 holds documents 3, 4 and 5 and document 3 is grouped, so the
      rows of documents 4 and 5 are stacked and the candidates as written are
      `{4}`. For pivot 4 the scan as written reads row 1, which holds document
      5's scores, so document 4's cluster is built from document 5's row; the
      pivot's own row is row 0. */
  lemma PivotRowAsWrittenMisreads()
    ensures CandidatesAsWritten(3, 2, Range(0, 6) - {3}) == {4}
    ensures PivotRowDocAsWritten([4, 5], 3, 4) == Some(5)
    ensures PivotRow([4, 5], 4) == 0
  {
    assert 4 in Range(0, 6) - {3};
  }

  /** Allocating a new cluster of distinct ungrouped documents keeps the scan
      state. */
  lemma AllocateKeeps(cmap: map<int, seq<int>>, cid: nat, grouped: seq<int>, total: nat, sims: seq<int>)
    requires ScanState(cmap, cid, grouped, total)
    requires |sims| > 0 && NoRepeats(sims) && forall x :: x in sims ==> 0 <= x < total && x !in grouped
    ensures ScanState(cmap[cid := sims], cid + 1, grouped + sims, total)
  {
    var cmap' := cmap[cid := sims];
    var grouped' := grouped + sims;
    SumLensFrame(cmap', cmap, cid);
    forall v
      ensures multiset(grouped')[v] <= 1
    {
      if v in sims {
        assert v !in multiset(grouped);
      }
    }
    forall x | x in grouped'
      ensures exists k :: k in cmap' && x in cmap'[k]
    {
      if x in grouped {
        var k :| k in cmap && x in cmap[k];
        assert k in cmap' && x in cmap'[k];
      } else {
        assert cid in cmap' && x in cmap'[cid];
      }
    }
    forall k1, k2, x | k1 in cmap' && k2 in cmap' && k1 != k2 && x in cmap'[k1]
      ensures x !in cmap'[k2]
    {
      if k2 == cid {
        assert x in grouped;
      } else if k1 == cid {
        assert x !in grouped;
      }
    }
  }

  /** A cluster list of the pivot, last, after the documents of `similar`. */
  ghost predicate PivotAfter(c: seq<int>, absPivot: int, similar: set<int>)
  {
    && |c| > 0 && c[|c| - 1] == absPivot
    && (forall t :: 0 <= t < |c| - 1 ==> c[t] in similar)
    && (forall x :: x in c <==> x == absPivot || x in similar)
  }

  /** One allocation of the pivot loop: the pivot and the ungrouped
      documents after it whose score reaches the threshold become cluster
      `cid`; the scan asserts that the cluster lengths still add up to the
      number of grouped entries. */
  method NewCluster(row: seq<real>, absPivot: nat, threshold: real, leftoverJ: set<int>, total: nat,
                    grouped: seq<int>, cmap: map<int, seq<int>>, cid: nat)
    returns (grouped': seq<int>, cmap': map<int, seq<int>>, cid': nat)
    requires ScanState(cmap, cid, grouped, total)
    requires leftoverJ == Range(0, total) - Elems(grouped) && absPivot in leftoverJ
    ensures ScanState(cmap', cid', grouped', total)
    ensures cid' == cid + 1 && (forall k :: 0 <= k < cid ==> cmap'[k] == cmap[k]) && grouped <= grouped'
    ensures grouped' == grouped + cmap'[cid]
    ensures PivotAfter(cmap'[cid], absPivot, Similar(row, absPivot, threshold, leftoverJ))
  {
    var sims := ClusterOf(row, absPivot, threshold, leftoverJ, grouped, total);
    grouped' := grouped + sims;
    cmap' := cmap[cid := GetList(cmap, cid) + sims];
    cid' := cid + 1;
    Allocated(cmap, cid, grouped, total, sims, grouped', cmap', cid');
  }

  /** `sims`: the similar documents as a list, then the pivot. */
  method ClusterOf(row: seq<real>, absPivot: nat, threshold: real, leftoverJ: set<int>, grouped: seq<int>, total: nat)
    returns (sims: seq<int>)
    requires leftoverJ == Range(0, total) - Elems(grouped) && absPivot in leftoverJ
    ensures |sims| > 0 && NoRepeats(sims)
    ensures forall x :: x in sims ==> 0 <= x < total && x !in grouped
    ensures PivotAfter(sims, absPivot, Similar(row, absPivot, threshold, leftoverJ))
  {
    var similar := ListOfSet(Similar(row, absPivot, threshold, leftoverJ));
    sims := similar + [absPivot];
    PivotAppended(similar, absPivot, Similar(row, absPivot, threshold, leftoverJ), leftoverJ, grouped, total);
    assert forall t :: 0 <= t < |similar| ==> similar[t] in Elems(similar);
  }

  /** A cluster allocated from the pivot's score row lists the pivot last
      and, before it, later documents scoring at least the threshold. */
  lemma NewClusterScored(sim: Similarity, chunks: seq<seq<seq<int>>>, threshold: real, row: seq<real>,
                         absPivot: nat, leftoverJ: set<int>, c: seq<int>)
    requires absPivot < Total(chunks) && row == ScoreRow(sim, chunks, absPivot)
    requires PivotAfter(c, absPivot, Similar(row, absPivot, threshold, leftoverJ))
    ensures PivotLast(c, sim, chunks, threshold)
  {
  }

  /** `cluster_map[cid] = cluster_map.get(cid, []) + sims` on a fresh id
      stores `sims` under it and keeps the scan state. */
  lemma Allocated(cmap: map<int, seq<int>>, cid: nat, grouped: seq<int>, total: nat, sims: seq<int>,
                  grouped': seq<int>, cmap': map<int, seq<int>>, cid': nat)
    requires ScanState(cmap, cid, grouped, total)
    requires |sims| > 0 && NoRepeats(sims) && forall x :: x in sims ==> 0 <= x < total && x !in grouped
    requires grouped' == grouped + sims && cmap' == cmap[cid := GetList(cmap, cid) + sims] && cid' == cid + 1
    ensures ScanState(cmap', cid', grouped', total)
    ensures cmap'[cid] == sims
    ensures cid' == cid + 1 && (forall k :: 0 <= k < cid ==> cmap'[k] == cmap[k]) && grouped <= grouped'
    ensures grouped' == grouped + cmap'[cid]
  {
    AllocateKeeps(cmap, cid, grouped, total, sims);
    assert GetList(cmap, cid) + sims == sims;
    assert cmap[cid := GetList(cmap, cid) + sims] == cmap[cid := sims];
  }

  /** The pivot appended to the list of its similar documents: a list
      without repetitions of the pivot and those documents, all ungrouped. */
  lemma PivotAppended(similar: seq<int>, absPivot: int, s: set<int>, leftoverJ: set<int>, grouped: seq<int>, total: nat)
    requires Elems(similar) == s && NoRepeats(similar) && s <= leftoverJ
    requires absPivot in leftoverJ && absPivot !in s
    requires leftoverJ == Range(0, total) - Elems(grouped)
    ensures |similar + [absPivot]| > 0 && NoRepeats(similar + [absPivot])
    ensures forall x :: x in similar + [absPivot] <==> x == absPivot || x in s
    ensures forall x :: x in similar + [absPivot] ==> 0 <= x < total && x !in grouped
  {
    assert forall x :: x in similar <==> x in Elems(similar);
    assert absPivot !in multiset(similar);
  }

  /** Adding cluster `cid0`, allocated from the pivot's score row, to pivot-last
      clusters keeps them pivot-last. */
  lemma PivotsLastGrown(sim: Similarity, chunks: seq<seq<seq<int>>>, threshold: real, row: seq<real>, absPivot: nat,
                        leftoverJ: set<int>, cmap0: map<int, seq<int>>, cid0: nat, cmap': map<int, seq<int>>)
    requires absPivot < Total(chunks) && row == ScoreRow(sim, chunks, absPivot)
    requires PivotsLast(cmap0, sim, chunks, threshold) && (forall k :: k in cmap0 <==> 0 <= k < cid0)
    requires (forall k :: k in cmap' <==> 0 <= k < cid0 + 1) && (forall k :: 0 <= k < cid0 ==> cmap'[k] == cmap0[k])
    requires PivotAfter(cmap'[cid0], absPivot, Similar(row, absPivot, threshold, leftoverJ))
    ensures PivotsLast(cmap', sim, chunks, threshold)
  {
    NewClusterScored(sim, chunks, threshold, row, absPivot, leftoverJ, cmap'[cid0]);
  }

  /** Grouping a cluster that holds the pivot shrinks the candidates and
      removes the pivot from them. */
  lemma CandidatesShrink(leftoverAbsI: seq<int>, width: nat, grouped: seq<int>, c: seq<int>, absPivot: int)
    requires absPivot in c
    ensures Candidates(leftoverAbsI, Range(0, width) - Elems(grouped + c)) <= Candidates(leftoverAbsI, Range(0, width) - Elems(grouped))
    ensures absPivot !in Candidates(leftoverAbsI, Range(0, width) - Elems(grouped + c))
  {
    assert absPivot in Elems(grouped + c);
  }

  /** One iteration of the pivot loop past the early stop: the allocation,
      then the ungrouped documents and the candidates computed afresh. The
      candidates shrink and lose the pivot. */
  method PivotStep(ghost sim: Similarity, ghost chunks: seq<seq<seq<int>>>, row: seq<real>, absPivot: nat,
                   threshold: real, width: nat, leftoverAbsI: seq<int>, total: nat, leftoverJ: set<int>,
                   grouped: seq<int>, cmap: map<int, seq<int>>, cid: nat)
    returns (grouped': seq<int>, cmap': map<int, seq<int>>, cid': nat, leftoverJ': set<int>, inter': set<int>)
    requires total == Total(chunks) && width == total && absPivot < total && row == ScoreRow(sim, chunks, absPivot)
    requires ScanState(cmap, cid, grouped, total) && PivotsLast(cmap, sim, chunks, threshold)
    requires leftoverJ == Range(0, width) - Elems(grouped) && absPivot in leftoverJ
    ensures ScanState(cmap', cid', grouped', total) && PivotsLast(cmap', sim, chunks, threshold)
    ensures cid' == cid + 1 && (forall k :: 0 <= k < cid ==> cmap'[k] == cmap[k]) && grouped <= grouped'
    ensures leftoverJ' == Range(0, width) - Elems(grouped') && inter' == Candidates(leftoverAbsI, leftoverJ')
    ensures inter' <= Candidates(leftoverAbsI, leftoverJ) && absPivot !in inter'
  {
    grouped', cmap', cid' := NewCluster(row, absPivot, threshold, leftoverJ, total, grouped, cmap, cid);
    PivotsLastGrown(sim, chunks, threshold, row, absPivot, leftoverJ, cmap, cid, cmap');
    leftoverJ' := Range(0, width) - Elems(grouped');
    inter' := Candidates(leftoverAbsI, leftoverJ');
    CandidatesShrink(leftoverAbsI, width, grouped, cmap'[cid], absPivot);
  }

  /** The pivot loop of one chunk: while some stacked document is ungrouped,
      pick one as pivot; the pivot and the ungrouped documents after it that
      are similar enough form a new cluster. The loop stops early when the
      pivot is the last document, which then stays ungrouped; otherwise every
      stacked document ends up grouped. Row `k` of `rowMatrix` is the score
      row of document `leftoverAbsI[k]`. */
  method PivotLoop(ghost sim: Similarity, ghost chunks: seq<seq<seq<int>>>,
                   rowMatrix: seq<seq<real>>, width: nat, leftoverAbsI: seq<int>, threshold: real, total: nat,
                   grouped: seq<int>, cmap: map<int, seq<int>>, cid: nat)
    returns (grouped': seq<int>, cmap': map<int, seq<int>>, cid': nat)
    requires total == Total(chunks) && |rowMatrix| == |leftoverAbsI|
    requires forall k :: 0 <= k < |rowMatrix| ==> 0 <= leftoverAbsI[k] < total && rowMatrix[k] == ScoreRow(sim, chunks, leftoverAbsI[k])
    requires |rowMatrix| > 0 ==> width == total
    requires ScanState(cmap, cid, grouped, total) && PivotsLast(cmap, sim, chunks, threshold)
    ensures ScanState(cmap', cid', grouped', total) && PivotsLast(cmap', sim, chunks, threshold)
    ensures cid' >= cid && (forall k :: 0 <= k < cid ==> cmap'[k] == cmap[k]) && grouped <= grouped'
    ensures (forall x :: x in leftoverAbsI ==> x in grouped') || (total - 1 in leftoverAbsI && total - 1 !in grouped')
  {
    grouped', cmap', cid' := grouped, cmap, cid;
    var leftoverJ := Range(0, width) - Elems(grouped');
    var inter := Candidates(leftoverAbsI, leftoverJ);
    while inter != {}
      invariant ScanState(cmap', cid', grouped', total) && PivotsLast(cmap', sim, chunks, threshold)
      invariant leftoverJ == Range(0, width) - Elems(grouped')
      invariant inter == Candidates(leftoverAbsI, leftoverJ)
      invariant cid' >= cid && (forall k :: 0 <= k < cid ==> cmap'[k] == cmap[k]) && grouped <= grouped'
      decreases inter
    {
      HasElement(inter);
      var absPivot :| absPivot in inter;
      if absPivot + 1 == width {
        break;
      }
      var relPivot := PivotRow(leftoverAbsI, absPivot);
      grouped', cmap', cid', leftoverJ, inter :=
        PivotStep(sim, chunks, rowMatrix[relPivot], absPivot, threshold, width, leftoverAbsI, total, leftoverJ, grouped', cmap', cid');
    }
  }

  /** The rows of a chunk of `pivotRows` documents starting at `inc` that
      are not grouped yet: as documents, and relative to the chunk. */
  method LeftoverRows(pivotRows: nat, inc: nat, grouped: seq<int>) returns (leftoverAbsI: seq<int>, leftoverRelI: seq<int>)
    ensures forall x :: x in leftoverAbsI <==> inc <= x < inc + pivotRows && x !in grouped
    ensures |leftoverRelI| == |leftoverAbsI|
    ensures forall r :: 0 <= r < |leftoverRelI| ==> leftoverRelI[r] == leftoverAbsI[r] - inc && 0 <= leftoverRelI[r] < pivotRows
  {
    var absI := Range(inc, inc + pivotRows);
    leftoverAbsI := ListOfSet(absI - (absI * Elems(grouped)));
    leftoverRelI := seq(|leftoverAbsI|, r requires 0 <= r < |leftoverAbsI| => leftoverAbsI[r] - inc);
    assert forall x :: x in leftoverAbsI <==> x in Elems(leftoverAbsI);
    assert forall r :: 0 <= r < |leftoverAbsI| ==> leftoverAbsI[r] in Elems(leftoverAbsI);
  }

  /** The stacked rows of a chunk's leftover documents are their score rows. */
  lemma StackedRowScores(blocks: map<string, Block>, sim: Similarity, chunks: seq<seq<seq<int>>>, i: nat,
                         abs: seq<int>, rel: seq<int>, rows: seq<seq<real>>)
    requires Shaped(blocks, chunks) && Computed(blocks, sim, chunks) && i < |chunks|
    requires |rows| == |rel| == |abs|
    requires forall k :: 0 <= k < |rows| ==> 0 <= rel[k] < |chunks[i]| && abs[k] == Offset(chunks, i) + rel[k]
    requires forall k :: 0 <= k < |rows| ==> rows[k] == WideRow(blocks, chunks, i, rel[k], |chunks|)
    ensures forall k :: 0 <= k < |rows| ==> 0 <= abs[k] < Total(chunks) && rows[k] == ScoreRow(sim, chunks, abs[k])
  {
    forall k | 0 <= k < |rows|
      ensures 0 <= abs[k] < Total(chunks) && rows[k] == ScoreRow(sim, chunks, abs[k])
    {
      StackedScores(blocks, sim, chunks, i, rel[k], abs[k], rows[k]);
    }
  }

  /** The first half of a pass of the outer scan loop: the documents of
      chunk `i` not grouped yet, and their rows stacked across all chunks,
      which are their score rows against the whole collection. */
  method StackLeftover(ghost sim: Similarity, blocks: map<string, Block>, chunks: seq<seq<seq<int>>>, i: nat, inc: nat,
                       grouped: seq<int>)
    returns (leftoverAbsI: seq<int>, rowMatrix: seq<seq<real>>, width: nat)
    requires Shaped(blocks, chunks) && Computed(blocks, sim, chunks) && i < |chunks| && inc == Offset(chunks, i)
    ensures forall x :: x in leftoverAbsI <==> inc <= x < inc + |chunks[i]| && x !in grouped
    ensures |rowMatrix| == |leftoverAbsI| && (|rowMatrix| > 0 ==> width == Total(chunks))
    ensures forall k :: 0 <= k < |rowMatrix| ==>
              0 <= leftoverAbsI[k] < Total(chunks) && rowMatrix[k] == ScoreRow(sim, chunks, leftoverAbsI[k])
    ensures Offset(chunks, i + 1) <= Total(chunks)
  {
    var leftoverRelI;
    leftoverAbsI, leftoverRelI := LeftoverRows(|blocks[BlockKey(i, 0)].rows|, inc, grouped);
    rowMatrix, width := StackRows(blocks, chunks, i, leftoverRelI);
    OffsetMono(chunks, i + 1, |chunks|);
    StackedRowScores(blocks, sim, chunks, i, leftoverAbsI, leftoverRelI, rowMatrix);
  }

  /** One pass of the outer scan loop, for chunk `i` starting at document
      `inc`: the chunk's documents not yet grouped have their rows stacked
      across all chunks, then the pivot loop runs over them. It only adds
      clusters, and it groups every document of the chunk unless it stopped
      at the last document of the collection, left ungrouped. */
  method ScanChunk(ghost sim: Similarity, blocks: map<string, Block>, chunks: seq<seq<seq<int>>>, threshold: real,
                   i: nat, inc: nat, grouped: seq<int>, cmap: map<int, seq<int>>, cid: nat)
    returns (grouped': seq<int>, cmap': map<int, seq<int>>, cid': nat)
    requires Shaped(blocks, chunks) && Computed(blocks, sim, chunks) && i < |chunks| && inc == Offset(chunks, i)
    requires ScanState(cmap, cid, grouped, Total(chunks)) && PivotsLast(cmap, sim, chunks, threshold)
    ensures ScanState(cmap', cid', grouped', Total(chunks)) && PivotsLast(cmap', sim, chunks, threshold)
    ensures cid' >= cid && (forall k :: 0 <= k < cid ==> cmap'[k] == cmap[k]) && grouped <= grouped'
    ensures || (forall x :: inc <= x < inc + |chunks[i]| ==> x in grouped')
            || (Offset(chunks, i + 1) == Total(chunks) && Total(chunks) - 1 !in grouped')
  {
    var leftoverAbsI, rowMatrix, width := StackLeftover(sim, blocks, chunks, i, inc, grouped);
    grouped', cmap', cid' := PivotLoop(sim, chunks, rowMatrix, width, leftoverAbsI, threshold, Total(chunks), grouped, cmap, cid);
    forall x | inc <= x < inc + |chunks[i]| && x !in grouped'
      ensures Offset(chunks, i + 1) == Total(chunks) && Total(chunks) - 1 !in grouped'
    {
      assert x !in grouped && x in leftoverAbsI;
    }
  }

  lemma {:induction false} RangeCard(n: nat)
    ensures |Range(0, n)| == n
  {
    if n > 0 {
      RangeCard(n - 1);
    }
  }

  /** The scan's clusters before sorting: ids `0..n-1`, nonempty lists of
      distinct documents below `total`, no document in two clusters. */
  ghost predicate Clusters(cmap: map<int, seq<int>>, total: nat)
  {
    && (forall k :: k in cmap <==> 0 <= k < |cmap|)
    && (forall k :: k in cmap ==> |cmap[k]| > 0 && NoRepeats(cmap[k]) && forall x :: x in cmap[k] ==> 0 <= x < total)
    && (forall k1, k2, x :: k1 in cmap && k2 in cmap && k1 != k2 && x in cmap[k1] ==> x !in cmap[k2])
  }

  lemma ScanStateClusters(cmap: map<int, seq<int>>, cid: nat, grouped: seq<int>, total: nat)
    requires ScanState(cmap, cid, grouped, total)
    ensures Clusters(cmap, total)
  {
    assert cmap.Keys == Range(0, cid);
    RangeCard(cid);
  }

  /** After the pass over chunk `i`, with every earlier document grouped, a
      document still ungrouped is in the last chunk, and so is the last
      document, also ungrouped. */
  lemma ChunkScanned(chunks: seq<seq<seq<int>>>, i: nat, grouped: seq<int>, grouped': seq<int>)
    requires i < |chunks| && forall j :: 0 <= j < |chunks| ==> |chunks[j]| > 0
    requires forall x :: 0 <= x < Offset(chunks, i) ==> x in grouped
    requires grouped <= grouped'
    requires || (forall x :: Offset(chunks, i) <= x < Offset(chunks, i) + |chunks[i]| ==> x in grouped')
             || (Offset(chunks, i + 1) == Total(chunks) && Total(chunks) - 1 !in grouped')
    ensures forall x :: 0 <= x < Offset(chunks, i + 1) && x !in grouped' ==>
              i + 1 == |chunks| && InLastChunk(chunks, x) && Total(chunks) - 1 !in grouped'
  {
    forall x | 0 <= x < Offset(chunks, i + 1) && x !in grouped'
      ensures i + 1 == |chunks| && InLastChunk(chunks, x) && Total(chunks) - 1 !in grouped'
    {
      assert x !in grouped;
      if i + 1 < |chunks| {
        OffsetMono(chunks, i + 2, |chunks|);
        assert false;
      }
    }
  }

  /** The scan over all chunks (`execute`, step 3 up to the reindexing).
      Every cluster lists its pivot last, after later documents scoring at
      least the threshold against it. Every document is in exactly one
      cluster, except documents of the last chunk, which the early stop at
      the last document of the collection leaves out together with that
      document. */
  method Scan(ghost sim: Similarity, blocks: map<string, Block>, chunks: seq<seq<seq<int>>>, threshold: real)
    returns (cmap: map<int, seq<int>>)
    requires Shaped(blocks, chunks) && Computed(blocks, sim, chunks)
    requires forall i :: 0 <= i < |chunks| ==> |chunks[i]| > 0
    ensures Clusters(cmap, Total(chunks)) && PivotsLast(cmap, sim, chunks, threshold)
    ensures forall x :: 0 <= x < Total(chunks) && Unclustered(cmap, x) ==>
              InLastChunk(chunks, x) && Unclustered(cmap, Total(chunks) - 1)
  {
    var grouped: seq<int> := [];
    var cid: nat := 0;
    var inc: nat := 0;
    cmap := map[];
    for i := 0 to |chunks|
      invariant inc == Offset(chunks, i)
      invariant ScanState(cmap, cid, grouped, Total(chunks)) && PivotsLast(cmap, sim, chunks, threshold)
      invariant forall x :: 0 <= x < inc && x !in grouped ==>
                  i == |chunks| && InLastChunk(chunks, x) && Total(chunks) - 1 !in grouped
    {
      var grouped', cmap', cid' := ScanChunk(sim, blocks, chunks, threshold, i, inc, grouped, cmap, cid);
      ChunkScanned(chunks, i, grouped, grouped');
      grouped, cmap, cid := grouped', cmap', cid';
      inc := inc + |blocks[BlockKey(i, 0)].rows|;
    }
    ScanStateClusters(cmap, cid, grouped, Total(chunks));
    forall x | 0 <= x < Total(chunks) && Unclustered(cmap, x)
      ensures InLastChunk(chunks, x) && Unclustered(cmap, Total(chunks) - 1)
    {
      assert x !in grouped;
    }
  }

  /** Two positions holding the same value count it twice. */
  lemma TwoPositions(xs: seq<int>, i: nat, j: nat)
    requires i < j < |xs| && xs[i] == xs[j]
    ensures multiset(xs)[xs[i]] >= 2
  {
    assert xs == xs[..j] + [xs[j]] + xs[j + 1..];
    assert xs[i] in multiset(xs[..j]);
  }

  /** Sorting a list of distinct values makes it strictly ascending. */
  lemma SortDistinct(xs: seq<int>)
    requires NoRepeats(xs)
    ensures StrictlySorted(SortInts(xs)) && Elems(SortInts(xs)) == Elems(xs) && |SortInts(xs)| == |xs|
  {
    var r := SortInts(xs);
    assert |r| == |multiset(r)| == |multiset(xs)| == |xs|;
    forall i, j | 0 <= i < j < |r|
      ensures r[i] < r[j]
    {
      if r[i] == r[j] {
        TwoPositions(r, i, j);
        assert false;
      }
    }
    forall x
      ensures x in r <==> x in xs
    {
      assert x in r <==> x in multiset(r);
    }
  }

  /** `for k, v in items(): m[k] = sorted(v)`. */
  method SortLists(cmap: map<int, seq<int>>) returns (sorted: map<int, seq<int>>)
    ensures sorted.Keys == cmap.Keys && forall k :: k in cmap ==> sorted[k] == SortInts(cmap[k])
  {
    sorted := cmap;
    var keys := cmap.Keys;
    while keys != {}
      invariant keys <= cmap.Keys && sorted.Keys == cmap.Keys
      invariant forall k :: k in cmap ==> sorted[k] == if k in keys then cmap[k] else SortInts(cmap[k])
      decreases keys
    {
      HasElement(keys);
      var k :| k in keys;
      sorted := sorted[k := SortInts(sorted[k])];
      keys := keys - {k};
    }
  }

  /** Sorting each cluster's list turns the scan's clusters into the final
      report and keeps every document's membership. */
  lemma SortedClustering(cmap: map<int, seq<int>>, sorted: map<int, seq<int>>, total: nat)
    requires Clusters(cmap, total)
    requires sorted.Keys == cmap.Keys && forall k :: k in cmap ==> sorted[k] == SortInts(cmap[k])
    ensures Clustering(sorted, total)
    ensures forall k, x :: k in cmap ==> (x in sorted[k] <==> x in cmap[k])
  {
    assert |sorted| == |sorted.Keys| == |cmap.Keys| == |cmap|;
    forall k | k in cmap
      ensures StrictlySorted(sorted[k]) && Elems(sorted[k]) == Elems(cmap[k]) && |sorted[k]| == |cmap[k]|
    {
      SortDistinct(cmap[k]);
    }
    forall k, x | k in cmap
      ensures x in sorted[k] <==> x in cmap[k]
    {
      assert x in sorted[k] <==> x in Elems(sorted[k]);
      assert x in cmap[k] <==> x in Elems(cmap[k]);
    }
  }

  /** A cluster listing its pivot last, sorted ascending: the pivot, the
      smallest member, comes first, and every other member scores at least
      the threshold against it. */
  lemma PivotFirst(c: seq<int>, s: seq<int>, sim: Similarity, chunks: seq<seq<seq<int>>>, threshold: real)
    requires PivotLast(c, sim, chunks, threshold) && StrictlySorted(s) && Elems(s) == Elems(c)
    ensures |s| > 0 && s[0] == c[|c| - 1]
    ensures forall t :: 0 < t < |s| ==> Scored(sim, chunks, s[0], s[t], threshold)
  {
    var p := c[|c| - 1];
    assert p in Elems(c);
    forall x | x in Elems(c) && x != p
      ensures p < x && Scored(sim, chunks, p, x, threshold)
    {
      var t :| 0 <= t < |c| && c[t] == x;
      assert t != |c| - 1;
    }
    var j :| 0 <= j < |s| && s[j] == p;
    assert s[0] in Elems(s);
    if j > 0 {
      assert false;
    }
    forall t | 0 < t < |s|
      ensures Scored(sim, chunks, s[0], s[t], threshold)
    {
      assert s[t] in Elems(s) && s[0] < s[t];
    }
  }

  /** Sorting each list of a scan's clusters turns pivot-last lists into
      pivot-first ones. */
  lemma SortedPivots(cmap: map<int, seq<int>>, sorted: map<int, seq<int>>, sim: Similarity,
                     chunks: seq<seq<seq<int>>>, threshold: real)
    requires Clusters(cmap, Total(chunks)) && PivotsLast(cmap, sim, chunks, threshold)
    requires sorted.Keys == cmap.Keys && forall k :: k in cmap ==> sorted[k] == SortInts(cmap[k])
    ensures PivotsFirst(sorted, sim, chunks, threshold)
  {
    forall k | k in sorted
      ensures forall t :: 0 < t < |sorted[k]| ==> Scored(sim, chunks, sorted[k][0], sorted[k][t], threshold)
    {
      SortDistinct(cmap[k]);
      PivotFirst(cmap[k], sorted[k], sim, chunks, threshold);
    }
  }

  /** Steps 2 to 4 of `execute` over the stored chunks: the blocks, the scan
      and the sorted lists. It fails exactly on a chunk the similarity
      rejects; otherwise ids are consecutive, every list is strictly
      ascending, disjoint from the others and opens with its pivot, every
      other member scores at least `threshold` against the pivot, and a
      document is left out only together with the last document, in the
      last chunk. */
  method ClusterChunks(sim: Similarity, chunks: seq<seq<seq<int>>>, threshold: real)
    returns (ok: bool, sorted: map<int, seq<int>>)
    ensures ok <==> !AnyDegenerate(chunks)
    ensures ok ==> Clustering(sorted, Total(chunks)) && PivotsFirst(sorted, sim, chunks, threshold)
    ensures ok ==> forall x :: 0 <= x < Total(chunks) && Unclustered(sorted, x) ==>
                     InLastChunk(chunks, x) && Unclustered(sorted, Total(chunks) - 1)
  {
    var blocks;
    ok, blocks := ComputeBlocks(sim, chunks);
    if !ok {
      return ok, map[];
    }
    assert forall i :: 0 <= i < |chunks| ==> !Degenerate(chunks[i]);
    var cmap := Scan(sim, blocks, chunks, threshold);
    sorted := SortLists(cmap);
    SortedClustering(cmap, sorted, Total(chunks));
    SortedPivots(cmap, sorted, sim, chunks, threshold);
  }

  // ---------------------------------------------------------------------------
  // The clusterer
  // ---------------------------------------------------------------------------

  /** `np.isin(node_ids, h)` for every hashed trace `h`: one membership row
      per trace over the node ids. */
  function OneHot(nodeIds: seq<string>, hashed: seq<seq<string>>): (m: seq<seq<int>>)
    ensures |m| == |hashed| && forall r :: 0 <= r < |hashed| ==> |m[r]| == |nodeIds|
  {
    seq(|hashed|, r requires 0 <= r < |hashed| => MembershipRow(nodeIds, hashed[r]))
  }

  /** A trace's row is all zero, and so fails the similarity step, exactly
      when none of the node ids occurs among its hashes. */
  lemma OneHotZeroRow(nodeIds: seq<string>, hashed: seq<seq<string>>, r: nat)
    requires r < |hashed|
    ensures ZeroRow(OneHot(nodeIds, hashed)[r]) <==> forall k :: 0 <= k < |nodeIds| ==> nodeIds[k] !in hashed[r]
  {
    var row := OneHot(nodeIds, hashed)[r];
    if ZeroRow(row) {
      forall k | 0 <= k < |nodeIds|
        ensures nodeIds[k] !in hashed[r]
      {
        assert row[k] == 0;
      }
    }
  }

  /** The arrays stored under the data paths of `tableNodes`, in order. */
  function ChunksOf(tableNodes: seq<(string, string)>, dataArrays: map<string, seq<seq<int>>>): (chunks: seq<seq<seq<int>>>)
    requires forall i :: 0 <= i < |tableNodes| ==> tableNodes[i].1 in dataArrays
    ensures |chunks| == |tableNodes|
  {
    seq(|tableNodes|, i requires 0 <= i < |tableNodes| => dataArrays[tableNodes[i].1])
  }

  class BigDataReport {
    var clusterDocidsMap: map<int, seq<int>>
    var status: string
    var chunkSize: int

    constructor ()
      ensures clusterDocidsMap == map[] && status == "ERROR" && chunkSize == 0
    {
      clusterDocidsMap, status, chunkSize := map[], "ERROR", 0;
    }
  }

  /** `BigDataClusterring`. The temporary one-hot storage is the pair of maps
      from the `/uuid/...` and `/data/...` paths to the arrays stored there;
      it exists only in the 'hdf5' storage mode. */
  class BigDataClusterring {
    var clusterSimilarThreshold: real
    var nodeIds: seq<string>
    const bigdataReport: BigDataReport
    var storage: string
    var tableNodes: seq<(string, string)>
    var uuidArrays: map<string, seq<int>>
    var dataArrays: map<string, seq<seq<int>>>

    /** Every recorded chunk has its one-hot matrix stored, and chunks were
        only recorded through the 'hdf5' storage. */
    predicate Valid()
      reads this
    {
      && (forall i :: 0 <= i < |tableNodes| ==> tableNodes[i].1 in dataArrays)
      && (|tableNodes| > 0 ==> storage == "hdf5")
    }

    /** The stored one-hot matrices in the order of `table_nodes`. */
    function Chunks(): seq<seq<seq<int>>>
      requires Valid()
      reads this
    {
      ChunksOf(tableNodes, dataArrays)
    }

    constructor (threshold: real, ids: seq<string>, storageMode: string)
      ensures Valid() && fresh(bigdataReport)
      ensures clusterSimilarThreshold == threshold && nodeIds == ids && storage == storageMode
      ensures tableNodes == [] && uuidArrays == map[] && dataArrays == map[]
      ensures bigdataReport.clusterDocidsMap == map[] && bigdataReport.status == "ERROR" && bigdataReport.chunkSize == 0
    {
      clusterSimilarThreshold := threshold;
      nodeIds := ids;
      bigdataReport := new BigDataReport();
      storage := storageMode;
      tableNodes, uuidArrays, dataArrays := [], map[], map[];
    }

    /** `add`: the assertions on the inputs, then `write_into_file`, which has
        no storage outside the 'hdf5' mode and refuses a path that already
        exists. The uuid array is written before the data array, so a clash
        on the data path alone leaves the uuid array behind. */
    method Add(chunkIdx: nat, uuids: Option<seq<int>>, hashed: Option<seq<seq<string>>>) returns (ok: bool)
      requires Valid()
      modifies this
      ensures Valid()
      ensures unchanged(this`clusterSimilarThreshold) && unchanged(this`nodeIds) && unchanged(this`storage)
      ensures ok <==> && storage == "hdf5" && uuids.Some? && hashed.Some? && |uuids.value| == |hashed.value|
                      && UuidKey(chunkIdx) !in old(uuidArrays) && DataKey(chunkIdx) !in old(dataArrays)
      ensures ok ==> && tableNodes == old(tableNodes) + [(UuidKey(chunkIdx), DataKey(chunkIdx))]
                     && uuidArrays == old(uuidArrays)[UuidKey(chunkIdx) := uuids.value]
                     && dataArrays == old(dataArrays)[DataKey(chunkIdx) := OneHot(nodeIds, hashed.value)]
      ensures !ok ==> tableNodes == old(tableNodes) && dataArrays == old(dataArrays)
      ensures var wroteUuid := && storage == "hdf5" && uuids.Some? && hashed.Some?
                               && |uuids.value| == |hashed.value| && UuidKey(chunkIdx) !in old(uuidArrays);
              !ok ==> uuidArrays == if wroteUuid then old(uuidArrays)[UuidKey(chunkIdx) := uuids.value] else old(uuidArrays)
    {
      if uuids.None? || hashed.None? || |uuids.value| != |hashed.value| {
        return false;
      }
      var matrix := OneHot(nodeIds, hashed.value);
      if storage != "hdf5" {
        return false;
      }
      var uuidKey, dataKey := UuidKey(chunkIdx), DataKey(chunkIdx);
      if uuidKey in uuidArrays {
        return false;
      }
      uuidArrays := uuidArrays[uuidKey := uuids.value];
      if dataKey in dataArrays {
        return false;
      }
      dataArrays := dataArrays[dataKey := matrix];
      tableNodes := tableNodes + [(uuidKey, dataKey)];
      ok := true;
    }

    /** `execute`: the blocks of every chunk pair, the scan, the sorting of
        each cluster's list, and the report. An empty chunk or a stored row
        without any node (norm 0) fails the similarity step and leaves the
        report as it was ('ERROR' unless an earlier run succeeded). On
        success each reported list starts with its pivot and every other
        member scores at least the threshold against it. */
    method Execute(sim: Similarity) returns (ok: bool)
      requires Valid()
      modifies bigdataReport
      ensures ok <==> !AnyDegenerate(Chunks())
      ensures !ok ==> unchanged(bigdataReport)
      ensures ok ==> && bigdataReport.status == "OK" && bigdataReport.chunkSize == old(bigdataReport.chunkSize)
                     && Clustering(bigdataReport.clusterDocidsMap, Total(Chunks()))
                     && PivotsFirst(bigdataReport.clusterDocidsMap, sim, Chunks(), clusterSimilarThreshold)
      ensures ok ==> forall x :: 0 <= x < Total(Chunks()) && Unclustered(bigdataReport.clusterDocidsMap, x) ==>
                       InLastChunk(Chunks(), x) && Unclustered(bigdataReport.clusterDocidsMap, Total(Chunks()) - 1)
    {
      var sorted;
      ok, sorted := ClusterChunks(sim, Chunks(), clusterSimilarThreshold);
      if !ok {
        return;
      }
      bigdataReport.clusterDocidsMap := sorted;
      bigdataReport.status := "OK";
    }
  }
}
