/** Values shared by the slice enumerator: prediction rows, the state of a
    bucket as the (unseen) metric and ranking code sees it, the top-k store,
    and the abstract collaborators the enumerator calls but whose code is not
    part of this model. */
module SliceValues {

  /** One prediction row as the enumerator maps it: the row id, the indices
      of the one-hot feature bins the row satisfies, and its model error. */
  datatype Row = Row(id: int, indices: seq<int>, error: real)

  /** What a bucket holds at one moment. `folds` is the sequence of rows that
      `update_metrics` and `combine_with` have folded into it: the bucket's
      numeric metrics (size, error sums, bounds, score) are some function of
      that history, the flags and the run's fixed parameters, so this is the
      most a caller can know about them. */
  datatype Snapshot = Snapshot(
    name: string,
    attributes: set<int>,
    level: int,
    folds: seq<Row>,
    boundsComputed: bool,
    scored: bool)

  /** A bucket together with the snapshots of its parents, which is what the
      bound computation may consult. */
  datatype BucketView = BucketView(self: Snapshot, parents: seq<Snapshot>)

  /** The top-k store: its capacity and its current entries. */
  datatype TopK = TopK(k: int, entries: seq<Snapshot>)

  /** The arguments of `approved_join_slice(node_i, node_j, cur_lvl)`. */
  datatype ApprovalArgs = ApprovalArgs(nodeI: Snapshot, nodeJ: Snapshot, curLvl: int)

  /** The bucket and the arguments of `bucket.check_bounds(x_size, alpha, top_k)`. */
  datatype BoundsArgs = BoundsArgs(bucket: BucketView, xSize: nat, alpha: int, topK: TopK)

  /** The store and the arguments of `top_k.buckets_top_k(level, x_size, alpha)`. */
  datatype RankArgs = RankArgs(topK: TopK, level: seq<Snapshot>, xSize: nat, alpha: int)

  /** The collaborators whose code is not part of this model. Within one run
      the weighting factor, the loss and the loss type are fixed, so they are
      captured by these functions rather than passed around.
      - nameOf:      `Bucket.name`, derived from the bucket's attribute set
      - approval:    `approved_join_slice`
      - bounds:      `Bucket.check_bounds`
      - ranking:     `Topk.buckets_top_k` */
  datatype Oracles = Oracles(
    nameOf: set<int> -> string,
    approval: ApprovalArgs -> bool,
    bounds: BoundsArgs -> bool,
    ranking: RankArgs -> TopK)
  {
    predicate Approved(nodeI: Snapshot, nodeJ: Snapshot, curLvl: int)
    {
      approval(ApprovalArgs(nodeI, nodeJ, curLvl))
    }

    predicate CheckBounds(bucket: BucketView, xSize: nat, alpha: int, topK: TopK)
    {
      bounds(BoundsArgs(bucket, xSize, alpha, topK))
    }

    function RankTopK(topK: TopK, level: seq<Snapshot>, xSize: nat, alpha: int): TopK
    {
      ranking(RankArgs(topK, level, xSize, alpha))
    }
  }

  /** A row satisfies a slice when every attribute of the slice is among the
      row's feature indices. */
  predicate Covers(indices: seq<int>, attributes: set<int>)
  {
    forall a :: a in attributes ==> a in indices
  }

  /** The rows, in stream order, that a bucket with these attributes folds in
      during one aggregation pass. */
  function Covering(rows: seq<Row>, attributes: set<int>): (r: seq<Row>)
    ensures |r| <= |rows|
  {
    if rows == [] then []
    else
      var last := rows[|rows| - 1];
      Covering(rows[..|rows| - 1], attributes)
        + (if Covers(last.indices, attributes) then [last] else [])
  }

  /** Folding one more row extends the fold by that row exactly when the row
      satisfies the slice. */
  lemma CoveringSnoc(rows: seq<Row>, row: Row, attributes: set<int>)
    ensures Covering(rows + [row], attributes)
         == Covering(rows, attributes) + (if Covers(row.indices, attributes) then [row] else [])
  {
    assert (rows + [row])[..|rows|] == rows;
  }

  /** Every covering row is folded in exactly as often as it occurs in the
      stream, and no other row is folded in at all. */
  lemma {:induction false} CoveringCounts(rows: seq<Row>, attributes: set<int>, x: Row)
    ensures multiset(Covering(rows, attributes))[x]
         == if Covers(x.indices, attributes) then multiset(rows)[x] else 0
  {
    if rows != [] {
      var init, last := rows[..|rows| - 1], rows[|rows| - 1];
      CoveringCounts(init, attributes, x);
      assert rows == init + [last];
    }
  }

  /** Folding a stream split into two consecutive parts gives the
      concatenation of the folds of the parts: a partitioned pass whose
      partial buckets are merged in order reproduces the single pass. */
  lemma {:induction false} CoveringAppend(front: seq<Row>, back: seq<Row>, attributes: set<int>)
    ensures Covering(front + back, attributes) == Covering(front, attributes) + Covering(back, attributes)
  {
    if back != [] {
      var init, last := back[..|back| - 1], back[|back| - 1];
      CoveringAppend(front, init, attributes);
      assert (front + back)[..|front + back| - 1] == front + init;
      assert (front + back)[|front + back| - 1] == last;
    } else {
      assert front + back == front;
    }
  }

  /** A bucket receives nothing in a pass exactly when no row satisfies it. */
  lemma {:induction false} CoveringEmpty(rows: seq<Row>, attributes: set<int>)
    ensures Covering(rows, attributes) == []
        <==> forall t :: 0 <= t < |rows| ==> !Covers(rows[t].indices, attributes)
  {
    if rows != [] {
      var init := rows[..|rows| - 1];
      CoveringEmpty(init, attributes);
      assert forall t :: 0 <= t < |init| ==> init[t] == rows[t];
    }
  }

  /** The widest row of the stream, counted in feature indices. */
  function MaxWidth(rows: seq<Row>): (m: nat)
    ensures forall t :: 0 <= t < |rows| ==> |rows[t].indices| <= m
    ensures m == 0 || exists t :: 0 <= t < |rows| && |rows[t].indices| == m
  {
    if rows == [] then 0
    else
      var m := MaxWidth(rows[..|rows| - 1]);
      var w := |rows[|rows| - 1].indices|;
      if w > m then w else m
  }

  lemma SubsetCard(a: set<int>, b: set<int>)
    requires a <= b
    ensures |a| <= |b|
  {
    assert b == a + (b - a);
  }

  lemma {:induction false} ElementsCard(s: seq<int>)
    ensures |set x | x in s| <= |s|
  {
    if s != [] {
      ElementsCard(s[1..]);
      assert (set x | x in s) == (set x | x in s[1..]) + {s[0]};
    }
  }

  /** A slice that some row satisfies has no more attributes than the widest
      row has indices. */
  lemma CoveredWidth(rows: seq<Row>, attributes: set<int>)
    requires Covering(rows, attributes) != []
    ensures |attributes| <= MaxWidth(rows)
  {
    CoveringEmpty(rows, attributes);
    var t :| 0 <= t < |rows| && Covers(rows[t].indices, attributes);
    var idx := rows[t].indices;
    assert forall a :: a in attributes ==> a in idx;
    SubsetCard(attributes, set x | x in idx);
    ElementsCard(idx);
  }

  /** The union of two different attribute sets, each of at least c
      attributes, has at least c + 1 attributes. */
  lemma UnionGrows(a: set<int>, b: set<int>, c: int)
    requires a != b && |a| >= c && |b| >= c
    ensures |a + b| >= c + 1
  {
    if b <= a {
      assert a == b + (a - b);
      assert a - b != {};
    } else {
      assert a + b == a + (b - a);
      assert b - a != {};
    }
  }
}
