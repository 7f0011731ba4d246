/** The mutable bucket of one candidate slice. Its class is not part of
    this model's source, so only the shape the enumerator relies on is kept:
    a name, an attribute set and a level fixed at construction, a parents
    list it appends to, and metric mutators whose formulas are abstract. */
module Buckets {
  import opened SliceValues

  class Bucket {
    const name: string
    const attributes: set<int>
    const level: int
    var parents: seq<Bucket>
    /** The rows folded in so far by UpdateMetrics and CombineWith. */
    var folds: seq<Row>
    /** `calc_bounds` has run on this bucket. */
    var boundsComputed: bool
    /** `calc_bucket_metrics` has run on this bucket. */
    var scored: bool

    /** `Bucket(node, cur_lvl, w, x_size, loss)`: a fresh bucket for a node,
        with no parents and nothing folded in. */
    constructor (attributes: set<int>, level: int, name: string)
      ensures this.attributes == attributes && this.level == level && this.name == name
      ensures parents == [] && folds == [] && !boundsComputed && !scored
    {
      this.attributes := attributes;
      this.level := level;
      this.name := name;
      parents := [];
      folds := [];
      boundsComputed := false;
      scored := false;
    }

    /** The copy of a broadcast bucket that one map task works on. */
    constructor Copy(b: Bucket)
      ensures name == b.name && attributes == b.attributes && level == b.level
      ensures parents == b.parents && folds == b.folds
      ensures boundsComputed == b.boundsComputed && scored == b.scored
    {
      name := b.name;
      attributes := b.attributes;
      level := b.level;
      parents := b.parents;
      folds := b.folds;
      boundsComputed := b.boundsComputed;
      scored := b.scored;
    }

    function Snap(): Snapshot
      reads this
    {
      Snapshot(name, attributes, level, folds, boundsComputed, scored)
    }

    function View(): BucketView
      reads this, set p | p in parents
    {
      BucketView(Snap(), Snaps(parents))
    }

    /** `bucket.parents.append(node)` */
    method AddParent(p: Bucket)
      modifies this
      ensures parents == old(parents) + [p]
      ensures folds == old(folds) && boundsComputed == old(boundsComputed) && scored == old(scored)
    {
      parents := parents + [p];
    }

    /** `update_metrics(row, loss_type)`: folds one row into the metrics. */
    method UpdateMetrics(row: Row)
      modifies this
      ensures folds == old(folds) + [row]
      ensures parents == old(parents) && boundsComputed == old(boundsComputed) && scored == old(scored)
    {
      folds := folds + [row];
    }

    /** `combine_with(b)`: adds the rows folded into b to this bucket's. */
    method CombineWith(b: Bucket)
      modifies this
      ensures folds == old(folds) + old(b.folds)
      ensures parents == old(parents) && boundsComputed == old(boundsComputed) && scored == old(scored)
    {
      folds := folds + b.folds;
    }

    /** `calc_bounds(w, x_size, loss)` */
    method CalcBounds()
      modifies this
      ensures boundsComputed
      ensures parents == old(parents) && folds == old(folds) && scored == old(scored)
    {
      boundsComputed := true;
    }

    /** `spark_utils.calc_bucket_metrics(bucket, loss, w, x_size, cur_lvl)` */
    method CalcBucketMetrics()
      modifies this
      ensures scored
      ensures parents == old(parents) && folds == old(folds) && boundsComputed == old(boundsComputed)
    {
      scored := true;
    }
  }

  /** The snapshots of a list of buckets, in order. */
  function Snaps(bs: seq<Bucket>): (r: seq<Snapshot>)
    reads bs
    ensures |r| == |bs| && forall t :: 0 <= t < |bs| ==> r[t] == bs[t].Snap()
  {
    if bs == [] then [] else Snaps(bs[..|bs| - 1]) + [bs[|bs| - 1].Snap()]
  }
}
