/** What the level loop of the enumerator guarantees about each level it
    collects, and about a whole run. */
module LevelRuns {
  import opened SliceValues
  import opened JoinLattice
  import opened Buckets
  import opened BucketMaps

  /** A collected level every bucket of which has at least lvl attributes and
      is satisfied by some row, no two of them with the same attribute set. */
  ghost predicate Viable(level: seq<Bucket>, rows: seq<Row>, lvl: int)
    reads level
  {
    && (forall t :: 0 <= t < |level| ==>
          |level[t].attributes| >= lvl && Covering(rows, level[t].attributes) != [])
    && forall s, t :: 0 <= s < t < |level| ==> level[s].attributes != level[t].attributes
  }

  /** b went through one aggregation pass and calc_bucket_metrics: it has
      folded in exactly the rows that satisfy it, at least one, and is
      scored. */
  ghost predicate Assessed(b: Bucket, rows: seq<Row>)
    reads b
  {
    b.folds == Covering(rows, b.attributes) && b.folds != [] && b.scored
  }

  /** level is level 0 as parallel_process collects it: each bucket is the
      seed of one feature under that feature's name, at level 0, with no
      parents and no bounds, aggregated over the rows and scored; every seed
      some row satisfies is there; and the level is viable at level 1. */
  ghost predicate Seeded(level: seq<Bucket>, allFeatures: seq<int>, rows: seq<Row>, o: Oracles)
    reads level
  {
    && Viable(level, rows, 1)
    && (forall t :: 0 <= t < |level| ==>
          && level[t].name in SeedSpec(allFeatures, o)
          && level[t].attributes == {SeedSpec(allFeatures, o)[level[t].name]}
          && level[t].level == 0 && level[t].parents == [] && !level[t].boundsComputed
          && Assessed(level[t], rows))
    && forall k :: k in SeedSpec(allFeatures, o) && Covering(rows, {SeedSpec(allFeatures, o)[k]}) != [] ==>
         exists t :: 0 <= t < |level| && level[t].name == k
  }

  /** The attribute set of the bucket JoinSpec stores under k, when its
      pair lies within the level. */
  ghost predicate SatisfiedPair(prevLevel: seq<Bucket>, p: (nat, nat), rows: seq<Row>)
  {
    p.0 < |prevLevel| && p.1 < |prevLevel|
    && Covering(rows, prevLevel[p.0].attributes + prevLevel[p.1].attributes) != []
  }

  /** next is the level one round of the level loop builds from prev, whose
      snapshots at the time were views: each bucket is the JoinSpec bucket of
      its name, joined from its pair of prev, bounds computed, aggregated over
      the rows and scored; every JoinSpec bucket some row satisfies is there;
      and next is viable one level up. */
  ghost predicate Successor(prev: seq<Bucket>, next: seq<Bucket>, views: seq<Snapshot>, rows: seq<Row>,
                            args: JoinArgs, o: Oracles)
    reads next
  {
    var spec := JoinSpec(views, args, o);
    && Viable(next, rows, args.curLvl + 1)
    && (forall t :: 0 <= t < |next| ==>
          && next[t].name in spec
          && Joined(next[t], prev, spec[next[t].name], args.curLvl, o)
          && next[t].boundsComputed && Assessed(next[t], rows))
    && forall k :: k in spec && SatisfiedPair(prev, spec[k], rows) ==>
         exists t :: 0 <= t < |next| && next[t].name == k
  }

  /** A level as the ranking sees it, by snapshots: every slice has at least
      lvl attributes and is satisfied by some row, no two with the same
      attribute set. */
  ghost predicate ViableViews(vs: seq<Snapshot>, rows: seq<Row>, lvl: int)
  {
    && (forall t :: 0 <= t < |vs| ==> |vs[t].attributes| >= lvl && Covering(rows, vs[t].attributes) != [])
    && forall s, t :: 0 <= s < t < |vs| ==> vs[s].attributes != vs[t].attributes
  }

  /** The snapshot of a bucket that went through one aggregation pass and
      calc_bucket_metrics. */
  ghost predicate AssessedView(v: Snapshot, rows: seq<Row>)
  {
    v.folds == Covering(rows, v.attributes) && v.folds != [] && v.scored
  }

  /** Seeded, by snapshots. */
  ghost predicate SeededViews(vs: seq<Snapshot>, allFeatures: seq<int>, rows: seq<Row>, o: Oracles)
  {
    && ViableViews(vs, rows, 1)
    && (forall t :: 0 <= t < |vs| ==>
          && vs[t].name in SeedSpec(allFeatures, o)
          && vs[t].attributes == {SeedSpec(allFeatures, o)[vs[t].name]}
          && vs[t].level == 0 && !vs[t].boundsComputed && AssessedView(vs[t], rows))
    && forall k :: k in SeedSpec(allFeatures, o) && Covering(rows, {SeedSpec(allFeatures, o)[k]}) != [] ==>
         exists t :: 0 <= t < |vs| && vs[t].name == k
  }

  /** Successor, by snapshots: next is the level one round builds from the
      level whose snapshots were prev. */
  ghost predicate Succeeds(prev: seq<Snapshot>, next: seq<Snapshot>, rows: seq<Row>, args: JoinArgs, o: Oracles)
  {
    var spec := JoinSpec(prev, args, o);
    && ViableViews(next, rows, args.curLvl + 1)
    && (forall t :: 0 <= t < |next| ==>
          && next[t].name in spec
          && spec[next[t].name].0 < spec[next[t].name].1 < |prev|
          && next[t].attributes == prev[spec[next[t].name].0].attributes + prev[spec[next[t].name].1].attributes
          && next[t].name == o.nameOf(next[t].attributes)
          && next[t].level == args.curLvl
          && next[t].boundsComputed && AssessedView(next[t], rows))
    && forall k :: k in spec && spec[k].0 < |prev| && spec[k].1 < |prev|
                   && Covering(rows, prev[spec[k].0].attributes + prev[spec[k].1].attributes) != [] ==>
         exists t :: 0 <= t < |next| && next[t].name == k
  }

  /** A seeded level's snapshots are seeded. */
  lemma SeededSnaps(level: seq<Bucket>, vs: seq<Snapshot>, allFeatures: seq<int>, rows: seq<Row>, o: Oracles)
    requires Seeded(level, allFeatures, rows, o) && SnapshotsOf(vs, level)
    ensures SeededViews(vs, allFeatures, rows, o)
  {
    forall k | k in SeedSpec(allFeatures, o) && Covering(rows, {SeedSpec(allFeatures, o)[k]}) != []
      ensures exists t :: 0 <= t < |vs| && vs[t].name == k
    {
      var t :| 0 <= t < |level| && level[t].name == k;
      assert vs[t].name == k;
    }
  }

  /** The snapshots of a successor level succeed the snapshots of the level
      it was built from; only the attribute sets of the latter matter, and
      those never change. */
  lemma SuccessorSnaps(prev: seq<Bucket>, next: seq<Bucket>, prevViews: seq<Snapshot>, nextViews: seq<Snapshot>,
                       rows: seq<Row>, args: JoinArgs, o: Oracles)
    requires |prevViews| == |prev| && forall i :: 0 <= i < |prev| ==> prevViews[i].attributes == prev[i].attributes
    requires Successor(prev, next, prevViews, rows, args, o) && SnapshotsOf(nextViews, next)
    ensures Succeeds(prevViews, nextViews, rows, args, o)
  {
    var spec := JoinSpec(prevViews, args, o);
    forall k | k in spec && spec[k].0 < |prevViews| && spec[k].1 < |prevViews|
               && Covering(rows, prevViews[spec[k].0].attributes + prevViews[spec[k].1].attributes) != []
      ensures exists t :: 0 <= t < |nextViews| && nextViews[t].name == k
    {
      assert SatisfiedPair(prev, spec[k], rows);
      var t :| 0 <= t < |next| && next[t].name == k;
      assert nextViews[t].name == k;
    }
  }

  /** Round 0: the seeded level, ranked into an empty store of capacity k. */
  ghost predicate Starts(view: seq<Snapshot>, rank: TopK, allFeatures: seq<int>, rows: seq<Row>, alpha: int, k: int, o: Oracles)
  {
    SeededViews(view, allFeatures, rows, o) && rank == o.RankTopK(TopK(k, []), view, |rows|, alpha)
  }

  /** Round n: the non-empty level prev of round n - 1, ranked into prevRank,
      is joined at level number n into next, which is ranked into nextRank. */
  ghost predicate Steps(prev: seq<Snapshot>, prevRank: TopK, next: seq<Snapshot>, nextRank: TopK,
                        n: int, rows: seq<Row>, alpha: int, o: Oracles)
  {
    && |prev| > 0
    && Succeeds(prev, next, rows, JoinArgs(n, |rows|, alpha, prevRank), o)
    && nextRank == o.RankTopK(prevRank, next, |rows|, alpha)
  }

  /** Packs the three facts of a round into Steps. */
  lemma StepsIntro(prev: seq<Snapshot>, prevRank: TopK, next: seq<Snapshot>, nextRank: TopK,
                   n: int, rows: seq<Row>, alpha: int, o: Oracles)
    requires |prev| > 0
    requires Succeeds(prev, next, rows, JoinArgs(n, |rows|, alpha, prevRank), o)
    requires nextRank == o.RankTopK(prevRank, next, |rows|, alpha)
    ensures Steps(prev, prevRank, next, nextRank, n, rows, alpha, o)
  {
  }

  /** Level-0 snapshots are at level 0 with at least one attribute. */
  lemma StartsLevel(view: seq<Snapshot>, rank: TopK, allFeatures: seq<int>, rows: seq<Row>, alpha: int, k: int, o: Oracles)
    requires Starts(view, rank, allFeatures, rows, alpha, k, o)
    ensures forall i :: 0 <= i < |view| ==> view[i].level == 0 && |view[i].attributes| >= 1
  {
  }

  /** Snapshots joined in round n are at level n with more than n attributes. */
  lemma StepsLevel(prev: seq<Snapshot>, prevRank: TopK, next: seq<Snapshot>, nextRank: TopK,
                   n: int, rows: seq<Row>, alpha: int, o: Oracles)
    requires Steps(prev, prevRank, next, nextRank, n, rows, alpha, o)
    ensures forall i :: 0 <= i < |next| ==> next[i].level == n && |next[i].attributes| >= n + 1
  {
  }
}
