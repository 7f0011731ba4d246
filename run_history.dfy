/** The history of the level loop: the levels it collected and the
    rankings it made, round by round. */
module RunHistory {
  import opened SliceValues
  import opened JoinLattice
  import opened LevelRuns

  /** views and ranks record a run of the level loop so far: views[t] are
      the snapshots of the level collected in round t (round 0 being the
      seeding) as the ranking saw them, ranks[t] the top-k after ranking it.
      Level 0 is seeded and ranked into an empty store of capacity k; round
      n joins the non-empty level n - 1 at level number n with the top-k of
      round n - 1, and ranks the result. */
  ghost predicate Run(views: seq<seq<Snapshot>>, ranks: seq<TopK>,
                      allFeatures: seq<int>, rows: seq<Row>, alpha: int, k: int, o: Oracles)
  {
    && |views| == |ranks| >= 1
    && Starts(views[0], ranks[0], allFeatures, rows, alpha, k, o)
    && forall t :: 0 <= t < |views| - 1 ==>
         Steps(views[t], ranks[t], views[t + 1], ranks[t + 1], t + 1, rows, alpha, o)
  }

  /** A run extended by one more round is a run. */
  lemma RunSnoc(views: seq<seq<Snapshot>>, ranks: seq<TopK>, next: seq<Snapshot>, nextRank: TopK,
                allFeatures: seq<int>, rows: seq<Row>, alpha: int, k: int, o: Oracles)
    requires Run(views, ranks, allFeatures, rows, alpha, k, o)
    requires |views[|views| - 1]| > 0
    requires Succeeds(views[|views| - 1], next, rows, JoinArgs(|views|, |rows|, alpha, ranks[|views| - 1]), o)
    requires nextRank == o.RankTopK(ranks[|views| - 1], next, |rows|, alpha)
    ensures Run(views + [next], ranks + [nextRank], allFeatures, rows, alpha, k, o)
  {
    var n := |views|;
    var views', ranks' := views + [next], ranks + [nextRank];
    StepsIntro(views[n - 1], ranks[n - 1], next, nextRank, n, rows, alpha, o);
    forall t | 0 <= t < n
      ensures Steps(views'[t], ranks'[t], views'[t + 1], ranks'[t + 1], t + 1, rows, alpha, o)
    {
      if t < n - 1 {
        assert views'[t] == views[t] && views'[t + 1] == views[t + 1] && ranks'[t] == ranks[t] && ranks'[t + 1] == ranks[t + 1];
      } else {
        assert views'[t] == views[t] && views'[t + 1] == next && ranks'[t] == ranks[t] && ranks'[t + 1] == nextRank;
      }
    }
    assert views'[0] == views[0] && ranks'[0] == ranks[0];
  }

  /** The level number counts the rounds: every bucket collected in round t
      is at level t (round 0 being the seeding) and has more than t
      attributes. */
  lemma RunLevelNumbers(views: seq<seq<Snapshot>>, ranks: seq<TopK>,
                        allFeatures: seq<int>, rows: seq<Row>, alpha: int, k: int, o: Oracles)
    requires Run(views, ranks, allFeatures, rows, alpha, k, o)
    ensures forall t, i :: 0 <= t < |views| && 0 <= i < |views[t]| ==>
      views[t][i].level == t && |views[t][i].attributes| >= t + 1
  {
    forall t, i | 0 <= t < |views| && 0 <= i < |views[t]|
      ensures views[t][i].level == t && |views[t][i].attributes| >= t + 1
    {
      if t > 0 {
        StepsLevel(views[t - 1], ranks[t - 1], views[t], ranks[t], t, rows, alpha, o);
      } else {
        StartsLevel(views[0], ranks[0], allFeatures, rows, alpha, k, o);
      }
    }
  }
}
