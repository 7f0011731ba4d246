# Join-based data-parallel slice enumeration

This project models the level-wise slice finder of
`scripts/staging/slicing/spark_modules/join_data_parallel.py` in Dafny.
A slice is a set of one-hot feature indices (its attributes). A bucket
collects the prediction rows that satisfy a slice, meaning that every
attribute of the slice is among the row's indices. The bucket's metrics are
computed from those rows.

- **Level 0** has one bucket per feature.
- **Level l + 1** is built by `join_enum`. It pairs every two buckets of
  level l that `approved_join_slice` accepts, unions their attribute sets,
  and keeps the candidate when its bound check passes.
- **Each level** is aggregated over the rows, scored, and ranked into a
  top-k store. The search stops when a level comes back empty.

The Spark primitives are replaced by their sequential meaning:
- A broadcast is a fresh copy of the buckets for each map task.
- `rows.map(rows_mapper)` maps every row against its own copy.
- `flatMap` and `combineByKey(combiner, merge_values, merge_combiners)` fold
  the emitted pairs per key, in stream order.

Modules:

- `SliceValues` (`slice_values.dfy`) holds the value types:
  - rows, bucket snapshots and the top-k store;
  - the `Oracles` value, which carries the collaborators whose code is not
    part of this model (the bucket name of an attribute set,
    `approved_join_slice`, `check_bounds`, `buckets_top_k`);
  - `Covering`, the rows a slice folds in during one pass, with its
    algebra.
- `Buckets` (`bucket.dfy`) holds the mutable `Bucket` class. Its name,
  attributes and level are fixed at construction. It has a parents list and
  metric mutators. Its metrics are represented by `folds`, the history of
  rows folded in, because the metric formulas are not part of this model.
- `BucketMaps` (`bucket_maps.dfy`) holds the predicates over buckets and
  dictionaries of buckets that the contracts are written in.
- `JoinLattice` (`join_lattice.dfy`) holds the value-level specification
  of `join_enum`:
  - the nested-loop visiting order `AllPairs`;
  - the dictionary `JoinFold`, built by visiting pairs in that order where
    the last writer of a name wins;
  - its soundness and completeness;
  - the level-0 dictionary `SeedSpec`.
- `JoinDataParallel` (`join_data_parallel.dfy`) holds the imperative model
  of the file:
  - `rows_mapper`;
  - `join_enum`, as nested loops filling a dictionary in place and proved
    equal to `JoinFold`;
  - the merge helpers;
  - the aggregation pass;
  - the level loop of `parallel_process`, proved to terminate. Every level
    is made of distinct attribute sets, each at least as large as the level
    number and each satisfied by some row, so no level can outgrow the
    widest row.
- `LevelRuns` (`level_runs.dfy`) states what one round guarantees:
  - over the bucket objects (`Seeded` for level 0, `Successor` for a
    joined level);
  - over the snapshots the ranking sees (`SeededViews`, `Succeeds`);
  - the conversion from the first form to the second.
- `RunHistory` (`run_history.dfy`) holds `Run`, the history of a whole
  loop: the level collected in each round, as snapshots, and the top-k
  after ranking it.

## Model

| member | source | states |
|---|---|---|
| JoinDataParallel.RowsMapper | scripts/staging/slicing/spark_modules/join_data_parallel.py:10-14 | the filter of line 11 is SliceValues.Covers (every attribute of the bucket is among the row's indices); the result holds exactly the keys whose bucket's attributes all occur in the row's indices, each with the same bucket object; the row is folded once into each kept bucket and into no other; nothing else about any bucket changes |
| JoinDataParallel.NewCandidate | scripts/staging/slicing/spark_modules/join_data_parallel.py:23-28 | the candidate is a new bucket whose attributes are the union of the two nodes' attributes, named after that set, at the current level, with parents exactly [node_i, node_j], bounds computed and nothing folded in; what the bound check sees of it is CandidateView of the two nodes |
| JoinDataParallel.JoinPair | scripts/staging/slicing/spark_modules/join_data_parallel.py:21-30 | visiting the pair (i, j) turns a dictionary that realises JoinFold of the pairs visited so far into one that realises JoinFold of those pairs followed by (i, j); every bucket in it is either the one that was already there or a new one |
| JoinDataParallel.KeepStep | scripts/staging/slicing/spark_modules/join_data_parallel.py:30 | storing a new bucket built from (i, j) under its name keeps the dictionary a faithful realisation of the specification dictionary with (i, j) stored under that name, replacing any earlier entry |
| JoinDataParallel.JoinRow | scripts/staging/slicing/spark_modules/join_data_parallel.py:20-30 | the inner loop extends the realised dictionary from the pairs before outer index i to the pairs before outer index i + 1 |
| JoinDataParallel.JoinEnum | scripts/staging/slicing/spark_modules/join_data_parallel.py:17-31 | the returned dictionary realises JoinSpec of the nodes: the same keys, one distinct bucket per key, each stored under its own name and built from the pair JoinSpec gives for it; every bucket in it passed check_bounds and is new |
| JoinDataParallel.KeptPass | scripts/staging/slicing/spark_modules/join_data_parallel.py:29-30 | every bucket of a dictionary that realises JoinSpec passes check_bounds as it stands |
| JoinDataParallel.KeptPasses | scripts/staging/slicing/spark_modules/join_data_parallel.py:29-30 | a bucket built from the pair JoinSpec stores under a name passes check_bounds |
| JoinDataParallel.BuiltView | scripts/staging/slicing/spark_modules/join_data_parallel.py:24-28 | what the bound check sees of a bucket built from a pair is CandidateView of the pair's current snapshots |
| JoinLattice.RowPairs | scripts/staging/slicing/spark_modules/join_data_parallel.py:20 | the inner loop for outer index i visits (i, lo), (i, lo + 1), ..., (i, hi - 1), one pair per value of j |
| JoinLattice.PairsBelow | scripts/staging/slicing/spark_modules/join_data_parallel.py:19-20 | every pair visited before outer index i has first index below i and is (a, b) with a < b < n |
| JoinLattice.PairsStep | scripts/staging/slicing/spark_modules/join_data_parallel.py:20 | advancing the inner index by one visits exactly the pair (i, j) next |
| JoinLattice.PairsBelowSorted | scripts/staging/slicing/spark_modules/join_data_parallel.py:19-20 | the visiting order is strictly increasing in (i, j): no pair is visited twice and none in reverse orientation |
| JoinLattice.PairsBelowComplete | scripts/staging/slicing/spark_modules/join_data_parallel.py:19-20 | every pair a < b < n with a below the outer index has been visited |
| JoinLattice.AllPairsExact | scripts/staging/slicing/spark_modules/join_data_parallel.py:19-20 | the nested loops visit exactly the pairs a < b < n, each once, in increasing order: no node is paired with itself and each unordered pair is tried once |
| JoinLattice.JoinFoldSnoc | scripts/staging/slicing/spark_modules/join_data_parallel.py:21-30 | visiting one more pair stores it under its name when it is approved and its candidate passes the bounds, and leaves the dictionary as it was otherwise |
| JoinLattice.LastPassingIsLast | scripts/staging/slicing/spark_modules/join_data_parallel.py:30 | LastPassing finds a passing pair with the given name, and no later pair both passes and has that name |
| JoinLattice.JoinFoldLast | scripts/staging/slicing/spark_modules/join_data_parallel.py:30 | a name is a key of the dictionary exactly when some visited pair passes and has that name, and the pair stored is the last such pair (last writer wins) |
| JoinLattice.JoinSpecSound | scripts/staging/slicing/spark_modules/join_data_parallel.py:19-30 | every entry comes from a pair i < j of the nodes that approved_join_slice accepted, whose candidate passed check_bounds, keyed by the name of the union of the two attribute sets |
| JoinLattice.JoinSpecComplete | scripts/staging/slicing/spark_modules/join_data_parallel.py:19-30 | every approved pair i < j whose candidate passes leaves an entry under its name, holding that pair or a pair with the same name visited later |
| JoinLattice.SeedSpecKeys | scripts/staging/slicing/spark_modules/join_data_parallel.py:57-60 | the level-0 dictionary has exactly the names of the features' singleton sets as keys, and each entry is a feature named after its own singleton |
| JoinLattice.SeedOnePerFeature | scripts/staging/slicing/spark_modules/join_data_parallel.py:57-60 | when distinct features have distinct bucket names, there is one level-0 bucket per feature and every feature finds its own |
| JoinDataParallel.Combiner | scripts/staging/slicing/spark_modules/join_data_parallel.py:34-35 | the first partial bucket of a key becomes the accumulator itself |
| JoinDataParallel.MergeValues | scripts/staging/slicing/spark_modules/join_data_parallel.py:38-40 | the accumulator is returned with the other bucket's rows appended to its own, and nothing else changes |
| JoinDataParallel.MergeCombiners | scripts/staging/slicing/spark_modules/join_data_parallel.py:43-45 | the first argument is returned; the value of `a + b` is discarded |
| JoinDataParallel.MergeCombinersDropsSecond | scripts/staging/slicing/spark_modules/join_data_parallel.py:43-45 | if `+` has no side effect, merging two partitions with merge_combiners loses the second partition's rows whenever it holds one the slice covers |
| JoinDataParallel.Broadcast | scripts/staging/slicing/spark_modules/join_data_parallel.py:61-64 | a map task gets a new copy of every broadcast bucket under the same key, equal to it in every field, with distinct keys holding distinct copies |
| JoinDataParallel.MapRow | scripts/staging/slicing/spark_modules/join_data_parallel.py:64 | one map task emits, for one row, exactly the candidate keys whose attributes the row satisfies, each a new bucket carrying the candidate's fields with that row alone folded in |
| JoinDataParallel.MergeExisting | scripts/staging/slicing/spark_modules/join_data_parallel.py:65-66 | every key already present merges the emitted bucket's rows after its own; keys not emitted and all other fields stay as they were |
| JoinDataParallel.CombineByKey | scripts/staging/slicing/spark_modules/join_data_parallel.py:65-66 | the keys become the union of the old and the emitted keys; old keys keep their accumulator with the emitted rows appended; new keys take the emitted bucket itself; distinct keys keep distinct buckets |
| JoinDataParallel.AggregateRow | scripts/staging/slicing/spark_modules/join_data_parallel.py:62-66 | one more row keeps the aggregation invariant: exactly the candidates some seen row satisfies are present, each with exactly the satisfying rows folded in, in stream order |
| JoinDataParallel.Aggregate | scripts/staging/slicing/spark_modules/join_data_parallel.py:62-66 | a pass returns exactly the candidates some row satisfies, each a new bucket with the candidate's name, attributes, parents and flags and exactly the satisfying rows folded in, in stream order |
| JoinDataParallel.CollectLevel | scripts/staging/slicing/spark_modules/join_data_parallel.py:67-68 | the collected level holds every aggregated bucket, each once, each scored, with its rows, parents and bounds flag unchanged |
| JoinDataParallel.Seed | scripts/staging/slicing/spark_modules/join_data_parallel.py:57-60 | seeding produces the SeedSpec keys, each with a new blank level-0 bucket for its feature's singleton set, stored under its own name, distinct keys holding distinct buckets |
| JoinDataParallel.FirstLevel | scripts/staging/slicing/spark_modules/join_data_parallel.py:49-72 | level 0 (LevelRuns.Seeded) holds a bucket for each seeded feature that some row has, and only for those. Each is named after its feature's singleton set, at level 0, with no parents and bounds not computed. Each has exactly the satisfying rows folded in and is scored. The attribute sets are distinct |
| JoinDataParallel.FilterKeepsAll | scripts/staging/slicing/spark_modules/join_data_parallel.py:79-81 | about JoinDataParallel.ToSlice, the `to_slice` filter of line 81: the filter keeps exactly the buckets that pass check_bounds; over join_enum's result, which passed the same check with the same top-k, it keeps all of them |
| JoinDataParallel.AfterPass | scripts/staging/slicing/spark_modules/join_data_parallel.py:82-84 | after the pass, each remaining bucket is the join of its pair with exactly its satisfying rows folded in, and every specification bucket that some row satisfies remains |
| JoinDataParallel.LevelResult | scripts/staging/slicing/spark_modules/join_data_parallel.py:87-89 | the collected new level is viable one level up, each bucket joined from its pair and scored, and it includes every satisfied specification bucket |
| JoinDataParallel.Grows | scripts/staging/slicing/spark_modules/join_data_parallel.py:24 | a bucket joined from two different buckets of a viable level has more attributes than the level number |
| JoinDataParallel.NextLevel | scripts/staging/slicing/spark_modules/join_data_parallel.py:79-90 | one round builds the next level (LevelRuns.Successor). Every bucket is the JoinSpec bucket of its name, joined from its pair of the previous level's objects at the current level number. It has its satisfying rows folded in, bounds computed, and is scored. Every JoinSpec bucket that some row satisfies is included. The new level is viable one level up |
| JoinDataParallel.Round | scripts/staging/slicing/spark_modules/join_data_parallel.py:75-91 | one iteration of the loop body: the run recorded so far, extended by the new level's snapshots and its ranking by buckets_top_k with the previous top-k, is still a run; the new level is viable one level up |
| JoinDataParallel.ParallelProcess | scripts/staging/slicing/spark_modules/join_data_parallel.py:48-91 | the ghost results record the run (RunHistory.Run): the seeded level 0 and its ranking into an empty top-k of size k, then one round per level number 1, 2, ..., each joining the previous level and ranking it with the previous top-k. Every recorded level but the last is non-empty and the last is empty, so the loop stops at the first empty level and not before. lastLvl is the number of recorded levels, at most one more than the widest row. The returned top-k is the ranking after the last round |
| LevelRuns.SeededSnaps | scripts/staging/slicing/spark_modules/join_data_parallel.py:57-73 | what Seeded says of the level-0 objects holds of the snapshots the ranking sees |
| LevelRuns.SuccessorSnaps | scripts/staging/slicing/spark_modules/join_data_parallel.py:79-91 | what Successor says of the new level's objects holds of its snapshots, relative to the previous level's snapshots |
| RunHistory.RunSnoc | scripts/staging/slicing/spark_modules/join_data_parallel.py:74-91 | a run extended by a round whose previous level is non-empty, whose new level succeeds it at the next level number, and whose ranking follows the previous top-k, is again a run |
| RunHistory.RunLevelNumbers | scripts/staging/slicing/spark_modules/join_data_parallel.py:50-90 | every bucket collected in round t is at level t and has more than t attributes: the level number counts the rounds |
| SliceValues.CoveringSnoc | scripts/staging/slicing/spark_modules/join_data_parallel.py:11-13 | one more row extends a bucket's fold by that row exactly when the row satisfies the slice |
| SliceValues.CoveringCounts | scripts/staging/slicing/spark_modules/join_data_parallel.py:11-13 | a satisfying row is folded in as often as it occurs in the stream, and a non-satisfying row never is |
| SliceValues.CoveringAppend | scripts/staging/slicing/spark_modules/join_data_parallel.py:64-66 | folding a stream split into two consecutive parts gives the concatenation of the parts' folds |
| SliceValues.CoveringEmpty | scripts/staging/slicing/spark_modules/join_data_parallel.py:66 | a bucket receives nothing in a pass exactly when no row satisfies it |
| SliceValues.MaxWidth | scripts/staging/slicing/spark_modules/join_data_parallel.py:74 | the widest row: no row has more indices, and some row has exactly that many |
| SliceValues.CoveredWidth | scripts/staging/slicing/spark_modules/join_data_parallel.py:74 | a slice that some row satisfies has no more attributes than the widest row |
| SliceValues.UnionGrows | scripts/staging/slicing/spark_modules/join_data_parallel.py:24 | the union of two different attribute sets of at least c attributes each has at least c + 1 attributes |
| Buckets.Bucket.constructor | scripts/staging/slicing/spark_modules/join_data_parallel.py:59 | a new bucket has the given name, attributes and level, no parents, nothing folded in and no flag set |
| Buckets.Bucket.Copy | scripts/staging/slicing/spark_modules/join_data_parallel.py:61 | a broadcast copy equals the original in every field |
| Buckets.Bucket.AddParent | scripts/staging/slicing/spark_modules/join_data_parallel.py:26-27 | the node is appended to the parents list and nothing else changes |
| Buckets.Bucket.UpdateMetrics | scripts/staging/slicing/spark_modules/join_data_parallel.py:13 | the row is folded in once and nothing else changes |
| Buckets.Bucket.CombineWith | scripts/staging/slicing/spark_modules/join_data_parallel.py:39 | the other bucket's rows are folded in after the bucket's own, and nothing else changes |
| Buckets.Bucket.CalcBounds | scripts/staging/slicing/spark_modules/join_data_parallel.py:28 | the bounds become computed and nothing else changes |
| Buckets.Bucket.CalcBucketMetrics | scripts/staging/slicing/spark_modules/join_data_parallel.py:68 | the bucket becomes scored and nothing else changes |
| Buckets.Snaps | scripts/staging/slicing/spark_modules/join_data_parallel.py:73 | the level's snapshots, one per bucket, in order, as the ranking sees them |

## Left out

- Spark: broadcast, partitioning, serialisation and parallel execution are
  not modelled. The aggregation is the sequential fold of the rows in stream
  order. Each row is mapped against a copy of the broadcast buckets of its
  own. A real worker may reuse one deserialised copy for several rows of a
  partition; that sharing, and the merge_combiners step between partitions,
  are not modelled (see MergeCombinersDropsSecond for what the latter would
  do if `+` had no side effect).
- MergeCombiners: `Bucket.__add__` is not part of this model. The model
  assumes it has no side effect, so the function returns its first argument
  and nothing more is said.
- Metric, bound, loss and score formulas (`update_metrics`, `combine_with`,
  `calc_bounds`, `calc_bucket_metrics`): these are floating-point code that is
  not part of this model. A bucket's metrics are represented by the rows
  folded into it and by the flags saying which mutators have run.
- `approved_join_slice`, `check_bounds`, `buckets_top_k` and the naming of a
  bucket: their code is not part of this model. They are arbitrary functions
  in `Oracles`. A bucket's name is a function of its attribute set.
  `w`, `loss` and `loss_type` are fixed within a run, so they are folded
  into these functions rather than passed around.
- Bucket.constructor: `Bucket(node, ...)` is taken to give a level-0 bucket
  for feature f the attribute set {f}, and a joined bucket the union of its
  parents' attribute sets. The source's `list(set(a) | set(b))` is modelled
  as a set union. This assumes that nothing downstream depends on the order
  of that list, in particular the naming of a bucket, whose code is not part
  of this model.
- RowsMapper: requires that distinct keys hold distinct bucket objects,
  which every caller in the file provides. Without that, one object would be
  updated once per key under which it is stored.
- ParallelProcess: the source returns None and its result is the top-k
  printed at the end. The model returns the final top-k and the level at
  which the loop stopped. `toPandas`, `x_size` computed from it, the
  debug output (lines 69-70 and 85-86), `print_topk` and the progress
  messages (lines 92-96) are left out as I/O. The top-k store is threaded
  through the rounds as the source does. Its contents are stated only as
  the composition of the abstract ranking over the recorded levels. The
  recorded history is by snapshots, so object identity of parents is
  stated only per round, by NextLevel.
- `x_size`: taken as the number of rows.
- `scripts/staging/slicing/tests/regression/bd_spark_salary.py`: it is a
  driver script (argument parsing, Spark setup, data loading, model
  training). It has no logic of this component.
- `src/main/python/systemds/utils/consts.py`: it holds only constants and
  type aliases.
