/** The join-based, data-parallel slice enumerator: routing a row to the
    buckets it satisfies, building the next lattice level from pairs of
    current-level nodes, the per-key merge helpers, and the level loop.
    The distributed primitives (broadcast, map over rows, combineByKey) are
    replaced by their sequential meaning: every row is mapped against its own
    copy of the broadcast buckets and the emitted pairs are folded per key in
    stream order. */
module JoinDataParallel {
  import opened SliceValues
  import opened JoinLattice
  import opened Buckets
  import opened BucketMaps
  import opened LevelRuns
  import opened RunHistory

  /** `rows_mapper(row, buckets, loss_type)`: keeps exactly the buckets whose
      attributes all occur among the row's indices, the same objects under
      the same keys, and folds the row once into each of them and into no
      other bucket. */
  method RowsMapper(row: Row, buckets: map<string, Bucket>) returns (filtered: map<string, Bucket>)
    requires Injective(buckets)
    modifies buckets.Values
    ensures forall k :: k in filtered <==> k in buckets && Covers(row.indices, buckets[k].attributes)
    ensures forall k :: k in filtered ==> filtered[k] == buckets[k]
    ensures forall k :: k in filtered ==> filtered[k].folds == old(filtered[k].folds) + [row]
    ensures forall k :: k in buckets && k !in filtered ==> buckets[k].folds == old(buckets[k].folds)
    ensures forall k :: k in buckets ==>
      && buckets[k].parents == old(buckets[k].parents)
      && buckets[k].boundsComputed == old(buckets[k].boundsComputed)
      && buckets[k].scored == old(buckets[k].scored)
  {
    filtered := map k | k in buckets && Covers(row.indices, buckets[k].attributes) :: buckets[k];
    var todo := filtered.Keys;
    while todo != {}
      invariant todo <= filtered.Keys
      invariant forall k :: k in filtered && k !in todo ==> filtered[k].folds == old(filtered[k].folds) + [row]
      invariant forall k :: k in buckets && (k !in filtered || k in todo) ==> buckets[k].folds == old(buckets[k].folds)
      invariant forall k :: k in buckets ==>
        && buckets[k].parents == old(buckets[k].parents)
        && buckets[k].boundsComputed == old(buckets[k].boundsComputed)
        && buckets[k].scored == old(buckets[k].scored)
      decreases todo
    {
      var k :| k in todo;
      filtered[k].UpdateMetrics(row);
      todo := todo - {k};
    }
  }

  /** The bucket join_enum builds for the nodes ni and nj: a fresh bucket
      for the union of their attribute sets, named after it, at level lvl,
      with the two nodes as its parents and its bounds computed. */
  method NewCandidate(ni: Bucket, nj: Bucket, lvl: int, o: Oracles) returns (bucket: Bucket)
    ensures fresh(bucket)
    ensures bucket.attributes == ni.attributes + nj.attributes
    ensures bucket.name == o.nameOf(bucket.attributes) && bucket.level == lvl
    ensures bucket.parents == [ni, nj]
    ensures bucket.folds == [] && bucket.boundsComputed && !bucket.scored
    ensures bucket.View() == CandidateView(ni.Snap(), nj.Snap(), lvl, o)
  {
    var attrs := ni.attributes + nj.attributes;
    bucket := new Bucket(attrs, lvl, o.nameOf(attrs));
    bucket.AddParent(ni);
    bucket.AddParent(nj);
    bucket.CalcBounds();
    assert Snaps(bucket.parents) == [ni.Snap(), nj.Snap()];
  }

  /** One step of join_enum, for the pair (i, j): when the two nodes are
      approved for joining, their candidate bucket is kept under its name
      when it passes check_bounds, replacing any bucket of that name. The
      ghost acc is the dictionary JoinFold describes after the pairs ps;
      acc' is the one after ps and (i, j). */
  method JoinPair(nodes: seq<Bucket>, i: nat, j: nat, buckets: map<string, Bucket>, a: JoinArgs, o: Oracles,
                  ghost views: seq<Snapshot>, ghost ps: seq<(nat, nat)>, ghost acc: map<string, (nat, nat)>)
    returns (r: map<string, Bucket>, ghost acc': map<string, (nat, nat)>)
    requires i < j < |nodes| && SnapshotsOf(views, nodes) && InRange(ps, |nodes|)
    requires acc == JoinFold(views, ps, a, o) && Stored(buckets, nodes, acc, a.curLvl, o)
    ensures InRange(ps + [(i, j)], |nodes|)
    ensures acc' == JoinFold(views, ps + [(i, j)], a, o) && Stored(r, nodes, acc', a.curLvl, o)
    ensures forall k :: k in r ==> (k in buckets && r[k] == buckets[k]) || fresh(r[k])
  {
    JoinFoldSnoc(views, ps, (i, j), a, o);
    r, acc' := buckets, acc;
    if o.Approved(nodes[i].Snap(), nodes[j].Snap(), a.curLvl) {
      var bucket := NewCandidate(nodes[i], nodes[j], a.curLvl, o);
      if o.CheckBounds(bucket.View(), a.xSize, a.alpha, a.topK) {
        r := buckets[bucket.name := bucket];
        acc' := acc[bucket.name := (i, j)];
        KeepStep(buckets, bucket, nodes, acc, i, j, a.curLvl, o);
      }
    }
  }

  /** Storing a fresh bucket built from (i, j) under its name keeps the
      dictionary a faithful copy of acc with (i, j) stored under that name. */
  lemma KeepStep(buckets: map<string, Bucket>, bucket: Bucket, nodes: seq<Bucket>, acc: map<string, (nat, nat)>,
                 i: nat, j: nat, lvl: int, o: Oracles)
    requires Stored(buckets, nodes, acc, lvl, o)
    requires bucket !in buckets.Values
    requires Built(bucket, nodes, (i, j), lvl, o)
    ensures Stored(buckets[bucket.name := bucket], nodes, acc[bucket.name := (i, j)], lvl, o)
  {
    var r := buckets[bucket.name := bucket];
    forall k1, k2 | k1 in r && k2 in r && r[k1] == r[k2]
      ensures k1 == k2
    {
      if k1 != bucket.name && k2 != bucket.name {
        assert buckets[k1] == buckets[k2];
      }
    }
  }

  /** The inner loop of join_enum for outer index i: pairs node i with every
      later node in turn. */
  method JoinRow(nodes: seq<Bucket>, i: nat, buckets: map<string, Bucket>, a: JoinArgs, o: Oracles,
                 ghost views: seq<Snapshot>, ghost acc: map<string, (nat, nat)>)
    returns (r: map<string, Bucket>, ghost acc': map<string, (nat, nat)>)
    requires i < |nodes| && SnapshotsOf(views, nodes)
    requires acc == JoinFold(views, PairsBelow(|nodes|, i), a, o) && Stored(buckets, nodes, acc, a.curLvl, o)
    ensures acc' == JoinFold(views, PairsBelow(|nodes|, i + 1), a, o) && Stored(r, nodes, acc', a.curLvl, o)
    ensures forall k :: k in r ==> (k in buckets && r[k] == buckets[k]) || fresh(r[k])
  {
    var n := |nodes|;
    r, acc' := buckets, acc;
    var j: nat := i + 1;
    ghost var ps := PairsBelow(n, i);
    assert ps == PairsBelow(n, i) + RowPairs(i, i + 1, j);
    while j < n
      invariant i + 1 <= j <= n
      invariant SnapshotsOf(views, nodes)
      invariant ps == PairsBelow(n, i) + RowPairs(i, i + 1, j) && InRange(ps, n)
      invariant acc' == JoinFold(views, ps, a, o) && Stored(r, nodes, acc', a.curLvl, o)
      invariant forall k :: k in r ==> (k in buckets && r[k] == buckets[k]) || fresh(r[k])
    {
      r, acc' := JoinPair(nodes, i, j, r, a, o, views, ps, acc');
      PairsStep(n, i, j);
      ps := ps + [(i, j)];
      j := j + 1;
    }
  }

  /** `join_enum(cur_lvl_nodes, cur_lvl, x_size, alpha, top_k, w, loss)`:
      visits every pair i < j of current-level nodes in nested-loop order
      (JoinRow, JoinPair) and returns the dictionary of kept buckets: it is
      JoinSpec of the nodes' snapshots views made real (JoinSpecSound and
      JoinSpecComplete say what that dictionary holds), every bucket in it
      passed check_bounds, and every bucket in it is new. */
  method JoinEnum(nodes: seq<Bucket>, a: JoinArgs, o: Oracles, ghost views: seq<Snapshot>)
    returns (buckets: map<string, Bucket>)
    requires SnapshotsOf(views, nodes)
    ensures Stored(buckets, nodes, JoinSpec(views, a, o), a.curLvl, o)
    ensures forall k :: k in buckets ==> o.CheckBounds(buckets[k].View(), a.xSize, a.alpha, a.topK)
    ensures forall k :: k in buckets ==> fresh(buckets[k])
  {
    var n := |nodes|;
    buckets := map[];
    ghost var acc: map<string, (nat, nat)> := map[];
    var i := 0;
    while i < n
      invariant 0 <= i <= n
      invariant SnapshotsOf(views, nodes)
      invariant acc == JoinFold(views, PairsBelow(n, i), a, o) && Stored(buckets, nodes, acc, a.curLvl, o)
      invariant forall k :: k in buckets ==> fresh(buckets[k])
    {
      buckets, acc := JoinRow(nodes, i, buckets, a, o, views, acc);
      i := i + 1;
    }
    assert acc == JoinSpec(views, a, o);
    KeptPass(buckets, nodes, views, a, o);
  }

  /** Every bucket of the dictionary JoinSpec made real passed the bound
      check. */
  lemma KeptPass(buckets: map<string, Bucket>, nodes: seq<Bucket>, views: seq<Snapshot>, a: JoinArgs, o: Oracles)
    requires SnapshotsOf(views, nodes)
    requires Stored(buckets, nodes, JoinSpec(views, a, o), a.curLvl, o)
    ensures forall k :: k in buckets ==> o.CheckBounds(buckets[k].View(), a.xSize, a.alpha, a.topK)
  {
    forall k | k in buckets
      ensures o.CheckBounds(buckets[k].View(), a.xSize, a.alpha, a.topK)
    {
      KeptPasses(buckets[k], nodes, views, k, a, o);
    }
  }

  /** A bucket built from the pair JoinSpec keeps under k passed the bound
      check. */
  lemma KeptPasses(b: Bucket, nodes: seq<Bucket>, views: seq<Snapshot>, k: string, a: JoinArgs, o: Oracles)
    requires SnapshotsOf(views, nodes)
    requires k in JoinSpec(views, a, o)
    requires Built(b, nodes, JoinSpec(views, a, o)[k], a.curLvl, o)
    ensures o.CheckBounds(b.View(), a.xSize, a.alpha, a.topK)
  {
    JoinSpecSound(views, a, o, k);
    BuiltView(b, nodes, views, JoinSpec(views, a, o)[k], a.curLvl, o);
  }

  /** What the bound check sees of a bucket built from a pair of nodes. */
  lemma BuiltView(b: Bucket, nodes: seq<Bucket>, views: seq<Snapshot>, p: (nat, nat), lvl: int, o: Oracles)
    requires SnapshotsOf(views, nodes)
    requires Built(b, nodes, p, lvl, o)
    ensures b.View() == CandidateView(views[p.0], views[p.1], lvl, o)
  {
    assert Snaps(b.parents) == [views[p.0], views[p.1]];
  }

  /** `combiner(a)`: the first partial bucket of a key becomes the
      accumulator itself, not a copy. */
  function Combiner(a: Bucket): (r: Bucket)
    ensures r == a
  {
    a
  }

  /** `merge_values(a, b)`: folds b into the accumulator a and returns a. */
  method MergeValues(a: Bucket, b: Bucket) returns (r: Bucket)
    modifies a
    ensures r == a
    ensures a.folds == old(a.folds) + old(b.folds)
    ensures a.parents == old(a.parents) && a.boundsComputed == old(a.boundsComputed) && a.scored == old(a.scored)
  {
    a.CombineWith(b);
    r := a;
  }

  /** `merge_combiners(a, b)`: the value of `a + b` is discarded and a is
      returned; Bucket.__add__ is not part of this model, so no side effect of
      it is assumed. */
  function MergeCombiners(a: Bucket, b: Bucket): (r: Bucket)
    ensures r == a
  {
    a
  }

  /** Under that reading, merging the partial buckets of two partitions with
      merge_combiners keeps only the first partition's rows: whenever the
      second partition holds a row the slice covers, the merged bucket differs
      from the single-pass fold of both partitions. */
  lemma MergeCombinersDropsSecond(a: Bucket, b: Bucket, front: seq<Row>, back: seq<Row>)
    requires a.folds == Covering(front, a.attributes)
    requires b.attributes == a.attributes && b.folds == Covering(back, b.attributes)
    requires Covering(back, a.attributes) != []
    ensures MergeCombiners(a, b).folds != Covering(front + back, a.attributes)
  {
    CoveringAppend(front, back, a.attributes);
  }

  /** `b_buckets.value` as one map task sees it: a copy of every broadcast
      bucket under the same key. */
  method Broadcast(buckets: map<string, Bucket>) returns (copies: map<string, Bucket>)
    ensures copies.Keys == buckets.Keys
    ensures Injective(copies)
    ensures forall k :: k in copies ==>
      fresh(copies[k]) && Carries(copies[k], buckets[k]) && copies[k].folds == buckets[k].folds
  {
    copies := map[];
    var todo := buckets.Keys;
    while todo != {}
      invariant todo <= buckets.Keys
      invariant copies.Keys == buckets.Keys - todo
      invariant Injective(copies)
      invariant forall k :: k in copies ==>
        fresh(copies[k]) && Carries(copies[k], buckets[k]) && copies[k].folds == buckets[k].folds
      decreases todo
    {
      var k :| k in todo;
      var c := new Bucket.Copy(buckets[k]);
      copies := copies[k := c];
      todo := todo - {k};
    }
  }

  /** The merge_values half of combineByKey over the pairs one row
      emitted: every key already present merges the emitted bucket into its
      accumulator, and no other bucket changes. */
  method MergeExisting(reduced: map<string, Bucket>, emitted: map<string, Bucket>)
    requires Injective(reduced)
    requires forall k1, k2 :: k1 in reduced && k2 in emitted ==> reduced[k1] != emitted[k2]
    modifies reduced.Values
    ensures forall k :: k in reduced ==>
      reduced[k].folds == old(reduced[k].folds) + (if k in emitted then old(emitted[k].folds) else [])
    ensures forall k :: k in reduced ==>
      && reduced[k].parents == old(reduced[k].parents)
      && reduced[k].boundsComputed == old(reduced[k].boundsComputed)
      && reduced[k].scored == old(reduced[k].scored)
  {
    var todo := emitted.Keys * reduced.Keys;
    while todo != {}
      invariant todo <= emitted.Keys * reduced.Keys
      invariant forall k :: k in reduced ==>
        reduced[k].folds == old(reduced[k].folds) + (if k in emitted && k !in todo then old(emitted[k].folds) else [])
      invariant forall k :: k in reduced ==>
        && reduced[k].parents == old(reduced[k].parents)
        && reduced[k].boundsComputed == old(reduced[k].boundsComputed)
        && reduced[k].scored == old(reduced[k].scored)
      decreases todo
    {
      var k :| k in todo;
      var merged := MergeValues(reduced[k], emitted[k]);
      todo := todo - {k};
    }
  }

  /** `flatMap(items)` then `combineByKey(combiner, merge_values, ...)` over
      the pairs one row emitted: keys already present merge the emitted
      bucket into their accumulator (MergeExisting), and a key seen for the
      first time takes the emitted bucket itself (combiner). */
  method CombineByKey(reduced: map<string, Bucket>, emitted: map<string, Bucket>) returns (r: map<string, Bucket>)
    requires Injective(reduced) && Injective(emitted)
    requires forall k1, k2 :: k1 in reduced && k2 in emitted ==> reduced[k1] != emitted[k2]
    modifies reduced.Values
    ensures r.Keys == reduced.Keys + emitted.Keys
    ensures Injective(r)
    ensures forall k :: k in reduced ==> r[k] == reduced[k]
    ensures forall k :: k in emitted && k !in reduced ==> r[k] == emitted[k]
    ensures forall k :: k in reduced ==>
      r[k].folds == old(reduced[k].folds) + (if k in emitted then old(emitted[k].folds) else [])
    ensures forall k :: k in reduced ==>
      && r[k].parents == old(reduced[k].parents)
      && r[k].boundsComputed == old(reduced[k].boundsComputed)
      && r[k].scored == old(reduced[k].scored)
  {
    MergeExisting(reduced, emitted);
    r := map k | k in reduced.Keys + emitted.Keys :: if k in reduced then reduced[k] else Combiner(emitted[k]);
  }

  /** reduced is the outcome of aggregating the rows seen against the
      candidate buckets: exactly the candidates some seen row satisfies, each
      in a bucket of its own carrying the candidate's name, attributes,
      parents and flags, with exactly the satisfying rows folded in, in stream
      order. */
  ghost predicate Aggregated(reduced: map<string, Bucket>, buckets: map<string, Bucket>, seen: seq<Row>)
    reads reduced.Values, buckets.Values
  {
    && (forall k :: k in reduced <==> k in buckets && Covering(seen, buckets[k].attributes) != [])
    && Injective(reduced)
    && forall k :: k in reduced ==>
      k in buckets && Carries(reduced[k], buckets[k]) && reduced[k].folds == Covering(seen, buckets[k].attributes)
  }

  /** `rows_mapper(row, b_buckets.value, loss_type)` in one map task: the
      row is routed to the map task's own copy of the broadcast candidates, and
      the copies it satisfies come back with the row folded in. */
  method MapRow(row: Row, buckets: map<string, Bucket>) returns (emitted: map<string, Bucket>)
    requires forall k :: k in buckets ==> buckets[k].folds == []
    ensures forall k :: k in emitted <==> k in buckets && Covers(row.indices, buckets[k].attributes)
    ensures Injective(emitted)
    ensures forall k :: k in emitted ==>
      fresh(emitted[k]) && Carries(emitted[k], buckets[k]) && emitted[k].folds == [row]
  {
    var copies := Broadcast(buckets);
    emitted := RowsMapper(row, copies);
  }

  /** Maps one row against its own copy of the broadcast candidates and
      folds what it emits into the running result. */
  method AggregateRow(row: Row, buckets: map<string, Bucket>, reduced: map<string, Bucket>, ghost seen: seq<Row>)
    returns (r: map<string, Bucket>)
    requires forall k :: k in buckets ==> buckets[k].folds == []
    requires Aggregated(reduced, buckets, seen)
    requires forall k1, k2 :: k1 in reduced && k2 in buckets ==> reduced[k1] != buckets[k2]
    modifies reduced.Values
    ensures Aggregated(r, buckets, seen + [row])
    ensures forall k :: k in r ==> (k in reduced && r[k] == reduced[k]) || fresh(r[k])
  {
    var emitted := MapRow(row, buckets);
    r := CombineByKey(reduced, emitted);
    assert forall k :: k in buckets ==> unchanged(buckets[k]);
    ghost var seen' := seen + [row];
    forall k | k in buckets
      ensures Covering(seen', buckets[k].attributes)
           == Covering(seen, buckets[k].attributes) + (if k in emitted then [row] else [])
    {
      CoveringSnoc(seen, row, buckets[k].attributes);
    }
    forall k | k in r
      ensures k in buckets && Carries(r[k], buckets[k]) && r[k].folds == Covering(seen', buckets[k].attributes)
    {
      if k in reduced {
        assert r[k] == reduced[k] && k in buckets;
        assert old(Carries(reduced[k], buckets[k]));
        assert r[k].parents == old(reduced[k].parents);
        assert r[k].boundsComputed == old(reduced[k].boundsComputed);
        assert r[k].scored == old(reduced[k].scored);
        assert r[k].folds == old(reduced[k].folds) + (if k in emitted then [row] else []);
      } else {
        assert k in emitted && r[k] == emitted[k];
      }
    }
  }

  /** One aggregation pass: `rows.map(rows_mapper)`, `flatMap` and
      `combineByKey` over the whole stream. Exactly the buckets some row
      satisfies come back, each a fresh bucket that carries the candidate's
      name, attributes, parents and flags and has folded in exactly the rows
      that satisfy it, in stream order. */
  method Aggregate(rows: seq<Row>, buckets: map<string, Bucket>) returns (reduced: map<string, Bucket>)
    requires forall k :: k in buckets ==> buckets[k].folds == []
    ensures forall k :: k in reduced <==> k in buckets && Covering(rows, buckets[k].attributes) != []
    ensures Injective(reduced)
    ensures forall k :: k in reduced ==>
      fresh(reduced[k]) && Carries(reduced[k], buckets[k]) && reduced[k].folds == Covering(rows, buckets[k].attributes)
  {
    reduced := map[];
    for t := 0 to |rows|
      invariant Aggregated(reduced, buckets, rows[..t])
      invariant forall k :: k in reduced ==> fresh(reduced[k])
    {
      reduced := AggregateRow(rows[t], buckets, reduced, rows[..t]);
      assert rows[..t] + [rows[t]] == rows[..t + 1];
    }
    assert rows[..|rows|] == rows;
  }

  /** `.map(calc_bucket_metrics).collect()`: the aggregated buckets, each
      once, in some order, each with its metrics computed. */
  method CollectLevel(reduced: map<string, Bucket>) returns (level: seq<Bucket>)
    requires forall k :: k in reduced ==> reduced[k].name == k
    modifies reduced.Values
    ensures forall t :: 0 <= t < |level| ==> level[t].name in reduced && reduced[level[t].name] == level[t]
    ensures forall k :: k in reduced ==> reduced[k] in level
    ensures forall s, t :: 0 <= s < t < |level| ==> level[s].name != level[t].name
    ensures forall k :: k in reduced ==>
      && reduced[k].scored
      && reduced[k].folds == old(reduced[k].folds)
      && reduced[k].parents == old(reduced[k].parents)
      && reduced[k].boundsComputed == old(reduced[k].boundsComputed)
  {
    level := [];
    var todo := reduced.Keys;
    while todo != {}
      invariant todo <= reduced.Keys
      invariant forall t :: 0 <= t < |level| ==>
        level[t].name in reduced.Keys - todo && reduced[level[t].name] == level[t]
      invariant forall k :: k in reduced && k !in todo ==> reduced[k] in level
      invariant forall s, t :: 0 <= s < t < |level| ==> level[s].name != level[t].name
      invariant forall k :: k in reduced ==>
        && (reduced[k].scored || k in todo)
        && reduced[k].folds == old(reduced[k].folds)
        && reduced[k].parents == old(reduced[k].parents)
        && reduced[k].boundsComputed == old(reduced[k].boundsComputed)
      decreases todo
    {
      var k :| k in todo;
      reduced[k].CalcBucketMetrics();
      level := level + [reduced[k]];
      todo := todo - {k};
    }
  }

  /** The level-0 seeding: one fresh bucket per feature, keyed by its name. */
  method Seed(features: seq<int>, o: Oracles) returns (buckets: map<string, Bucket>)
    ensures buckets.Keys == SeedSpec(features, o).Keys
    ensures Injective(buckets) && KeyedByName(buckets, o)
    ensures forall k :: k in buckets ==>
      fresh(buckets[k]) && buckets[k].attributes == {SeedSpec(features, o)[k]}
      && buckets[k].level == 0 && Blank(buckets[k])
  {
    buckets := map[];
    for t := 0 to |features|
      invariant buckets.Keys == SeedSpec(features[..t], o).Keys
      invariant Injective(buckets) && KeyedByName(buckets, o)
      invariant forall k :: k in buckets ==>
        fresh(buckets[k]) && buckets[k].attributes == {SeedSpec(features[..t], o)[k]}
        && buckets[k].level == 0 && Blank(buckets[k])
    {
      var bucket := new Bucket({features[t]}, 0, o.nameOf({features[t]}));
      buckets := buckets[bucket.name := bucket];
      assert features[..t + 1][..t] == features[..t];
    }
    assert features[..|features|] == features;
  }

  /** Level 0 (`parallel_process` up to the first collect): one bucket per
      feature, aggregated over all rows and scored; exactly the features some
      row has survive. */
  method FirstLevel(allFeatures: seq<int>, rows: seq<Row>, o: Oracles) returns (level: seq<Bucket>)
    ensures Seeded(level, allFeatures, rows, o)
  {
    var seeds := Seed(allFeatures, o);
    var reduced := Aggregate(rows, seeds);
    level := CollectLevel(reduced);
    ghost var spec := SeedSpec(allFeatures, o);
    forall t | 0 <= t < |level|
      ensures level[t].name in spec && level[t].attributes == {spec[level[t].name]}
    {
      assert level[t].attributes == seeds[level[t].name].attributes;
    }
    DistinctByName(level, o);
    forall key | key in spec && Covering(rows, {spec[key]}) != []
      ensures exists t :: 0 <= t < |level| && level[t].name == key
    {
      assert key in reduced && reduced[key] in level;
    }
  }

  /** Buckets named after their attribute sets, with pairwise different
      names, have pairwise different attribute sets. */
  lemma DistinctByName(level: seq<Bucket>, o: Oracles)
    requires forall t :: 0 <= t < |level| ==> level[t].name == o.nameOf(level[t].attributes)
    requires forall s, t :: 0 <= s < t < |level| ==> level[s].name != level[t].name
    ensures forall s, t :: 0 <= s < t < |level| ==> level[s].attributes != level[t].attributes
  {
  }

  /** reduced is the outcome of aggregating the buckets of spec over rows:
      each bucket under its own name is joined from its pair, has its bounds
      computed and has folded in exactly the rows that satisfy it, at least
      one; and every bucket of spec some row satisfies is there. */
  ghost predicate Passed(reduced: map<string, Bucket>, prevLevel: seq<Bucket>, spec: map<string, (nat, nat)>,
                         rows: seq<Row>, lvl: int, o: Oracles)
    reads reduced.Values
  {
    && (forall k :: k in reduced ==>
          && k in spec && reduced[k].name == k
          && Joined(reduced[k], prevLevel, spec[k], lvl, o) && reduced[k].boundsComputed
          && reduced[k].folds == Covering(rows, reduced[k].attributes) && reduced[k].folds != [])
    && forall k :: k in spec && SatisfiedPair(prevLevel, spec[k], rows) ==> k in reduced
  }

  /** `dict(filter(... check_bounds ...))` over join_enum's result: the
      buckets that pass check_bounds with the current top-k, the same objects
      under the same keys. */
  function ToSlice(buckets: map<string, Bucket>, args: JoinArgs, o: Oracles): map<string, Bucket>
    reads buckets.Values, set k, p | k in buckets && p in buckets[k].parents :: p
  {
    map key | key in buckets && o.CheckBounds(buckets[key].View(), args.xSize, args.alpha, args.topK)
      :: buckets[key]
  }

  /** The check_bounds filter over join_enum's result drops nothing, because
      join_enum kept only buckets passing the same check with the same top-k;
      and on any dictionary it drops exactly the buckets that fail it. */
  lemma FilterKeepsAll(buckets: map<string, Bucket>, args: JoinArgs, o: Oracles)
    ensures forall k :: k in ToSlice(buckets, args, o) <==>
      k in buckets && o.CheckBounds(buckets[k].View(), args.xSize, args.alpha, args.topK)
    ensures (forall k :: k in buckets ==> o.CheckBounds(buckets[k].View(), args.xSize, args.alpha, args.topK))
      ==> ToSlice(buckets, args, o) == buckets
  {
    if forall k :: k in buckets ==> o.CheckBounds(buckets[k].View(), args.xSize, args.alpha, args.topK) {
      assert ToSlice(buckets, args, o).Keys == buckets.Keys;
    }
  }

  /** One round of the level loop of `parallel_process`: join_enum over the
      previous level, the check_bounds filter, one aggregation pass and
      calc_bucket_metrics. Every bucket of the new level is the JoinSpec
      bucket of its name with the pass's rows folded in and scored, every
      JoinSpec bucket some row satisfies is in it, and the new level is viable
      one level up: joining two different attribute sets of at least lvl
      attributes gives at least lvl + 1. */
  method NextLevel(prevLevel: seq<Bucket>, rows: seq<Row>, args: JoinArgs, o: Oracles,
                   ghost views: seq<Snapshot>, ghost spec: map<string, (nat, nat)>)
    returns (level: seq<Bucket>)
    requires SnapshotsOf(views, prevLevel) && spec == JoinSpec(views, args, o)
    requires Viable(prevLevel, rows, args.curLvl)
    ensures Successor(prevLevel, level, views, rows, args, o)
  {
    var buckets := JoinEnum(prevLevel, args, o, views);
    var toSlice := ToSlice(buckets, args, o);
    FilterKeepsAll(buckets, args, o);
    var reduced := Aggregate(rows, toSlice);
    AfterPass(reduced, buckets, prevLevel, spec, rows, args.curLvl, o);
    level := CollectLevel(reduced);
    assert Passed(reduced, prevLevel, spec, rows, args.curLvl, o);
    LevelResult(level, reduced, prevLevel, spec, rows, args.curLvl, o);
  }

  /** What one aggregation pass over join_enum's dictionary leaves. */
  lemma AfterPass(reduced: map<string, Bucket>, buckets: map<string, Bucket>, prevLevel: seq<Bucket>,
                  spec: map<string, (nat, nat)>, rows: seq<Row>, lvl: int, o: Oracles)
    requires Stored(buckets, prevLevel, spec, lvl, o)
    requires forall k :: k in reduced <==> k in buckets && Covering(rows, buckets[k].attributes) != []
    requires forall k :: k in reduced ==>
      Carries(reduced[k], buckets[k]) && reduced[k].folds == Covering(rows, buckets[k].attributes)
    ensures Passed(reduced, prevLevel, spec, rows, lvl, o)
  {
    forall k | k in spec && SatisfiedPair(prevLevel, spec[k], rows)
      ensures k in reduced
    {
      assert Built(buckets[k], prevLevel, spec[k], lvl, o);
    }
  }

  /** The collected level of a pass is viable one level up, each of its
      buckets scored, and it holds every bucket of the pass. */
  lemma LevelResult(level: seq<Bucket>, reduced: map<string, Bucket>, prevLevel: seq<Bucket>,
                    spec: map<string, (nat, nat)>, rows: seq<Row>, lvl: int, o: Oracles)
    requires Viable(prevLevel, rows, lvl)
    requires Passed(reduced, prevLevel, spec, rows, lvl, o)
    requires forall t :: 0 <= t < |level| ==> level[t].name in reduced && reduced[level[t].name] == level[t]
    requires forall k :: k in reduced ==> reduced[k] in level && reduced[k].scored
    requires forall s, t :: 0 <= s < t < |level| ==> level[s].name != level[t].name
    ensures Viable(level, rows, lvl + 1)
    ensures forall t :: 0 <= t < |level| ==>
      && level[t].name in spec
      && Joined(level[t], prevLevel, spec[level[t].name], lvl, o)
      && level[t].boundsComputed && Assessed(level[t], rows)
    ensures forall k :: k in spec && SatisfiedPair(prevLevel, spec[k], rows) ==>
      exists t :: 0 <= t < |level| && level[t].name == k
  {
    Grows(level, prevLevel, spec, rows, lvl, o);
    DistinctByName(level, o);
  }

  /** Each bucket of the new level joins two different buckets of a viable
      level, so it has at least one attribute more than the level number. */
  lemma Grows(level: seq<Bucket>, prevLevel: seq<Bucket>, spec: map<string, (nat, nat)>, rows: seq<Row>, lvl: int, o: Oracles)
    requires Viable(prevLevel, rows, lvl)
    requires forall t :: 0 <= t < |level| ==>
      level[t].name in spec && Joined(level[t], prevLevel, spec[level[t].name], lvl, o)
    ensures forall t :: 0 <= t < |level| ==> |level[t].attributes| >= lvl + 1
  {
    forall t | 0 <= t < |level|
      ensures |level[t].attributes| >= lvl + 1
    {
      var p := spec[level[t].name];
      UnionGrows(prevLevel[p.0].attributes, prevLevel[p.1].attributes, lvl);
    }
  }

  /** One round of the level loop on a non-empty level at level number
      curLvl: NextLevel with the current top-k, then buckets_top_k over the
      new level. The run recorded so far, extended by the new level's
      snapshots and the new top-k, is a run. */
  method Round(prevLevel: seq<Bucket>, rows: seq<Row>, curLvl: int, topK: TopK,
               allFeatures: seq<int>, alpha: int, k: int, o: Oracles,
               ghost views: seq<seq<Snapshot>>, ghost ranks: seq<TopK>)
    returns (next: seq<Bucket>, nextRank: TopK)
    requires |prevLevel| > 0 && Viable(prevLevel, rows, curLvl)
    requires Run(views, ranks, allFeatures, rows, alpha, k, o)
    requires |views| == curLvl && ranks[curLvl - 1] == topK && SnapshotsOf(views[curLvl - 1], prevLevel)
    ensures Viable(next, rows, curLvl + 1)
    ensures Run(views + [Snaps(next)], ranks + [nextRank], allFeatures, rows, alpha, k, o)
    ensures nextRank == o.RankTopK(topK, Snaps(next), |rows|, alpha)
  {
    var args := JoinArgs(curLvl, |rows|, alpha, topK);
    ghost var snaps := views[curLvl - 1];
    assert forall i :: 0 <= i < |prevLevel| ==> snaps[i].attributes == prevLevel[i].attributes;
    next := NextLevel(prevLevel, rows, args, o, snaps, JoinSpec(snaps, args, o));
    nextRank := o.RankTopK(topK, Snaps(next), |rows|, alpha);
    SuccessorSnaps(prevLevel, next, snaps, Snaps(next), rows, args, o);
    RunSnoc(views, ranks, Snaps(next), nextRank, allFeatures, rows, alpha, k, o);
  }

  /** `parallel_process`: seeds and aggregates level 0, then while the
      collected level is non-empty builds the next one (NextLevel) and
      re-ranks the top-k. The ghost results record the run (Run): the
      snapshots of every collected level and the top-k after ranking it. The
      loop stops at the first empty level and not before; round t + 1 joins
      level t at level number t + 1; the returned top-k is the last ranking,
      and lastLvl, the level number at which the loop stopped, is one more
      than the number of rounds. The loop does stop: every level is viable at
      its number, and a viable non-empty level's number is at most the width
      of the widest row. */
  method ParallelProcess(allFeatures: seq<int>, rows: seq<Row>, alpha: int, k: int, o: Oracles)
    returns (topK: TopK, lastLvl: int, ghost views: seq<seq<Snapshot>>, ghost ranks: seq<TopK>)
    ensures 1 <= lastLvl <= MaxWidth(rows) + 1
    ensures Run(views, ranks, allFeatures, rows, alpha, k, o)
    ensures |views| == lastLvl && |views[lastLvl - 1]| == 0
    ensures topK == ranks[lastLvl - 1]
  {
    topK := TopK(k, []);
    var xSize := |rows|;
    var prevLevel := FirstLevel(allFeatures, rows, o);
    var curLvl := 1;
    topK := o.RankTopK(topK, Snaps(prevLevel), xSize, alpha);
    SeededSnaps(prevLevel, Snaps(prevLevel), allFeatures, rows, o);
    views, ranks := [Snaps(prevLevel)], [topK];
    while |prevLevel| > 0
      invariant 1 <= curLvl <= MaxWidth(rows) + 1
      invariant Viable(prevLevel, rows, curLvl)
      invariant Run(views, ranks, allFeatures, rows, alpha, k, o)
      invariant |views| == |ranks| == curLvl && ranks[curLvl - 1] == topK
      invariant SnapshotsOf(views[curLvl - 1], prevLevel)
      decreases MaxWidth(rows) + 1 - curLvl
    {
      CoveredWidth(rows, prevLevel[0].attributes);
      var next, nextRank := Round(prevLevel, rows, curLvl, topK, allFeatures, alpha, k, o, views, ranks);
      views, ranks := views + [Snaps(next)], ranks + [nextRank];
      prevLevel, topK, curLvl := next, nextRank, curLvl + 1;
    }
    lastLvl := curLvl;
  }
}
