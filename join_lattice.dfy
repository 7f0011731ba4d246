/** The value-level specification of one lattice step of the join
    enumerator: the order in which `join_enum` visits pairs of current-level
    nodes, the dictionary it fills (as a left fold over that order), and the
    seeding of level 0. */
module JoinLattice {
  import opened SliceValues

  /** The arguments `join_enum` passes on to the bound check. */
  datatype JoinArgs = JoinArgs(curLvl: int, xSize: nat, alpha: int, topK: TopK)

  /** (a, b) comes strictly before (c, d) in the nested-loop order. */
  predicate LexLess(p: (nat, nat), q: (nat, nat))
  {
    p.0 < q.0 || (p.0 == q.0 && p.1 < q.1)
  }

  /** The pairs the inner loop visits for outer index i while j runs from lo
      up to hi. */
  function RowPairs(i: nat, lo: nat, hi: nat): (r: seq<(nat, nat)>)
    requires lo <= hi
    ensures |r| == hi - lo
    ensures forall t :: 0 <= t < |r| ==> r[t] == (i, lo + t)
  {
    seq(hi - lo, t requires 0 <= t < hi - lo => (i, lo + t))
  }

  /** The pairs the nested loops over n nodes visit before the outer index
      reaches i. */
  function PairsBelow(n: nat, i: nat): (r: seq<(nat, nat)>)
    requires i <= n
    ensures forall t :: 0 <= t < |r| ==> r[t].0 < r[t].1 < n && r[t].0 < i
  {
    if i == 0 then [] else PairsBelow(n, i - 1) + RowPairs(i - 1, i, n)
  }

  /** Advancing the inner index by one visits exactly the pair (i, j) next. */
  lemma PairsStep(n: nat, i: nat, j: nat)
    requires i < j < n
    ensures PairsBelow(n, i) + RowPairs(i, i + 1, j + 1) == PairsBelow(n, i) + RowPairs(i, i + 1, j) + [(i, j)]
  {
    assert RowPairs(i, i + 1, j + 1) == RowPairs(i, i + 1, j) + [(i, j)];
  }

  /** Every pair visited by the nested loops over n nodes. */
  function AllPairs(n: nat): seq<(nat, nat)>
  {
    PairsBelow(n, n)
  }

  /** The visit order is strictly increasing: no node is paired with itself,
      no unordered pair is visited twice, and (i, j) with i < j is the only
      orientation visited. */
  lemma {:induction false} PairsBelowSorted(n: nat, i: nat)
    requires i <= n
    ensures forall s, t :: 0 <= s < t < |PairsBelow(n, i)| ==> LexLess(PairsBelow(n, i)[s], PairsBelow(n, i)[t])
  {
    if i > 0 {
      PairsBelowSorted(n, i - 1);
      var front, back := PairsBelow(n, i - 1), RowPairs(i - 1, i, n);
      var ps := front + back;
      forall s, t | 0 <= s < t < |ps| ensures LexLess(ps[s], ps[t]) {
        if t < |front| {
          assert ps[s] == front[s] && ps[t] == front[t];
        } else if s < |front| {
          assert ps[s] == front[s] && ps[t] == back[t - |front|];
        } else {
          assert ps[s] == back[s - |front|] && ps[t] == back[t - |front|];
        }
      }
    }
  }

  /** Every pair a < b < n with a < i has been visited before the outer
      index reaches i. */
  lemma {:induction false} PairsBelowComplete(n: nat, i: nat, a: nat, b: nat)
    requires i <= n && a < b < n && a < i
    ensures exists t :: 0 <= t < |PairsBelow(n, i)| && PairsBelow(n, i)[t] == (a, b)
  {
    var front, back := PairsBelow(n, i - 1), RowPairs(i - 1, i, n);
    assert PairsBelow(n, i) == front + back;
    if a < i - 1 {
      PairsBelowComplete(n, i - 1, a, b);
      var t :| 0 <= t < |front| && front[t] == (a, b);
      assert (front + back)[t] == (a, b);
    } else {
      var t := |front| + (b - i);
      assert back[b - i] == (a, b);
      assert (front + back)[t] == (a, b);
    }
  }

  /** All pairs of n nodes: exactly the pairs (a, b) with a < b < n, each
      once, in the nested-loop order. */
  lemma AllPairsExact(n: nat)
    ensures forall t :: 0 <= t < |AllPairs(n)| ==> AllPairs(n)[t].0 < AllPairs(n)[t].1 < n
    ensures forall a: nat, b: nat :: a < b < n ==> (a, b) in AllPairs(n)
    ensures forall s, t :: 0 <= s < t < |AllPairs(n)| ==> LexLess(AllPairs(n)[s], AllPairs(n)[t])
  {
    PairsBelowSorted(n, n);
    forall a: nat, b: nat | a < b < n ensures (a, b) in AllPairs(n) {
      PairsBelowComplete(n, n, a, b);
    }
  }

  /** The pairs of ps all index into n nodes. */
  predicate InRange(ps: seq<(nat, nat)>, n: nat)
  {
    forall t :: 0 <= t < |ps| ==> ps[t].0 < n && ps[t].1 < n
  }

  /** The bucket `join_enum` builds for nodes vi and vj, as the bound check
      sees it: the union of the two attribute sets, named after it, at the
      current level, with no rows folded in, bounds computed, the two nodes as
      its parents in that order. */
  function CandidateView(vi: Snapshot, vj: Snapshot, lvl: int, o: Oracles): BucketView
  {
    var attrs := vi.attributes + vj.attributes;
    BucketView(Snapshot(o.nameOf(attrs), attrs, lvl, [], true, false), [vi, vj])
  }

  /** The name of the bucket built from the pair p. */
  function PairName(views: seq<Snapshot>, p: (nat, nat), o: Oracles): string
    requires p.0 < |views| && p.1 < |views|
  {
    o.nameOf(views[p.0].attributes + views[p.1].attributes)
  }

  /** The pair p is approved for joining and its bucket passes the bounds. */
  predicate Passes(views: seq<Snapshot>, p: (nat, nat), a: JoinArgs, o: Oracles)
    requires p.0 < |views| && p.1 < |views|
  {
    && o.Approved(views[p.0], views[p.1], a.curLvl)
    && o.CheckBounds(CandidateView(views[p.0], views[p.1], a.curLvl, o), a.xSize, a.alpha, a.topK)
  }

  /** The dictionary after the pairs ps have been visited in order: name of
      each kept bucket to the pair that built it, a later pair with the same
      name replacing an earlier one. */
  function JoinFold(views: seq<Snapshot>, ps: seq<(nat, nat)>, a: JoinArgs, o: Oracles): map<string, (nat, nat)>
    requires InRange(ps, |views|)
  {
    if ps == [] then map[]
    else
      var acc := JoinFold(views, ps[..|ps| - 1], a, o);
      var p := ps[|ps| - 1];
      if Passes(views, p, a, o) then acc[PairName(views, p, o) := p] else acc
  }

  /** Visiting one more pair stores it under its name when it passes and
      leaves the dictionary alone otherwise. */
  lemma JoinFoldSnoc(views: seq<Snapshot>, ps: seq<(nat, nat)>, p: (nat, nat), a: JoinArgs, o: Oracles)
    requires InRange(ps + [p], |views|) && p.0 < |views| && p.1 < |views|
    ensures InRange(ps, |views|)
    ensures JoinFold(views, ps + [p], a, o)
         == if Passes(views, p, a, o) then JoinFold(views, ps, a, o)[PairName(views, p, o) := p]
            else JoinFold(views, ps, a, o)
  {
    assert (ps + [p])[..|ps|] == ps;
    assert forall t :: 0 <= t < |ps| ==> ps[t] == (ps + [p])[t];
  }

  /** The dictionary `join_enum` returns for nodes whose snapshots are views. */
  function JoinSpec(views: seq<Snapshot>, a: JoinArgs, o: Oracles): map<string, (nat, nat)>
  {
    AllPairsExact(|views|);
    JoinFold(views, AllPairs(|views|), a, o)
  }

  /** The position of the last pair of ps that passes and is named k, or -1. */
  function LastPassing(views: seq<Snapshot>, ps: seq<(nat, nat)>, k: string, a: JoinArgs, o: Oracles): (t: int)
    requires InRange(ps, |views|)
    ensures -1 <= t < |ps|
  {
    if ps == [] then -1
    else
      var p := ps[|ps| - 1];
      if Passes(views, p, a, o) && PairName(views, p, o) == k then |ps| - 1
      else LastPassing(views, ps[..|ps| - 1], k, a, o)
  }

  /** LastPassing finds the last passing pair named k, and there is none
      after it. */
  lemma {:induction false} LastPassingIsLast(views: seq<Snapshot>, ps: seq<(nat, nat)>, k: string, a: JoinArgs, o: Oracles)
    requires InRange(ps, |views|)
    ensures var t := LastPassing(views, ps, k, a, o);
      && (t >= 0 ==> Passes(views, ps[t], a, o) && PairName(views, ps[t], o) == k)
      && forall s :: t < s < |ps| ==> !(Passes(views, ps[s], a, o) && PairName(views, ps[s], o) == k)
  {
    if ps != [] {
      var init := ps[..|ps| - 1];
      LastPassingIsLast(views, init, k, a, o);
      assert forall s :: 0 <= s < |init| ==> init[s] == ps[s];
    }
  }

  /** A name is a key of the folded dictionary exactly when some visited pair
      passes and is named after it, and the pair stored is the last such. */
  lemma {:induction false} JoinFoldLast(views: seq<Snapshot>, ps: seq<(nat, nat)>, k: string, a: JoinArgs, o: Oracles)
    requires InRange(ps, |views|)
    ensures k in JoinFold(views, ps, a, o) <==> LastPassing(views, ps, k, a, o) >= 0
    ensures k in JoinFold(views, ps, a, o) ==> JoinFold(views, ps, a, o)[k] == ps[LastPassing(views, ps, k, a, o)]
  {
    if ps != [] {
      var init := ps[..|ps| - 1];
      JoinFoldLast(views, init, k, a, o);
    }
  }

  /** Soundness of join_enum: every kept bucket comes from a pair i < j of
      nodes that approved_join_slice accepted, its bucket passed check_bounds,
      and it is keyed by the name of the union of the two attribute sets. */
  lemma JoinSpecSound(views: seq<Snapshot>, a: JoinArgs, o: Oracles, k: string)
    requires k in JoinSpec(views, a, o)
    ensures var p := JoinSpec(views, a, o)[k];
      && p.0 < p.1 < |views|
      && o.Approved(views[p.0], views[p.1], a.curLvl)
      && o.CheckBounds(CandidateView(views[p.0], views[p.1], a.curLvl, o), a.xSize, a.alpha, a.topK)
      && k == o.nameOf(views[p.0].attributes + views[p.1].attributes)
  {
    var ps := AllPairs(|views|);
    AllPairsExact(|views|);
    JoinFoldLast(views, ps, k, a, o);
    LastPassingIsLast(views, ps, k, a, o);
  }

  /** Completeness of join_enum, with last-writer-wins: every pair i < j
      that is approved and passes the bounds leaves a bucket under its name,
      and the bucket stored under that name comes from the pair with that
      name that the nested loops visit last. */
  lemma JoinSpecComplete(views: seq<Snapshot>, a: JoinArgs, o: Oracles, i: nat, j: nat)
    requires i < j < |views| && Passes(views, (i, j), a, o)
    ensures PairName(views, (i, j), o) in JoinSpec(views, a, o)
    ensures var q := JoinSpec(views, a, o)[PairName(views, (i, j), o)];
      (i, j) == q || LexLess((i, j), q)
  {
    var ps := AllPairs(|views|);
    var k := PairName(views, (i, j), o);
    AllPairsExact(|views|);
    var s :| 0 <= s < |ps| && ps[s] == (i, j);
    JoinFoldLast(views, ps, k, a, o);
    LastPassingIsLast(views, ps, k, a, o);
    var t := LastPassing(views, ps, k, a, o);
    assert s <= t;
  }

  /** The level-0 dictionary: name of each seed bucket to its feature, a
      later feature with the same name replacing an earlier one. */
  function SeedSpec(features: seq<int>, o: Oracles): map<string, int>
  {
    if features == [] then map[]
    else
      var f := features[|features| - 1];
      SeedSpec(features[..|features| - 1], o)[o.nameOf({f}) := f]
  }

  /** Seeding keys one bucket by the name of every feature, and each stored
      feature is one of the features, named after its own singleton set. */
  lemma {:induction false} SeedSpecKeys(features: seq<int>, o: Oracles)
    ensures SeedSpec(features, o).Keys == set f | f in features :: o.nameOf({f})
    ensures forall k :: k in SeedSpec(features, o) ==>
      SeedSpec(features, o)[k] in features && o.nameOf({SeedSpec(features, o)[k]}) == k
  {
    if features != [] {
      var init, f := features[..|features| - 1], features[|features| - 1];
      SeedSpecKeys(init, o);
      assert features == init + [f];
    }
  }

  /** When the bucket names of distinct features differ, seeding creates one
      bucket per distinct feature and every feature finds its own. */
  lemma SeedOnePerFeature(features: seq<int>, o: Oracles)
    requires forall f, g :: f in features && g in features && f != g ==> o.nameOf({f}) != o.nameOf({g})
    ensures forall f :: f in features ==>
      o.nameOf({f}) in SeedSpec(features, o) && SeedSpec(features, o)[o.nameOf({f})] == f
  {
    SeedSpecKeys(features, o);
    forall f | f in features
      ensures o.nameOf({f}) in SeedSpec(features, o) && SeedSpec(features, o)[o.nameOf({f})] == f
    {
      var k := o.nameOf({f});
      assert k in SeedSpec(features, o).Keys;
    }
  }
}
