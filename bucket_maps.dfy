/** Predicates over buckets and dictionaries of buckets that the
    enumerator's contracts are written in. */
module BucketMaps {
  import opened SliceValues
  import opened Buckets

  /** Distinct keys hold distinct bucket objects. */
  ghost predicate Injective(m: map<string, Bucket>)
  {
    forall k1, k2 :: k1 in m && k2 in m && k1 != k2 ==> m[k1] != m[k2]
  }

  /** Every bucket is stored under its own name, the name of its attributes. */
  ghost predicate KeyedByName(m: map<string, Bucket>, o: Oracles)
  {
    forall k :: k in m ==> m[k].name == k && k == o.nameOf(m[k].attributes)
  }

  /** c is b apart from the rows folded in. */
  ghost predicate Carries(c: Bucket, b: Bucket)
    reads c, b
  {
    && c.name == b.name && c.attributes == b.attributes && c.level == b.level
    && c.parents == b.parents && c.boundsComputed == b.boundsComputed && c.scored == b.scored
  }

  /** A bucket as its constructor leaves it. */
  ghost predicate Blank(b: Bucket)
    reads b
  {
    b.parents == [] && b.folds == [] && !b.boundsComputed && !b.scored
  }

  /** b is a bucket for the join of the pair p of nodes at level lvl: the
      union of their attribute sets, named after it, with the two nodes as
      its parents in that order. */
  ghost predicate Joined(b: Bucket, nodes: seq<Bucket>, p: (nat, nat), lvl: int, o: Oracles)
    reads b
  {
    && p.0 < p.1 < |nodes|
    && b.attributes == nodes[p.0].attributes + nodes[p.1].attributes
    && b.name == o.nameOf(b.attributes)
    && b.level == lvl
    && b.parents == [nodes[p.0], nodes[p.1]]
  }

  /** b is the bucket join_enum built at level lvl from the pair p of nodes:
      joined, bounds computed, nothing folded in and not yet scored. */
  ghost predicate Built(b: Bucket, nodes: seq<Bucket>, p: (nat, nat), lvl: int, o: Oracles)
    reads b
  {
    Joined(b, nodes, p, lvl, o) && b.folds == [] && b.boundsComputed && !b.scored
  }

  /** buckets is the dictionary spec made real: the same keys, a bucket of
      its own under each, stored under its name and built at level lvl from
      the pair of nodes spec gives for that key. */
  ghost predicate Stored(buckets: map<string, Bucket>, nodes: seq<Bucket>, spec: map<string, (nat, nat)>,
                         lvl: int, o: Oracles)
    reads buckets.Values
  {
    && buckets.Keys == spec.Keys
    && Injective(buckets)
    && KeyedByName(buckets, o)
    && forall k :: k in buckets ==> Built(buckets[k], nodes, spec[k], lvl, o)
  }

  /** views holds the current snapshots of nodes. */
  ghost predicate SnapshotsOf(views: seq<Snapshot>, nodes: seq<Bucket>)
    reads nodes
  {
    |views| == |nodes| && forall t :: 0 <= t < |nodes| ==> views[t] == nodes[t].Snap()
  }
}
