/**
  The level data structure of `src/LDS_approx.h`: every vertex keeps its neighbours below it
  bucketed by their level and the rest in one `up` container, a stack `Dirty` holds the
  vertices whose invariants may be broken, and `fixup` moves vertices one level at a time
  until the stack is empty.

  `LDSVertex` is a value held in a `std::vector`, so its member functions are methods that
  take the old record and return the new one; the structure itself is a class over an array
  of records. The floating-point thresholds are given as functions from group to count.
 */
module BucketedLds {
  import opened LevelContainer
  import opened BucketSpec
  import LevelStructure

  datatype LDSVertex = LDSVertex(level: nat, down: seq<Level>, up: Level)

  /** `LDSVertex()`: level 0, no buckets, an empty `up`. */
  function NewVertex(): LDSVertex
  {
    LDSVertex(0, [], NewLevel())
  }

  /** The record with every container seen as the set it holds. */
  function ViewOf(x: LDSVertex): (r: VertexView)
    ensures r.level == x.level && |r.down| == |x.down| && r.up == Elems(x.up)
    ensures forall i :: 0 <= i < |x.down| ==> r.down[i] == Elems(x.down[i])
  {
    VertexView(x.level, seq(|x.down|, i requires 0 <= i < |x.down| => Elems(x.down[i])), Elems(x.up))
  }

  ghost function ViewsOf(s: seq<LDSVertex>): (r: seq<VertexView>)
    ensures |r| == |s| && forall u :: 0 <= u < |s| ==> r[u] == ViewOf(s[u])
  {
    seq(|s|, u requires 0 <= u < |s| => ViewOf(s[u]))
  }

  ghost predicate ContainersValid(x: LDSVertex)
  {
    Valid(x.up) && forall i :: 0 <= i < |x.down| ==> Valid(x.down[i])
  }

  /** Replacing one bucket changes that bucket of the view and nothing else. */
  lemma ViewOfDown(x: LDSVertex, i: nat, d: Level)
    requires i < |x.down|
    ensures ViewOf(x.(down := x.down[i := d])) == ViewOf(x).(down := ViewOf(x).down[i := Elems(d)])
    ensures ContainersValid(x) && Valid(d) ==> ContainersValid(x.(down := x.down[i := d]))
  {
    var y := x.(down := x.down[i := d]);
    assert ViewOf(y).down == ViewOf(x).down[i := Elems(d)];
  }

  lemma ViewOfUp(x: LDSVertex, up: Level)
    ensures ViewOf(x.(up := up)) == ViewOf(x).(up := Elems(up))
    ensures ContainersValid(x) && Valid(up) ==> ContainersValid(x.(up := up))
  {
    assert ViewOf(x.(up := up)).down == ViewOf(x).down;
  }

  /** `LDSVertex::insert_neighbor(v, l_v)`: `v` goes into `down[l_v]` below the vertex's level, into `up` otherwise. */
  method InsertNeighbor(x: LDSVertex, v: nat, lv: nat) returns (y: LDSVertex)
    requires lv < x.level ==> lv < |x.down|
    ensures y.level == x.level && |y.down| == |x.down|
    ensures ViewOf(y) == AddToSlot(ViewOf(x), lv, v)
    ensures ContainersValid(x) && v !in Slot(ViewOf(x), lv) ==> ContainersValid(y)
  {
    if lv < x.level {
      var d := Insert(x.down[lv], v);
      y := x.(down := x.down[lv := d]);
      ViewOfDown(x, lv, d);
    } else {
      var up := Insert(x.up, v);
      y := x.(up := up);
      ViewOfUp(x, up);
    }
  }

  /** `LDSVertex::remove_neighbor(v, l_v)`: `v` leaves the container where a neighbour at level `l_v` is kept. */
  method RemoveNeighbor(x: LDSVertex, v: nat, lv: nat) returns (y: LDSVertex)
    requires ContainersValid(x) && (lv < x.level ==> lv < |x.down|)
    requires v in Slot(ViewOf(x), lv)
    ensures y.level == x.level && |y.down| == |x.down|
    ensures ViewOf(y) == RemoveFromSlot(ViewOf(x), lv, v)
    ensures ContainersValid(y)
  {
    if lv < x.level {
      var d := Erase(x.down[lv], v);
      y := x.(down := x.down[lv := d]);
      ViewOfDown(x, lv, d);
    } else {
      var up := Erase(x.up, v);
      y := x.(up := up);
      ViewOfUp(x, up);
    }
  }

  /**
    `upper_invariant`: the `up` container holds at most the threshold of the vertex's group;
    on valid containers, exactly the view's `UpperOk`.
   */
  predicate UpperInvariant(x: LDSVertex, levelsPerGroup: nat, upperThreshold: nat -> nat)
    requires levelsPerGroup > 0
    ensures ContainersValid(x) ==> (UpperInvariant(x, levelsPerGroup, upperThreshold) <==> UpperOk(ViewOf(x), levelsPerGroup, upperThreshold))
  {
    Size(x.up) <= upperThreshold(x.level / levelsPerGroup)
  }

  /**
    `lower_invariant`: true at level 0; otherwise `up` and the top bucket together reach the
    threshold of the group of `level - 1`; on valid containers, exactly the view's `LowerOk`.
   */
  predicate LowerInvariant(x: LDSVertex, levelsPerGroup: nat, lowerThreshold: nat -> nat)
    requires levelsPerGroup > 0 && (x.level > 0 ==> x.level - 1 < |x.down|)
    ensures ContainersValid(x) ==> (LowerInvariant(x, levelsPerGroup, lowerThreshold) <==> LowerOk(ViewOf(x), levelsPerGroup, lowerThreshold))
  {
    x.level == 0
    || (SizesInView(x, x.level - 1);
        Size(x.up) + Size(x.down[x.level - 1]) >= lowerThreshold((x.level - 1) / levelsPerGroup))
  }

  /** On valid containers, the sizes of `up` and of bucket `i` are those of the view's sets. */
  lemma SizesInView(x: LDSVertex, i: nat)
    requires i < |x.down|
    ensures ContainersValid(x) ==> Size(x.up) == |ViewOf(x).up| && Size(x.down[i]) == |ViewOf(x).down[i]|
  {
    if ContainersValid(x) {
      assert Valid(x.down[i]);
    }
  }

  /** Inserts `xs` one by one, as the loops over `same_level` and over `prev_level` do. */
  method InsertAll(lv: Level, xs: seq<nat>) returns (r: Level)
    ensures Elems(r) == Elems(lv) + ToSet(xs)
    ensures Valid(lv) && Distinct(xs) && Elems(lv) !! ToSet(xs) ==> Valid(r) && Size(r) == Size(lv) + |xs|
  {
    r := lv;
    var k := 0;
    while k < |xs|
      invariant 0 <= k <= |xs|
      invariant Elems(r) == Elems(lv) + ToSet(xs[..k])
      invariant Valid(lv) && Distinct(xs) && Elems(lv) !! ToSet(xs) ==> Valid(r) && Size(r) == Size(lv) + k
    {
      assert xs[..k + 1] == xs[..k] + [xs[k]];
      ConcatParts(xs[..k], [xs[k]]);
      if Valid(lv) && Distinct(xs) && Elems(lv) !! ToSet(xs) {
        assert xs[k] !in ToSet(xs[..k]);
      }
      r := Insert(r, xs[k]);
      k := k + 1;
    }
    assert xs[..k] == xs;
  }

  /** Moves `u` from bucket `i` to bucket `j` of a neighbour's record (`down[i].erase(u); down[j].insert(u)`). */
  method MoveBetweenBuckets(x: LDSVertex, u: nat, i: nat, j: nat) returns (y: LDSVertex)
    requires ContainersValid(x) && i < |x.down| && j < |x.down| && i != j
    requires u in ViewOf(x).down[i] && u !in ViewOf(x).down[j]
    ensures ContainersValid(y)
    ensures ViewOf(y) == ViewOf(x).(down := ViewOf(x).down[i := ViewOf(x).down[i] - {u}][j := ViewOf(x).down[j] + {u}])
  {
    var d0 := Erase(x.down[i], u);
    var x1 := x.(down := x.down[i := d0]);
    ViewOfDown(x, i, d0);
    var d1 := Insert(x1.down[j], u);
    y := x1.(down := x1.down[j := d1]);
    ViewOfDown(x1, j, d1);
  }

  /** Moves `u` from bucket `i` to `up` (`down[i].erase(u); up.insert(u)`). */
  method MoveBucketToUp(x: LDSVertex, u: nat, i: nat) returns (y: LDSVertex)
    requires ContainersValid(x) && i < |x.down|
    requires u in ViewOf(x).down[i] && u !in ViewOf(x).up
    ensures ContainersValid(y)
    ensures ViewOf(y) == ViewOf(x).(down := ViewOf(x).down[i := ViewOf(x).down[i] - {u}], up := ViewOf(x).up + {u})
  {
    var d0 := Erase(x.down[i], u);
    var x1 := x.(down := x.down[i := d0]);
    ViewOfDown(x, i, d0);
    var up := Insert(x1.up, u);
    y := x1.(up := up);
    ViewOfUp(x1, up);
  }

  /** Moves `u` from `up` to bucket `j` (`up.erase(u); down[j].insert(u)`). */
  method MoveUpToBucket(x: LDSVertex, u: nat, j: nat) returns (y: LDSVertex)
    requires ContainersValid(x) && j < |x.down|
    requires u in ViewOf(x).up && u !in ViewOf(x).down[j]
    ensures ContainersValid(y)
    ensures ViewOf(y) == ViewOf(x).(down := ViewOf(x).down[j := ViewOf(x).down[j] + {u}], up := ViewOf(x).up - {u})
  {
    var up := Erase(x.up, u);
    var x1 := x.(up := up);
    ViewOfUp(x, up);
    var d1 := Insert(x1.down[j], u);
    y := x1.(down := x1.down[j := d1]);
    ViewOfDown(x1, j, d1);
  }

  /** What `level_increase` does to a neighbour `x` above level `l`: `u` leaves `down[l]` for `down[l + 1]` or for `up`. */
  method RaiseInNeighbour(x: LDSVertex, u: nat, l: nat) returns (y: LDSVertex)
    requires ContainersValid(x) && l < x.level == |x.down|
    requires u in ViewOf(x).down[l]
    requires x.level > l + 1 ==> u !in ViewOf(x).down[l + 1]
    requires x.level == l + 1 ==> u !in ViewOf(x).up
    ensures ContainersValid(y) && ViewOf(y) == RaiseNeighbour(ViewOf(x), u, l)
  {
    if x.level > l + 1 {
      y := MoveBetweenBuckets(x, u, l, l + 1);
    } else {
      y := MoveBucketToUp(x, u, l);
    }
  }

  /** What `level_decrease` does to a neighbour `x` at level `l` or above: `u` leaves `up` or `down[l]` for `down[l - 1]`. */
  method LowerInNeighbour(x: LDSVertex, u: nat, l: nat) returns (y: LDSVertex)
    requires ContainersValid(x) && 0 < l <= x.level == |x.down|
    requires x.level == l ==> u in ViewOf(x).up
    requires x.level > l ==> u in ViewOf(x).down[l]
    requires u !in ViewOf(x).down[l - 1]
    ensures ContainersValid(y) && ViewOf(y) == LowerNeighbour(ViewOf(x), u, l)
  {
    if x.level == l {
      y := MoveUpToBucket(x, u, l - 1);
    } else {
      y := MoveBetweenBuckets(x, u, l, l - 1);
    }
  }

  /**
    The first half of `level_decrease`: the members of the top bucket are inserted one by one
    into `up`, and the top bucket is dropped.
   */
  method MergeTopBucket(x: LDSVertex) returns (y: LDSVertex)
    requires ContainersValid(x) && 0 < x.level == |x.down|
    requires Elems(x.up) !! Elems(x.down[x.level - 1])
    ensures ContainersValid(y) && y.level == x.level == |y.down| + 1
    ensures ViewOf(y) == VertexView(x.level, ViewOf(x).down[..x.level - 1], ViewOf(x).up + ViewOf(x).down[x.level - 1])
  {
    var level := x.level;
    var prev := Iterate(x.down[level - 1]);
    assert ToSet(prev) == Elems(x.down[level - 1]) && Distinct(prev);
    var up := InsertAll(x.up, prev);
    assert Valid(up) && Elems(up) == Elems(x.up) + Elems(x.down[level - 1]);
    y := LDSVertex(level, x.down[..level - 1], up);
    ViewOfMerged(x, up);
  }

  lemma ViewOfMerged(x: LDSVertex, up: Level)
    requires ContainersValid(x) && 0 < x.level == |x.down| && Valid(up)
    requires Elems(up) == Elems(x.up) + Elems(x.down[x.level - 1])
    ensures var y := LDSVertex(x.level, x.down[..x.level - 1], up);
      ContainersValid(y) && ViewOf(y) == VertexView(x.level, ViewOf(x).down[..x.level - 1], ViewOf(x).up + ViewOf(x).down[x.level - 1])
  {
    var y := LDSVertex(x.level, x.down[..x.level - 1], up);
    assert ViewOf(y).down == ViewOf(x).down[..x.level - 1];
    forall i | 0 <= i < |y.down| ensures Valid(y.down[i]) {
      assert y.down[i] == x.down[i];
    }
  }

  lemma ViewOfRaised(x: LDSVertex, bucket: Level, newUp: Level)
    ensures ViewOf(LDSVertex(x.level + 1, x.down + [bucket], newUp))
         == VertexView(x.level + 1, ViewOf(x).down + [Elems(bucket)], Elems(newUp))
    ensures ContainersValid(x) && Valid(bucket) && Valid(newUp) ==> ContainersValid(LDSVertex(x.level + 1, x.down + [bucket], newUp))
  {
    var y := LDSVertex(x.level + 1, x.down + [bucket], newUp);
    assert ViewOf(y).down == ViewOf(x).down + [Elems(bucket)];
  }

  /** `u`'s record after `level_increase(u)`: one level up, `same_level` as the new bucket and what is left of `up`. */
  method RaisedRecord(x: LDSVertex, sameLevel: seq<nat>, newUp: Level) returns (raised: LDSVertex)
    requires ContainersValid(x) && Valid(newUp) && Distinct(sameLevel)
    ensures ContainersValid(raised)
    ensures ViewOf(raised) == VertexView(x.level + 1, ViewOf(x).down + [ToSet(sameLevel)], Elems(newUp))
  {
    var bucket := InsertAll(NewLevel(), sameLevel);
    raised := LDSVertex(x.level + 1, x.down + [bucket], newUp);
    ViewOfRaised(x, bucket, newUp);
  }

  /**
    What visiting the neighbour `w` during `level_increase(u)` relies on: the facts the bucket
    invariant gives about a member of `u`'s `up` set, and that `T[w]` is the record `w` ends with.
   */
  ghost predicate Raisable(V0: seq<VertexView>, T: seq<VertexView>, u: nat, w: nat)
  {
    var l := if u < |V0| then V0[u].level else 0;
    && u < |V0| && w < |V0| && |T| == |V0| && w != u
    && V0[w].level >= l && |V0[w].down| == V0[w].level
    && (V0[w].level > l ==> u in V0[w].down[l] && T[w] == RaiseNeighbour(V0[w], u, l))
    && (V0[w].level == l ==> T[w] == V0[w])
    && (V0[w].level > l + 1 ==> u !in V0[w].down[l + 1])
    && (V0[w].level == l + 1 ==> u !in V0[w].up)
  }

  lemma RaisableUp(V0: seq<VertexView>, u: nat, w: nat)
    requires BucketInv(V0) && u < |V0| && w in V0[u].up
    ensures Raisable(V0, Increased(V0, u), u, w)
  {
    UpNeighbour(V0, u, w);
  }

  /**
    What visiting the neighbour `w` during `level_decrease(u)` relies on: the facts the bucket
    invariant gives about a member of `u`'s `up` set or top bucket, and that `T[w]` is the record
    `w` ends with.
   */
  ghost predicate Lowerable(V0: seq<VertexView>, T: seq<VertexView>, u: nat, w: nat)
  {
    var l := if u < |V0| then V0[u].level else 0;
    && u < |V0| && w < |V0| && |T| == |V0| && w != u && l > 0
    && |V0[w].down| == V0[w].level
    && (V0[w].level >= l ==> && (V0[w].level == l ==> u in V0[w].up)
                             && (V0[w].level > l ==> u in V0[w].down[l])
                             && u !in V0[w].down[l - 1]
                             && T[w] == LowerNeighbour(V0[w], u, l))
    && (V0[w].level < l ==> T[w] == V0[w])
  }

  lemma LowerableAt(V0: seq<VertexView>, u: nat, w: nat)
    requires BucketInv(V0) && u < |V0| && V0[u].level > 0
    requires w in V0[u].up || w in V0[u].down[V0[u].level - 1]
    ensures Lowerable(V0, Decreased(V0, u), u, w)
  {
    if w in V0[u].up {
      UpNeighbour(V0, u, w);
    } else {
      assert w < |V0| && V0[w].level == V0[u].level - 1;
      Untouched(V0, u, w);
    }
  }

  lemma AllLowerable(V0: seq<VertexView>, u: nat, order: seq<nat>)
    requires BucketInv(V0) && u < |V0| && V0[u].level > 0
    requires forall w :: w in order <==> w in V0[u].up || w in V0[u].down[V0[u].level - 1]
    ensures forall w :: w in order ==> Lowerable(V0, Decreased(V0, u), u, w)
  {
    forall w | w in order ensures Lowerable(V0, Decreased(V0, u), u, w) {
      LowerableAt(V0, u, w);
    }
  }

  /** Replacing `u`'s own record keeps the progress over the other records. */
  lemma ProgressOwn(s: seq<LDSVertex>, V0: seq<VertexView>, T: seq<VertexView>, u: nat, done: seq<nat>, x: LDSVertex)
    requires Progress(s, V0, T, u, done)
    ensures Progress(s[u := x], V0, T, u, done)
  {
  }

  /**
    Midway through `level_increase`'s pass over `done`: `pushed` holds the visited neighbours one
    level above `level`, `sameLevel` those at `level` and, when the `up` set is a vector, `kept` the rest.
   */
  ghost predicate Classified(V0: seq<VertexView>, level: nat, done: seq<nat>, useVector: bool,
                             sameLevel: seq<nat>, kept: seq<nat>, pushed: seq<nat>)
  {
    && (forall w :: w in pushed <==> w in done && w < |V0| && V0[w].level == level + 1)
    && (forall w :: w in sameLevel <==> w in done && w < |V0| && V0[w].level == level)
    && Distinct(sameLevel)
    && (useVector ==> (forall w :: w in kept <==> w in done && w < |V0| && V0[w].level != level))
    && (useVector ==> Distinct(kept) && |kept| <= |done|)
  }

  lemma ClassifiedStep(V0: seq<VertexView>, level: nat, done: seq<nat>, useVector: bool,
                       sameLevel: seq<nat>, kept: seq<nat>, pushed: seq<nat>, ngh: nat)
    requires Classified(V0, level, done, useVector, sameLevel, kept, pushed) && ngh !in done && ngh < |V0|
    ensures var same := V0[ngh].level == level;
      Classified(V0, level, done + [ngh], useVector,
                 if same then sameLevel + [ngh] else sameLevel,
                 if useVector && !same then kept + [ngh] else kept,
                 if V0[ngh].level == level + 1 then pushed + [ngh] else pushed)
  {
    if V0[ngh].level == level {
      DistinctAppend(sameLevel, ngh);
    } else if useVector {
      DistinctAppend(kept, ngh);
    }
  }

  lemma AppendAssociates(a: seq<nat>, b: seq<nat>, c: seq<nat>)
    ensures (a + b) + c == a + (b + c)
  {
  }

  /** Once `level_increase`'s pass is over, what it collected is the new bucket and what it kept is the new `up`. */
  lemma PassOutcome(V0: seq<VertexView>, u: nat, up: Level, order: seq<nat>,
                    sameLevel: seq<nat>, kept: seq<nat>, remaining: set<nat>, pushed: seq<nat>)
    requires u < |V0| && Valid(up) && Elems(up) == V0[u].up
    requires forall w :: w in order <==> w in V0[u].up
    requires forall w :: w in order ==> w < |V0|
    requires up.useVector ==> order == up.vec
    requires Classified(V0, V0[u].level, order, up.useVector, sameLevel, kept, pushed)
    requires !up.useVector ==> forall w :: w in remaining <==> w in up.hashSet && w !in sameLevel
    ensures forall w :: w in sameLevel <==> w in SameLevel(V0, u)
    ensures var newUp := if up.useVector then up.(vec := kept) else up.(hashSet := remaining);
      Valid(newUp) && Elems(newUp) == V0[u].up - SameLevel(V0, u)
  {
    var newUp := if up.useVector then up.(vec := kept) else up.(hashSet := remaining);
    forall w ensures w in Elems(newUp) <==> w in V0[u].up - SameLevel(V0, u) {
    }
  }

  ghost predicate AllContainersValid(s: seq<LDSVertex>)
  {
    forall w: int :: 0 <= w < |s| ==> ContainersValid(s[w])
  }

  /**
    Midway through visiting `u`'s neighbours: every record other than `u`'s is already in its
    final form `T[w]` when `w` was visited, and still `V0[w]` otherwise.
   */
  ghost predicate Progress(s: seq<LDSVertex>, V0: seq<VertexView>, T: seq<VertexView>, u: nat, done: seq<nat>)
  {
    && |s| == |V0| == |T| && u < |s|
    && forall w: int :: 0 <= w < |s| && w != u ==>
      ContainersValid(s[w]) && ViewOf(s[w]) == (if w in done then T[w] else V0[w])
  }

  lemma ProgressStart(s: seq<LDSVertex>, V0: seq<VertexView>, T: seq<VertexView>, u: nat)
    requires AllContainersValid(s) && ViewsOf(s) == V0 && |T| == |V0| && u < |s|
    ensures Progress(s, V0, T, u, [])
  {
  }

  lemma ProgressVisit(s: seq<LDSVertex>, V0: seq<VertexView>, T: seq<VertexView>, u: nat, done: seq<nat>, w: nat, x: LDSVertex)
    requires Progress(s, V0, T, u, done) && w < |s| && w != u
    requires ContainersValid(x) && ViewOf(x) == T[w]
    ensures Progress(s[w := x], V0, T, u, done + [w])
  {
  }

  lemma ProgressSkip(s: seq<LDSVertex>, V0: seq<VertexView>, T: seq<VertexView>, u: nat, done: seq<nat>, w: nat)
    requires Progress(s, V0, T, u, done) && w < |s| && T[w] == V0[w]
    ensures Progress(s, V0, T, u, done + [w])
  {
  }

  /** Once every `up` neighbour of `u` is visited and `u`'s own record is replaced, the records are those of `Increased`. */
  lemma FinishIncrease(V0: seq<VertexView>, s: seq<LDSVertex>, u: nat, order: seq<nat>, x: LDSVertex)
    requires BucketInv(V0) && u < |V0|
    requires Progress(s, V0, Increased(V0, u), u, order)
    requires forall w :: w in V0[u].up ==> w in order
    requires ContainersValid(x) && ViewOf(x) == IncreasedAt(V0, u, u)
    ensures AllContainersValid(s[u := x])
    ensures ViewsOf(s[u := x]) == Increased(V0, u) && BucketInv(ViewsOf(s[u := x]))
  {
    IncreaseKeepsInv(V0, u);
    forall w | 0 <= w < |s| && w != u && w !in order {
      Untouched(V0, u, w);
    }
    assert ViewsOf(s[u := x]) == Increased(V0, u);
  }

  /** Once every `up` neighbour of `u` is visited and `u`'s own record is replaced, the records are those of `Decreased`. */
  lemma FinishDecrease(V0: seq<VertexView>, s: seq<LDSVertex>, u: nat, order: seq<nat>, x: LDSVertex)
    requires BucketInv(V0) && u < |V0| && V0[u].level > 0
    requires Progress(s, V0, Decreased(V0, u), u, order)
    requires forall w :: w in V0[u].up ==> w in order
    requires ContainersValid(x) && ViewOf(x) == DecreasedAt(V0, u, u)
    ensures AllContainersValid(s[u := x])
    ensures ViewsOf(s[u := x]) == Decreased(V0, u) && BucketInv(ViewsOf(s[u := x]))
  {
    DecreaseKeepsInv(V0, u);
    forall w | 0 <= w < |s| && w != u && w !in order {
      Untouched(V0, u, w);
    }
    assert ViewsOf(s[u := x]) == Decreased(V0, u);
  }

  /** The records after `insert_edge((u, v))` updated both endpoints. */
  lemma ViewsAfterInsert(V0: seq<VertexView>, s: seq<LDSVertex>, u: nat, v: nat, xu: LDSVertex, xv: LDSVertex)
    requires BucketInv(V0) && ViewsOf(s) == V0 && AllContainersValid(s)
    requires u < |s| && v < |s| && u != v
    requires ContainersValid(xu) && ViewOf(xu) == AddToSlot(V0[u], V0[v].level, v)
    requires ContainersValid(xv) && ViewOf(xv) == AddToSlot(V0[v], V0[u].level, u)
    ensures AllContainersValid(s[u := xu][v := xv])
    ensures ViewsOf(s[u := xu][v := xv]) == EdgeInserted(V0, u, v)
    ensures BucketInv(EdgeInserted(V0, u, v)) && Edges(EdgeInserted(V0, u, v)) == Edges(V0) + {(u, v), (v, u)}
  {
    InsertEdgeKeepsInv(V0, u, v);
    assert ViewsOf(s[u := xu][v := xv]) == EdgeInserted(V0, u, v);
  }

  /** The records after `delete_edge((u, v))` updated both endpoints. */
  lemma ViewsAfterDelete(V0: seq<VertexView>, s: seq<LDSVertex>, u: nat, v: nat, xu: LDSVertex, xv: LDSVertex)
    requires BucketInv(V0) && ViewsOf(s) == V0 && AllContainersValid(s)
    requires u < |s| && v < |s| && u != v
    requires ContainersValid(xu) && ViewOf(xu) == RemoveFromSlot(V0[u], V0[v].level, v)
    requires ContainersValid(xv) && ViewOf(xv) == RemoveFromSlot(V0[v], V0[u].level, u)
    ensures AllContainersValid(s[u := xu][v := xv])
    ensures ViewsOf(s[u := xu][v := xv]) == EdgeDeleted(V0, u, v)
    ensures BucketInv(EdgeDeleted(V0, u, v)) && Edges(EdgeDeleted(V0, u, v)) == Edges(V0) - {(u, v), (v, u)}
  {
    DeleteEdgeKeepsInv(V0, u, v);
    assert ViewsOf(s[u := xu][v := xv]) == EdgeDeleted(V0, u, v);
  }

  /** An edge is recorded by both endpoints, each in the slot for the other's level. */
  lemma EdgeSlots(vs: seq<VertexView>, u: nat, v: nat)
    requires BucketInv(vs) && u < |vs| && v < |vs|
    ensures (u, v) in Edges(vs) <==> v in Slot(vs[u], vs[v].level)
    ensures (u, v) in Edges(vs) <==> u in Slot(vs[v], vs[u].level)
  {
    if u in Slot(vs[v], vs[u].level) {
      assert Adjacent(vs, v, u);
    }
    if v in Slot(vs[u], vs[v].level) {
      assert Adjacent(vs, u, v);
    }
  }

  /**
    `core`: the group of `level`, dropped by one unless `level` is the last level of its group
    (and the group is not group 0).
   */
  function CoreGroup(level: nat, levelsPerGroup: nat): (g: nat)
    requires levelsPerGroup > 0
    ensures g == if (level + 1) / levelsPerGroup > 0 then (level + 1) / levelsPerGroup - 1 else 0
  {
    var group := LevelStructure.GroupForLevel(level, levelsPerGroup);
    NextLevelGroup(level, levelsPerGroup);
    if level % levelsPerGroup != levelsPerGroup - 1 && group != 0 then group - 1 else group
  }

  /** The group of `level + 1` is one more than that of `level` exactly when `level` ends its group. */
  lemma NextLevelGroup(level: nat, levelsPerGroup: nat)
    requires levelsPerGroup > 0
    ensures (level + 1) / levelsPerGroup
         == if level % levelsPerGroup == levelsPerGroup - 1 then level / levelsPerGroup + 1 else level / levelsPerGroup
  {
    var q, r := level / levelsPerGroup, level % levelsPerGroup;
    assert level == q * levelsPerGroup + r;
    assert (q + 1) * levelsPerGroup == q * levelsPerGroup + levelsPerGroup;
    if r == levelsPerGroup - 1 {
      LevelStructure.GroupForLevelUnique(level + 1, levelsPerGroup, q + 1);
    } else {
      LevelStructure.GroupForLevelUnique(level + 1, levelsPerGroup, q);
    }
  }

  /** A vertex at a higher level never gets a lower coreness group. */
  lemma CoreGroupMonotone(l1: nat, l2: nat, levelsPerGroup: nat)
    requires levelsPerGroup > 0 && l1 <= l2
    ensures CoreGroup(l1, levelsPerGroup) <= CoreGroup(l2, levelsPerGroup)
  {
    LevelStructure.GroupForLevelMonotone(l1 + 1, l2 + 1, levelsPerGroup);
  }

  class LDS {
    const n: nat
    const levelsPerGroup: nat
    /** `upper_constant(delta, optimized) * group_degree(group, epsilon)`, truncated, per group. */
    const upperThreshold: nat -> nat
    /** `group_degree(group, epsilon)`, truncated, per group. */
    const lowerThreshold: nat -> nat
    /** `ceil(group_degree(group, epsilon))`, per group. */
    const coreValue: nat -> nat
    var L: array<LDSVertex>
    /** The stack `Dirty`; its top is the last element. */
    var Dirty: seq<nat>

    ghost function Views(): seq<VertexView>
      reads this`L, L
    {
      ViewsOf(L[..])
    }

    ghost predicate Valid()
      reads this, L
    {
      && L.Length == n
      && AllContainersValid(L[..])
      && BucketInv(Views())
      && (forall i :: 0 <= i < |Dirty| ==> Dirty[i] < n)
    }

    constructor(n: nat, levelsPerGroup: nat, upperThreshold: nat -> nat, lowerThreshold: nat -> nat, coreValue: nat -> nat)
      ensures this.n == n && this.levelsPerGroup == levelsPerGroup
      ensures this.upperThreshold == upperThreshold && this.lowerThreshold == lowerThreshold && this.coreValue == coreValue
      ensures fresh(L) && L.Length == n && Dirty == []
      ensures forall u :: 0 <= u < n ==> L[u] == NewVertex()
      ensures Valid()
    {
      this.n := n;
      this.levelsPerGroup := levelsPerGroup;
      this.upperThreshold := upperThreshold;
      this.lowerThreshold := lowerThreshold;
      this.coreValue := coreValue;
      L := new LDSVertex[n](_ => NewVertex());
      Dirty := [];
      new;
      assert forall u :: 0 <= u < n ==> Views()[u] == VertexView(0, [], {});
    }

    /** `get_level`. */
    function GetLevel(ngh: nat): (l: nat)
      reads this, L
      requires ngh < L.Length
      ensures Valid() ==> l == Views()[ngh].level
    {
      L[ngh].level
    }

    /**
      `level_increase(u, L)`: the `up` neighbours at `u`'s level move into a new bucket,
      every higher neighbour moves `u` one bucket up (into its `up` when it sits one level
      above `u`, in which case it is pushed on `Dirty`), and `u` rises one level.
     */
    method LevelIncrease(u: nat)
      requires Valid() && u < n
      modifies L, this`Dirty
      ensures Valid()
      ensures Views() == Increased(old(Views()), u)
      ensures |Dirty| >= |old(Dirty)| && Dirty[..|old(Dirty)|] == old(Dirty)
      ensures forall w :: w in Dirty[|old(Dirty)|..] <==> w in NextLevelNeighbours(old(Views()), u)
    {
      ghost var V0 := Views();
      var raised, order, pushed := RaisePass(u, V0);
      InstallRaised(u, raised, V0, order);
      PushedAreNextLevel(V0, u, order, pushed);
    }

    /** Everything `level_increase(u, L)` does before writing `u`'s own record: the neighbours' records and the new one for `u`. */
    method RaisePass(u: nat, ghost V0: seq<VertexView>) returns (raised: LDSVertex, ghost order: seq<nat>, ghost pushed: seq<nat>)
      requires Valid() && u < n && V0 == Views()
      modifies L, this`Dirty
      ensures ContainersValid(raised) && ViewOf(raised) == IncreasedAt(V0, u, u)
      ensures Progress(L[..], V0, Increased(V0, u), u, order)
      ensures forall w :: w in order <==> w in V0[u].up
      ensures Dirty == old(Dirty) + pushed
      ensures forall w :: w in pushed <==> w in order && w < |V0| && V0[w].level == V0[u].level + 1
      ensures forall i :: 0 <= i < |Dirty| ==> Dirty[i] < n
    {
      ghost var T := Increased(V0, u);
      var up := L[u].up;
      var iteration := Iterate(up);
      assert forall w :: w in iteration <==> w in V0[u].up;
      forall w | w in iteration ensures Raisable(V0, T, u, w) {
        RaisableUp(V0, u, w);
      }
      ProgressStart(L[..], V0, T, u);
      var sameLevel, kept, remaining;
      sameLevel, kept, remaining, pushed := RaiseNeighbours(u, iteration, V0, T);
      assert L[u].up == up;
      PassOutcome(V0, u, up, iteration, sameLevel, kept, remaining, pushed);
      var newUp := if up.useVector then up.(vec := kept) else up.(hashSet := remaining);
      raised := RaisedRecord(L[u], sameLevel, newUp);
      assert ToSet(sameLevel) == SameLevel(V0, u);
      order := iteration;
    }

    /** `L[u].level++` with the new bucket and `up` in place: the last write of `level_increase(u, L)`. */
    method InstallRaised(u: nat, x: LDSVertex, ghost V0: seq<VertexView>, ghost order: seq<nat>)
      requires BucketInv(V0) && u < |V0| && L.Length == |V0|
      requires Progress(L[..], V0, Increased(V0, u), u, order)
      requires forall w :: w in V0[u].up ==> w in order
      requires ContainersValid(x) && ViewOf(x) == IncreasedAt(V0, u, u)
      modifies L
      ensures AllContainersValid(L[..]) && Views() == Increased(V0, u) && BucketInv(Views())
    {
      ghost var s1 := L[..];
      L[u] := x;
      assert L[..] == s1[u := x];
      FinishIncrease(V0, s1, u, order, x);
    }

    /**
      The `special_iterate` pass of `level_increase(u, L)` over `u`'s `up` set `order`: neighbours at
      `u`'s level are collected in `sameLevel` and dropped from `up` (giving `newUp`); every other
      neighbour moves `u` one bucket up and is pushed on `Dirty` when it sits one level above `u`.
     */
    method RaiseNeighbours(u: nat, order: seq<nat>, ghost V0: seq<VertexView>, ghost T: seq<VertexView>)
        returns (sameLevel: seq<nat>, kept: seq<nat>, remaining: set<nat>, ghost pushed: seq<nat>)
      requires L.Length == |V0| && u < |V0|
      requires Progress(L[..], V0, T, u, [])
      requires ViewOf(L[u]) == V0[u]
      requires Distinct(order) && forall w :: w in order ==> Raisable(V0, T, u, w)
      requires forall i :: 0 <= i < |Dirty| ==> Dirty[i] < L.Length
      modifies L, this`Dirty
      ensures L[u] == old(L[u])
      ensures Progress(L[..], V0, T, u, order)
      ensures Dirty == old(Dirty) + pushed
      ensures forall i :: 0 <= i < |Dirty| ==> Dirty[i] < L.Length
      ensures Classified(V0, V0[u].level, order, L[u].up.useVector, sameLevel, kept, pushed)
      ensures !L[u].up.useVector ==> (forall w :: w in remaining <==> w in L[u].up.hashSet && w !in sameLevel)
    {
      var level := L[u].level;
      assert level == V0[u].level;
      var up := L[u].up;
      kept := [];
      remaining := up.hashSet;
      sameLevel := [];
      pushed := [];
      ghost var done: seq<nat> := [];
      ghost var D0 := Dirty;
      var k := 0;
      while k < |order|
        invariant 0 <= k <= |order|
        invariant done == order[..k]
        invariant L[u] == old(L[u])
        invariant Progress(L[..], V0, T, u, done)
        invariant Dirty == D0 + pushed
        invariant forall i :: 0 <= i < |Dirty| ==> Dirty[i] < L.Length
        invariant Classified(V0, level, done, up.useVector, sameLevel, kept, pushed)
        invariant !up.useVector ==> (forall w :: w in remaining <==> w in up.hashSet && w !in sameLevel)
      {
        var ngh := order[k];
        assert order[..k + 1] == order[..k] + [ngh];
        assert ngh !in done;
        sameLevel, kept, remaining, pushed := VisitUp(u, ngh, level, up, V0, T, done, D0, sameLevel, kept, remaining, pushed);
        done := done + [ngh];
        k := k + 1;
      }
      assert done == order;
    }

    /** One round of that pass, for the neighbour `ngh`: its record and the bookkeeping both advance by `ngh`. */
    method VisitUp(u: nat, ngh: nat, level: nat, up: Level, ghost V0: seq<VertexView>, ghost T: seq<VertexView>,
                   ghost done: seq<nat>, ghost D0: seq<nat>,
                   sameLevel: seq<nat>, kept: seq<nat>, remaining: set<nat>, ghost pushed: seq<nat>)
        returns (sameLevel': seq<nat>, kept': seq<nat>, remaining': set<nat>, ghost pushed': seq<nat>)
      requires L.Length == |V0| && Raisable(V0, T, u, ngh) && ngh !in done
      requires Progress(L[..], V0, T, u, done)
      requires ViewOf(L[u]) == V0[u] && level == V0[u].level
      requires Dirty == D0 + pushed && forall i :: 0 <= i < |Dirty| ==> Dirty[i] < L.Length
      requires Classified(V0, level, done, up.useVector, sameLevel, kept, pushed)
      requires !up.useVector ==> (forall w :: w in remaining <==> w in up.hashSet && w !in sameLevel)
      modifies L, this`Dirty
      ensures L[u] == old(L[u])
      ensures Progress(L[..], V0, T, u, done + [ngh])
      ensures Dirty == D0 + pushed' && forall i :: 0 <= i < |Dirty| ==> Dirty[i] < L.Length
      ensures Classified(V0, level, done + [ngh], up.useVector, sameLevel', kept', pushed')
      ensures !up.useVector ==> (forall w :: w in remaining' <==> w in up.hashSet && w !in sameLevel')
    {
      var same := RaiseOne(u, ngh, V0, T, done);
      ghost var added: seq<nat> := if V0[ngh].level == level + 1 then [ngh] else [];
      assert Dirty == (D0 + pushed) + added;
      sameLevel', kept', remaining', pushed' := Tally(V0, level, done, up, ngh, same, sameLevel, kept, remaining, pushed);
      AppendAssociates(D0, pushed, added);
    }

    /** The bookkeeping of that pass for the neighbour `ngh`: `same_level.push_back(ngh)` and its removal from `up`, or keeping it. */
    static method Tally(ghost V0: seq<VertexView>, level: nat, ghost done: seq<nat>, up: Level, ngh: nat, same: bool,
                        sameLevel: seq<nat>, kept: seq<nat>, remaining: set<nat>, ghost pushed: seq<nat>)
        returns (sameLevel': seq<nat>, kept': seq<nat>, remaining': set<nat>, ghost pushed': seq<nat>)
      requires Classified(V0, level, done, up.useVector, sameLevel, kept, pushed) && ngh !in done && ngh < |V0|
      requires same == (V0[ngh].level == level)
      requires !up.useVector ==> (forall w :: w in remaining <==> w in up.hashSet && w !in sameLevel)
      ensures Classified(V0, level, done + [ngh], up.useVector, sameLevel', kept', pushed')
      ensures !up.useVector ==> (forall w :: w in remaining' <==> w in up.hashSet && w !in sameLevel')
      ensures pushed' == pushed + if V0[ngh].level == level + 1 then [ngh] else []
    {
      ClassifiedStep(V0, level, done, up.useVector, sameLevel, kept, pushed, ngh);
      sameLevel', kept', remaining', pushed' := sameLevel, kept, remaining, pushed;
      if same {
        sameLevel' := sameLevel + [ngh];
        if !up.useVector {
          remaining' := remaining - {ngh};
        }
      } else {
        if up.useVector {
          kept' := kept + [ngh];
        }
        if V0[ngh].level == level + 1 {
          pushed' := pushed + [ngh];
        }
      }
    }

    /**
      One step of that pass, for the neighbour `ngh`: reports whether `ngh` sits at `u`'s level;
      otherwise moves `u` one bucket up in `ngh`'s record, pushing `ngh` when it sits one level above `u`.
     */
    method RaiseOne(u: nat, ngh: nat, ghost V0: seq<VertexView>, ghost T: seq<VertexView>, ghost done: seq<nat>)
        returns (same: bool)
      requires L.Length == |V0| && Raisable(V0, T, u, ngh) && ngh !in done
      requires Progress(L[..], V0, T, u, done)
      requires ViewOf(L[u]) == V0[u]
      requires forall i :: 0 <= i < |Dirty| ==> Dirty[i] < L.Length
      modifies L, this`Dirty
      ensures L[u] == old(L[u])
      ensures ngh < |V0| && same == (V0[ngh].level == V0[u].level)
      ensures Progress(L[..], V0, T, u, done + [ngh])
      ensures Dirty == old(Dirty) + if V0[ngh].level == V0[u].level + 1 then [ngh] else []
      ensures forall i :: 0 <= i < |Dirty| ==> Dirty[i] < L.Length
    {
      var level := L[u].level;
      ghost var s := L[..];
      assert ViewOf(L[ngh]) == V0[ngh];
      same := L[ngh].level == level;
      if same {
        ProgressSkip(s, V0, T, u, done, ngh);
      } else {
        var x := RaiseInNeighbour(L[ngh], u, level);
        L[ngh] := x;
        assert L[..] == s[ngh := x];
        ProgressVisit(s, V0, T, u, done, ngh, x);
        if x.level == level + 1 {
          Dirty := Dirty + [ngh];
        }
      }
    }

    /**
      `level_decrease(u, L)`: `u`'s top bucket is merged into `up` and dropped, every neighbour at
      `u`'s level or above moves `u` one bucket down (and is pushed on `Dirty` when it sits one level
      above `u`), and `u` drops one level.
     */
    method LevelDecrease(u: nat)
      requires Valid() && u < n && L[u].level > 0
      modifies L, this`Dirty
      ensures Valid()
      ensures Views() == Decreased(old(Views()), u)
      ensures |Dirty| >= |old(Dirty)| && Dirty[..|old(Dirty)|] == old(Dirty)
      ensures forall w :: w in Dirty[|old(Dirty)|..] <==> w in NextLevelNeighbours(old(Views()), u)
    {
      ghost var V0 := Views();
      ghost var T := Decreased(V0, u);
      ghost var D0 := Dirty;
      ProgressStart(L[..], V0, T, u);
      var level := L[u].level;
      TopBucketBelow(V0, u);
      var merged := MergeTopBucket(L[u]);
      ghost var s0 := L[..];
      L[u] := merged;
      assert L[..] == s0[u := merged];
      ProgressOwn(s0, V0, T, u, [], merged);
      var order := Iterate(merged.up);
      AllLowerable(V0, u, order);
      ghost var pushed := LowerNeighbours(u, level, order, V0, T);
      var lowered := L[u].(level := level - 1);
      assert ContainersValid(lowered) && ViewOf(lowered) == DecreasedAt(V0, u, u);
      ghost var s1 := L[..];
      L[u] := lowered;
      assert L[..] == s1[u := lowered];
      FinishDecrease(V0, s1, u, order, lowered);
      assert Dirty[|D0|..] == pushed;
      MergedNeighbours(V0, u, order, pushed);
    }

    /** The `iterate` pass of `level_decrease(u, L)` over the merged `up` set `order`. */
    method LowerNeighbours(u: nat, level: nat, order: seq<nat>, ghost V0: seq<VertexView>, ghost T: seq<VertexView>)
        returns (ghost pushed: seq<nat>)
      requires L.Length == |V0| && u < |V0| && level == V0[u].level
      requires Progress(L[..], V0, T, u, [])
      requires Distinct(order) && forall w :: w in order ==> Lowerable(V0, T, u, w)
      requires forall i :: 0 <= i < |Dirty| ==> Dirty[i] < L.Length
      modifies L, this`Dirty
      ensures L[u] == old(L[u])
      ensures Progress(L[..], V0, T, u, order)
      ensures Dirty == old(Dirty) + pushed
      ensures forall i :: 0 <= i < |Dirty| ==> Dirty[i] < L.Length
      ensures forall w :: w in pushed <==> w in order && w < |V0| && V0[w].level == level + 1
    {
      pushed := [];
      ghost var done: seq<nat> := [];
      var k := 0;
      while k < |order|
        invariant 0 <= k <= |order|
        invariant done == order[..k]
        invariant L[u] == old(L[u])
        invariant Progress(L[..], V0, T, u, done)
        invariant Dirty == old(Dirty) + pushed
        invariant forall i :: 0 <= i < |Dirty| ==> Dirty[i] < L.Length
        invariant forall w :: w in pushed <==> w in done && w < |V0| && V0[w].level == level + 1
      {
        var ngh := order[k];
        assert order[..k + 1] == order[..k] + [ngh];
        assert ngh !in done;
        LowerOne(u, level, ngh, V0, T, done);
        if V0[ngh].level == level + 1 {
          assert old(Dirty) + (pushed + [ngh]) == (old(Dirty) + pushed) + [ngh];
          pushed := pushed + [ngh];
        }
        done := done + [ngh];
        k := k + 1;
      }
      assert done == order;
    }

    /**
      One step of that pass, for the neighbour `ngh`: when `ngh` sits at `u`'s level or above, `u`
      moves one bucket down in `ngh`'s record, and `ngh` is pushed when it sits one level above `u`.
     */
    method LowerOne(u: nat, level: nat, ngh: nat, ghost V0: seq<VertexView>, ghost T: seq<VertexView>, ghost done: seq<nat>)
      requires L.Length == |V0| && u < |V0| && level == V0[u].level
      requires Lowerable(V0, T, u, ngh) && ngh !in done
      requires Progress(L[..], V0, T, u, done)
      requires forall i :: 0 <= i < |Dirty| ==> Dirty[i] < L.Length
      modifies L, this`Dirty
      ensures L[u] == old(L[u])
      ensures Progress(L[..], V0, T, u, done + [ngh])
      ensures Dirty == old(Dirty) + if V0[ngh].level == level + 1 then [ngh] else []
      ensures forall i :: 0 <= i < |Dirty| ==> Dirty[i] < L.Length
    {
      ghost var s := L[..];
      assert ViewOf(L[ngh]) == V0[ngh];
      if L[ngh].level >= level {
        var x := LowerInNeighbour(L[ngh], u, level);
        L[ngh] := x;
        assert L[..] == s[ngh := x];
        ProgressVisit(s, V0, T, u, done, ngh, x);
        if x.level == level + 1 {
          Dirty := Dirty + [ngh];
        }
      } else {
        ProgressSkip(s, V0, T, u, done, ngh);
      }
    }

    /** Every vertex not on the `Dirty` stack satisfies both invariants (and a level group has at least one level). */
    ghost predicate Settled()
      reads this, L
    {
      levelsPerGroup > 0 && BucketSpec.Settled(Views(), Dirty, levelsPerGroup, upperThreshold, lowerThreshold)
    }

    /**
      `fixup()`: pops vertices off `Dirty`, moving a vertex that breaks `upper_invariant` up a
      level and one that breaks `lower_invariant` down a level, and pushing it back. The loop
      runs at most `fuel` rounds; once `Dirty` is empty every vertex satisfies both invariants.
     */
    method Fixup(fuel: nat) returns (steps: nat)
      requires Valid() && Settled()
      modifies L, this`Dirty
      ensures Valid() && Settled()
      ensures Edges(Views()) == Edges(old(Views()))
      ensures steps <= fuel && (Dirty != [] ==> steps == fuel)
      ensures Dirty == [] ==> forall w :: 0 <= w < n ==> Ok(Views()[w], levelsPerGroup, upperThreshold, lowerThreshold)
    {
      steps := 0;
      while Dirty != [] && steps < fuel
        invariant Valid() && Settled()
        invariant Edges(Views()) == Edges(old(Views()))
        invariant steps <= fuel
        decreases fuel - steps
      {
        FixupStep();
        steps := steps + 1;
      }
    }

    /** `Dirty.back(); Dirty.pop_back();` */
    method PopDirty() returns (u: nat)
      requires Valid() && Dirty != []
      modifies this`Dirty
      ensures Valid() && u < n
      ensures old(Dirty) == Dirty + [u]
    {
      u := Dirty[|Dirty| - 1];
      Dirty := Dirty[..|Dirty| - 1];
      assert old(Dirty) == Dirty + [u];
    }

    /** `Dirty.push(u); Dirty.push(v);` once both endpoints of an edge have changed. */
    method PushEndpoints(u: nat, v: nat)
      requires Valid() && u < n && v < n && levelsPerGroup > 0
      requires BucketSpec.Settled(Views(), Dirty + [u, v], levelsPerGroup, upperThreshold, lowerThreshold)
      modifies this`Dirty
      ensures Valid() && Settled()
      ensures Dirty == old(Dirty) + [u, v]
    {
      Dirty := Dirty + [u, v];
    }

    /** One round of the `fixup()` loop. */
    method FixupStep()
      requires Valid() && Settled() && Dirty != []
      modifies L, this`Dirty
      ensures Valid() && Settled()
      ensures Edges(Views()) == Edges(old(Views()))
    {
      var u := PopDirty();
      if !UpperInvariant(L[u], levelsPerGroup, upperThreshold) {
        RaiseAndPush(u);
      } else if !LowerInvariant(L[u], levelsPerGroup, lowerThreshold) {
        LowerAndPush(u);
      } else {
        SettledPop(Views(), Dirty, u, levelsPerGroup, upperThreshold, lowerThreshold);
      }
    }

    /** `level_increase(u, L); Dirty.push(u);` for a popped `u`. */
    method RaiseAndPush(u: nat)
      requires Valid() && u < n && levelsPerGroup > 0
      requires BucketSpec.Settled(Views(), Dirty + [u], levelsPerGroup, upperThreshold, lowerThreshold)
      modifies L, this`Dirty
      ensures Valid() && Settled()
      ensures Edges(Views()) == Edges(old(Views()))
    {
      ghost var V0 := Views();
      ghost var rest := Dirty;
      LevelIncrease(u);
      ghost var added := Dirty[|rest|..];
      assert Dirty == rest + added;
      Dirty := Dirty + [u];
      SettledAfterIncrease(V0, rest, u, added, levelsPerGroup, upperThreshold, lowerThreshold);
      IncreaseKeepsInv(V0, u);
    }

    /** `level_decrease(u, L); Dirty.push(u);` for a popped `u` above level 0. */
    method LowerAndPush(u: nat)
      requires Valid() && u < n && levelsPerGroup > 0 && L[u].level > 0
      requires BucketSpec.Settled(Views(), Dirty + [u], levelsPerGroup, upperThreshold, lowerThreshold)
      modifies L, this`Dirty
      ensures Valid() && Settled()
      ensures Edges(Views()) == Edges(old(Views()))
    {
      ghost var V0 := Views();
      assert V0[u] == ViewOf(L[u]);
      ghost var rest := Dirty;
      LevelDecrease(u);
      ghost var added := Dirty[|rest|..];
      assert Dirty == rest + added;
      Dirty := Dirty + [u];
      SettledAfterDecrease(V0, rest, u, added, levelsPerGroup, upperThreshold, lowerThreshold);
      DecreaseKeepsInv(V0, u);
    }

    /** The two `insert_neighbor` calls of `insert_edge((u, v))`. */
    method LinkEndpoints(u: nat, v: nat)
      requires Valid() && u < n && v < n && u != v && (u, v) !in Edges(Views())
      modifies L
      ensures Valid()
      ensures Views() == EdgeInserted(old(Views()), u, v)
      ensures Edges(Views()) == Edges(old(Views())) + {(u, v), (v, u)}
    {
      ghost var V0 := Views();
      EdgeSlots(V0, u, v);
      var lu := L[u].level;
      var lv := L[v].level;
      var xu := InsertNeighbor(L[u], v, lv);
      var xv := InsertNeighbor(L[v], u, lu);
      ghost var s0 := L[..];
      L[u] := xu;
      L[v] := xv;
      assert L[..] == s0[u := xu][v := xv];
      ViewsAfterInsert(V0, s0, u, v, xu, xv);
    }

    /** The two `remove_neighbor` calls of `delete_edge((u, v))`. */
    method UnlinkEndpoints(u: nat, v: nat)
      requires Valid() && u < n && v < n && u != v && (u, v) in Edges(Views())
      modifies L
      ensures Valid()
      ensures Views() == EdgeDeleted(old(Views()), u, v)
      ensures Edges(Views()) == Edges(old(Views())) - {(u, v), (v, u)}
    {
      ghost var V0 := Views();
      EdgeSlots(V0, u, v);
      var lu := L[u].level;
      var lv := L[v].level;
      var xu := RemoveNeighbor(L[u], v, lv);
      var xv := RemoveNeighbor(L[v], u, lu);
      ghost var s0 := L[..];
      L[u] := xu;
      L[v] := xv;
      assert L[..] == s0[u := xu][v := xv];
      ViewsAfterDelete(V0, s0, u, v, xu, xv);
    }

    /**
      `insert_edge((u, v))`: each endpoint records the other in the slot for the other's level,
      both are pushed on `Dirty`, and `fixup()` runs. The returned flag is always true.
     */
    method InsertEdge(u: nat, v: nat, fuel: nat) returns (r: bool, steps: nat)
      requires Valid() && Settled() && u < n && v < n && u != v && (u, v) !in Edges(Views())
      modifies L, this`Dirty
      ensures r
      ensures Valid() && Settled()
      ensures Edges(Views()) == Edges(old(Views())) + {(u, v), (v, u)}
      ensures steps <= fuel && (Dirty != [] ==> steps == fuel)
      ensures Dirty == [] ==> forall w :: 0 <= w < n ==> Ok(Views()[w], levelsPerGroup, upperThreshold, lowerThreshold)
    {
      ghost var V0 := Views();
      LinkEndpoints(u, v);
      EdgeUpdatesAreLocal(V0, u, v);
      SettledAfterEdge(V0, Views(), Dirty, u, v, levelsPerGroup, upperThreshold, lowerThreshold);
      PushEndpoints(u, v);
      steps := Fixup(fuel);
      r := true;
    }

    /**
      `delete_edge((u, v))`: each endpoint drops the other from the slot for the other's level,
      both are pushed on `Dirty`, and `fixup()` runs. The returned flag is always true.
     */
    method DeleteEdge(u: nat, v: nat, fuel: nat) returns (r: bool, steps: nat)
      requires Valid() && Settled() && u < n && v < n && u != v && (u, v) in Edges(Views())
      modifies L, this`Dirty
      ensures r
      ensures Valid() && Settled()
      ensures Edges(Views()) == Edges(old(Views())) - {(u, v), (v, u)}
      ensures steps <= fuel && (Dirty != [] ==> steps == fuel)
      ensures Dirty == [] ==> forall w :: 0 <= w < n ==> Ok(Views()[w], levelsPerGroup, upperThreshold, lowerThreshold)
    {
      ghost var V0 := Views();
      UnlinkEndpoints(u, v);
      EdgeUpdatesAreLocal(V0, u, v);
      SettledAfterEdge(V0, Views(), Dirty, u, v, levelsPerGroup, upperThreshold, lowerThreshold);
      PushEndpoints(u, v);
      steps := Fixup(fuel);
      r := true;
    }

    /** `core(v)`: the coreness estimate read off `v`'s level. */
    function Core(v: nat): (c: nat)
      reads this, L
      requires v < L.Length && levelsPerGroup > 0
      ensures Valid() ==> c == coreValue(CoreGroup(Views()[v].level, levelsPerGroup))
    {
      coreValue(CoreGroup(L[v].level, levelsPerGroup))
    }

    /** With a non-decreasing `coreValue`, a vertex at a higher level never gets a lower estimate. */
    lemma CoreMonotone(a: nat, b: nat)
      requires Valid() && levelsPerGroup > 0 && a < n && b < n
      requires forall g1, g2 :: g1 <= g2 ==> coreValue(g1) <= coreValue(g2)
      requires Views()[a].level <= Views()[b].level
      ensures Core(a) <= Core(b)
    {
      CoreGroupMonotone(Views()[a].level, Views()[b].level, levelsPerGroup);
    }
  }
}
