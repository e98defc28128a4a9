/**
  An abstract view of the bucketed level data structure of `src/LDS_approx.h`, with every
  `Level` container seen as the set of vertex ids it holds; the invariant the buckets keep;
  what `level_increase`, `level_decrease`, `insert_edge` and `delete_edge` do to the view;
  and the lemmas that those changes keep the invariant and the graph.
 */
module BucketSpec {

  /** An `LDSVertex`: its level, its `down` buckets (one per lower level) and its `up` neighbours. */
  datatype VertexView = VertexView(level: nat, down: seq<set<nat>>, up: set<nat>)

  /** The container of `x` where a neighbour at level `lw` is kept: `down[lw]` below `x`'s level, `up` otherwise. */
  function Slot(x: VertexView, lw: nat): set<nat>
  {
    if lw < x.level && lw < |x.down| then x.down[lw] else x.up
  }

  /** `b` is a neighbour of `a` as `a`'s record sees it. */
  ghost predicate Adjacent(vs: seq<VertexView>, a: nat, b: nat)
    requires a < |vs| && b < |vs|
  {
    b in Slot(vs[a], vs[b].level)
  }

  /** A vertex has exactly one `down` bucket per level below its own. */
  ghost predicate Shaped(vs: seq<VertexView>)
  {
    forall u: int :: 0 <= u < |vs| ==> |vs[u].down| == vs[u].level
  }

  /** `up` holds other vertices at the same level or higher. */
  ghost predicate UpPlaced(vs: seq<VertexView>)
  {
    forall u: int, w: int {:trigger w in vs[u].up} :: 0 <= u < |vs| && 0 <= w && w in vs[u].up ==> w < |vs| && w != u && vs[w].level >= vs[u].level
  }

  /** `down[i]` holds vertices at level exactly `i`. */
  ghost predicate DownPlaced(vs: seq<VertexView>)
  {
    forall u: int, i: int, w: int {:trigger w in vs[u].down[i]} :: 0 <= u < |vs| && 0 <= i < |vs[u].down| && 0 <= w && w in vs[u].down[i] ==> w < |vs| && vs[w].level == i
  }

  /** Each endpoint of an edge records the other one. */
  ghost predicate Symmetric(vs: seq<VertexView>)
  {
    forall a: int, b: int :: 0 <= a < |vs| && 0 <= b < |vs| && Adjacent(vs, a, b) ==> Adjacent(vs, b, a)
  }

  ghost predicate BucketInv(vs: seq<VertexView>)
  {
    Shaped(vs) && UpPlaced(vs) && DownPlaced(vs) && Symmetric(vs)
  }

  /** The graph the buckets record, as ordered pairs. */
  ghost function Edges(vs: seq<VertexView>): set<(nat, nat)>
  {
    set a: nat, b: nat | a < |vs| && b < |vs| && Adjacent(vs, a, b) :: (a, b)
  }

  lemma EdgesOf(vs: seq<VertexView>, vs': seq<VertexView>)
    requires |vs| == |vs'|
    requires forall a: nat, b: nat :: a < |vs| && b < |vs| ==> (Adjacent(vs', a, b) <==> Adjacent(vs, a, b))
    ensures Edges(vs') == Edges(vs)
  {
  }

  // ---------------------------------------------------------------- level_increase

  /** The `up` neighbours of `u` at `u`'s own level: they move into `u`'s new bucket. */
  ghost function SameLevel(vs: seq<VertexView>, u: nat): set<nat>
    requires u < |vs|
  {
    set w | w in vs[u].up && w < |vs| && vs[w].level == vs[u].level
  }

  /** The `up` neighbours of `u` exactly one level above it: the vertices pushed onto `Dirty`. */
  ghost function NextLevelNeighbours(vs: seq<VertexView>, u: nat): set<nat>
    requires u < |vs|
  {
    set w | w in vs[u].up && w < |vs| && vs[w].level == vs[u].level + 1
  }

  /** A neighbour `x` above level `l` after `u` rises from `l`: `u` moves from `down[l]` to `down[l + 1]`, or to `up`. */
  function RaiseNeighbour(x: VertexView, u: nat, l: nat): VertexView
    requires l < x.level == |x.down|
  {
    if x.level > l + 1 then x.(down := x.down[l := x.down[l] - {u}][l + 1 := x.down[l + 1] + {u}])
    else x.(down := x.down[l := x.down[l] - {u}], up := x.up + {u})
  }

  ghost function IncreasedAt(vs: seq<VertexView>, u: nat, w: nat): VertexView
    requires BucketInv(vs) && u < |vs| && w < |vs|
  {
    var l := vs[u].level;
    if w == u then VertexView(l + 1, vs[u].down + [SameLevel(vs, u)], vs[u].up - SameLevel(vs, u))
    else if w in vs[u].up && vs[w].level > l then RaiseNeighbour(vs[w], u, l)
    else vs[w]
  }

  /** The view after `level_increase(u)`. */
  ghost function Increased(vs: seq<VertexView>, u: nat): (r: seq<VertexView>)
    requires BucketInv(vs) && u < |vs|
    ensures |r| == |vs| && forall w :: 0 <= w < |vs| ==> r[w] == IncreasedAt(vs, u, w)
  {
    seq(|vs|, w requires 0 <= w < |vs| => IncreasedAt(vs, u, w))
  }

  lemma IncreasedLevel(vs: seq<VertexView>, u: nat, w: nat)
    requires BucketInv(vs) && u < |vs| && w < |vs|
    ensures IncreasedAt(vs, u, w).level == if w == u then vs[u].level + 1 else vs[w].level
    ensures |IncreasedAt(vs, u, w).down| == IncreasedAt(vs, u, w).level
  {
  }

  /** `level_increase(u)` and `level_decrease(u)` leave alone every record outside `u` and its `up` set. */
  lemma Untouched(vs: seq<VertexView>, u: nat, w: nat)
    requires BucketInv(vs) && u < |vs| && w < |vs| && w != u && w !in vs[u].up
    ensures IncreasedAt(vs, u, w) == vs[w]
    ensures vs[u].level > 0 ==> DecreasedAt(vs, u, w) == vs[w]
  {
  }

  /** The neighbours pushed while visiting `u`'s `up` set are the ones exactly one level above `u`. */
  lemma PushedAreNextLevel(vs: seq<VertexView>, u: nat, order: seq<nat>, pushed: seq<nat>)
    requires u < |vs|
    requires forall w :: w in order <==> w in vs[u].up
    requires forall w :: w in pushed <==> w in order && w < |vs| && vs[w].level == vs[u].level + 1
    ensures forall w :: w in pushed <==> w in NextLevelNeighbours(vs, u)
  {
  }

  /** `level_decrease(u)` merges `u`'s top bucket into `up`: the two are disjoint, the bucket's members sitting one level below `u`. */
  lemma TopBucketBelow(vs: seq<VertexView>, u: nat)
    requires BucketInv(vs) && u < |vs| && vs[u].level > 0
    ensures vs[u].up !! vs[u].down[vs[u].level - 1]
    ensures forall w :: w in vs[u].down[vs[u].level - 1] ==> w < |vs| && vs[w].level == vs[u].level - 1
  {
    var l := vs[u].level;
    forall w | w in vs[u].down[l - 1] ensures w !in vs[u].up && w < |vs| && vs[w].level == l - 1 {
      if w in vs[u].up {
        UpNeighbour(vs, u, w);
      }
    }
  }

  /** The neighbours pushed while visiting the merged set are the ones exactly one level above `u`. */
  lemma MergedNeighbours(vs: seq<VertexView>, u: nat, order: seq<nat>, pushed: seq<nat>)
    requires BucketInv(vs) && u < |vs| && vs[u].level > 0
    requires forall w :: w in order <==> w in vs[u].up || w in vs[u].down[vs[u].level - 1]
    requires forall w :: w in pushed <==> w in order && w < |vs| && vs[w].level == vs[u].level + 1
    ensures forall w :: w in pushed <==> w in NextLevelNeighbours(vs, u)
  {
    TopBucketBelow(vs, u);
  }

  /** What the invariant says about a neighbour of `u` found in `u`'s `up`. */
  lemma UpNeighbour(vs: seq<VertexView>, u: nat, w: nat)
    requires BucketInv(vs) && u < |vs| && w in vs[u].up
    ensures w < |vs| && w != u && vs[w].level >= vs[u].level && |vs[w].down| == vs[w].level
    ensures vs[w].level > vs[u].level ==> u in vs[w].down[vs[u].level]
    ensures vs[w].level == vs[u].level ==> u in vs[w].up
    ensures vs[w].level > vs[u].level + 1 ==> u !in vs[w].down[vs[u].level + 1]
    ensures vs[w].level == vs[u].level + 1 ==> u !in vs[w].up
    ensures vs[u].level > 0 ==> u !in vs[w].down[vs[u].level - 1]
  {
    assert Adjacent(vs, u, w);
  }

  /** If `u` is in the bucket of `a` for `u`'s level, then `a` is in the slot of `u` for `a`'s level. */
  lemma Mirror(vs: seq<VertexView>, a: nat, u: nat)
    requires BucketInv(vs) && a < |vs| && u < |vs| && u in Slot(vs[a], vs[u].level)
    ensures a in Slot(vs[u], vs[a].level)
  {
    assert Adjacent(vs, a, u);
  }

  lemma IncreaseAdjacent(vs: seq<VertexView>, u: nat, a: nat, b: nat)
    requires BucketInv(vs) && u < |vs| && a < |vs| && b < |vs|
    ensures Adjacent(Increased(vs, u), a, b) <==> Adjacent(vs, a, b)
  {
    var vs' := Increased(vs, u);
    var l := vs[u].level;
    if a == u && b == u {
      assert u !in vs[u].up;
    } else if a == u {
      assert vs'[b].level == vs[b].level;
    } else if b == u {
      assert vs'[u].level == l + 1;
      if a in vs[u].up && vs[a].level > l {
        UpNeighbour(vs, u, a);
      } else {
        assert vs'[a] == vs[a];
        if vs[a].level > l && u in vs[a].down[l] {
          Mirror(vs, a, u);
        }
      }
    } else {
      assert vs'[b].level == vs[b].level;
    }
  }

  lemma IncreaseUpPlacedAt(vs: seq<VertexView>, u: nat, a: nat, w: nat)
    requires BucketInv(vs) && u < |vs| && a < |vs| && w in IncreasedAt(vs, u, a).up
    ensures w < |vs| && w != a && IncreasedAt(vs, u, w).level >= IncreasedAt(vs, u, a).level
  {
    IncreasedLevel(vs, u, w);
    var l := vs[u].level;
    if a == u {
      assert w in vs[u].up && vs[w].level != l;
    } else if a in vs[u].up && vs[a].level > l {
      if w != u {
        assert w in vs[a].up;
      }
    } else {
      assert w in vs[a].up;
      if w == u {
        Mirror(vs, a, u);
      }
    }
  }

  lemma IncreaseDownPlacedAt(vs: seq<VertexView>, u: nat, a: nat, i: nat, w: nat)
    requires BucketInv(vs) && u < |vs| && a < |vs|
    requires i < |IncreasedAt(vs, u, a).down| && w in IncreasedAt(vs, u, a).down[i]
    ensures w < |vs| && IncreasedAt(vs, u, w).level == i
  {
    IncreasedLevel(vs, u, w);
    var l := vs[u].level;
    if a == u {
      if i < l {
        assert w in vs[u].down[i];
      }
    } else if a in vs[u].up && vs[a].level > l {
      if w != u {
        assert w in vs[a].down[i];
      }
    } else {
      assert w in vs[a].down[i];
      if w == u {
        Mirror(vs, a, u);
      }
    }
  }

  lemma IncreaseKeepsShaped(vs: seq<VertexView>, u: nat)
    requires BucketInv(vs) && u < |vs|
    ensures Shaped(Increased(vs, u))
  {
    forall a: int | 0 <= a < |vs| ensures |Increased(vs, u)[a].down| == Increased(vs, u)[a].level {
      IncreasedLevel(vs, u, a);
    }
  }

  lemma IncreaseKeepsUpPlaced(vs: seq<VertexView>, u: nat)
    requires BucketInv(vs) && u < |vs|
    ensures UpPlaced(Increased(vs, u))
  {
    var vs' := Increased(vs, u);
    forall a: int, w: int {:trigger w in vs'[a].up} | 0 <= a < |vs'| && 0 <= w && w in vs'[a].up
      ensures w < |vs'| && w != a && vs'[w].level >= vs'[a].level
    {
      IncreaseUpPlacedAt(vs, u, a, w);
    }
  }

  lemma IncreaseKeepsDownPlaced(vs: seq<VertexView>, u: nat)
    requires BucketInv(vs) && u < |vs|
    ensures DownPlaced(Increased(vs, u))
  {
    var vs' := Increased(vs, u);
    forall a: int, i: int, w: int {:trigger w in vs'[a].down[i]} | 0 <= a < |vs'| && 0 <= i < |vs'[a].down| && 0 <= w && w in vs'[a].down[i]
      ensures w < |vs'| && vs'[w].level == i
    {
      IncreaseDownPlacedAt(vs, u, a, i, w);
    }
  }

  lemma IncreaseKeepsAdjacency(vs: seq<VertexView>, u: nat)
    requires BucketInv(vs) && u < |vs|
    ensures forall a: nat, b: nat :: a < |vs| && b < |vs| ==>
      (Adjacent(Increased(vs, u), a, b) <==> Adjacent(vs, a, b))
  {
    forall a: int, b: int | 0 <= a < |vs| && 0 <= b < |vs|
      ensures Adjacent(Increased(vs, u), a, b) <==> Adjacent(vs, a, b)
    {
      IncreaseAdjacent(vs, u, a, b);
    }
  }

  lemma IncreaseKeepsInv(vs: seq<VertexView>, u: nat)
    requires BucketInv(vs) && u < |vs|
    ensures BucketInv(Increased(vs, u))
    ensures Edges(Increased(vs, u)) == Edges(vs)
  {
    var vs' := Increased(vs, u);
    IncreaseKeepsShaped(vs, u);
    IncreaseKeepsUpPlaced(vs, u);
    IncreaseKeepsDownPlaced(vs, u);
    IncreaseKeepsAdjacency(vs, u);
    assert Symmetric(vs');
    assert Edges(vs') == Edges(vs) by {
      EdgesOf(vs, vs');
    }
  }

  // ---------------------------------------------------------------- level_decrease

  /** A neighbour `x` at level `l` or above after `u` drops from `l`: `u` moves from `up` or `down[l]` to `down[l - 1]`. */
  function LowerNeighbour(x: VertexView, u: nat, l: nat): VertexView
    requires 0 < l <= x.level == |x.down|
  {
    if x.level == l then x.(down := x.down[l - 1 := x.down[l - 1] + {u}], up := x.up - {u})
    else x.(down := x.down[l := x.down[l] - {u}][l - 1 := x.down[l - 1] + {u}])
  }

  ghost function DecreasedAt(vs: seq<VertexView>, u: nat, w: nat): VertexView
    requires BucketInv(vs) && u < |vs| && w < |vs| && vs[u].level > 0
  {
    var l := vs[u].level;
    if w == u then VertexView(l - 1, vs[u].down[..l - 1], vs[u].up + vs[u].down[l - 1])
    else if w in vs[u].up && vs[w].level >= l then LowerNeighbour(vs[w], u, l)
    else vs[w]
  }

  lemma DecreasedLevel(vs: seq<VertexView>, u: nat, w: nat)
    requires BucketInv(vs) && u < |vs| && vs[u].level > 0 && w < |vs|
    ensures DecreasedAt(vs, u, w).level == if w == u then vs[u].level - 1 else vs[w].level
    ensures |DecreasedAt(vs, u, w).down| == DecreasedAt(vs, u, w).level
  {
  }

  /** The view after `level_decrease(u)`. */
  ghost function Decreased(vs: seq<VertexView>, u: nat): (r: seq<VertexView>)
    requires BucketInv(vs) && u < |vs| && vs[u].level > 0
    ensures |r| == |vs| && forall w :: 0 <= w < |vs| ==> r[w] == DecreasedAt(vs, u, w)
  {
    seq(|vs|, w requires 0 <= w < |vs| => DecreasedAt(vs, u, w))
  }

  lemma DecreaseAdjacent(vs: seq<VertexView>, u: nat, a: nat, b: nat)
    requires BucketInv(vs) && u < |vs| && vs[u].level > 0 && a < |vs| && b < |vs|
    ensures Adjacent(Decreased(vs, u), a, b) <==> Adjacent(vs, a, b)
  {
    var vs' := Decreased(vs, u);
    var l := vs[u].level;
    if a == u && b == u {
      assert u !in vs[u].up;
      assert u !in vs[u].down[l - 1];
    } else if a == u {
      assert vs'[b].level == vs[b].level;
    } else if b == u {
      assert vs'[u].level == l - 1;
      if a in vs[u].up && vs[a].level >= l {
        UpNeighbour(vs, u, a);
      } else {
        assert vs'[a] == vs[a];
        if u in Slot(vs[a], l) {
          Mirror(vs, a, u);
        }
      }
    } else {
      assert vs'[b].level == vs[b].level;
    }
  }

  lemma DecreaseUpPlacedAt(vs: seq<VertexView>, u: nat, a: nat, w: nat)
    requires BucketInv(vs) && u < |vs| && vs[u].level > 0 && a < |vs| && w in DecreasedAt(vs, u, a).up
    ensures w < |vs| && w != a && DecreasedAt(vs, u, w).level >= DecreasedAt(vs, u, a).level
  {
    DecreasedLevel(vs, u, w);
    var l := vs[u].level;
    if a == u {
      assert w in vs[u].up || w in vs[u].down[l - 1];
    } else if a in vs[u].up && vs[a].level >= l {
      assert w in vs[a].up;
    } else {
      assert w in vs[a].up;
      if w == u {
        Mirror(vs, a, u);
      }
    }
  }

  lemma DecreaseDownPlacedAt(vs: seq<VertexView>, u: nat, a: nat, i: nat, w: nat)
    requires BucketInv(vs) && u < |vs| && vs[u].level > 0 && a < |vs|
    requires i < |DecreasedAt(vs, u, a).down| && w in DecreasedAt(vs, u, a).down[i]
    ensures w < |vs| && DecreasedAt(vs, u, w).level == i
  {
    DecreasedLevel(vs, u, w);
    var l := vs[u].level;
    if a == u {
      assert w in vs[u].down[i];
    } else if a in vs[u].up && vs[a].level >= l {
      if w != u {
        assert w in vs[a].down[i];
      }
    } else {
      assert w in vs[a].down[i];
      if w == u {
        Mirror(vs, a, u);
      }
    }
  }

  lemma DecreaseKeepsShaped(vs: seq<VertexView>, u: nat)
    requires BucketInv(vs) && u < |vs| && vs[u].level > 0
    ensures Shaped(Decreased(vs, u))
  {
    forall a: int | 0 <= a < |vs| ensures |Decreased(vs, u)[a].down| == Decreased(vs, u)[a].level {
      DecreasedLevel(vs, u, a);
    }
  }

  lemma DecreaseKeepsUpPlaced(vs: seq<VertexView>, u: nat)
    requires BucketInv(vs) && u < |vs| && vs[u].level > 0
    ensures UpPlaced(Decreased(vs, u))
  {
    var vs' := Decreased(vs, u);
    forall a: int, w: int {:trigger w in vs'[a].up} | 0 <= a < |vs'| && 0 <= w && w in vs'[a].up
      ensures w < |vs'| && w != a && vs'[w].level >= vs'[a].level
    {
      DecreaseUpPlacedAt(vs, u, a, w);
    }
  }

  lemma DecreaseKeepsDownPlaced(vs: seq<VertexView>, u: nat)
    requires BucketInv(vs) && u < |vs| && vs[u].level > 0
    ensures DownPlaced(Decreased(vs, u))
  {
    var vs' := Decreased(vs, u);
    forall a: int, i: int, w: int {:trigger w in vs'[a].down[i]} | 0 <= a < |vs'| && 0 <= i < |vs'[a].down| && 0 <= w && w in vs'[a].down[i]
      ensures w < |vs'| && vs'[w].level == i
    {
      DecreaseDownPlacedAt(vs, u, a, i, w);
    }
  }

  lemma DecreaseKeepsAdjacency(vs: seq<VertexView>, u: nat)
    requires BucketInv(vs) && u < |vs| && vs[u].level > 0
    ensures forall a: nat, b: nat :: a < |vs| && b < |vs| ==>
      (Adjacent(Decreased(vs, u), a, b) <==> Adjacent(vs, a, b))
  {
    forall a: int, b: int | 0 <= a < |vs| && 0 <= b < |vs|
      ensures Adjacent(Decreased(vs, u), a, b) <==> Adjacent(vs, a, b)
    {
      DecreaseAdjacent(vs, u, a, b);
    }
  }

  lemma DecreaseKeepsInv(vs: seq<VertexView>, u: nat)
    requires BucketInv(vs) && u < |vs| && vs[u].level > 0
    ensures BucketInv(Decreased(vs, u))
    ensures Edges(Decreased(vs, u)) == Edges(vs)
  {
    var vs' := Decreased(vs, u);
    DecreaseKeepsShaped(vs, u);
    DecreaseKeepsUpPlaced(vs, u);
    DecreaseKeepsDownPlaced(vs, u);
    DecreaseKeepsAdjacency(vs, u);
    assert Symmetric(vs');
    assert Edges(vs') == Edges(vs) by {
      EdgesOf(vs, vs');
    }
  }

  // ---------------------------------------------------------------- insert_edge, delete_edge

  /** `insert_neighbor(y, lw)` on a view. */
  function AddToSlot(x: VertexView, lw: nat, y: nat): VertexView
  {
    if lw < x.level && lw < |x.down| then x.(down := x.down[lw := x.down[lw] + {y}]) else x.(up := x.up + {y})
  }

  /** `remove_neighbor(y, lw)` on a view. */
  function RemoveFromSlot(x: VertexView, lw: nat, y: nat): VertexView
  {
    if lw < x.level && lw < |x.down| then x.(down := x.down[lw := x.down[lw] - {y}]) else x.(up := x.up - {y})
  }

  ghost function EdgeInserted(vs: seq<VertexView>, u: nat, v: nat): (r: seq<VertexView>)
    requires u < |vs| && v < |vs| && u != v
    ensures |r| == |vs|
  {
    vs[u := AddToSlot(vs[u], vs[v].level, v)][v := AddToSlot(vs[v], vs[u].level, u)]
  }

  ghost function EdgeDeleted(vs: seq<VertexView>, u: nat, v: nat): (r: seq<VertexView>)
    requires u < |vs| && v < |vs| && u != v
    ensures |r| == |vs|
  {
    vs[u := RemoveFromSlot(vs[u], vs[v].level, v)][v := RemoveFromSlot(vs[v], vs[u].level, u)]
  }

  lemma InsertEdgeAt(vs: seq<VertexView>, u: nat, v: nat, a: nat)
    requires BucketInv(vs) && u < |vs| && v < |vs| && u != v && a < |vs|
    ensures EdgeInserted(vs, u, v)[a].level == vs[a].level
    ensures |EdgeInserted(vs, u, v)[a].down| == vs[a].level
    ensures forall w :: w in EdgeInserted(vs, u, v)[a].up ==>
      w in vs[a].up || ((a, w) in {(u, v), (v, u)} && vs[w].level >= vs[a].level)
    ensures forall i, w :: 0 <= i < vs[a].level && w in EdgeInserted(vs, u, v)[a].down[i] ==>
      w in vs[a].down[i] || ((a, w) in {(u, v), (v, u)} && vs[w].level == i)
  {
  }

  lemma InsertEdgeKeepsShaped(vs: seq<VertexView>, u: nat, v: nat)
    requires BucketInv(vs) && u < |vs| && v < |vs| && u != v
    ensures Shaped(EdgeInserted(vs, u, v))
  {
    forall a: int | 0 <= a < |vs| ensures |EdgeInserted(vs, u, v)[a].down| == EdgeInserted(vs, u, v)[a].level {
      InsertEdgeAt(vs, u, v, a);
    }
  }

  lemma InsertEdgeKeepsUpPlaced(vs: seq<VertexView>, u: nat, v: nat)
    requires BucketInv(vs) && u < |vs| && v < |vs| && u != v
    ensures UpPlaced(EdgeInserted(vs, u, v))
  {
    var vs' := EdgeInserted(vs, u, v);
    forall a: int, w: int {:trigger w in vs'[a].up} | 0 <= a < |vs'| && 0 <= w && w in vs'[a].up
      ensures w < |vs'| && w != a && vs'[w].level >= vs'[a].level
    {
      InsertEdgeAt(vs, u, v, a);
      if w < |vs| {
        InsertEdgeAt(vs, u, v, w);
      }
    }
  }

  lemma InsertEdgeKeepsDownPlaced(vs: seq<VertexView>, u: nat, v: nat)
    requires BucketInv(vs) && u < |vs| && v < |vs| && u != v
    ensures DownPlaced(EdgeInserted(vs, u, v))
  {
    var vs' := EdgeInserted(vs, u, v);
    forall a: int, i: int, w: int {:trigger w in vs'[a].down[i]} | 0 <= a < |vs'| && 0 <= i < |vs'[a].down| && 0 <= w && w in vs'[a].down[i]
      ensures w < |vs'| && vs'[w].level == i
    {
      InsertEdgeAt(vs, u, v, a);
      if w < |vs| {
        InsertEdgeAt(vs, u, v, w);
      }
    }
  }

  lemma InsertEdgeKeepsAdjacency(vs: seq<VertexView>, u: nat, v: nat)
    requires BucketInv(vs) && u < |vs| && v < |vs| && u != v
    ensures forall a: nat, b: nat :: a < |vs| && b < |vs| ==>
      (Adjacent(EdgeInserted(vs, u, v), a, b) <==> Adjacent(vs, a, b) || (a, b) == (u, v) || (a, b) == (v, u))
  {
    forall a: int, b: int | 0 <= a < |vs| && 0 <= b < |vs|
      ensures Adjacent(EdgeInserted(vs, u, v), a, b) <==> Adjacent(vs, a, b) || (a, b) == (u, v) || (a, b) == (v, u)
    {
      InsertEdgeAt(vs, u, v, a); InsertEdgeAt(vs, u, v, b);
    }
  }

  lemma InsertEdgeKeepsInv(vs: seq<VertexView>, u: nat, v: nat)
    requires BucketInv(vs) && u < |vs| && v < |vs| && u != v
    ensures BucketInv(EdgeInserted(vs, u, v))
    ensures Edges(EdgeInserted(vs, u, v)) == Edges(vs) + {(u, v), (v, u)}
  {
    var vs' := EdgeInserted(vs, u, v);
    InsertEdgeKeepsShaped(vs, u, v);
    InsertEdgeKeepsUpPlaced(vs, u, v);
    InsertEdgeKeepsDownPlaced(vs, u, v);
    InsertEdgeKeepsAdjacency(vs, u, v);
    assert Symmetric(vs');
    assert Edges(vs') == Edges(vs) + {(u, v), (v, u)};
  }

  lemma DeleteEdgeAt(vs: seq<VertexView>, u: nat, v: nat, a: nat)
    requires BucketInv(vs) && u < |vs| && v < |vs| && u != v && a < |vs|
    ensures EdgeDeleted(vs, u, v)[a].level == vs[a].level
    ensures |EdgeDeleted(vs, u, v)[a].down| == vs[a].level
    ensures EdgeDeleted(vs, u, v)[a].up <= vs[a].up
    ensures forall i :: 0 <= i < vs[a].level ==> EdgeDeleted(vs, u, v)[a].down[i] <= vs[a].down[i]
  {
  }

  lemma DeleteEdgeKeepsShaped(vs: seq<VertexView>, u: nat, v: nat)
    requires BucketInv(vs) && u < |vs| && v < |vs| && u != v
    ensures Shaped(EdgeDeleted(vs, u, v))
  {
    forall a: int | 0 <= a < |vs| ensures |EdgeDeleted(vs, u, v)[a].down| == EdgeDeleted(vs, u, v)[a].level {
      DeleteEdgeAt(vs, u, v, a);
    }
  }

  lemma DeleteEdgeKeepsUpPlaced(vs: seq<VertexView>, u: nat, v: nat)
    requires BucketInv(vs) && u < |vs| && v < |vs| && u != v
    ensures UpPlaced(EdgeDeleted(vs, u, v))
  {
    var vs' := EdgeDeleted(vs, u, v);
    forall a: int, w: int {:trigger w in vs'[a].up} | 0 <= a < |vs'| && 0 <= w && w in vs'[a].up
      ensures w < |vs'| && w != a && vs'[w].level >= vs'[a].level
    {
      DeleteEdgeAt(vs, u, v, a);
      if w < |vs| {
        DeleteEdgeAt(vs, u, v, w);
      }
    }
  }

  lemma DeleteEdgeKeepsDownPlaced(vs: seq<VertexView>, u: nat, v: nat)
    requires BucketInv(vs) && u < |vs| && v < |vs| && u != v
    ensures DownPlaced(EdgeDeleted(vs, u, v))
  {
    var vs' := EdgeDeleted(vs, u, v);
    forall a: int, i: int, w: int {:trigger w in vs'[a].down[i]} | 0 <= a < |vs'| && 0 <= i < |vs'[a].down| && 0 <= w && w in vs'[a].down[i]
      ensures w < |vs'| && vs'[w].level == i
    {
      DeleteEdgeAt(vs, u, v, a);
      if w < |vs| {
        DeleteEdgeAt(vs, u, v, w);
      }
    }
  }

  lemma DeleteEdgeKeepsAdjacency(vs: seq<VertexView>, u: nat, v: nat)
    requires BucketInv(vs) && u < |vs| && v < |vs| && u != v
    ensures forall a: nat, b: nat :: a < |vs| && b < |vs| ==>
      (Adjacent(EdgeDeleted(vs, u, v), a, b) <==> Adjacent(vs, a, b) && (a, b) != (u, v) && (a, b) != (v, u))
  {
    forall a: int, b: int | 0 <= a < |vs| && 0 <= b < |vs|
      ensures Adjacent(EdgeDeleted(vs, u, v), a, b) <==> Adjacent(vs, a, b) && (a, b) != (u, v) && (a, b) != (v, u)
    {
      DeleteEdgeAt(vs, u, v, a); DeleteEdgeAt(vs, u, v, b);
    }
  }

  lemma DeleteEdgeKeepsInv(vs: seq<VertexView>, u: nat, v: nat)
    requires BucketInv(vs) && u < |vs| && v < |vs| && u != v
    ensures BucketInv(EdgeDeleted(vs, u, v))
    ensures Edges(EdgeDeleted(vs, u, v)) == Edges(vs) - {(u, v), (v, u)}
  {
    var vs' := EdgeDeleted(vs, u, v);
    DeleteEdgeKeepsShaped(vs, u, v);
    DeleteEdgeKeepsUpPlaced(vs, u, v);
    DeleteEdgeKeepsDownPlaced(vs, u, v);
    DeleteEdgeKeepsAdjacency(vs, u, v);
    assert Symmetric(vs');
    assert Edges(vs') == Edges(vs) - {(u, v), (v, u)};
  }

  // ---------------------------------------------------------------- upper_invariant, lower_invariant

  /** `upper_invariant`: at most `ut(group)` neighbours at or above the vertex's level. */
  ghost predicate UpperOk(x: VertexView, lpg: nat, ut: nat -> nat)
    requires lpg > 0
  {
    |x.up| <= ut(x.level / lpg)
  }

  /** `lower_invariant`: above level 0, at least `lt(group of level - 1)` neighbours at or above `level - 1`. */
  ghost predicate LowerOk(x: VertexView, lpg: nat, lt: nat -> nat)
    requires lpg > 0
  {
    x.level == 0 || (x.level - 1 < |x.down| && |x.up| + |x.down[x.level - 1]| >= lt((x.level - 1) / lpg))
  }

  ghost predicate Ok(x: VertexView, lpg: nat, ut: nat -> nat, lt: nat -> nat)
    requires lpg > 0
  {
    UpperOk(x, lpg, ut) && LowerOk(x, lpg, lt)
  }

  /** After `level_increase(u)`, only `u` and its new `up` neighbours one level above may break an invariant. */
  lemma IncreaseKeepsOthersOk(vs: seq<VertexView>, u: nat, w: nat, lpg: nat, ut: nat -> nat, lt: nat -> nat)
    requires BucketInv(vs) && u < |vs| && w < |vs| && lpg > 0
    requires w != u && w !in NextLevelNeighbours(vs, u)
    ensures Ok(vs[w], lpg, ut, lt) ==> Ok(Increased(vs, u)[w], lpg, ut, lt)
  {
    var l := vs[u].level;
    var x := vs[w];
    if w in vs[u].up && x.level > l {
      assert x.level > l + 1;
      var y := RaiseNeighbour(x, u, l);
      assert y.up == x.up && y.level == x.level;
      if x.level - 1 == l + 1 {
        assert y.down[l + 1] == x.down[l + 1] + {u};
        assert |x.down[l + 1]| <= |y.down[l + 1]|;
      } else {
        assert y.down[x.level - 1] == x.down[x.level - 1];
      }
    }
  }

  /** After `level_decrease(u)`, only `u` and its `up` neighbours one level above its old level may break an invariant. */
  lemma DecreaseKeepsOthersOk(vs: seq<VertexView>, u: nat, w: nat, lpg: nat, ut: nat -> nat, lt: nat -> nat)
    requires BucketInv(vs) && u < |vs| && vs[u].level > 0 && w < |vs| && lpg > 0
    requires w != u && w !in NextLevelNeighbours(vs, u)
    ensures Ok(vs[w], lpg, ut, lt) ==> Ok(Decreased(vs, u)[w], lpg, ut, lt)
  {
    var l := vs[u].level;
    var x := vs[w];
    if w in vs[u].up && x.level >= l {
      var y := LowerNeighbour(x, u, l);
      UpNeighbour(vs, u, w);
      if x.level == l {
        assert u !in x.down[l - 1];
        assert |y.up| == |x.up| - 1;
        assert |y.down[l - 1]| == |x.down[l - 1]| + 1;
      } else {
        assert x.level > l + 1;
        assert y.up == x.up && y.down[x.level - 1] == x.down[x.level - 1];
      }
    }
  }

  /** Every vertex not waiting on the `Dirty` stack satisfies both invariants. */
  ghost predicate Settled(vs: seq<VertexView>, dirty: seq<nat>, lpg: nat, ut: nat -> nat, lt: nat -> nat)
    requires lpg > 0
  {
    forall w: int :: 0 <= w < |vs| && w !in dirty ==> Ok(vs[w], lpg, ut, lt)
  }

  /** Popping a vertex that satisfies both invariants keeps the others settled. */
  lemma SettledPop(vs: seq<VertexView>, rest: seq<nat>, u: nat, lpg: nat, ut: nat -> nat, lt: nat -> nat)
    requires lpg > 0 && u < |vs| && Settled(vs, rest + [u], lpg, ut, lt) && Ok(vs[u], lpg, ut, lt)
    ensures Settled(vs, rest, lpg, ut, lt)
  {
    forall w: int | 0 <= w < |vs| && w !in rest ensures Ok(vs[w], lpg, ut, lt) {
      if w != u {
        assert w !in rest + [u];
      }
    }
  }

  /** `fixup` after `level_increase(u)`: pushing the new `up` neighbours one level above and `u` itself settles the rest. */
  lemma {:induction false} SettledAfterIncrease(vs: seq<VertexView>, rest: seq<nat>, u: nat, added: seq<nat>,
                                               lpg: nat, ut: nat -> nat, lt: nat -> nat)
    requires BucketInv(vs) && u < |vs| && lpg > 0
    requires Settled(vs, rest + [u], lpg, ut, lt)
    requires forall w :: w in added <==> w in NextLevelNeighbours(vs, u)
    ensures Settled(Increased(vs, u), rest + added + [u], lpg, ut, lt)
  {
    var vs' := Increased(vs, u);
    forall w: int | 0 <= w < |vs'| && w !in rest + added + [u] ensures Ok(vs'[w], lpg, ut, lt) {
      assert w !in rest + [u];
      IncreaseKeepsOthersOk(vs, u, w, lpg, ut, lt);
    }
  }

  /** `fixup` after `level_decrease(u)`: pushing the `up` neighbours one level above and `u` itself settles the rest. */
  lemma {:induction false} SettledAfterDecrease(vs: seq<VertexView>, rest: seq<nat>, u: nat, added: seq<nat>,
                                               lpg: nat, ut: nat -> nat, lt: nat -> nat)
    requires BucketInv(vs) && u < |vs| && vs[u].level > 0 && lpg > 0
    requires Settled(vs, rest + [u], lpg, ut, lt)
    requires forall w :: w in added <==> w in NextLevelNeighbours(vs, u)
    ensures Settled(Decreased(vs, u), rest + added + [u], lpg, ut, lt)
  {
    var vs' := Decreased(vs, u);
    forall w: int | 0 <= w < |vs'| && w !in rest + added + [u] ensures Ok(vs'[w], lpg, ut, lt) {
      assert w !in rest + [u];
      DecreaseKeepsOthersOk(vs, u, w, lpg, ut, lt);
    }
  }

  /** `insert_edge` and `delete_edge` change the records of `u` and `v` only, and push both. */
  lemma SettledAfterEdge(vs: seq<VertexView>, vs': seq<VertexView>, dirty: seq<nat>, u: nat, v: nat,
                         lpg: nat, ut: nat -> nat, lt: nat -> nat)
    requires lpg > 0 && Settled(vs, dirty, lpg, ut, lt) && |vs'| == |vs|
    requires forall w :: 0 <= w < |vs| && w != u && w != v ==> vs'[w] == vs[w]
    ensures Settled(vs', dirty + [u, v], lpg, ut, lt)
  {
    forall w: int | 0 <= w < |vs'| && w !in dirty + [u, v] ensures Ok(vs'[w], lpg, ut, lt) {
      assert w !in dirty && w != u && w != v;
    }
  }

  /** The edge updates change only the two endpoints. */
  lemma EdgeUpdatesAreLocal(vs: seq<VertexView>, u: nat, v: nat)
    requires u < |vs| && v < |vs| && u != v
    ensures forall w :: 0 <= w < |vs| && w != u && w != v ==> EdgeInserted(vs, u, v)[w] == vs[w] && EdgeDeleted(vs, u, v)[w] == vs[w]
  {
  }
}
