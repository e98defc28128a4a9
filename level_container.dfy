/**
  The `Level` container of `src/LDS_approx.h`: a bag of vertex ids kept in a vector while it
  is small and in a hash set once it grows past `high_boundary`, switching back to the vector
  when a set shrinks below `low_boundary`.

  `Level` is a value type in the source (it lives by value inside `LDSVertex` records, which
  live by value in a `std::vector`), so each member function that updates it in place is a
  method here that takes the old value and returns the updated one.
 */
module LevelContainer {

  const HighBoundary: nat := 1000
  const LowBoundary: nat := 500

  /** `hashSet` is the `std::unordered_set`, `vec` the `std::vector`, `useVector` says which is in use. */
  datatype Level = Level(hashSet: set<nat>, vec: seq<nat>, useVector: bool)

  /** The ids a level holds, whichever container holds them. */
  function Elems(lv: Level): set<nat>
  {
    lv.hashSet + ToSet(lv.vec)
  }

  /** The ids occurring in a sequence. */
  function ToSet(s: seq<nat>): (r: set<nat>)
    ensures forall x :: x in r <==> x in s
  {
    set x | x in s
  }

  predicate Distinct(s: seq<nat>)
  {
    forall i, j :: 0 <= i < j < |s| ==> s[i] != s[j]
  }

  /**
    The representation invariant: the container not in use is empty, a vector in use holds
    at most `high_boundary` ids, and the vector holds no id twice.
   */
  predicate Valid(lv: Level)
  {
    && (lv.useVector ==> lv.hashSet == {} && |lv.vec| <= HighBoundary)
    && (!lv.useVector ==> lv.vec == [])
    && Distinct(lv.vec)
  }

  /** `Level()`: a fresh level uses the vector and is empty. */
  function NewLevel(): (r: Level)
    ensures r.useVector && Elems(r) == {} && Valid(r)
  {
    Level({}, [], true)
  }

  /** `size()`: the size of whichever container is in use, which on a valid level is the number of distinct ids it holds. */
  function Size(lv: Level): (n: nat)
    ensures Valid(lv) ==> n == |Elems(lv)|
  {
    ElementCount(lv);
    if lv.useVector then |lv.vec| else |lv.hashSet|
  }

  lemma {:induction false} DistinctCardinality(s: seq<nat>)
    requires Distinct(s)
    ensures |ToSet(s)| == |s|
  {
    if s != [] {
      DistinctCardinality(s[1..]);
      assert ToSet(s) == {s[0]} + ToSet(s[1..]);
      assert s[0] !in ToSet(s[1..]);
    }
  }

  /** On a valid level, the container in use holds each of the level's ids exactly once. */
  lemma ElementCount(lv: Level)
    ensures Valid(lv) ==> |Elems(lv)| == if lv.useVector then |lv.vec| else |lv.hashSet|
  {
    if Valid(lv) {
      if lv.useVector {
        DistinctCardinality(lv.vec);
        assert Elems(lv) == ToSet(lv.vec);
      } else {
        assert Elems(lv) == lv.hashSet;
      }
    }
  }

  /** An enumeration of a hash set: every element once, in an unspecified order. */
  method Enumerate(s: set<nat>) returns (order: seq<nat>)
    ensures ToSet(order) == s && Distinct(order) && |order| == |s|
  {
    order := [];
    var rest := s;
    while rest != {}
      invariant rest <= s
      invariant ToSet(order) == s - rest
      invariant Distinct(order)
      invariant |order| + |rest| == |s|
      decreases |rest|
    {
      var v :| v in rest;
      order := order + [v];
      rest := rest - {v};
    }
  }

  lemma DistinctAppend(s: seq<nat>, x: nat)
    requires Distinct(s) && x !in s
    ensures Distinct(s + [x])
  {
  }

  lemma DistinctConcat(a: seq<nat>, b: seq<nat>)
    requires Distinct(a) && Distinct(b) && ToSet(a) !! ToSet(b)
    ensures Distinct(a + b)
  {
    forall i, j | 0 <= i < j < |a + b| ensures (a + b)[i] != (a + b)[j] {
      if i < |a| <= j {
        assert (a + b)[i] in ToSet(a) && (a + b)[j] in ToSet(b);
      }
    }
  }

  lemma ConcatParts(a: seq<nat>, b: seq<nat>)
    ensures (a + b)[..|a|] == a && (a + b)[|a|..] == b
    ensures ToSet(a + b) == ToSet(a) + ToSet(b)
  {
    assert (a + b)[..|a|] == a;
    assert (a + b)[|a|..] == b;
  }

  /**
    `set_to_vector()`: appends every id of the set to the vector, in the set's iteration order,
    empties the set and switches to the vector.
   */
  method SetToVector(lv: Level) returns (r: Level)
    ensures r.useVector && r.hashSet == {}
    ensures |r.vec| == |lv.vec| + |lv.hashSet| && r.vec[..|lv.vec|] == lv.vec
    ensures Elems(r) == Elems(lv)
    ensures Distinct(lv.vec) && ToSet(lv.vec) !! lv.hashSet ==> Distinct(r.vec)
  {
    var added := Enumerate(lv.hashSet);
    r := Level({}, lv.vec + added, true);
    ConcatParts(lv.vec, added);
    if Distinct(lv.vec) && ToSet(lv.vec) !! lv.hashSet {
      DistinctConcat(lv.vec, added);
    }
  }

  /** `vector_to_set()`: inserts every id of the vector into the set, empties the vector, uses the set. */
  method VectorToSet(lv: Level) returns (r: Level)
    ensures !r.useVector && r.vec == [] && r.hashSet == Elems(lv)
  {
    var s := lv.hashSet;
    var i := 0;
    while i < |lv.vec|
      invariant 0 <= i <= |lv.vec|
      invariant s == lv.hashSet + ToSet(lv.vec[..i])
    {
      assert lv.vec[..i + 1] == lv.vec[..i] + [lv.vec[i]];
      s := s + {lv.vec[i]};
      i := i + 1;
    }
    assert lv.vec[..i] == lv.vec;
    r := Level(s, [], false);
  }

  /** The index of the first occurrence of `v` in `s`, or `|s|` when there is none. */
  function IndexOf(s: seq<nat>, v: nat): (i: nat)
    ensures i <= |s|
    ensures forall j :: 0 <= j < i ==> s[j] != v
    ensures i < |s| <==> v in s
    ensures i < |s| ==> s[i] == v
  {
    if s == [] then 0 else if s[0] == v then 0 else 1 + IndexOf(s[1..], v)
  }

  /** `std::find`: a linear search returning the first position of `v`, or the end position. */
  method Find(s: seq<nat>, v: nat) returns (i: nat)
    ensures i == IndexOf(s, v)
    ensures i < |s| ==> s[i] == v
    ensures forall j :: 0 <= j < i ==> s[j] != v
  {
    i := 0;
    while i < |s| && s[i] != v
      invariant i <= IndexOf(s, v)
    {
      i := i + 1;
    }
  }

  /** `s` with its first occurrence of `v` removed. */
  function RemoveFirst(s: seq<nat>, v: nat): (r: seq<nat>)
    ensures v in s ==> multiset(r) == multiset(s) - multiset{v}
    ensures v !in s ==> r == s
  {
    var i := IndexOf(s, v);
    if i < |s| then
      assert s == s[..i] + [s[i]] + s[i + 1..];
      s[..i] + s[i + 1..]
    else s
  }

  lemma DistinctRemoveFirst(s: seq<nat>, v: nat)
    requires Distinct(s)
    ensures Distinct(RemoveFirst(s, v))
    ensures ToSet(RemoveFirst(s, v)) == ToSet(s) - {v}
  {
    var i := IndexOf(s, v);
    if i < |s| {
      var r := s[..i] + s[i + 1..];
      assert forall j :: 0 <= j < |r| ==> r[j] == s[if j < i then j else j + 1];
      forall x | x in ToSet(s) - {v} ensures x in r {
        var j :| 0 <= j < |s| && s[j] == x;
        assert r[if j < i then j else j - 1] == x;
      }
    }
  }

  /**
    `erase(v)`: removes the first occurrence of `v` from the vector, or `v` from the set,
    and switches to the vector once the set has fewer than `low_boundary` ids. The source
    erases the iterator `find` returns without checking it, so `v` must be present.
   */
  method Erase(lv: Level, v: nat) returns (r: Level)
    requires lv.useVector ==> v in lv.vec
    requires !lv.useVector ==> v in lv.hashSet
    ensures lv.useVector ==> r == lv.(vec := RemoveFirst(lv.vec, v))
    ensures !lv.useVector ==> r.useVector == (|lv.hashSet| - 1 < LowBoundary)
    ensures !lv.useVector && !r.useVector ==> r == lv.(hashSet := lv.hashSet - {v})
    ensures Valid(lv) ==> Valid(r) && Elems(r) == Elems(lv) - {v} && Size(r) == Size(lv) - 1
  {
    if lv.useVector {
      var i := Find(lv.vec, v);
      r := lv.(vec := lv.vec[..i] + lv.vec[i + 1..]);
      VectorEraseKeepsValid(lv, v);
    } else {
      r := EraseFromSet(lv, v);
    }
  }

  /** The set branch of `erase(v)`: `set.erase(set.find(v))`, then the switch below `low_boundary`. */
  method EraseFromSet(lv: Level, v: nat) returns (r: Level)
    requires !lv.useVector && v in lv.hashSet
    ensures r.useVector == (|lv.hashSet| - 1 < LowBoundary)
    ensures !r.useVector ==> r == lv.(hashSet := lv.hashSet - {v})
    ensures Valid(lv) ==> Valid(r) && Elems(r) == Elems(lv) - {v} && Size(r) == Size(lv) - 1
  {
    var rest := lv.(hashSet := lv.hashSet - {v});
    if |rest.hashSet| < LowBoundary {
      r := SetToVector(rest);
    } else {
      r := rest;
    }
    if Valid(lv) {
      assert Elems(rest) == Elems(lv) - {v};
      assert |rest.hashSet| == |lv.hashSet| - 1;
    }
  }

  lemma VectorEraseKeepsValid(lv: Level, v: nat)
    requires lv.useVector && v in lv.vec
    ensures Valid(lv) ==> var r := lv.(vec := RemoveFirst(lv.vec, v));
      Valid(r) && Elems(r) == Elems(lv) - {v} && Size(r) == Size(lv) - 1
  {
    if Valid(lv) {
      DistinctRemoveFirst(lv.vec, v);
      assert |RemoveFirst(lv.vec, v)| == |lv.vec| - 1 by {
        assert |multiset(RemoveFirst(lv.vec, v))| == |multiset(lv.vec)| - 1;
      }
    }
  }

  lemma PushBack(lv: Level, v: nat)
    ensures Elems(lv.(vec := lv.vec + [v])) == Elems(lv) + {v}
    ensures Valid(lv) && v !in Elems(lv) ==> Distinct(lv.vec + [v]) && |ToSet(lv.vec + [v])| == |lv.vec| + 1
  {
    ToSetAppend(lv.vec, v);
    if Valid(lv) && v !in Elems(lv) {
      AppendFresh(lv.vec, v);
    }
  }

  lemma ToSetAppend(s: seq<nat>, v: nat)
    ensures ToSet(s + [v]) == ToSet(s) + {v}
  {
    ConcatParts(s, [v]);
    assert ToSet([v]) == {v};
  }

  lemma AppendFresh(s: seq<nat>, v: nat)
    requires Distinct(s) && v !in s
    ensures Distinct(s + [v]) && |ToSet(s + [v])| == |s| + 1
  {
    DistinctAppend(s, v);
    DistinctCardinality(s + [v]);
  }

  /**
    `insert(v)`: appends to the vector, switching to the set once the vector holds more than
    `high_boundary` ids, or inserts into the set. A set never switches back on insertion.
   */
  method Insert(lv: Level, v: nat) returns (r: Level)
    ensures Elems(r) == Elems(lv) + {v}
    ensures r.useVector == (lv.useVector && |lv.vec| + 1 <= HighBoundary)
    ensures r.useVector ==> r.vec == lv.vec + [v] && r.hashSet == lv.hashSet
    ensures !lv.useVector ==> r == lv.(hashSet := lv.hashSet + {v})
    ensures r.useVector ==> |r.vec| <= HighBoundary
    ensures Valid(lv) && v !in Elems(lv) ==> Valid(r) && Size(r) == Size(lv) + 1
  {
    if lv.useVector {
      var pushed := lv.(vec := lv.vec + [v]);
      PushBack(lv, v);
      if |pushed.vec| > HighBoundary {
        r := VectorToSet(pushed);
      } else {
        r := pushed;
      }
    } else {
      r := lv.(hashSet := lv.hashSet + {v});
    }
  }

  /** The order in which `iterate` visits the ids: the vector's order, or an unspecified order of the set. */
  method Iterate(lv: Level) returns (order: seq<nat>)
    ensures lv.useVector ==> order == lv.vec
    ensures !lv.useVector ==> ToSet(order) == lv.hashSet && Distinct(order)
    ensures Valid(lv) ==> ToSet(order) == Elems(lv) && Distinct(order)
  {
    if lv.useVector {
      order := lv.vec;
    } else {
      order := Enumerate(lv.hashSet);
    }
  }
}
