/**
  The simplified level data structure of `src/LDS.h`: one record per vertex holding
  its level, a single mutation that raises one vertex's level by one, and the
  derivation of a level's group.
 */
module LevelStructure {

  /** The range of `uintE` (`unsigned int`). */
  const UintELimit: nat := 0x1_0000_0000

  newtype UintE = x: int | 0 <= x < 0x1_0000_0000

  /** `LDSVertex`: a vertex record holds only its level. */
  datatype LDSVertex = LDSVertex(level: UintE)

  /** `level++` on a `uintE`: unsigned arithmetic wraps around at 2^32. */
  function Inc(x: UintE): (r: UintE)
    ensures x as int + 1 < UintELimit ==> r as int == x as int + 1
    ensures x as int + 1 == UintELimit ==> r == 0
  {
    ((x as int + 1) % UintELimit) as UintE
  }

  /** The vertex records after `level_increase_v2(u, L)`. */
  function Increased(s: seq<LDSVertex>, u: nat): (r: seq<LDSVertex>)
    requires u < |s|
    ensures |r| == |s|
    ensures r[u].level == Inc(s[u].level)
    ensures forall v :: 0 <= v < |s| && v != u ==> r[v] == s[v]
  {
    s[u := LDSVertex(Inc(s[u].level))]
  }

  class LDS {
    const n: nat
    /** Taken as given: the source derives it from `n` and `phi` in floating point. */
    const levelsPerGroup: nat
    var L: array<LDSVertex>

    /** `LDS(n, eps, delta, optimized)`: `n` records, every level 0. */
    constructor (n: nat, levelsPerGroup: nat)
      ensures this.n == n && this.levelsPerGroup == levelsPerGroup
      ensures fresh(L) && L.Length == n
      ensures forall v :: 0 <= v < n ==> L[v].level == 0
    {
      this.n := n;
      this.levelsPerGroup := levelsPerGroup;
      L := new LDSVertex[n](_ => LDSVertex(0));
    }

    /** `get_level(ngh)`: indexing the vector is unchecked in the source, so the index must be in range. */
    function GetLevel(ngh: nat): (l: UintE)
      reads this, L
      requires ngh < L.Length
      ensures l == Levels(L[..])[ngh]
    {
      L[ngh].level
    }

    /**
      `level_increase_v2(u, L)`: the parameter `L` shadows the member of the same name,
      so the container the caller passes is the one that changes, and only at `u`.
     */
    method LevelIncreaseV2(u: nat, L: array<LDSVertex>)
      requires u < L.Length
      modifies L
      ensures L[..] == Increased(old(L[..]), u)
      ensures L[u].level == Inc(old(L[u].level))
      ensures forall v :: 0 <= v < L.Length && v != u ==> L[v] == old(L[v])
    {
      L[u] := LDSVertex(Inc(L[u].level));
    }
  }

  /** `group_for_level(level) = level / levels_per_group`, floor division. */
  function GroupForLevel(level: nat, levelsPerGroup: nat): (g: nat)
    requires levelsPerGroup > 0
    ensures g * levelsPerGroup <= level < (g + 1) * levelsPerGroup
  {
    level / levelsPerGroup
  }

  /** The group of a level is the only `g` whose band `[g * lpg, (g + 1) * lpg)` contains it. */
  lemma GroupForLevelUnique(level: nat, levelsPerGroup: nat, g: nat)
    requires levelsPerGroup > 0
    ensures GroupForLevel(level, levelsPerGroup) == g <==> g * levelsPerGroup <= level < (g + 1) * levelsPerGroup
  {
    var h := GroupForLevel(level, levelsPerGroup);
    if g * levelsPerGroup <= level < (g + 1) * levelsPerGroup {
      if g < h {
        MulMonotone(g + 1, h, levelsPerGroup);
      } else if h < g {
        MulMonotone(h + 1, g, levelsPerGroup);
      }
    }
  }

  lemma MulMonotone(a: nat, b: nat, c: nat)
    requires a <= b
    ensures a * c <= b * c
  {
  }

  /** `group_for_level(k * levels_per_group) == k`. */
  lemma GroupOfGroupStart(k: nat, levelsPerGroup: nat)
    requires levelsPerGroup > 0
    ensures GroupForLevel(k * levelsPerGroup, levelsPerGroup) == k
  {
    GroupForLevelUnique(k * levelsPerGroup, levelsPerGroup, k);
  }

  /** `group_for_level` is non-decreasing in the level. */
  lemma GroupForLevelMonotone(l1: nat, l2: nat, levelsPerGroup: nat)
    requires levelsPerGroup > 0 && l1 <= l2
    ensures GroupForLevel(l1, levelsPerGroup) <= GroupForLevel(l2, levelsPerGroup)
  {
    var g1, g2 := GroupForLevel(l1, levelsPerGroup), GroupForLevel(l2, levelsPerGroup);
    if g1 > g2 {
      MulMonotone(g2 + 1, g1, levelsPerGroup);
    }
  }

  /** The levels, in vertex order. */
  function Levels(s: seq<LDSVertex>): (r: seq<UintE>)
    ensures |r| == |s| && forall v :: 0 <= v < |s| ==> r[v] == s[v].level
  {
    seq(|s|, v requires 0 <= v < |s| => s[v].level)
  }

  /** What `get_level` reports after `level_increase_v2(u)`: the incremented level at `u`, the old level elsewhere. */
  lemma LevelsOfIncreased(s: seq<LDSVertex>, u: nat)
    requires u < |s|
    ensures Levels(Increased(s, u)) == Levels(s)[u := Inc(s[u].level)]
  {
  }

  /** The records after `level_increase_v2` has been applied to each vertex of `us` in turn. */
  function IncreaseAll(s: seq<LDSVertex>, us: seq<nat>): (r: seq<LDSVertex>)
    requires forall i :: 0 <= i < |us| ==> us[i] < |s|
    ensures |r| == |s|
    decreases |us|
  {
    if us == [] then s else IncreaseAll(Increased(s, us[0]), us[1..])
  }

  /** How often `v` occurs in `us`. */
  function Occurrences(us: seq<nat>, v: nat): nat
  {
    if us == [] then 0 else (if us[0] == v then 1 else 0) + Occurrences(us[1..], v)
  }

  /**
    After any sequence of increases, a vertex's level is its old level plus the number of
    times it was increased, modulo 2^32; the other vertices do not disturb it.
   */
  lemma {:induction false} IncreaseAllLevel(s: seq<LDSVertex>, us: seq<nat>, v: nat)
    requires forall i :: 0 <= i < |us| ==> us[i] < |s|
    requires v < |s|
    ensures IncreaseAll(s, us)[v].level as int == (s[v].level as int + Occurrences(us, v)) % UintELimit
    decreases |us|
  {
    if us != [] {
      var s' := Increased(s, us[0]);
      IncreaseAllLevel(s', us[1..], v);
      if us[0] == v {
        assert s'[v].level as int == (s[v].level as int + 1) % UintELimit;
      }
    }
  }

  lemma {:induction false} OccurrencesOfPrefix(us: seq<nat>, i: nat, v: nat)
    requires i <= |us|
    ensures Occurrences(us[..i], v) <= Occurrences(us, v)
    decreases |us|
  {
    if i > 0 {
      assert us[..i][1..] == us[1..][..i - 1];
      OccurrencesOfPrefix(us[1..], i - 1, v);
    }
  }

  /**
    Levels never decrease: as long as no level reaches 2^32 (where `uintE` wraps), every
    vertex's level after a prefix of a run of increases is at most its level after the whole run.
   */
  lemma LevelsNeverDecrease(s: seq<LDSVertex>, us: seq<nat>, i: nat, v: nat)
    requires forall k :: 0 <= k < |us| ==> us[k] < |s|
    requires i <= |us| && v < |s|
    requires s[v].level as int + Occurrences(us, v) < UintELimit
    ensures s[v].level <= IncreaseAll(s, us[..i])[v].level <= IncreaseAll(s, us)[v].level
  {
    IncreaseAllLevel(s, us, v);
    IncreaseAllLevel(s, us[..i], v);
    OccurrencesOfPrefix(us, i, v);
  }
}
