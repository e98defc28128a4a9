/**
  The partition bookkeeping of `src/Graph.h`: each process reads the `(vertex, neighbour)`
  lines of its partition into an adjacency map, counts the graph's size, flattens the map
  into the ordered adjacency list it sends out, and reports per-vertex degrees.

  The map is an `unordered_map`, whose iteration order is unspecified; the methods below
  that iterate it pick the next key arbitrarily and return the order they used as a
  ghost sequence.
 */
module GraphPartition {
  import opened Wrappers
  import Partitioner

  /** `s` holds no value twice. */
  ghost predicate Distinct(s: seq<int>)
  {
    forall i, j :: 0 <= i < j < |s| ==> s[i] != s[j]
  }

  /** An enumeration of the keys of a map: every key exactly once. */
  ghost predicate Enumerates(order: seq<int>, keys: set<int>)
  {
    Distinct(order) && (forall v :: v in order <==> v in keys)
  }

  // ---------------------------------------------------------------------------
  // Reading the input lines
  // ---------------------------------------------------------------------------

  /** The vertices that occur as the first value of some input line. */
  function Sources(pairs: seq<(int, int)>): (r: set<int>)
    ensures forall v :: v in r <==> exists i :: 0 <= i < |pairs| && pairs[i].0 == v
  {
    set i | 0 <= i < |pairs| :: pairs[i].0
  }

  /** The second values of the lines whose first value is `v`, in input order. */
  function Targets(pairs: seq<(int, int)>, v: int): (r: seq<int>)
    ensures |r| <= |pairs|
    ensures v !in Sources(pairs) ==> r == []
  {
    if pairs == [] then []
    else
      var last := pairs[|pairs| - 1];
      Targets(pairs[..|pairs| - 1], v) + (if last.0 == v then [last.1] else [])
  }

  /** The adjacency map the constructor builds from the input lines. */
  ghost function AdjacencyOf(pairs: seq<(int, int)>): (m: map<int, seq<int>>)
    ensures m.Keys == Sources(pairs)
    ensures forall v :: v in m ==> m[v] == Targets(pairs, v)
  {
    map v | v in Sources(pairs) :: Targets(pairs, v)
  }

  /** The total number of adjacency entries of the keys listed in `order`. */
  function EntryCount(m: map<int, seq<int>>, order: seq<int>): nat
  {
    if order == [] then 0
    else EntryCount(m, order[..|order| - 1]) + (if order[|order| - 1] in m then |m[order[|order| - 1]]| else 0)
  }

  /** `order` followed by the id and neighbour list of every key in `order`: the body of the ordered adjacency list. */
  function Flatten(m: map<int, seq<int>>, order: seq<int>): seq<int>
    requires forall v :: v in order ==> v in m
  {
    if order == [] then []
    else
      var v := order[|order| - 1];
      Flatten(m, order[..|order| - 1]) + [v] + m[v]
  }

  lemma {:induction false} FlattenLength(m: map<int, seq<int>>, order: seq<int>)
    requires forall v :: v in order ==> v in m
    ensures |Flatten(m, order)| == |order| + EntryCount(m, order)
  {
    if order != [] {
      FlattenLength(m, order[..|order| - 1]);
    }
  }

  /** Appending one line to the input adds one entry to exactly the key it names. */
  lemma {:induction false} EntryCountStep(pairs: seq<(int, int)>, p: (int, int), order: seq<int>)
    requires Distinct(order)
    ensures EntryCount(AdjacencyOf(pairs + [p]), order)
         == EntryCount(AdjacencyOf(pairs), order) + (if p.0 in order then 1 else 0)
  {
    if order != [] {
      var init := order[..|order| - 1];
      var v := order[|order| - 1];
      assert Distinct(init);
      assert p.0 in order <==> p.0 in init || p.0 == v;
      assert p.0 == v ==> p.0 !in init;
      EntryCountStep(pairs, p, init);
      EntriesAt(pairs, p, v);
    }
  }

  /** The entry count of one key after one more line. */
  lemma EntriesAt(pairs: seq<(int, int)>, p: (int, int), v: int)
    ensures var a, b := AdjacencyOf(pairs), AdjacencyOf(pairs + [p]);
            (if v in b then |b[v]| else 0) == (if v in a then |a[v]| else 0) + (if p.0 == v then 1 else 0)
  {
    var ps := pairs + [p];
    assert ps[..|ps| - 1] == pairs;
    assert Targets(ps, v) == Targets(pairs, v) + (if p.0 == v then [p.1] else []);
  }

  /** Every input line contributes one adjacency entry: over an enumeration of the keys, the entries count the lines. */
  lemma {:induction false} EntryCountIsLineCount(pairs: seq<(int, int)>, order: seq<int>)
    requires Distinct(order) && forall v :: v in Sources(pairs) ==> v in order
    ensures EntryCount(AdjacencyOf(pairs), order) == |pairs|
    decreases |pairs|
  {
    if pairs == [] {
      EntryCountEmpty(AdjacencyOf(pairs), order);
    } else {
      var init := pairs[..|pairs| - 1];
      var p := pairs[|pairs| - 1];
      assert init + [p] == pairs;
      assert forall v :: v in Sources(init) ==> v in Sources(pairs) by {
        forall v | v in Sources(init) ensures v in Sources(pairs) {
          var i :| 0 <= i < |init| && init[i].0 == v;
          assert pairs[i] == init[i];
        }
      }
      EntryCountIsLineCount(init, order);
      EntryCountStep(init, p, order);
      assert p.0 in Sources(pairs) by {
        assert pairs[|pairs| - 1].0 == p.0;
      }
    }
  }

  lemma {:induction false} EntryCountEmpty(m: map<int, seq<int>>, order: seq<int>)
    requires m == map[]
    ensures EntryCount(m, order) == 0
  {
    if order != [] {
      EntryCountEmpty(m, order[..|order| - 1]);
    }
  }

  // ---------------------------------------------------------------------------
  // `splitString`
  // ---------------------------------------------------------------------------

  /** The length of the leading run of characters other than `del`. */
  function FieldLength(s: string, del: char): (k: nat)
    ensures k <= |s|
    ensures forall i :: 0 <= i < k ==> s[i] != del
    ensures k < |s| ==> s[k] == del
  {
    if s == [] || s[0] == del then 0 else 1 + FieldLength(s[1..], del)
  }

  /**
    The tokens `std::getline(ss, item, del)` extracts one after another: the fields between
    delimiters, except that a delimiter at the very end does not start a further, empty field.
   */
  function Tokens(s: string, del: char): (r: seq<string>)
    ensures s == [] <==> r == []
    decreases |s|
  {
    if s == [] then []
    else
      var k := FieldLength(s, del);
      if k == |s| then [s] else [s[..k]] + Tokens(s[k + 1..], del)
  }

  /** The tokens written out again, separated by `del`. */
  function Join(ts: seq<string>, del: char): string
  {
    if ts == [] then []
    else if |ts| == 1 then ts[0]
    else ts[0] + [del] + Join(ts[1..], del)
  }

  /** No token contains the delimiter. */
  lemma {:induction false} TokensHaveNoDelimiter(s: string, del: char)
    ensures forall t :: t in Tokens(s, del) ==> del !in t
    decreases |s|
  {
    if s != [] {
      var k := FieldLength(s, del);
      if k < |s| {
        TokensHaveNoDelimiter(s[k + 1..], del);
      }
    }
  }

  /**
    Joining the tokens with the delimiter gives back the line, except for the one
    delimiter the line may end with.
   */
  lemma {:induction false} JoinTokens(s: string, del: char)
    ensures s == [] || s[|s| - 1] != del ==> Join(Tokens(s, del), del) == s
    ensures s != [] && s[|s| - 1] == del ==> Join(Tokens(s, del), del) + [del] == s
    decreases |s|
  {
    if s != [] {
      var k := FieldLength(s, del);
      if k < |s| {
        var t, rest := s[..k], s[k + 1..];
        assert s == t + [del] + rest;
        var ts := Tokens(rest, del);
        assert Tokens(s, del) == [t] + ts;
        if rest == [] {
          assert [t] + ts == [t];
        } else {
          JoinTokens(rest, del);
          JoinCons(t, ts, del);
          assert s[|s| - 1] == rest[|rest| - 1];
        }
      }
    }
  }

  lemma JoinCons(t: string, ts: seq<string>, del: char)
    requires ts != []
    ensures Join([t] + ts, del) == t + [del] + Join(ts, del)
  {
    assert ([t] + ts)[1..] == ts;
  }

  /** The tokens of a non-empty line: its first field, then the tokens after the delimiter that ends it, if any. */
  lemma TokensStep(s: string, del: char, k: nat)
    requires s != [] && k <= |s| && (forall i :: 0 <= i < k ==> s[i] != del) && (k < |s| ==> s[k] == del)
    ensures k == |s| ==> Tokens(s, del) == [s[..k]]
    ensures k < |s| ==> Tokens(s, del) == [s[..k]] + Tokens(s[k + 1..], del)
  {
    FieldLengthIs(s, del, k);
    assert s[..|s|] == s;
  }

  /** `splitString(line, del)`: extract tokens with `std::getline` until the stream is exhausted. */
  method SplitString(line: string, del: char) returns (result: seq<string>)
    ensures result == Tokens(line, del)
  {
    result := [];
    var pos := 0;
    while pos < |line|
      invariant 0 <= pos <= |line|
      invariant result + Tokens(line[pos..], del) == Tokens(line, del)
      decreases |line| - pos
    {
      var item, next := NextToken(line, pos, del);
      assert result + Tokens(line[pos..], del) == (result + [item]) + Tokens(line[next..], del);
      result := result + [item];
      pos := next;
    }
  }

  /** One iteration of the loop of `splitString`: the token read from `pos` and where the stream stands after it. */
  method NextToken(line: string, pos: nat, del: char) returns (item: string, next: nat)
    requires pos < |line|
    ensures pos < next <= |line|
    ensures Tokens(line[pos..], del) == [item] + Tokens(line[next..], del)
  {
    item, next := GetLine(line, pos, del);
    TokensAfterField(line, pos, item, next, del);
  }

  /** After one field read from `pos`, the remaining tokens are those from where the read stopped. */
  lemma TokensAfterField(line: string, pos: nat, item: string, next: nat, del: char)
    requires pos < |line| && pos + |item| <= |line| && item == line[pos..pos + |item|]
    requires forall i :: 0 <= i < |item| ==> item[i] != del
    requires pos + |item| < |line| ==> line[pos + |item|] == del && next == pos + |item| + 1
    requires pos + |item| == |line| ==> next == |line|
    ensures next <= |line| && Tokens(line[pos..], del) == [item] + Tokens(line[next..], del)
  {
    var rest := line[pos..];
    FieldAt(line, pos, item, del);
    TokensStep(rest, del, |item|);
    if |item| < |rest| {
      assert rest[|item| + 1..] == line[next..];
    } else {
      assert line[next..] == [];
    }
  }

  /** A field read at `pos` is a prefix of the rest of the line without the delimiter. */
  lemma FieldAt(line: string, pos: nat, item: string, del: char)
    requires pos < |line| && pos + |item| <= |line| && item == line[pos..pos + |item|]
    requires forall i :: 0 <= i < |item| ==> item[i] != del
    ensures line[pos..][..|item|] == item
    ensures forall i :: 0 <= i < |item| ==> line[pos..][i] != del
  {
    var rest := line[pos..];
    assert rest[..|item|] == item;
    forall i | 0 <= i < |item| ensures rest[i] != del {
      assert rest[i] == item[i];
    }
  }

  /**
    One `std::getline(ss, item, del)` on a stream positioned at `pos` that is not exhausted:
    the characters up to the next delimiter, which is consumed, or up to the end.
   */
  method GetLine(line: string, pos: nat, del: char) returns (item: string, next: nat)
    requires pos < |line|
    ensures pos + |item| <= |line| && item == line[pos..pos + |item|]
    ensures forall i :: 0 <= i < |item| ==> item[i] != del
    ensures pos + |item| < |line| ==> line[pos + |item|] == del && next == pos + |item| + 1
    ensures pos + |item| == |line| ==> next == |line|
  {
    item := "";
    next := pos;
    while next < |line| && line[next] != del
      invariant pos <= next <= |line|
      invariant item == line[pos..next]
      invariant forall i :: 0 <= i < |item| ==> item[i] != del
      decreases |line| - next
    {
      item := item + [line[next]];
      next := next + 1;
    }
    if next < |line| {
      next := next + 1;
    }
  }

  /** A run of non-delimiters ended by a delimiter or by the end of the line is the field. */
  lemma {:induction false} FieldLengthIs(s: string, del: char, k: nat)
    requires k <= |s| && (forall i :: 0 <= i < k ==> s[i] != del) && (k < |s| ==> s[k] == del)
    ensures FieldLength(s, del) == k
  {
    if k > 0 {
      FieldLengthIs(s[1..], del, k - 1);
    }
  }


  // ---------------------------------------------------------------------------
  // The graph
  // ---------------------------------------------------------------------------

  /** Every vertex of the map has a slot `node - offset` in a degree vector of length `size`. */
  ghost predicate DegreeSlotsFit(m: map<int, seq<int>>, offset: int, size: nat)
  {
    forall node :: node in m ==> 0 <= node - offset < size
  }

  /**
    The degree vector the constructor allocates has one slot per vertex of the file, but
    `getNodeDegreeVector` indexes it by `node - offset`. A partition file skips the vertices
    of its chunk that have no edges, so the indices can run past the end: chunk `[0, 3)` of a
    graph whose only edge is `0 2` gives the file `0 2`, `2 0`, two vertices, and the index 2.
   */
  lemma DegreeIndexOverrun()
    ensures var file := Partitioner.FileLines(map[0 := [2], 2 := [0]], Partitioner.Range(3));
            && file == [(0, 2), (2, 0)]
            && |Sources(file)| == 2
            && !DegreeSlotsFit(AdjacencyOf(file), 0, |Sources(file)|)
  {
    ExampleFile();
    ExampleSources();
  }

  /** The partition file of chunk `[0, 3)` when the graph's only edge is `0 2`. */
  lemma ExampleFile()
    ensures Partitioner.FileLines(map[0 := [2], 2 := [0]], Partitioner.Range(3)) == [(0, 2), (2, 0)]
  {
    var data := map[0 := [2], 2 := [0]];
    assert Partitioner.Range(3) == [0, 1, 2];
    assert Partitioner.LinesOf(data, 0) == [(0, 2)];
    assert Partitioner.LinesOf(data, 1) == [];
    assert Partitioner.LinesOf(data, 2) == [(2, 0)];
    assert [0, 1, 2][..2] == [0, 1] && [0, 1][..1] == [0] && [0][..0] == [];
    assert Partitioner.FileLines(data, [0]) == [(0, 2)];
    assert Partitioner.FileLines(data, [0, 1]) == [(0, 2)];
  }

  /** That file names two vertices, and vertex 2 has a list. */
  lemma ExampleSources()
    ensures |Sources([(0, 2), (2, 0)])| == 2 && 2 in AdjacencyOf([(0, 2), (2, 0)])
  {
    var file := [(0, 2), (2, 0)];
    assert Sources(file) == {0, 2} by {
      assert file[0].0 == 0 && file[1].0 == 2;
    }
  }

  /** `Graph`: the fields the constructor and the accessors update in place. */
  class Graph {
    var adjacencyList: map<int, seq<int>>
    var nodeDegrees: seq<int>
    var graphSize: nat
    var orderedAdjacencyList: seq<int>

    /**
      `Graph(filename, offset)`, with the file's lines given as already-parsed pairs
      (`None` when the file cannot be opened) and `order` the order in which the
      `unordered_map` visits its keys. `offset` is not used by the constructor.
     */
    constructor (input: Option<seq<(int, int)>>, offset: int, order: seq<int>)
      requires input.Some? ==> Enumerates(order, Sources(input.value))
      ensures input.None? ==> adjacencyList == map[] && nodeDegrees == [] && graphSize == 0
      ensures input.Some? ==> adjacencyList == AdjacencyOf(input.value)
      ensures input.Some? ==> graphSize == |Sources(input.value)| + |input.value|
      ensures input.Some? ==> nodeDegrees == seq(|Sources(input.value)|, _ => 0)
      ensures orderedAdjacencyList == []
    {
      orderedAdjacencyList := [];
      if input.None? {
        adjacencyList := map[];
        nodeDegrees := [];
        graphSize := 0;
      } else {
        var pairs := input.value;
        var m := ReadPairs(pairs);
        var size := |m|;
        var total := CountEntries(m, order);
        AdjacencyCardinality(pairs, order);
        EntryCountIsLineCount(pairs, order);
        adjacencyList := m;
        nodeDegrees := seq(size, _ => 0);
        graphSize := size + total;
      }
    }

    /**
      `getNeighbors(node)`: `operator[]` inserts an empty list for a vertex that has none,
      so asking about an absent vertex adds it to the map.
     */
    method GetNeighbors(node: int) returns (r: seq<int>)
      modifies this`adjacencyList
      ensures node in old(adjacencyList) ==> r == old(adjacencyList)[node] && adjacencyList == old(adjacencyList)
      ensures node !in old(adjacencyList) ==> r == [] && adjacencyList == old(adjacencyList)[node := []]
    {
      if node !in adjacencyList {
        adjacencyList := adjacencyList[node := []];
      }
      r := adjacencyList[node];
    }

    /**
      `computeOAL()`: when the cache is empty, `resize(graphSize)` fills it with `graphSize`
      zeros, each vertex's id and neighbour list are appended after them in the map's
      iteration order `order`, and the map is cleared; a non-empty cache is returned as it is.
     */
    method ComputeOAL(order: seq<int>) returns (r: seq<int>)
      requires orderedAdjacencyList == [] ==> Enumerates(order, adjacencyList.Keys)
      modifies this`orderedAdjacencyList, this`adjacencyList
      ensures old(orderedAdjacencyList) != [] ==>
                r == old(orderedAdjacencyList) && orderedAdjacencyList == r && adjacencyList == old(adjacencyList)
      ensures old(orderedAdjacencyList) == [] ==>
                r == seq(graphSize, _ => 0) + Flatten(old(adjacencyList), order)
                && orderedAdjacencyList == r && adjacencyList == map[]
    {
      if orderedAdjacencyList == [] {
        var m := adjacencyList;
        var oal := seq(graphSize, _ => 0);
        for k := 0 to |order|
          invariant oal == seq(graphSize, _ => 0) + Flatten(m, order[..k])
        {
          var node := order[k];
          oal := oal + [node] + m[node];
          assert order[..k + 1][..k] == order[..k];
        }
        assert order[..|order|] == order;
        orderedAdjacencyList := oal;
        adjacencyList := map[];
      }
      r := orderedAdjacencyList;
    }

    /**
      `getNodeDegreeVector(offset)`: for every vertex of the map, visited in the order
      `order`, the entry `node - offset` becomes its neighbour count; the vector is indexed
      unchecked, so every such index must be in range.
     */
    method GetNodeDegreeVector(offset: int, order: seq<int>) returns (r: seq<int>)
      requires Enumerates(order, adjacencyList.Keys)
      requires DegreeSlotsFit(adjacencyList, offset, |nodeDegrees|)
      modifies this`nodeDegrees
      ensures |nodeDegrees| == |old(nodeDegrees)|
      ensures forall i :: 0 <= i < |nodeDegrees| ==>
                nodeDegrees[i] == if i + offset in adjacencyList then |adjacencyList[i + offset]| else old(nodeDegrees)[i]
      ensures r == nodeDegrees
    {
      for k := 0 to |order|
        invariant |nodeDegrees| == |old(nodeDegrees)|
        invariant forall i :: 0 <= i < |nodeDegrees| ==>
                    nodeDegrees[i] == if i + offset in order[..k] then |adjacencyList[i + offset]| else old(nodeDegrees)[i]
      {
        var node := order[k];
        assert node in order;
        nodeDegrees := nodeDegrees[node - offset := |adjacencyList[node]|];
        assert order[..k + 1] == order[..k] + [node];
      }
      assert order[..|order|] == order;
      r := nodeDegrees;
    }

    /**
      `getNodeDegreeVector(offset)` as evidently intended: the vector first grows with zeros
      until every vertex of the map, all at or above `offset`, has its slot, and then every
      vertex's slot holds its neighbour count.
     */
    method GetNodeDegreeVectorCovering(offset: int, order: seq<int>) returns (r: seq<int>)
      requires Enumerates(order, adjacencyList.Keys)
      requires forall node :: node in adjacencyList ==> node >= offset
      modifies this`nodeDegrees
      ensures |nodeDegrees| >= |old(nodeDegrees)| && DegreeSlotsFit(adjacencyList, offset, |nodeDegrees|)
      ensures forall node :: node in adjacencyList ==> nodeDegrees[node - offset] == |adjacencyList[node]|
      ensures forall i :: 0 <= i < |nodeDegrees| && i + offset !in adjacencyList ==>
                nodeDegrees[i] == if i < |old(nodeDegrees)| then old(nodeDegrees)[i] else 0
      ensures r == nodeDegrees
    {
      var span: nat := |nodeDegrees|;
      for k := 0 to |order|
        invariant span >= |nodeDegrees|
        invariant forall j :: 0 <= j < k ==> order[j] - offset < span
      {
        assert order[k] in order;
        if order[k] - offset + 1 > span {
          span := order[k] - offset + 1;
        }
      }
      forall node | node in adjacencyList
        ensures 0 <= node - offset < span
      {
        assert node in order;
        var j :| 0 <= j < |order| && order[j] == node;
      }
      ghost var before := nodeDegrees;
      nodeDegrees := nodeDegrees + seq(span - |nodeDegrees|, _ => 0);
      r := GetNodeDegreeVector(offset, order);
      assert forall i :: 0 <= i < |nodeDegrees| && i + offset !in adjacencyList ==>
               nodeDegrees[i] == if i < |before| then before[i] else 0;
    }
  }

  /** The line-to-map loop of the constructor. */
  method ReadPairs(pairs: seq<(int, int)>) returns (m: map<int, seq<int>>)
    ensures m == AdjacencyOf(pairs)
  {
    m := map[];
    var i := 0;
    AdjacencyOfPrefix(pairs, 0);
    while i < |pairs|
      invariant 0 <= i <= |pairs|
      invariant m == AdjacencyOf(pairs[..i])
    {
      m := AddLine(m, pairs[i]);
      AdjacencyOfPrefix(pairs, i + 1);
      i := i + 1;
    }
    assert pairs[..i] == pairs;
  }

  /** The map of the first `i` lines: empty for none, one `AdjacencyStep` more for each further line. */
  lemma AdjacencyOfPrefix(pairs: seq<(int, int)>, i: nat)
    requires i <= |pairs|
    ensures i == 0 ==> AdjacencyOf(pairs[..i]) == map[]
    ensures i > 0 ==> var a := AdjacencyOf(pairs[..i - 1]); var p := pairs[i - 1];
      AdjacencyOf(pairs[..i]) == a[p.0 := (if p.0 in a then a[p.0] else []) + [p.1]]
  {
    if i > 0 {
      assert pairs[..i] == pairs[..i - 1] + [pairs[i - 1]];
      AdjacencyStep(pairs[..i - 1], pairs[i - 1]);
    }
  }

  /** One line `vertex ngh`: an empty list for a new `vertex`, then `ngh` appended to it. */
  method AddLine(m: map<int, seq<int>>, line: (int, int)) returns (r: map<int, seq<int>>)
    ensures r == m[line.0 := (if line.0 in m then m[line.0] else []) + [line.1]]
  {
    var (vertex, ngh) := line;
    r := m;
    if vertex !in r {
      r := r[vertex := []];
    }
    r := r[vertex := r[vertex] + [ngh]];
  }

  /** One more line adds its first value to the sources. */
  lemma SourcesStep(pairs: seq<(int, int)>, p: (int, int))
    ensures Sources(pairs + [p]) == Sources(pairs) + {p.0}
  {
    var ps := pairs + [p];
    forall v | v in Sources(ps) ensures v in Sources(pairs) + {p.0} {
      var i :| 0 <= i < |ps| && ps[i].0 == v;
      if i < |pairs| {
        assert pairs[i] == ps[i];
      }
    }
    assert ps[|pairs|] == p;
    forall v | v in Sources(pairs) ensures v in Sources(ps) {
      var i :| 0 <= i < |pairs| && pairs[i].0 == v;
      assert ps[i] == pairs[i];
    }
  }

  /** One more line extends the targets of its first value by its second value and leaves the others alone. */
  lemma TargetsStep(pairs: seq<(int, int)>, p: (int, int), v: int)
    ensures Targets(pairs + [p], v) == Targets(pairs, v) + (if p.0 == v then [p.1] else [])
  {
    var ps := pairs + [p];
    assert ps[..|ps| - 1] == pairs;
  }

  /** One more line appends its second value to the list of its first, creating the key when it is new. */
  lemma AdjacencyStep(pairs: seq<(int, int)>, p: (int, int))
    ensures AdjacencyOf(pairs + [p])
         == AdjacencyOf(pairs)[p.0 := (if p.0 in AdjacencyOf(pairs) then AdjacencyOf(pairs)[p.0] else []) + [p.1]]
  {
    SourcesStep(pairs, p);
    var a, b := AdjacencyOf(pairs), AdjacencyOf(pairs + [p]);
    var c := a[p.0 := (if p.0 in a then a[p.0] else []) + [p.1]];
    assert b.Keys == c.Keys;
    forall v | v in b ensures b[v] == c[v] {
      TargetsStep(pairs, p, v);
    }
  }

  /** The size-counting loop of the constructor: the sum of the list lengths, over the map in the order `order`. */
  method CountEntries(m: map<int, seq<int>>, order: seq<int>) returns (total: nat)
    requires Enumerates(order, m.Keys)
    ensures total == EntryCount(m, order)
  {
    total := 0;
    for k := 0 to |order|
      invariant total == EntryCount(m, order[..k])
    {
      var node := order[k];
      assert order[..k + 1][..k] == order[..k];
      total := total + |m[node]|;
    }
    assert order[..|order|] == order;
  }

  /** An enumeration of the keys is as long as the map has keys. */
  lemma AdjacencyCardinality(pairs: seq<(int, int)>, order: seq<int>)
    requires Enumerates(order, AdjacencyOf(pairs).Keys)
    ensures |order| == |AdjacencyOf(pairs)|
  {
    EnumerationCardinality(order, AdjacencyOf(pairs).Keys);
  }

  lemma {:induction false} EnumerationCardinality(order: seq<int>, keys: set<int>)
    requires Enumerates(order, keys)
    ensures |order| == |keys|
    decreases |order|
  {
    if order == [] {
      var none: set<int> := {};
      assert forall v :: v in keys <==> v in none;
      assert keys == none;
    } else {
      var last := order[|order| - 1];
      var init := order[..|order| - 1];
      assert Enumerates(init, keys - {last}) by {
        forall v ensures v in init <==> v in keys - {last} {
          if v in init {
            var i :| 0 <= i < |init| && init[i] == v;
            assert order[i] == v;
          }
          if v in keys - {last} {
            var i :| 0 <= i < |order| && order[i] == v;
            assert i != |order| - 1;
            assert init[i] == v;
          }
        }
      }
      EnumerationCardinality(init, keys - {last});
    }
  }

  /**
    A graph read from its lines and flattened at once: the ordered adjacency list has
    `2 * graphSize` entries, `graphSize` zeros followed by the `graphSize` flattened entries.
   */
  lemma OrderedListLength(pairs: seq<(int, int)>, graphSize: nat, order: seq<int>)
    requires graphSize == |Sources(pairs)| + |pairs|
    requires Enumerates(order, AdjacencyOf(pairs).Keys)
    ensures |seq(graphSize, _ => 0) + Flatten(AdjacencyOf(pairs), order)| == 2 * graphSize
  {
    FlattenLength(AdjacencyOf(pairs), order);
    AdjacencyCardinality(pairs, order);
    EntryCountIsLineCount(pairs, order);
  }
}
