/**
  The partitioning helper of `graph_partitioner.py`: an edge list is read into a symmetric
  adjacency, the vertex ids `0 .. graphSize - 1` are cut into one chunk per worker process
  with `chunk_into_n`, and each chunk's adjacency lines go to that worker's file.
 */
module Partitioner {

  // ---------------------------------------------------------------------------
  // `chunk_into_n`
  // ---------------------------------------------------------------------------

  /** `ceil(len / n)` for a positive `n`. */
  function CeilDiv(len: nat, n: nat): (size: nat)
    requires n > 0
    ensures size == 0 <==> len == 0
    ensures n == 1 ==> size == len
  {
    (len + n - 1) / n
  }

  /** `ceil(len / n)` is the least `size` with `size * n >= len`. */
  lemma CeilDivIsLeast(len: nat, n: nat)
    requires n > 0
    ensures CeilDiv(len, n) * n >= len
    ensures CeilDiv(len, n) > 0 ==> (CeilDiv(len, n) - 1) * n < len
  {
    var q, r := (len + n - 1) / n, (len + n - 1) % n;
    assert len + n - 1 == q * n + r;
    if q > 0 {
      assert (q - 1) * n == q * n - n;
    }
  }

  /** The chunk boundaries `x * size` grow with `x`, by `size` at each step. */
  lemma ChunkStarts(x: nat, y: nat, size: nat)
    requires x <= y
    ensures x * size <= y * size && (x + 1) * size == x * size + size
  {
  }

  /** Python's `lst[a:b]` for `0 <= a <= b`: both ends are clamped to the length. */
  function Slice<T>(lst: seq<T>, a: nat, b: nat): (r: seq<T>)
    requires a <= b
    ensures |r| <= b - a
    ensures b <= |lst| ==> r == lst[a..b]
    ensures a >= |lst| ==> r == []
  {
    var lo := if a < |lst| then a else |lst|;
    var hi := if b < |lst| then b else |lst|;
    lst[lo..hi]
  }

  /**
    `chunk_into_n(lst, n)`: chunk `x` is `lst[x * size : x * size + size]` with
    `size = ceil(len(lst) / n)`; a negative `n` gives an empty `range(n)`, and `n == 0`
    divides by zero.
   */
  function ChunkIntoN<T>(lst: seq<T>, n: int): (r: seq<seq<T>>)
    requires n != 0
    ensures n < 0 ==> r == []
    ensures n > 0 ==> |r| == n
    ensures n > 0 ==> forall x :: 0 <= x < n ==> |r[x]| <= CeilDiv(|lst|, n)
  {
    if n < 0 then []
    else
      var size := CeilDiv(|lst|, n);
      seq(n, x requires 0 <= x < n => Slice(lst, x * size, x * size + size))
  }

  function Concat<T>(chunks: seq<seq<T>>): seq<T>
  {
    if chunks == [] then [] else Concat(chunks[..|chunks| - 1]) + chunks[|chunks| - 1]
  }

  /** The first `k` chunks, concatenated, are the first `k * size` elements (or all of them). */
  lemma {:induction false} ConcatPrefix<T>(lst: seq<T>, n: nat, k: nat)
    requires 0 < n && k <= n
    ensures Concat(ChunkIntoN(lst, n)[..k]) == lst[..Cut(|lst|, CeilDiv(|lst|, n), k)]
  {
    var size := CeilDiv(|lst|, n);
    var chunks := ChunkIntoN(lst, n);
    if k > 0 {
      ConcatPrefix(lst, n, k - 1);
      var lo, hi := Cut(|lst|, size, k - 1), Cut(|lst|, size, k);
      CutStep(|lst|, size, k - 1);
      assert chunks[k - 1] == lst[lo..hi];
      assert chunks[..k][..k - 1] == chunks[..k - 1];
      assert Concat(chunks[..k]) == Concat(chunks[..k - 1]) + chunks[k - 1];
      PrefixThenSlice(lst, lo, hi);
    }
  }

  /** Where chunk `k` starts: `k * size`, clamped to the length. */
  function Cut(len: nat, size: nat, k: nat): (c: nat)
    ensures c <= len
  {
    if k * size < len then k * size else len
  }

  /** Chunk `k` runs from `Cut(k)` to `Cut(k + 1)`. */
  lemma CutStep(len: nat, size: nat, k: nat)
    ensures Cut(len, size, k) <= Cut(len, size, k + 1)
    ensures Cut(len, size, k) == if k * size < len then k * size else len
    ensures Cut(len, size, k + 1) == if k * size + size < len then k * size + size else len
  {
    ChunkStarts(k, k + 1, size);
  }

  lemma PrefixThenSlice<T>(lst: seq<T>, lo: nat, hi: nat)
    requires lo <= hi <= |lst|
    ensures lst[..lo] + lst[lo..hi] == lst[..hi]
  {
  }

  /** Concatenating the chunks in order gives back the list: nothing is lost, repeated or moved. */
  lemma ConcatChunks<T>(lst: seq<T>, n: nat)
    requires n > 0
    ensures Concat(ChunkIntoN(lst, n)) == lst
  {
    var size := CeilDiv(|lst|, n);
    ConcatPrefix(lst, n, n);
    CeilDivIsLeast(|lst|, n);
    assert Cut(|lst|, size, n) == |lst| by {
      assert n * size == size * n;
    }
    var chunks := ChunkIntoN(lst, n);
    assert chunks[..n] == chunks;
    assert lst[..|lst|] == lst;
  }

  /** Full chunks come first: once one chunk is short, every later chunk is empty. */
  lemma ShortChunksLast<T>(lst: seq<T>, n: nat, x: nat, y: nat)
    requires 0 < n && x < y < n
    requires |ChunkIntoN(lst, n)[x]| < CeilDiv(|lst|, n)
    ensures ChunkIntoN(lst, n)[y] == []
  {
    var size := CeilDiv(|lst|, n);
    ChunkStarts(x + 1, y, size);
    ChunkStarts(x, y, size);
    var a := x * size;
    assert ChunkIntoN(lst, n)[x] == Slice(lst, a, a + size);
    assert a + size > |lst|;
    assert ChunkIntoN(lst, n)[y] == Slice(lst, y * size, y * size + size);
  }

  // ---------------------------------------------------------------------------
  // `partition_graph`
  // ---------------------------------------------------------------------------

  /** The ends of the edges. */
  function Endpoints(edges: seq<(int, int)>): (r: set<int>)
    ensures forall v :: v in r <==> exists i :: 0 <= i < |edges| && (edges[i].0 == v || edges[i].1 == v)
  {
    (set i | 0 <= i < |edges| :: edges[i].0) + (set i | 0 <= i < |edges| :: edges[i].1)
  }

  /** The entries `data[v]` collects: for every edge, in order, the other end when `v` is an end. */
  function Neighbours(edges: seq<(int, int)>, v: int): seq<int>
  {
    if edges == [] then []
    else
      var e := edges[|edges| - 1];
      Neighbours(edges[..|edges| - 1], v) + (if e.0 == v then [e.1] else []) + (if e.1 == v then [e.0] else [])
  }

  /** Every edge `a b` lists `b` for `a` and `a` for `b`: `b` occurs in `a`'s list as often as `a` in `b`'s. */
  lemma {:induction false} NeighboursSymmetric(edges: seq<(int, int)>, a: int, b: int)
    ensures multiset(Neighbours(edges, a))[b] == multiset(Neighbours(edges, b))[a]
    decreases |edges|
  {
    if edges != [] {
      NeighboursSymmetric(edges[..|edges| - 1], a, b);
      NeighboursCountStep(edges, a, b);
      NeighboursCountStep(edges, b, a);
    }
  }

  /** The last edge adds one entry `b` to `a`'s list for each of its ends that is `a` with the other end `b`. */
  lemma NeighboursCountStep(edges: seq<(int, int)>, a: int, b: int)
    requires edges != []
    ensures var e := edges[|edges| - 1];
      multiset(Neighbours(edges, a))[b]
      == multiset(Neighbours(edges[..|edges| - 1], a))[b]
       + (if e.0 == a && e.1 == b then 1 else 0) + (if e.1 == a && e.0 == b then 1 else 0)
  {
    var e := edges[|edges| - 1];
    var first: seq<int> := if e.0 == a then [e.1] else [];
    var second: seq<int> := if e.1 == a then [e.0] else [];
    assert Neighbours(edges, a) == Neighbours(edges[..|edges| - 1], a) + first + second;
    assert multiset(first)[b] == if e.0 == a && e.1 == b then 1 else 0;
    assert multiset(second)[b] == if e.1 == a && e.0 == b then 1 else 0;
  }

  /** A vertex has entries only if it is an end of some edge. */
  lemma {:induction false} NeighboursOfNonEnd(edges: seq<(int, int)>, v: int)
    requires v !in Endpoints(edges)
    ensures Neighbours(edges, v) == []
    decreases |edges|
  {
    if edges != [] {
      var init := edges[..|edges| - 1];
      forall w | w in Endpoints(init) ensures w in Endpoints(edges) {
        var i :| 0 <= i < |init| && (init[i].0 == w || init[i].1 == w);
        assert edges[i] == init[i];
      }
      NeighboursOfNonEnd(init, v);
    }
  }

  /** The loop of `partition_graph` over the edge lines, filling a `defaultdict(list)`. */
  method BuildAdjacency(edges: seq<(int, int)>) returns (data: map<int, seq<int>>)
    ensures data.Keys == Endpoints(edges)
    ensures forall v :: v in data ==> data[v] == Neighbours(edges, v)
  {
    data := map[];
    for i := 0 to |edges|
      invariant data.Keys == Endpoints(edges[..i])
      invariant forall v :: v in data ==> data[v] == Neighbours(edges[..i], v)
    {
      var (n1, n2) := edges[i];
      assert edges[..i + 1] == edges[..i] + [edges[i]];
      AdjacencyAppend(data, edges[..i], edges[i]);
      data := data[n1 := Get(data, n1) + [n2]];
      data := data[n2 := Get(data, n2) + [n1]];
    }
    assert edges[..|edges|] == edges;
  }

  /** One more edge line `a b`: `b` is appended to `data[a]`, then `a` to `data[b]`. */
  lemma AdjacencyAppend(data: map<int, seq<int>>, edges: seq<(int, int)>, e: (int, int))
    requires data.Keys == Endpoints(edges)
    requires forall v :: v in data ==> data[v] == Neighbours(edges, v)
    ensures var d1 := data[e.0 := Get(data, e.0) + [e.1]];
            var d2 := d1[e.1 := Get(d1, e.1) + [e.0]];
            d2.Keys == Endpoints(edges + [e]) && forall v :: v in d2 ==> d2[v] == Neighbours(edges + [e], v)
  {
    EndpointsAppend(edges, e);
    var es := edges + [e];
    assert es[..|es| - 1] == edges;
    var d1 := data[e.0 := Get(data, e.0) + [e.1]];
    var d2 := d1[e.1 := Get(d1, e.1) + [e.0]];
    forall v | v in d2 ensures d2[v] == Neighbours(es, v) {
      assert Get(data, v) == Neighbours(edges, v) by {
        if v !in data {
          NeighboursOfNonEnd(edges, v);
        }
      }
      assert Neighbours(es, v)
          == Neighbours(edges, v) + (if e.0 == v then [e.1] else []) + (if e.1 == v then [e.0] else []);
    }
  }

  lemma EndpointsAppend(edges: seq<(int, int)>, e: (int, int))
    ensures Endpoints(edges + [e]) == Endpoints(edges) + {e.0, e.1}
  {
    var es := edges + [e];
    forall v | v in Endpoints(es) ensures v in Endpoints(edges) + {e.0, e.1} {
      var i :| 0 <= i < |es| && (es[i].0 == v || es[i].1 == v);
      if i < |edges| {
        assert edges[i] == es[i];
      }
    }
    forall v | v in Endpoints(edges) ensures v in Endpoints(es) {
      var i :| 0 <= i < |edges| && (edges[i].0 == v || edges[i].1 == v);
      assert es[i] == edges[i];
    }
    assert es[|edges|] == e;
  }

  /** `data[node]` on a `defaultdict(list)`: the empty list for a vertex without entries. */
  function Get(data: map<int, seq<int>>, v: int): seq<int>
  {
    if v in data then data[v] else []
  }

  /** The lines `"{node} {a}"` written for one vertex, one per entry of its list. */
  function LinesOf(data: map<int, seq<int>>, node: int): (r: seq<(int, int)>)
    ensures forall line :: line in r <==> line.0 == node && line.1 in Get(data, node)
  {
    var adj := Get(data, node);
    var r := seq(|adj|, k requires 0 <= k < |adj| => (node, adj[k]));
    assert forall line :: line in r <==> line.0 == node && line.1 in adj by {
      forall line | line in r ensures line.0 == node && line.1 in adj {
        var k :| 0 <= k < |r| && r[k] == line;
        assert adj[k] == line.1;
      }
      forall line: (int, int) | line.0 == node && line.1 in adj ensures line in r {
        var k :| 0 <= k < |adj| && adj[k] == line.1;
        assert r[k] == line;
      }
    }
    r
  }

  /** The contents of one partition file: the lines of each vertex of its chunk, in chunk order. */
  function FileLines(data: map<int, seq<int>>, chunk: seq<int>): seq<(int, int)>
  {
    if chunk == [] then [] else FileLines(data, chunk[..|chunk| - 1]) + LinesOf(data, chunk[|chunk| - 1])
  }

  /** A file holds a line `node a` exactly when `node` is in its chunk and `a` in `node`'s list. */
  lemma {:induction false} FileLinesContent(data: map<int, seq<int>>, chunk: seq<int>, line: (int, int))
    ensures line in FileLines(data, chunk) <==> line.0 in chunk && line.1 in Get(data, line.0)
  {
    if chunk != [] {
      var init := chunk[..|chunk| - 1];
      FileLinesContent(data, init, line);
      assert chunk == init + [chunk[|chunk| - 1]];
    }
  }

  /** The vertex ids `0 .. graphSize - 1`. */
  function Range(count: nat): (r: seq<int>)
    ensures |r| == count && forall i :: 0 <= i < count ==> r[i] == i
  {
    seq(count, i requires 0 <= i < count => i)
  }

  /** A vertex id of the range lies in chunk `i` of it exactly when `i * size <= v < (i + 1) * size`. */
  lemma InChunk(count: nat, processes: nat, i: nat, v: int)
    requires processes > 0 && i < processes
    ensures var size := CeilDiv(count, processes);
            v in ChunkIntoN(Range(count), processes)[i] <==> 0 <= v < count && i * size <= v < i * size + size
  {
    var size := CeilDiv(count, processes);
    var a := i * size;
    assert ChunkIntoN(Range(count), processes)[i] == Slice(Range(count), a, a + size);
    InSlice(count, a, a + size, v);
  }

  /** A slice of the range holds exactly the ids of the range between its bounds. */
  lemma InSlice(count: nat, a: nat, b: nat, v: int)
    requires a <= b
    ensures v in Slice(Range(count), a, b) <==> 0 <= v < count && a <= v < b
  {
    var c := Slice(Range(count), a, b);
    var lo := if a < count then a else count;
    var hi := if b < count then b else count;
    assert c == Range(count)[lo..hi];
    if v in c {
      var k :| 0 <= k < |c| && c[k] == v;
      assert c[k] == Range(count)[lo + k];
    }
    if 0 <= v < count && a <= v < b {
      assert c[v - lo] == v;
    }
  }

  /** Every vertex id of the range is in exactly one chunk, the one numbered `v / size`. */
  lemma ChunkOfVertex(count: nat, processes: nat, v: nat)
    requires processes > 0 && v < count
    ensures var size := CeilDiv(count, processes);
            size > 0 && v / size < processes
            && forall i :: 0 <= i < processes ==> (v in ChunkIntoN(Range(count), processes)[i] <==> i == v / size)
  {
    var size := CeilDiv(count, processes);
    CeilDivIsLeast(count, processes);
    var g := v / size;
    GroupBand(v, size);
    GroupBelow(count, processes, size, g, v);
    forall i | 0 <= i < processes
      ensures v in ChunkIntoN(Range(count), processes)[i] <==> i == g
    {
      InChunk(count, processes, i, v);
      BandsDisjoint(v, size, i, g);
    }
  }

  /** A vertex below `count` lies in a band whose number is below `processes` when the bands cover `count`. */
  lemma GroupBelow(count: nat, processes: nat, size: nat, g: nat, v: nat)
    requires size * processes >= count && g * size <= v < count
    ensures g < processes
  {
    if g >= processes {
      ChunkStarts(processes, g, size);
    }
  }

  /** The bands `[i * size, (i + 1) * size)` do not overlap. */
  lemma BandsDisjoint(v: nat, size: nat, i: nat, g: nat)
    requires g * size <= v < g * size + size
    ensures i * size <= v < i * size + size <==> i == g
  {
    if i < g {
      ChunkStarts(i + 1, g, size);
      ChunkStarts(i, g, size);
    } else if g < i {
      ChunkStarts(g + 1, i, size);
      ChunkStarts(g, i, size);
    }
  }

  lemma GroupBand(v: nat, size: nat)
    requires size > 0
    ensures (v / size) * size <= v < (v / size) * size + size
  {
  }

  /** The writing loop for one chunk: each vertex's entries, in order, as `(node, a)` lines. */
  method WriteChunk(data: map<int, seq<int>>, chunk: seq<int>) returns (out: seq<(int, int)>)
    ensures out == FileLines(data, chunk)
  {
    out := [];
    for j := 0 to |chunk|
      invariant out == FileLines(data, chunk[..j])
    {
      var node := chunk[j];
      var adjacency := Get(data, node);
      ghost var before := out;
      for k := 0 to |adjacency|
        invariant out == before + LinesOf(data, node)[..k]
      {
        assert LinesOf(data, node)[..k + 1] == LinesOf(data, node)[..k] + [(node, adjacency[k])];
        out := out + [(node, adjacency[k])];
      }
      assert LinesOf(data, node)[..|adjacency|] == LinesOf(data, node);
      assert chunk[..j + 1][..j] == chunk[..j];
    }
    assert chunk[..|chunk|] == chunk;
  }

  /**
    `partition_graph(graph, n)` with the vertex count `GRAPH_SIZES[graph]` as `graphSize`.
    The file is its first line `header`, of any type since `del lines[0]` drops it
    unparsed, followed by the edge lines `edges`, given as parsed pairs. File `i + 1`
    (here `files[i]`) receives the lines of chunk `i` of the `n - 1` chunks; `n == 1`
    leaves no process to divide by.
   */
  method PartitionGraph<H>(header: H, edges: seq<(int, int)>, graphSize: nat, n: int)
      returns (files: seq<seq<(int, int)>>, ghost data: map<int, seq<int>>)
    requires n != 1
    ensures data.Keys == Endpoints(edges)
    ensures forall v :: v in data ==> data[v] == Neighbours(edges, v)
    ensures n < 1 ==> files == []
    ensures n > 1 ==> |files| == n - 1
    ensures forall i :: 0 <= i < |files| ==> files[i] == FileLines(data, ChunkIntoN(Range(graphSize), n - 1)[i])
  {
    var d := BuildAdjacency(edges);
    data := d;
    var chunks := ChunkIntoN(Range(graphSize), n - 1);
    files := [];
    for i := 0 to |chunks|
      invariant |files| == i
      invariant forall j :: 0 <= j < i ==> files[j] == FileLines(d, chunks[j])
    {
      var out := WriteChunk(d, chunks[i]);
      files := files + [out];
    }
  }

  /**
    Each vertex's adjacency lines are written to exactly one partition file, the one of its
    chunk: for a vertex `v < graphSize` and an entry `a` of its list, file `i` holds `v a`
    exactly when `i == v / size`.
   */
  lemma EachVertexInOneFile(graphSize: nat, n: int,
                            files: seq<seq<(int, int)>>, data: map<int, seq<int>>, v: nat, a: int)
    requires n > 1 && |files| == n - 1 && v < graphSize
    requires forall i :: 0 <= i < |files| ==> files[i] == FileLines(data, ChunkIntoN(Range(graphSize), n - 1)[i])
    requires a in Get(data, v)
    ensures var size := CeilDiv(graphSize, n - 1);
            size > 0 && v / size < |files|
            && forall i :: 0 <= i < |files| ==> ((v, a) in files[i] <==> i == v / size)
  {
    ChunkOfVertex(graphSize, n - 1, v);
    forall i | 0 <= i < |files|
      ensures (v, a) in files[i] <==> v in ChunkIntoN(Range(graphSize), n - 1)[i]
    {
      FileLinesContent(data, ChunkIntoN(Range(graphSize), n - 1)[i], (v, a));
    }
  }
}
