# A verified model of the distributed k-core level data structures

This project models the core of a distributed, differentially private k-core
decomposition. Each worker process keeps a *level data structure* (LDS). Every vertex
has a level. A vertex keeps its lower neighbours in one bucket per level below its own,
and its other neighbours in a single `up` container. When an edge is inserted or
deleted, the vertices whose invariant may have broken are pushed on a `Dirty` stack.
`fixup` then moves them up or down one level at a time until the stack is empty. The
core number reported for a vertex is derived from the group its level falls in.

The model covers:

- the simplified level structure of `src/LDS.h`;
- the bucketed level structure of `src/LDS_approx.h`, with its `Level` container that
  switches between a vector and a hash set;
- the per-process graph reader of `src/Graph.h`;
- the offline partitioner `graph_partitioner.py`;
- the integer parts of the noise sampler in `src/distributions.h`.

Modules, one per source file or concept:

| module | file | models |
|---|---|---|
| `Wrappers` | `wrappers.dfy` | the `Option` type used for "file could not be opened" |
| `LevelStructure` | `level_structure.dfy` | `src/LDS.h`: `uintE` levels that wrap at 2^32, `level_increase_v2`, `group_for_level` |
| `LevelContainer` | `level_container.dfy` | the `Level` struct of `src/LDS_approx.h` as a value with its two containers |
| `BucketSpec` | `bucket_spec.dfy` | an abstract view of every vertex (containers seen as sets); the bucket invariant; the views after `level_increase`, `level_decrease`, `insert_edge` and `delete_edge`; the lemmas that these keep the invariant and the edge set |
| `BucketedLds` | `bucketed_lds.dfy` | `LDSVertex` and the `LDS` class of `src/LDS_approx.h` over an `array` of vertex records, each operation proved against `BucketSpec` |
| `GraphPartition` | `graph.dfy` | the `Graph` class of `src/Graph.h` |
| `Partitioner` | `partitioner.dfy` | `chunk_into_n` and `partition_graph` |
| `NoiseSampler` | `distributions.dfy` | `SecureURBG`'s byte cursor, `Geometric`, the bit assembly of `UniformDouble`, and the search loop of `GeometricDistribution::Sample` |

The central results:

- Every operation of `src/LDS_approx.h`'s `LDS` keeps the bucket invariant
  (`BucketSpec.BucketInv`). Level changes keep the recorded edge set. `insert_edge`
  adds exactly the edge `{u, v}` and `delete_edge` removes exactly that edge.
  - The bucket invariant says that each vertex has one bucket per lower level, that
    `down[i]` holds neighbours at level `i`, that `up` holds neighbours at or above the
    vertex, and that adjacency is symmetric.
- `fixup` keeps this property: every vertex not on the stack satisfies both
  `upper_invariant` and `lower_invariant`. So when the stack runs empty, every vertex
  satisfies both.
- The pushes onto `Dirty` inside `level_increase` and `level_decrease` are exactly the
  `up` neighbours one level above the moving vertex. These are the only vertices other
  than the moving vertex whose invariant can break.
- `core(v)` is monotone in the level whenever the group-to-degree map is monotone.
- `chunk_into_n` splits its list into `n` pieces whose concatenation is the list. With
  `partition_graph`, every vertex's adjacency lines go to exactly one file: the file of
  chunk `v / ceil(graphSize / (n - 1))`.
- `computeOAL` returns `graphSize` zeros followed by the flattened adjacency. The zeros
  are there because `resize` comes before the `push_back` calls, so the list is `2 * graphSize`
  long.

External inputs the model takes as parameters:

- The contents of files: the edge lines, already split into integer pairs.
- The order in which an `unordered_map` or `unordered_set` is iterated. For the map
  this is a ghost enumeration argument. For the set it is an arbitrary choice inside
  the loop.
- The random bytes from `RAND_bytes`, the random words, the outcomes of the
  floating-point comparisons and the floating-point split point of the search.
- The floating-point thresholds `upper_constant * group_degree`, `group_degree` and
  `ceil(group_degree)`, as functions from group to count.

## Model

| member | source | states |
|---|---|---|
| LevelStructure.Inc | src/LDS.h:151-153 | `level++` on a `uintE` adds one below 2^32 - 1 and wraps to 0 at the top |
| LevelStructure.Increased | src/LDS.h:150-153 | an increase changes the level of `u` (by the wrapping increment) and leaves every other record as it was |
| LevelStructure.LDS.GetLevel | src/LDS.h:142-144 | `get_level(ngh)` is the level of `ngh` in the array's level list |
| LevelStructure.LevelsOfIncreased | src/LDS.h:142-153 | after `level_increase_v2(u)`, `get_level` reports the incremented level for `u` and the old level for every other vertex |
| LevelStructure.LDS.constructor | src/LDS.h:136-140 | `n` vertex records, all at level 0, with the given number of levels per group |
| LevelStructure.LDS.LevelIncreaseV2 | src/LDS.h:150-153 | the array afterwards is the old one with `u`'s level incremented (wrapping) and nothing else changed |
| LevelStructure.GroupForLevel | src/LDS.h:155-157 | the group `g` of a level is the one whose band `[g * lpg, (g + 1) * lpg)` holds it |
| LevelStructure.GroupForLevelUnique | src/LDS.h:155-157 | a group is the result exactly when its band contains the level, in both directions |
| LevelStructure.GroupOfGroupStart | src/LDS.h:155-157 | the first level of band `k` is in group `k` |
| LevelStructure.GroupForLevelMonotone | src/LDS.h:155-157 | a higher level never lies in a lower group |
| LevelStructure.IncreaseAllLevel | src/LDS.h:150-153 | after a sequence of increases, each vertex's level is its old level plus the number of times it was increased, modulo 2^32 |
| LevelStructure.LevelsNeverDecrease | src/LDS.h:150-153 | when no level would wrap, a level never decreases along a sequence of increases, at any prefix |
| LevelContainer.NewLevel | src/LDS_approx.h:19 | a new level is empty, valid and in vector mode |
| LevelContainer.Size | src/LDS_approx.h:89-92 | `size()` of a valid level is the number of distinct ids it holds, whichever container is in use |
| LevelContainer.Enumerate | src/LDS_approx.h:68-70 | a range-for over an `unordered_set` visits each member exactly once, in some order |
| LevelContainer.SetToVector | src/LDS_approx.h:21-27 | the set's members are appended after the vector's, the set is cleared, the held ids are unchanged and no id is duplicated |
| LevelContainer.VectorToSet | src/LDS_approx.h:29-35 | the vector is cleared and the set then holds every id the level held |
| LevelContainer.Find | src/LDS_approx.h:38 | `std::find` returns the first index holding the id, or the length when it is absent |
| LevelContainer.IndexOf | src/LDS_approx.h:38 | the first occurrence: no earlier position holds the id, and the index is in range exactly when the id occurs |
| LevelContainer.RemoveFirst | src/LDS_approx.h:38 | erasing at the found position removes one occurrence of the id (as multisets) and changes nothing when it is absent |
| LevelContainer.DistinctRemoveFirst | src/LDS_approx.h:38 | on a duplicate-free vector, erasing keeps it duplicate-free and removes exactly that id |
| LevelContainer.Erase | src/LDS_approx.h:37-43 | the vector loses the first occurrence; the set loses the id and switches to vector mode exactly when it drops below `low_boundary`; a valid level stays valid, holds one id fewer and its size drops by one |
| LevelContainer.EraseFromSet | src/LDS_approx.h:39-42 | the set loses the id; the level switches to vector mode exactly when the set drops below `low_boundary`; a valid level stays valid, holds one id fewer and its size drops by one |
| LevelContainer.PushBack | src/LDS_approx.h:56 | `push_back` adds the id, and a fresh id keeps the vector duplicate-free and grows the count by one |
| LevelContainer.Insert | src/LDS_approx.h:54-59 | the id is added; vector mode is kept exactly while the vector stays within `high_boundary`; a set just gains the id; a fresh id adds one to the size of a valid level |
| LevelContainer.Iterate | src/LDS_approx.h:61-72 | in vector mode the walk is the vector in order; in set mode it visits each member exactly once |
| BucketSpec.IncreasedLevel | src/LDS_approx.h:215-257 | after `level_increase(u)` only `u`'s level changes, by one, and every vertex still has one bucket per lower level |
| BucketSpec.UpNeighbour | src/LDS_approx.h:226-244 | an `up` neighbour of `u` lies at or above `u` and records `u` in the container for `u`'s level; these are the facts behind the source's `assert` on the neighbour's level |
| BucketSpec.IncreaseAdjacent | src/LDS_approx.h:215-257 | after `level_increase(u)` two vertices are adjacent exactly when they were before |
| BucketSpec.IncreaseKeepsInv | src/LDS_approx.h:215-257 | `level_increase(u)` keeps the bucket invariant and the edge set |
| BucketSpec.DecreasedLevel | src/LDS_approx.h:180-212 | after `level_decrease(u)` only `u`'s level changes, down by one, and the bucket count matches the level |
| BucketSpec.DecreaseAdjacent | src/LDS_approx.h:180-212 | after `level_decrease(u)` two vertices are adjacent exactly when they were before |
| BucketSpec.DecreaseKeepsInv | src/LDS_approx.h:180-212 | `level_decrease(u)` keeps the bucket invariant and the edge set |
| BucketSpec.InsertEdgeKeepsInv | src/LDS_approx.h:274-280 | recording a new edge at both endpoints keeps the bucket invariant and adds exactly `(u, v)` and `(v, u)` to the edge set |
| BucketSpec.DeleteEdgeKeepsInv | src/LDS_approx.h:287-293 | removing an edge at both endpoints keeps the bucket invariant and removes exactly `(u, v)` and `(v, u)` |
| BucketSpec.EdgeUpdatesAreLocal | src/LDS_approx.h:278-279 | inserting or deleting an edge changes no record but the two endpoints' records |
| BucketSpec.IncreaseKeepsOthersOk | src/LDS_approx.h:235-244 | after `level_increase(u)`, a vertex other than `u` and not pushed onto `Dirty` keeps both invariants if it had them |
| BucketSpec.DecreaseKeepsOthersOk | src/LDS_approx.h:193-210 | after `level_decrease(u)`, a vertex other than `u` and not pushed onto `Dirty` keeps both invariants if it had them |
| BucketSpec.SettledPop | src/LDS_approx.h:261-263 | popping a vertex that satisfies both invariants leaves every vertex outside the stack satisfying them |
| BucketSpec.SettledAfterIncrease | src/LDS_approx.h:263-266 | when every vertex outside `Dirty + [u]` is fine, after raising `u` and pushing its next-level neighbours and then `u`, every vertex outside the stack is fine |
| BucketSpec.SettledAfterDecrease | src/LDS_approx.h:267-270 | the same for lowering `u` |
| BucketSpec.SettledAfterEdge | src/LDS_approx.h:281-282 | after a change confined to `u` and `v`, pushing both keeps every vertex outside the stack fine |
| BucketedLds.InsertNeighbor | src/LDS_approx.h:127-134 | a neighbour below the vertex's level goes into the bucket of its level, any other into `up`; the containers stay valid when it was not already there |
| BucketedLds.RemoveNeighbor | src/LDS_approx.h:136-142 | the neighbour leaves the bucket of its level, or `up`, and nothing else changes |
| BucketedLds.UpperInvariant | src/LDS_approx.h:145-150 | `upper_invariant` on valid containers holds exactly when the record's view has at most `upperThreshold(level / lpg)` `up` neighbours |
| BucketedLds.LowerInvariant | src/LDS_approx.h:152-160 | `lower_invariant` on valid containers holds exactly when the view is at level 0 or its `up` set and top bucket together reach `lowerThreshold((level - 1) / lpg)` |
| BucketedLds.InsertAll | src/LDS_approx.h:253-255 | inserting a duplicate-free sequence adds its ids and grows the size by its length |
| BucketedLds.RaisedRecord | src/LDS_approx.h:250-256 | `u`'s new record is one level up with `same_level` as its new top bucket and the rest of `up` kept; its containers are valid |
| BucketedLds.MoveBetweenBuckets | src/LDS_approx.h:236-237 | `u` moves from bucket `i` to bucket `j` of a neighbour's record and nothing else changes |
| BucketedLds.MoveBucketToUp | src/LDS_approx.h:240-241 | `u` moves from a bucket into `up` |
| BucketedLds.MoveUpToBucket | src/LDS_approx.h:196-197 | `u` moves from `up` into a bucket |
| BucketedLds.RaiseInNeighbour | src/LDS_approx.h:235-242 | a neighbour above `u`'s level re-files `u` one level up: into the next bucket, or into `up` when it sits just above |
| BucketedLds.LowerInNeighbour | src/LDS_approx.h:195-202 | a neighbour at or above `u`'s level re-files `u` one level down |
| BucketedLds.MergeTopBucket | src/LDS_approx.h:186-191 | the top bucket is merged into `up` and removed |
| BucketedLds.PassOutcome | src/LDS_approx.h:222-233 | the special iteration splits `up` into `same_level`, exactly the neighbours at `u`'s level, and a remaining `up` holding exactly the others |
| BucketedLds.CoreGroup | src/LDS_approx.h:319-325 | `core`'s group is the group of `level + 1` less one, and 0 for the lowest group |
| BucketedLds.NextLevelGroup | src/LDS_approx.h:323 | the source's test `l % lpg != lpg - 1` says exactly that `l + 1` is in the same group as `l` |
| BucketedLds.CoreGroupMonotone | src/LDS_approx.h:319-325 | a higher level never gets a lower core group |
| BucketedLds.LDS.constructor | src/LDS_approx.h:169-175 | `n` fresh records at level 0 with empty containers and an empty `Dirty` stack; the structure is valid |
| BucketedLds.LDS.GetLevel | src/LDS_approx.h:177 | the level of the vertex's view |
| BucketedLds.LDS.LevelIncrease | src/LDS_approx.h:215-257 | the views become `Increased(old views, u)`; `Dirty` is extended by exactly `u`'s `up` neighbours one level above it; validity is kept |
| BucketedLds.LDS.RaisePass | src/LDS_approx.h:218-255 | the neighbours' records have been updated and the new record for `u` is built, with the new bucket holding the same-level neighbours |
| BucketedLds.LDS.RaiseNeighbours | src/LDS_approx.h:222-246 | visiting `up` in order re-files `u` at every higher neighbour, collects the same-level ones, and pushes exactly the next-level ones |
| BucketedLds.LDS.RaiseOne | src/LDS_approx.h:226-245 | one step of the special iteration: a same-level neighbour is reported, a higher one re-files `u`, and only a next-level one is pushed |
| BucketedLds.LDS.LevelDecrease | src/LDS_approx.h:180-212 | the views become `Decreased(old views, u)`; `Dirty` is extended by exactly the next-level neighbours; validity is kept |
| BucketedLds.LDS.LowerNeighbours | src/LDS_approx.h:193-210 | visiting the merged `up` re-files `u` at every neighbour at or above its level and pushes exactly those one level above |
| BucketedLds.LDS.LowerOne | src/LDS_approx.h:195-209 | one step of that visit |
| BucketedLds.LDS.PopDirty | src/LDS_approx.h:261-262 | `Dirty.top()` then `pop()` removes the last pushed vertex |
| BucketedLds.LDS.FixupStep | src/LDS_approx.h:260-271 | one iteration of `fixup`'s loop keeps validity, the edge set and "every vertex off the stack satisfies both invariants" |
| BucketedLds.LDS.RaiseAndPush | src/LDS_approx.h:263-266 | raising a vertex that breaks `upper_invariant` and pushing it keeps the same three facts |
| BucketedLds.LDS.LowerAndPush | src/LDS_approx.h:267-270 | lowering a vertex that breaks `lower_invariant` and pushing it keeps the same three facts |
| BucketedLds.LDS.Fixup | src/LDS_approx.h:259-272 | `fixup` keeps the edge set and the settled property; when the stack is empty, every vertex satisfies both invariants |
| BucketedLds.LDS.LinkEndpoints | src/LDS_approx.h:276-279 | each endpoint records the other at the other's level; the views are `EdgeInserted` and the edge set gains `{u, v}` |
| BucketedLds.LDS.UnlinkEndpoints | src/LDS_approx.h:289-292 | each endpoint forgets the other; the views are `EdgeDeleted` and the edge set loses `{u, v}` |
| BucketedLds.LDS.PushEndpoints | src/LDS_approx.h:281-282 | both endpoints are pushed onto `Dirty`, after which every vertex off the stack is fine |
| BucketedLds.LDS.InsertEdge | src/LDS_approx.h:274-285 | returns true; the edge set gains exactly `{u, v}`; validity and the settled property hold; with the stack drained, every vertex satisfies both invariants |
| BucketedLds.LDS.DeleteEdge | src/LDS_approx.h:287-298 | returns true; the edge set loses exactly `{u, v}`; the same invariants hold |
| BucketedLds.LDS.Core | src/LDS_approx.h:319-325 | `core(v)` is the degree of the core group of `v`'s level |
| BucketedLds.LDS.CoreMonotone | src/LDS_approx.h:319-325 | with a monotone group-to-degree map, a vertex at a higher level never gets a smaller core number |
| GraphPartition.AdjacencyOf | src/Graph.h:44-61 | the map read from the lines: its keys are the first columns, and each list is that vertex's second columns in line order |
| GraphPartition.Tokens | src/Graph.h:23-32 | the fields `getline` yields: none for an empty line |
| GraphPartition.TokensHaveNoDelimiter | src/Graph.h:23-32 | no field contains the delimiter |
| GraphPartition.JoinTokens | src/Graph.h:23-32 | joining the fields with the delimiter gives back the line, except a trailing delimiter, which `getline` drops |
| GraphPartition.GetLine | src/Graph.h:28 | `getline` returns the characters up to the next delimiter and moves past it |
| GraphPartition.NextToken | src/Graph.h:28-29 | one `getline` moves the stream forward and takes exactly the first of the remaining tokens |
| GraphPartition.SplitString | src/Graph.h:23-32 | the loop's result is the field list `Tokens(line, del)` |
| GraphPartition.ReadPairs | src/Graph.h:44-61 | reading the lines one by one builds exactly `AdjacencyOf(lines)` |
| GraphPartition.AddLine | src/Graph.h:51-55 | one line creates an empty list for a new vertex and appends its neighbour to that vertex's list |
| GraphPartition.AdjacencyStep | src/Graph.h:51-55 | one line appends its neighbour to its vertex's list, creating the list when the vertex is new |
| GraphPartition.CountEntries | src/Graph.h:65-70 | the summing loop computes the total list length over an enumeration of the keys |
| GraphPartition.EntryCountIsLineCount | src/Graph.h:65-70 | that total is the number of lines read |
| GraphPartition.EnumerationCardinality | src/Graph.h:63 | an enumeration of the keys is as long as the number of keys |
| GraphPartition.FlattenLength | src/Graph.h:94-99 | the flattening holds one entry per key plus all its neighbours |
| GraphPartition.OrderedListLength | src/Graph.h:93-99 | the ordered adjacency list is `2 * graphSize` long |
| GraphPartition.Graph.constructor | src/Graph.h:36-85 | an unopenable file leaves everything empty; otherwise the map is `AdjacencyOf(lines)`, `graphSize` is vertex count plus line count, and the degree vector holds one zero per vertex |
| GraphPartition.Graph.GetNeighbors | src/Graph.h:109-111 | returns the vertex's list; `operator[]` inserts an empty list for an unknown vertex |
| GraphPartition.Graph.ComputeOAL | src/Graph.h:90-103 | the first call returns `graphSize` zeros followed by every key and its neighbours, and clears the map; later calls return the cached list unchanged |
| GraphPartition.Graph.GetNodeDegreeVector | src/Graph.h:113-121 | slot `v - offset` holds the length of `v`'s list for every vertex in the map, and every other slot keeps its value |
| GraphPartition.DegreeIndexOverrun | src/Graph.h:113-121 | for the partition file of chunk `[0, 3)` of a graph whose only edge is `0 2`, the degree vector has two slots but vertex 2 needs slot 2 |
| GraphPartition.Graph.GetNodeDegreeVectorCovering | src/Graph.h:113-121 | the vector is widened with zeros until every vertex has its slot `node - offset`; then every vertex's slot holds its neighbour count and every other slot keeps its value or is 0 |
| Partitioner.CeilDiv | graph_partitioner.py:19 | the chunk size is 0 exactly for an empty list, and with one chunk it is the whole list |
| Partitioner.CeilDivIsLeast | graph_partitioner.py:19 | `ceil(len / n)` is the least size whose `n` chunks cover the list |
| Partitioner.Slice | graph_partitioner.py:20 | Python slicing clamps to the list's end |
| Partitioner.ChunkIntoN | graph_partitioner.py:18-20 | `n` chunks, none longer than `ceil(len / n)`; no chunks for a negative `n` |
| Partitioner.ConcatPrefix | graph_partitioner.py:18-20 | the first `k` chunks concatenate to the list's first `min(k * size, len)` items |
| Partitioner.ConcatChunks | graph_partitioner.py:18-20 | the chunks concatenate back to the list: nothing is lost, duplicated or reordered |
| Partitioner.ShortChunksLast | graph_partitioner.py:18-20 | after a short chunk, every later chunk is empty |
| Partitioner.NeighboursSymmetric | graph_partitioner.py:35-36 | `b` is listed as often among `a`'s neighbours as `a` among `b`'s |
| Partitioner.NeighboursOfNonEnd | graph_partitioner.py:30-36 | a vertex on no edge has no neighbours |
| Partitioner.BuildAdjacency | graph_partitioner.py:30-36 | the map's keys are the edge endpoints and each list holds the vertex's neighbours in line order |
| Partitioner.EndpointsAppend | graph_partitioner.py:35-36 | a new line adds its two endpoints to the key set |
| Partitioner.LinesOf | graph_partitioner.py:47-49 | the lines written for a vertex are exactly its pairs with its neighbours |
| Partitioner.FileLinesContent | graph_partitioner.py:43-49 | a line is in a chunk's file exactly when its first vertex is in the chunk and its second is that vertex's neighbour |
| Partitioner.Range | graph_partitioner.py:38 | `range(count)` as a list |
| Partitioner.InChunk | graph_partitioner.py:38-39 | chunk `i` of the ids holds exactly the ids in the band `[i * size, (i + 1) * size)` |
| Partitioner.ChunkOfVertex | graph_partitioner.py:38-39 | every id lies in exactly one chunk, the one numbered `v / size` |
| Partitioner.WriteChunk | graph_partitioner.py:45-49 | the writing loop emits exactly the chunk's file lines |
| Partitioner.PartitionGraph | graph_partitioner.py:23-50 | the header line, of any type, is dropped unread; the map is the symmetric adjacency of the rest; one file per worker (`n - 1` of them), each holding its chunk's lines |
| Partitioner.EachVertexInOneFile | graph_partitioner.py:38-49 | each `(v, a)` line for an id below `graphSize` is in exactly one file, file `v / ceil(graphSize / (n - 1))` |
| NoiseSampler.CountlZero | src/distributions.h:129 | `countl_zero` counts the zero bits above the highest set bit: all `width` of them exactly for zero, and it pinpoints the highest set bit otherwise |
| NoiseSampler.Clz64 | src/distributions.h:129 | on 64-bit words the count is at most 64, and it is 64 exactly for zero |
| NoiseSampler.LittleEndian | src/distributions.h:80 | the value `memcpy` reads from bytes is below 256 to the number of bytes |
| NoiseSampler.SecureURBG.constructor | src/distributions.h:85 | a fresh buffer with the cursor at its end, so the first draw refreshes |
| NoiseSampler.SecureURBG.RefreshBuffer | src/distributions.h:88-100 | the buffer holds the new random bytes and the cursor is reset |
| NoiseSampler.SecureURBG.Next | src/distributions.h:72-82 | refreshes exactly when the cursor is at the end; returns the little-endian word at the old cursor, or at 0 after a refresh, and moves the cursor 8 bytes on |
| NoiseSampler.GeometricFromRange | src/distributions.h:109-117 | the geometric count lies in `[1, 1025]` |
| NoiseSampler.Geometric | src/distributions.h:109-117 | the loop returns the count of leading zero bits over the words drawn, plus one, stopping at a nonzero word or at 1023; the result is in `[1, 1025]` |
| NoiseSampler.ExponentOf | src/distributions.h:126-134 | for nonzero top bits, the leading-zero count of the 12 top bits plus one (1 to 12); for zero, 12 plus a geometric draw |
| NoiseSampler.AssembleFits | src/distributions.h:136-143 | the shifted exponent plus the mantissa is the word `(1023 - exponent) * 2^52 + mantissa`, or the mantissa alone for denormals, and never exceeds the bits of 1.0 |
| NoiseSampler.UniformDouble | src/distributions.h:119-147 | the exponent is `countl_zero(w >> 52) - 51` for a nonzero top part and 12 plus a geometric draw otherwise; the returned bits are the mantissa plus the exponent field, or the bits of 1.0 in place of zero, so the value lies in `(0, 1]` |
| NoiseSampler.Clamp | src/distributions.h:198 | `min(max(mid, lo + 1), hi - 1)` lies in the range and leaves in-range values alone |
| NoiseSampler.Search | src/distributions.h:191-207 | whatever the comparisons answer, the binary search ends inside the interval it started from |
| NoiseSampler.Sample | src/distributions.h:177-208 | 0 for an infinite `lambda`, `int64` max when the saturation test succeeds, otherwise the search's result, which lies in `[0, int64 max)` |

## Left out

- Floating point: `upper_constant`, `group_degree` and their products and `ceil`s are
  parameters of `BucketedLds.LDS` (`upperThreshold`, `lowerThreshold`, `coreValue`).
  `levels_per_group = ceil(log(n) / log(1 + epsilon))` is given to the constructors. It is
  0 when `n == 1`, and the group computations then require it to be positive.
- BucketedLds.LDSVertex: levels in `src/LDS_approx.h` are `uintE`. The model uses `nat`
  there, because a level never exceeds the number of `down` buckets of a record held in
  memory. Wrap-around is modelled only in `LevelStructure`.
- BucketedLds.LDS.Fixup: whether `fixup` terminates depends on a potential argument
  the code does not carry. The loop takes a `fuel` bound and the contract is partial:
  it holds for however many iterations ran, and an empty stack means all invariants hold.
- BucketedLds.LDS.InsertEdge: requires the edge to be new and not a self-loop; the
  source inserts duplicates and self-loops unchecked. BucketedLds.LDS.DeleteEdge
  requires the edge to be present, because the source's `erase(find(...))` is undefined
  behaviour otherwise.
- LevelContainer.Erase: requires the id to be present, for the same reason.
- The iterator overload `erase(Iterator)` (`src/LDS_approx.h:45-52`) is not modelled,
  because nothing calls it. `special_iterate` (`src/LDS_approx.h:228-229`) erases from
  `up.vector` or `up.set` directly. So `BucketedLds.LDS.RaiseNeighbours` removes
  same-level neighbours from `up`'s active container with no switch at `low_boundary`,
  and `up` can stay a set with fewer than 500 ids. `check_invariants` (assertions only),
  `get_size` (`sizeof` sums) and the `total_work` counter are not modelled.
- `get_level` of `src/LDS_approx.h` is `BucketedLds.LDS.GetLevel`. Its
  `group_for_level` is the same as that of `src/LDS.h`, `LevelStructure.GroupForLevel`,
  which `BucketedLds.CoreGroup` uses. `Graph`'s trivial getters
  (`getAdjacencyList`, `getOrderedAdjacencyList`, `getNodeDegree`, `getGraphSize`) return
  a field.
- File I/O: opening and reading files, `std::stoi`, and Python's `strip`, `split(' ')`
  and `int` are external. The model receives the parsed integer pairs, and a file that
  cannot be opened is `None`. Writing the partition files is modelled as producing the
  sequence of lines each file receives. `os.makedirs` and the file names are not modelled.
- The iteration order of `unordered_map` and `unordered_set` is unspecified. It is an
  argument, or an arbitrary choice, and results are stated for every order.
- Partitioner.PartitionGraph: takes the header line as a separate argument, so the
  empty file, on which `del lines[0]` raises, is not modelled. It requires `n != 1`,
  because `n == 1` divides by zero in `chunk_into_n`. The
  `GRAPH_SIZES` lookup is the `graphSize` parameter. A `defaultdict` lookup of a vertex
  with no edges inserts an empty list; this changes no output and is not modelled.
- GraphPartition.Graph.GetNodeDegreeVector: requires every vertex's slot `node - offset`
  to lie inside `node_degrees`. The source writes out of bounds otherwise, and a partition
  file without its chunk's isolated vertices reaches that case (see Findings).
  GraphPartition.Graph.GetNodeDegreeVectorCovering also requires every vertex to be at or
  above `offset`.
- GraphPartition.Graph.GetNodeDegreeVector: the degrees are unbounded integers. A list
  longer than 2^31 - 1, narrowed from `size_t` to `int` when stored into `node_degrees`,
  is not modelled.
- GraphPartition.Graph.constructor: the sum `al_size` is an unbounded integer. The
  signed overflow of `int al_size` (`src/Graph.h:65-68`) for more than 2^31 - 1 lines,
  and the sum's conversion when added to `graphSize` (`src/Graph.h:84`), are not modelled.
- Partitioner.CeilDiv: Python's `ceil(len(lst) / n)` goes through a float. The model
  uses exact integer ceiling division, which agrees for lists shorter than 2^53.
- NoiseSampler: `RAND_bytes`, the mutexes and the singleton instance are not modelled.
  The failure report of `RefreshBuffer` is output only. The random bytes, words and
  comparison outcomes are parameters. `std::memcpy` is read as little-endian. The
  floating-point `mid`, `q`, `log`, `expm1` and the conversion to `double` are oracles.
  `UniformDouble` returns the IEEE-754 bit pattern rather than the `double`.
- `GeometricDistribution`'s constructor and `GetUniformDouble` only store or forward a
  value.

## Findings

| source | as written | input that shows it | evidently intended | confidence | as-written member | corrected member |
|---|---|---|---|---|---|---|
| src/Graph.h:113-121 | `node_degrees` has one slot per vertex of the file (`src/Graph.h:64`), but is indexed by `node - offset` | chunk `[0, 3)` of a graph whose only edge is `0 2`: the file is `0 2`, `2 0`, two vertices, and vertex 2 writes slot 2 of a two-slot vector | every vertex of the chunk has its slot `node - offset` | not executed | GraphPartition.DegreeIndexOverrun | GraphPartition.Graph.GetNodeDegreeVectorCovering |
