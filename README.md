# HNSW index scan (pgvector `hnswscan.c`)

This project models the query-time cursor of pgvector's HNSW index access
method and proves properties of the model in Dafny.

The executor drives the cursor:

1. `hnswbeginscan` creates the scan.
2. `hnswrescan` installs the scan keys and the ORDER BY key.
3. `hnswgettuple` is called until it returns `false`.
4. `hnswendscan` ends the scan.

The first `hnswgettuple` after a begin or a rescan *primes* the scan:

- It fails without order-by data.
- It returns `false` for a NULL argument or when normalisation fails.
- Otherwise it runs `GetScanItems`, the layered descent of Algorithm 5
  (K-NN-SEARCH) of the HNSW paper by Malkov and Yashunin. This makes one
  greedy `SearchLayer` with `ef = 1` per level, from the entry point's level
  down to 1, then one search at level 0 with `ef = hnsw_ef_search`. The
  level-0 result becomes the pending candidate list `w`.

Every call, including the first, then consumes `w` from its tail:

- A tail candidate without heap TIDs is dropped.
- Otherwise the candidate's last heap TID is popped and returned.
- The pin on the previous index buffer is released, and the element's block
  is pinned instead.

The files:

- `hnsw_types.dfy` (module `HnswTypes`) holds the values: heap TIDs, elements,
  candidates, scan keys, buffers, and the index with the operations the scan
  calls but does not define.
- `hnsw_descent.dfy` (module `HnswDescent`) specifies the layer searches one
  `GetScanItems` makes, as a trace of calls (`ScanTrace`).
- `hnsw_pending.dfy` (module `HnswPending`) specifies consumption of `w`:
  - `Fetch` is one fetch;
  - `Emissions` is what a full drain yields;
  - the lemmas relate the two and give the count and order of what is
    handed out.
- `hnsw_scan.dfy` (module `HnswScan`) has the class `IndexScan`. It stands for
  the index scan descriptor together with the HNSW opaque state. Its methods
  update the fields in place, and each is proved against the specification
  functions above. The ghost field `pinCount` counts the buffer pins the scan
  holds. The object invariant `Valid()` ties `pinCount` to the buffer handle:
  a live scan holds exactly one pin while `buf` is valid and none otherwise.
  The ghost sequence `layerCalls` records every layer search made.

`orderByData` (and `keyData`) is an array that exists exactly when its count is
positive. That is how `RelationGetIndexScan` allocates them; the function lives
outside `hnswscan.c` and is not part of this model. This is why the
"no order-by data" error of `hnswgettuple` corresponds to
`numberOfOrderBys == 0`.

## Model

| member | source | states |
|---|---|---|
| HnswDescent.Descent | src/hnswscan.c:28-32 | the greedy part of the descent from level `lc`: exactly `lc` searches, at levels `lc` down to 1 in that order, each with ef = 1, the first fed the entry set and each later one fed the previous result, each answered by the index's layer search |
| HnswDescent.DescentEntryIsLastResult | src/hnswscan.c:28-32 | the entry set handed to level 0 is the result of the last greedy search, or the initial entry set when the entry point is at level 0 |
| HnswDescent.ScanTrace | src/hnswscan.c:20-35 | the searches of one GetScanItems: none without an entry point; otherwise one per level from the entry point's level down to 0, ef = 1 above level 0 and ef = hnsw_ef_search at level 0, the first seeded with the entry point's candidate and each later one with the previous result |
| HnswDescent.OneSearchPerLevel | src/hnswscan.c:28-35 | every level from the entry point's down to 0 is searched exactly once |
| HnswScan.IndexScan.GetScanItems | src/hnswscan.c:12-36 | the layer searches made are exactly ScanTrace; without an entry point `w` is untouched, otherwise `w` becomes the result of the level-0 search |
| HnswScan.IndexScan.SearchLayer | src/hnswscan.c:30 | the result is the index's layer search for these arguments, and the call is appended to the record of searches |
| HnswScan.IndexScan.BeginScan | src/hnswscan.c:41-62 | a new scan is valid and live, holds no pin (`buf` invalid), is unprimed (`first`), has nothing pending, and takes the index's normalisation function |
| HnswScan.IndexScan.Rescan | src/hnswscan.c:67-81 | rescan sets `first` and empties `w`, keeps the buffer and its pin, and copies the given keys and order-by keys into the scan's arrays when they are given and their count is positive (otherwise the arrays are unchanged) |
| HnswScan.IndexScan.ReadBuffer | src/hnswscan.c:166 | pinning a block returns its buffer and adds one pin |
| HnswScan.IndexScan.ReleaseBuffer | src/hnswscan.c:157-158 | releasing a buffer drops one pin the scan holds |
| HnswScan.IndexScan.Prime | src/hnswscan.c:97-131 | the first-fetch block: without order-by data an error with nothing changed; with a NULL argument or a failed normalisation `false` with the scan still unprimed and nothing changed; otherwise the searches of ScanTrace on the (normalised) argument, `w` set to the level-0 result (untouched without an entry point), and `first` cleared |
| HnswScan.IndexScan.FetchFromPending | src/hnswscan.c:133-172 | the consumption loop does exactly one Fetch on `w` (see FetchedFrom). If it returns a TID, that TID is the returned heap TID, its element's block is the one pinned buffer (the old pin was released) and the ORDER BY recheck is off; otherwise `w` is empty and nothing else changed; the object invariant, one pin at most, is kept |
| HnswScan.IndexScan.GetTuple | src/hnswscan.c:86-173 | hnswgettuple: a primed scan fetches from `w`; a first fetch errors, returns false or primes as Prime says and then fetches from the level-0 result; with no entry point it returns false; a false return leaves `w` empty; a true return leaves exactly one pin held |
| HnswScan.IndexScan.EndScan | src/hnswscan.c:178-191 | the held pin, if any, is released, so the scan ends holding none, and the opaque state is gone (`live` false); nothing else changes (buffer handle, `w`, `first`, returned TID, recheck flag, search record) |
| HnswPending.DropEmpty | src/hnswscan.c:139-144 | dropping TID-less tail candidates leaves a prefix of `w` that is empty or ends in a candidate with a TID, and every candidate dropped had none |
| HnswPending.DropEmptyEmissions | src/hnswscan.c:139-144 | dropping TID-less tail candidates does not change what a drain yields, and leaves nothing exactly when the drain yields nothing |
| HnswPending.EmissionsCount | src/hnswscan.c:133-172 | a full drain yields exactly one tuple per heap TID held in `w` |
| HnswPending.CandidateEmissionsFacts | src/hnswscan.c:146-149 | a candidate yields one tuple per heap TID, each with the candidate's block and distance |
| HnswPending.TakeOne | src/hnswscan.c:133-169 | the first tuple of a non-empty drain is the last TID of the last candidate that has one, and the rest of the drain is the drain after popping that TID |
| HnswPending.PopThenDrain | src/hnswscan.c:146-149 | draining a list whose tail has a TID yields that TID first, then the drain of the list with the TID popped |
| HnswPending.FetchIsFirstEmission | src/hnswscan.c:133-172 | a fetch returns nothing exactly when a full drain would yield nothing; otherwise it returns the drain's first tuple and leaves a list whose drain is the rest |
| HnswPending.FetchAllIsEmissions | src/hnswscan.c:133-172 | fetching until a fetch returns nothing hands out exactly the drain of `w`, and as many tuples as heap TIDs held in `w` |
| HnswPending.FetchTouchesOnlyTail | src/hnswscan.c:139-149 | a fetch that returns a TID changes only the candidate it took it from, which loses exactly that TID (its last) and keeps its block, level and distance; the TID-less candidates after it are gone; a fetch that returns nothing found no TID anywhere in `w` and leaves it empty |
| HnswPending.EmissionsAtLeast | src/hnswscan.c:133-172 | a drain yields no tuple nearer than the nearest candidate |
| HnswPending.NearestFirst | src/hnswscan.c:133-172 | if `w` is ordered farthest first, a drain yields tuples in non-decreasing distance |

## Left out

- `SearchLayer`, `GetEntryPoint`, `EntryCandidate` and `HnswNormValue` are not defined in `hnswscan.c`. They are fields of the `Index` value (the entry point, the distance, the layer search, the optional normalisation). No property of their results is assumed, but each is a fixed function of its arguments. So the model states which searches are made and what is done with their results, not what they find.
- The graph is treated as unchanging from BeginScan to EndScan: the scan holds one `Index` value for its whole life, across rescans. The source calls `GetEntryPoint` again at every priming and searches a graph that concurrent inserts may change, so a later priming could see a different entry point or different search results. Concurrent inserts are not modelled.
- Distances are `real` values that are only compared. Floating-point behaviour is not modelled.
- NearestFirst: the order of `w` by distance is decided inside `SearchLayer`, which is not part of this model. That lemma therefore assumes `w` is ordered farthest first rather than proving it.
- The `hnsw_ef_search` configuration variable is the parameter `efSearch` of GetTuple and GetScanItems.
- `elog(ERROR, ...)` is the `Err` result of GetTuple. Aborting the transaction is not modelled.
- ReadBuffer and ReleaseBuffer only count pins in the ghost field `pinCount`. Buffer-manager I/O and locking are not modelled, and which block a pin is on is carried by `buf`, not by the count.
- Elements and candidates are values. The source pops a TID from `hc->element->heaptids` in place. The model instead replaces the tail candidate of `w` with one whose element has that TID removed. This matches the source only under an assumption about the layer search's result, which is not part of this model: no two candidates of `w` share an element. If two did, the source's pop would change both, and the model changes only the tail candidate.
- `pgstat_count_index_scan` (statistics), the `Assert`s on compressed or toasted values and on the forward scan direction, and the `PG_VERSION_NUM` choice of the heap TID field are left out. The returned TID is the field `heapTid`.
- `palloc`, `pfree` and `list_free` (memory management) are left out. Freeing the opaque state in hnswendscan is the `live` flag turning false. Freeing a normalised copy of the argument in hnswgettuple is not modelled.
- The collation and the distance support function handle (`procinfo`) are passed by the source to the index's operations. They are part of the index's functions here.
- `RelationGetIndexScan` and the scan descriptor's other fields are left out, apart from the key counts and key arrays.
- Draining a scan to the end is stated on the pure specification (FetchAllIsEmissions), together with GetTuple's contract that each call does one Fetch. No executor loop over GetTuple is modelled.
