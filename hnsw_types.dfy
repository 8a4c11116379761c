/**
 * Values shared by the HNSW index scan: heap tuple identifiers, graph
 * elements as the scan sees them, search candidates, scan keys, buffers,
 * and the index itself with the graph operations that live outside the
 * scan (entry point lookup, distance, layer search, normalisation).
 */
module HnswTypes {

  datatype Option<T> = None | Some(value: T)

  /** An error return; `Err` stands for an `elog(ERROR)` that aborts the scan. */
  datatype Result<T> = Ok(value: T) | Err(msg: string)

  /** A query or element vector; distances and norms are only ever compared. */
  type Vector = seq<real>

  type BlockNumber = nat

  /** A heap tuple identifier (ItemPointer): heap block and line pointer offset. */
  datatype Tid = Tid(block: BlockNumber, offset: nat)

  /**
   * A graph element as loaded by the search: its top level, the index block
   * that holds it, and the heap tuples that carry its vector. Several heap
   * rows may share one element, and the list may be empty.
   */
  datatype Element = Element(level: nat, blkno: BlockNumber, heaptids: seq<Tid>)

  /** A search candidate: an element and its distance to the query. */
  datatype Candidate = Candidate(element: Element, distance: real)

  /** Bit of `sk_flags` that marks a NULL scan-key argument. */
  const SK_ISNULL: bv32 := 0x0001

  datatype ScanKey = ScanKey(flags: bv32, argument: Vector)

  predicate IsNullKey(k: ScanKey)
  {
    k.flags & SK_ISNULL != 0
  }

  /** A buffer handle: either invalid or a pin on one index block. */
  datatype Buffer = InvalidBuffer | Buffer(blkno: BlockNumber)

  /**
   * The index relation as the scan uses it. The graph is read-only here, so
   * the operations the scan calls but does not define are given as
   * functions of the index: the entry point (GetEntryPoint), the distance
   * support function, the layer search (SearchLayer(q, ep, ef, lc)), and the
   * optional normalisation support function (HnswNormValue), which either
   * yields the normalised value or fails.
   */
  datatype Index = Index(
    entryPoint: Option<Element>,
    distance: (Vector, Element) -> real,
    searchLayer: (Vector, seq<Candidate>, nat, nat) -> seq<Candidate>,
    normProc: Option<Vector -> Option<Vector>>)

  /** EntryCandidate: the entry point paired with its distance to the query. */
  function EntryCandidate(index: Index, e: Element, q: Vector): (c: Candidate)
  {
    Candidate(e, index.distance(q, e))
  }
}
