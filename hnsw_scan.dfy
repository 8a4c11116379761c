/**
 * The HNSW index scan as the executor drives it: begin, rescan, fetch the
 * next tuple (any number of times), end. One object stands for the index
 * scan descriptor together with its HNSW-specific opaque state.
 *
 * Buffer pins are counted in the ghost field `pinCount` (the pins this scan
 * holds), which ReadBuffer and ReleaseBuffer update; the object invariant
 * ties it to the single buffer handle `buf`, so a live scan holds exactly
 * one pin while `buf` is valid and none otherwise. The layer searches
 * GetScanItems makes are recorded in the ghost sequence `layerCalls`.
 */
module HnswScan {
  import opened HnswTypes
  import opened HnswDescent
  import opened HnswPending

  const NoOrderMessage: string := "cannot scan hnsw index without order"

  /** What the first fetch of a scan makes of its order-by key. */
  datatype Priming = NoOrder | NullArgument | NormalizationFailed | Query(value: Vector)

  class IndexScan {
    /** The index relation, with its graph and support functions. */
    const index: Index
    const numberOfKeys: nat
    const numberOfOrderBys: nat
    /** Scan-key arrays, allocated only when their count is positive. */
    const keyData: array?<ScanKey>
    const orderByData: array?<ScanKey>
    /** The optional normalisation support function. */
    const normprocinfo: Option<Vector -> Option<Vector>>

    /** True until the first fetch after begin or rescan has primed the scan. */
    var first: bool
    /** Pending candidates, consumed from the tail. */
    var w: seq<Candidate>
    /** The pinned index buffer, if any. */
    var buf: Buffer
    /** The heap TID handed to the executor by the last successful fetch. */
    var heapTid: Tid
    /** Whether the executor must recheck the ordering of the returned tuple. */
    var recheckOrderBy: bool
    /** False once EndScan has freed the opaque state. */
    var live: bool

    /** How many buffer pins this scan holds. */
    ghost var pinCount: nat
    ghost var layerCalls: seq<LayerCall>

    ghost predicate Valid()
      reads this
    {
      && (keyData == null <==> numberOfKeys == 0)
      && (keyData != null ==> keyData.Length == numberOfKeys)
      && (orderByData == null <==> numberOfOrderBys == 0)
      && (orderByData != null ==> orderByData.Length == numberOfOrderBys)
      && (keyData != null && orderByData != null ==> keyData != orderByData)
      && (first ==> w == [])
      && pinCount == (if live && buf.Buffer? then 1 else 0)
    }

    /** The outcome of the checks the first fetch makes before searching. */
    ghost function Priming(): Priming
      reads this, orderByData
      requires Valid()
    {
      if orderByData == null then NoOrder
      else if IsNullKey(orderByData[0]) then NullArgument
      else match normprocinfo
        case None => Query(orderByData[0].argument)
        case Some(norm) =>
          match norm(orderByData[0].argument)
          case None => NormalizationFailed
          case Some(v) => Query(v)
    }

    /** hnswbeginscan: no pin, not yet primed, nothing pending. */
    constructor BeginScan(index: Index, nkeys: nat, norderbys: nat)
      ensures Valid() && live
      ensures this.index == index && normprocinfo == index.normProc
      ensures numberOfKeys == nkeys && numberOfOrderBys == norderbys
      ensures keyData != null ==> fresh(keyData)
      ensures orderByData != null ==> fresh(orderByData)
      ensures buf == InvalidBuffer && first && w == []
      ensures pinCount == 0 && layerCalls == []
    {
      this.index := index;
      numberOfKeys := nkeys;
      numberOfOrderBys := norderbys;
      if nkeys > 0 {
        keyData := new ScanKey[nkeys];
      } else {
        keyData := null;
      }
      if norderbys > 0 {
        orderByData := new ScanKey[norderbys];
      } else {
        orderByData := null;
      }
      normprocinfo := index.normProc;
      buf := InvalidBuffer;
      first := true;
      w := [];
      live := true;
      pinCount := 0;
      layerCalls := [];
    }

    /**
     * hnswrescan: back to unprimed with nothing pending, new keys copied
     * in; the pin is kept, to be released by the next successful fetch.
     */
    method Rescan(keys: Option<seq<ScanKey>>, orderbys: Option<seq<ScanKey>>)
      requires Valid() && live
      requires keys.Some? ==> |keys.value| == numberOfKeys
      requires orderbys.Some? ==> |orderbys.value| == numberOfOrderBys
      modifies this, keyData, orderByData
      ensures Valid() && live
      ensures first && w == []
      ensures buf == old(buf) && pinCount == old(pinCount)
      ensures heapTid == old(heapTid) && recheckOrderBy == old(recheckOrderBy) && layerCalls == old(layerCalls)
      ensures keyData != null ==> keyData[..] == if keys.Some? then keys.value else old(keyData[..])
      ensures orderByData != null ==>
        orderByData[..] == if orderbys.Some? then orderbys.value else old(orderByData[..])
    {
      first := true;
      w := [];
      if keys.Some? && numberOfKeys > 0 {
        forall i | 0 <= i < numberOfKeys {
          keyData[i] := keys.value[i];
        }
      }
      if orderbys.Some? && numberOfOrderBys > 0 {
        forall i | 0 <= i < numberOfOrderBys {
          orderByData[i] := orderbys.value[i];
        }
      }
    }

    /** The index's layer search, recorded in `layerCalls`. */
    method SearchLayer(q: Vector, ep: seq<Candidate>, ef: nat, lc: nat) returns (r: seq<Candidate>)
      modifies this`layerCalls
      ensures r == index.searchLayer(q, ep, ef, lc)
      ensures layerCalls == old(layerCalls) + [LayerCall(ep, ef, lc, r)]
    {
      r := index.searchLayer(q, ep, ef, lc);
      layerCalls := layerCalls + [LayerCall(ep, ef, lc, r)];
    }

    /** Pins block `blkno` and returns its buffer. */
    method ReadBuffer(blkno: BlockNumber) returns (b: Buffer)
      modifies this`pinCount
      ensures b == Buffer(blkno)
      ensures pinCount == old(pinCount) + 1
    {
      b := Buffer(blkno);
      pinCount := pinCount + 1;
    }

    /** Drops the pin this scan holds through buffer `b`. */
    method ReleaseBuffer(b: Buffer)
      requires b.Buffer? && pinCount > 0
      modifies this`pinCount
      ensures pinCount == old(pinCount) - 1
    {
      pinCount := pinCount - 1;
    }

    /**
     * GetScanItems: the layered descent. Without an entry point nothing is
     * searched and `w` is left alone; otherwise the searches are those of
     * ScanTrace and `w` becomes the level-0 result.
     */
    method GetScanItems(q: Vector, efSearch: nat)
      modifies this`w, this`layerCalls
      ensures layerCalls == old(layerCalls) + ScanTrace(index, q, efSearch)
      ensures index.entryPoint.None? ==> w == old(w)
      ensures index.entryPoint.Some? ==> w == ScanItems(index, q, efSearch)
    {
      var entryPoint := index.entryPoint;
      if entryPoint.None? {
        assert ScanTrace(index, q, efSearch) == [];
        assert layerCalls == old(layerCalls) + [];
        return;
      }
      var e := entryPoint.value;
      var ep := [EntryCandidate(index, e, q)];
      ghost var ep0 := ep;
      var lc: int := e.level;
      while lc >= 1
        invariant 0 <= lc <= e.level
        invariant layerCalls + Descent(index, q, ep, lc) == old(layerCalls) + Descent(index, q, ep0, e.level)
        invariant DescentEntry(index, q, ep, lc) == DescentEntry(index, q, ep0, e.level)
      {
        ghost var before := layerCalls;
        var found := SearchLayer(q, ep, 1, lc);
        assert Descent(index, q, ep, lc) == [LayerCall(ep, 1, lc, found)] + Descent(index, q, found, lc - 1);
        assert before + Descent(index, q, ep, lc) == layerCalls + Descent(index, q, found, lc - 1);
        ep := found;
        lc := lc - 1;
      }
      assert Descent(index, q, ep, lc) == [];
      assert layerCalls == layerCalls + Descent(index, q, ep, lc);
      assert DescentEntry(index, q, ep0, e.level) == ep;
      w := SearchLayer(q, ep, efSearch, 0);
      assert ScanTrace(index, q, efSearch) == Descent(index, q, ep0, e.level) + [LayerCall(ep, efSearch, 0, w)];
    }

    /**
     * What one fetch did, given the pending list `w0` and the buffer, pin count,
     * returned TID and recheck flag it started from: `w` is what Fetch
     * leaves; if Fetch handed out a tuple, its TID is returned, its block is
     * the one pinned buffer and rechecking is off; otherwise nothing else
     * changed.
     */
    ghost predicate FetchedFrom(w0: seq<Candidate>, found: bool, buf0: Buffer,
                                pinCount0: nat, tid0: Tid, recheck0: bool)
      reads this
    {
      var f := Fetch(w0);
      && w == f.rest
      && found == f.next.Some?
      && if f.next.None? then
           buf == buf0 && pinCount == pinCount0 && heapTid == tid0 && recheckOrderBy == recheck0
         else
           && heapTid == f.next.value.tid
           && buf == Buffer(f.next.value.blkno) && pinCount == 1
           && !recheckOrderBy
    }

    /** The consumption loop of hnswgettuple, on a primed scan. */
    method FetchFromPending() returns (found: bool)
      requires Valid() && live && !first
      modifies this`w, this`heapTid, this`buf, this`pinCount, this`recheckOrderBy
      ensures Valid() && live
      ensures FetchedFrom(old(w), found, old(buf), old(pinCount), old(heapTid), old(recheckOrderBy))
    {
      ghost var w0 := w;
      while |w| > 0
        invariant Fetch(w) == Fetch(w0)
        invariant buf == old(buf) && pinCount == old(pinCount)
        invariant heapTid == old(heapTid) && recheckOrderBy == old(recheckOrderBy)
        decreases |w|
      {
        var hc := w[|w| - 1];
        if |hc.element.heaptids| == 0 {
          FetchSkipsEmptyTail(w);
          w := w[..|w| - 1];
          continue;
        }
        FetchFromTail(w);
        var tid := hc.element.heaptids[|hc.element.heaptids| - 1];
        var indexblkno := hc.element.blkno;
        w := w[|w| - 1 := PopTid(hc)];
        heapTid := tid;
        if buf.Buffer? {
          ReleaseBuffer(buf);
        }
        buf := ReadBuffer(indexblkno);
        recheckOrderBy := false;
        return true;
      }
      assert Fetch(w) == FetchResult(None, []);
      return false;
    }

    /**
     * The priming block of hnswgettuple (first fetch only): fail without
     * order-by data; give up with no rows (`Some(Ok(false))`) on a NULL
     * argument or a failed normalisation, leaving the scan unprimed; else
     * run GetScanItems on the (normalised) argument and mark the scan primed.
     */
    method Prime(efSearch: nat) returns (early: Option<Result<bool>>)
      requires Valid() && live && first
      modifies this`first, this`w, this`layerCalls
      ensures Valid() && live
      ensures Priming() == old(Priming())
      ensures old(Priming()).NoOrder? ==>
        early == Some(Err(NoOrderMessage)) && first && w == old(w) && layerCalls == old(layerCalls)
      ensures old(Priming()).NullArgument? || old(Priming()).NormalizationFailed? ==>
        early == Some(Ok(false)) && first && w == old(w) && layerCalls == old(layerCalls)
      ensures old(Priming()).Query? ==>
        && early == None && !first
        && layerCalls == old(layerCalls) + ScanTrace(index, old(Priming()).value, efSearch)
        && w == (if index.entryPoint.None? then old(w) else ScanItems(index, old(Priming()).value, efSearch))
    {
      if orderByData == null {
        return Some(Err(NoOrderMessage));
      }
      if IsNullKey(orderByData[0]) {
        return Some(Ok(false));
      }
      var value := orderByData[0].argument;
      if normprocinfo.Some? {
        var normalized := normprocinfo.value(value);
        if normalized.None? {
          return Some(Ok(false));
        }
        value := normalized.value;
      }
      GetScanItems(value, efSearch);
      first := false;
      return None;
    }

    /**
     * hnswgettuple. A primed scan fetches from `w` as FetchedFrom says. A
     * first fetch fails without order-by data, returns false and changes
     * nothing on a NULL argument or a failed normalisation, and otherwise
     * runs the searches of ScanTrace, marks the scan primed and fetches
     * from the level-0 result (from the untouched, empty `w` when the
     * index has no entry point).
     */
    method GetTuple(efSearch: nat) returns (r: Result<bool>)
      requires Valid() && live
      modifies this
      ensures Valid() && live
      ensures !old(first) ==>
        && r.Ok? && !first && layerCalls == old(layerCalls)
        && FetchedFrom(old(w), r.value, old(buf), old(pinCount), old(heapTid), old(recheckOrderBy))
      ensures old(first) && old(Priming()).NoOrder? ==>
        && r == Err(NoOrderMessage) && first && w == old(w) && buf == old(buf) && pinCount == old(pinCount)
        && heapTid == old(heapTid) && recheckOrderBy == old(recheckOrderBy) && layerCalls == old(layerCalls)
      ensures old(first) && (old(Priming()).NullArgument? || old(Priming()).NormalizationFailed?) ==>
        && r == Ok(false) && first && w == old(w) && buf == old(buf) && pinCount == old(pinCount)
        && heapTid == old(heapTid) && recheckOrderBy == old(recheckOrderBy) && layerCalls == old(layerCalls)
      ensures old(first) && old(Priming()).Query? ==>
        var q := old(Priming()).value;
        && r.Ok? && !first
        && layerCalls == old(layerCalls) + ScanTrace(index, q, efSearch)
        && FetchedFrom(if index.entryPoint.None? then old(w) else ScanItems(index, q, efSearch),
                       r.value, old(buf), old(pinCount), old(heapTid), old(recheckOrderBy))
      ensures old(first) && old(Priming()).Query? && index.entryPoint.None? ==> r == Ok(false)
      ensures r == Ok(false) ==> w == []
      ensures r == Ok(true) ==> pinCount == 1 && buf.Buffer?
    {
      if first {
        var early := Prime(efSearch);
        if early.Some? {
          return early.value;
        }
      }
      var found := FetchFromPending();
      return Ok(found);
    }

    /** hnswendscan: the held pin, if any, is released and the state freed. */
    method EndScan()
      requires Valid() && live
      modifies this`live, this`pinCount
      ensures Valid() && !live
      ensures pinCount == old(pinCount) - (if old(buf).Buffer? then 1 else 0) == 0
      ensures buf == old(buf) && w == old(w) && first == old(first)
      ensures heapTid == old(heapTid) && recheckOrderBy == old(recheckOrderBy) && layerCalls == old(layerCalls)
    {
      if buf.Buffer? {
        ReleaseBuffer(buf);
      }
      live := false;
    }
  }
}
