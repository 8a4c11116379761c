/**
 * The layered descent that GetScanItems performs (Algorithm 5, K-NN-SEARCH,
 * of the HNSW paper): greedy single-candidate searches from the entry
 * point's level down to level 1, then one wide search at level 0.
 *
 * The layer search itself belongs to the index; what is specified here is
 * which layer searches are made, in which order, with which beam width and
 * with which entry set, as a trace of calls.
 */
module HnswDescent {
  import opened HnswTypes

  /** One call SearchLayer(q, entry, ef, level) and what it returned. */
  datatype LayerCall = LayerCall(entry: seq<Candidate>, ef: nat, level: nat, result: seq<Candidate>)

  /** A call that the index's layer search really answered this way. */
  predicate Answered(index: Index, q: Vector, c: LayerCall)
  {
    c.result == index.searchLayer(q, c.entry, c.ef, c.level)
  }

  /**
   * The greedy part of the descent, starting at level `lc` with entry set
   * `ep`: one call with ef = 1 per level, `lc` first, each fed the previous
   * call's result.
   */
  function Descent(index: Index, q: Vector, ep: seq<Candidate>, lc: nat): (calls: seq<LayerCall>)
    ensures |calls| == lc
    ensures forall i :: 0 <= i < lc ==> calls[i].level == lc - i && calls[i].ef == 1
    ensures forall i :: 0 <= i < lc ==> Answered(index, q, calls[i])
    ensures lc > 0 ==> calls[0].entry == ep
    ensures forall i :: 0 < i < lc ==> calls[i].entry == calls[i - 1].result
    decreases lc
  {
    if lc == 0 then []
    else
      var w := index.searchLayer(q, ep, 1, lc);
      [LayerCall(ep, 1, lc, w)] + Descent(index, q, w, lc - 1)
  }

  /** The entry set the greedy descent from level `lc` hands to level 0. */
  function DescentEntry(index: Index, q: Vector, ep: seq<Candidate>, lc: nat): (entry: seq<Candidate>)
    decreases lc
  {
    if lc == 0 then ep else DescentEntry(index, q, index.searchLayer(q, ep, 1, lc), lc - 1)
  }

  /** What the descent hands to level 0 is the result of its last call. */
  lemma {:induction false} DescentEntryIsLastResult(index: Index, q: Vector, ep: seq<Candidate>, lc: nat)
    ensures lc == 0 ==> DescentEntry(index, q, ep, lc) == ep
    ensures lc > 0 ==> DescentEntry(index, q, ep, lc) == Descent(index, q, ep, lc)[lc - 1].result
    decreases lc
  {
    if lc > 1 {
      var w := index.searchLayer(q, ep, 1, lc);
      DescentEntryIsLastResult(index, q, w, lc - 1);
      assert Descent(index, q, ep, lc) == [LayerCall(ep, 1, lc, w)] + Descent(index, q, w, lc - 1);
    }
  }

  /**
   * Every layer search one GetScanItems makes for query `q` with
   * hnsw_ef_search = `efSearch`, in call order: none when the index has no
   * entry point; otherwise one call per level from the entry point's level
   * down to 0, ef = 1 above level 0 and ef = efSearch at level 0, the first
   * seeded with the entry point's candidate and each later one with the
   * previous result.
   */
  function ScanTrace(index: Index, q: Vector, efSearch: nat): (calls: seq<LayerCall>)
    ensures index.entryPoint.None? ==> calls == []
    ensures index.entryPoint.Some? ==>
      var top := index.entryPoint.value.level;
      && |calls| == top + 1
      && calls[0].entry == [EntryCandidate(index, index.entryPoint.value, q)]
      && (forall i :: 0 <= i < |calls| ==> calls[i].level == top - i)
      && (forall i :: 0 <= i < |calls| ==> calls[i].ef == if i < top then 1 else efSearch)
      && (forall i :: 0 <= i < |calls| ==> Answered(index, q, calls[i]))
      && (forall i :: 0 < i < |calls| ==> calls[i].entry == calls[i - 1].result)
  {
    match index.entryPoint
    case None => []
    case Some(e) =>
      var ep := [EntryCandidate(index, e, q)];
      var entry0 := DescentEntry(index, q, ep, e.level);
      DescentEntryIsLastResult(index, q, ep, e.level);
      Descent(index, q, ep, e.level) + [LayerCall(entry0, efSearch, 0, index.searchLayer(q, entry0, efSearch, 0))]
  }

  /** Each level from the entry point's down to 0 is searched exactly once. */
  lemma OneSearchPerLevel(index: Index, q: Vector, efSearch: nat, lvl: nat)
    requires index.entryPoint.Some? && lvl <= index.entryPoint.value.level
    ensures var calls := ScanTrace(index, q, efSearch);
      exists i :: 0 <= i < |calls| && calls[i].level == lvl
        && forall j :: 0 <= j < |calls| && calls[j].level == lvl ==> j == i
  {
    var calls := ScanTrace(index, q, efSearch);
    var i := index.entryPoint.value.level - lvl;
    assert calls[i].level == lvl;
  }

  /** The candidate list GetScanItems leaves behind: the level-0 result. */
  function ScanItems(index: Index, q: Vector, efSearch: nat): (w: seq<Candidate>)
    requires index.entryPoint.Some?
  {
    var calls := ScanTrace(index, q, efSearch);
    calls[|calls| - 1].result
  }
}
