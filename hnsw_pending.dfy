/**
 * The pending candidate list `w` of a primed scan and what draining it
 * yields. The scan consumes `w` from its tail: a tail candidate without
 * heap TIDs is dropped, otherwise the last TID of the tail candidate is
 * removed and returned, together with the index block of its element.
 */
module HnswPending {
  import opened HnswTypes

  /** One tuple handed to the executor: the heap TID, the block to pin, the distance. */
  datatype Emission = Emission(tid: Tid, blkno: BlockNumber, distance: real)

  /** The last heap TID of a candidate's element: the next one to hand out (llast). */
  function LastTid(c: Candidate): (t: Tid)
    requires c.element.heaptids != []
  {
    c.element.heaptids[|c.element.heaptids| - 1]
  }

  /** The candidate with the last heap TID of its element removed (list_delete_last). */
  function PopTid(c: Candidate): (p: Candidate)
    requires c.element.heaptids != []
  {
    var tids := c.element.heaptids;
    c.(element := c.element.(heaptids := tids[..|tids| - 1]))
  }

  /** `w` after its tail candidate gave up its last heap TID. */
  function PopLastTid(w: seq<Candidate>): (p: seq<Candidate>)
    requires w != [] && w[|w| - 1].element.heaptids != []
  {
    w[|w| - 1 := PopTid(w[|w| - 1])]
  }

  /**
   * `w` with the candidates that have no heap TIDs removed from its tail:
   * what is left is a prefix of `w` that is empty or ends in a candidate
   * with a TID, and every candidate removed had none.
   */
  function DropEmpty(w: seq<Candidate>): (d: seq<Candidate>)
    ensures |d| <= |w| && d == w[..|d|]
    ensures d == [] || d[|d| - 1].element.heaptids != []
    ensures forall i :: |d| <= i < |w| ==> w[i].element.heaptids == []
    decreases |w|
  {
    if w == [] then []
    else if w[|w| - 1].element.heaptids == [] then DropEmpty(w[..|w| - 1])
    else w
  }

  /** The tuples one candidate yields, last heap TID first. */
  function CandidateEmissions(c: Candidate): (es: seq<Emission>)
    decreases |c.element.heaptids|
  {
    var tids := c.element.heaptids;
    if tids == [] then []
    else [Emission(LastTid(c), c.element.blkno, c.distance)] + CandidateEmissions(PopTid(c))
  }

  /** The tuples a full drain of `w` yields, in order: tail candidate first. */
  function Emissions(w: seq<Candidate>): (es: seq<Emission>)
    decreases |w|
  {
    if w == [] then [] else CandidateEmissions(w[|w| - 1]) + Emissions(w[..|w| - 1])
  }

  /** The number of heap TIDs held by the candidates of `w`. */
  function TotalTids(w: seq<Candidate>): (n: nat)
    decreases |w|
  {
    if w == [] then 0 else |w[|w| - 1].element.heaptids| + TotalTids(w[..|w| - 1])
  }

  lemma {:induction false} CandidateEmissionsFacts(c: Candidate)
    ensures |CandidateEmissions(c)| == |c.element.heaptids|
    ensures forall e :: e in CandidateEmissions(c) ==> e.distance == c.distance && e.blkno == c.element.blkno
    decreases |c.element.heaptids|
  {
    if c.element.heaptids != [] {
      CandidateEmissionsFacts(PopTid(c));
    }
  }

  /** A full drain yields exactly one tuple per heap TID held in `w`. */
  lemma {:induction false} EmissionsCount(w: seq<Candidate>)
    ensures |Emissions(w)| == TotalTids(w)
    decreases |w|
  {
    if w != [] {
      CandidateEmissionsFacts(w[|w| - 1]);
      EmissionsCount(w[..|w| - 1]);
    }
  }

  /**
   * Dropping TID-less tail candidates changes nothing a drain yields, and
   * leaves nothing exactly when the drain yields nothing.
   */
  lemma {:induction false} DropEmptyEmissions(w: seq<Candidate>)
    ensures Emissions(DropEmpty(w)) == Emissions(w)
    ensures DropEmpty(w) == [] <==> Emissions(w) == []
    decreases |w|
  {
    if w != [] && w[|w| - 1].element.heaptids == [] {
      DropEmptyEmissions(w[..|w| - 1]);
    }
    var d := DropEmpty(w);
    if d != [] {
      assert Emissions(d)[0] == Emission(LastTid(d[|d| - 1]), d[|d| - 1].element.blkno, d[|d| - 1].distance);
    }
  }

  /**
   * One step of consumption: when a drain of `w` yields anything, its first
   * tuple is the last TID of the last candidate that still has one, with
   * that candidate's block and distance, and the rest of the drain is the
   * drain of the list left after popping that TID.
   */
  lemma TakeOne(w: seq<Candidate>)
    requires Emissions(w) != []
    ensures var d := DropEmpty(w);
      && d != []
      && var c := d[|d| - 1];
      && Emissions(w)[0] == Emission(LastTid(c), c.element.blkno, c.distance)
      && Emissions(PopLastTid(d)) == Emissions(w)[1..]
  {
    DropEmptyEmissions(w);
    var d := DropEmpty(w);
    var c := d[|d| - 1];
    var e := Emission(LastTid(c), c.element.blkno, c.distance);
    PopThenDrain(d);
    assert Emissions(w) == [e] + Emissions(PopLastTid(d));
  }

  /**
   * Draining a list whose tail candidate has a TID yields that TID first,
   * then the drain of the list with that TID popped.
   */
  lemma PopThenDrain(d: seq<Candidate>)
    requires d != [] && d[|d| - 1].element.heaptids != []
    ensures var c := d[|d| - 1];
      Emissions(d) == [Emission(c.element.heaptids[|c.element.heaptids| - 1], c.element.blkno, c.distance)] + Emissions(PopLastTid(d))
  {
    var p := PopLastTid(d);
    assert p[..|p| - 1] == d[..|d| - 1];
  }

  /** What one fetch hands out (if anything) and the pending list it leaves. */
  datatype FetchResult = FetchResult(next: Option<Emission>, rest: seq<Candidate>)

  /**
   * One fetch from pending list `w`: drop the TID-less tail candidates;
   * if a candidate is left, hand out the last TID of the last one.
   */
  function Fetch(w: seq<Candidate>): (f: FetchResult)
  {
    var d := DropEmpty(w);
    if d == [] then FetchResult(None, [])
    else
      var c := d[|d| - 1];
      FetchResult(Some(Emission(LastTid(c), c.element.blkno, c.distance)), PopLastTid(d))
  }

  /** A TID-less tail candidate is skipped: dropping it does not change the fetch. */
  lemma FetchSkipsEmptyTail(w: seq<Candidate>)
    requires w != [] && w[|w| - 1].element.heaptids == []
    ensures Fetch(w) == Fetch(w[..|w| - 1])
  {
  }

  /** With a TID on the tail candidate, the fetch takes that candidate's last TID. */
  lemma FetchFromTail(w: seq<Candidate>)
    requires w != [] && w[|w| - 1].element.heaptids != []
    ensures var c := w[|w| - 1];
      Fetch(w) == FetchResult(Some(Emission(c.element.heaptids[|c.element.heaptids| - 1], c.element.blkno, c.distance)), PopLastTid(w))
  {
  }

  /**
   * A fetch hands out nothing exactly when a full drain would yield
   * nothing; otherwise it hands out the first tuple of the drain and leaves
   * a list whose drain is the rest.
   */
  lemma FetchIsFirstEmission(w: seq<Candidate>)
    ensures Fetch(w).next.None? <==> Emissions(w) == []
    ensures Fetch(w).next.Some? ==>
      && Fetch(w).next.value == Emissions(w)[0]
      && Emissions(Fetch(w).rest) == Emissions(w)[1..]
  {
    DropEmptyEmissions(w);
    if Emissions(w) != [] {
      TakeOne(w);
    }
  }

  /**
   * What repeated fetches from `w` hand out, one fetch after another,
   * until a fetch hands out nothing: the executor calling hnswgettuple
   * until it returns false.
   */
  function FetchAll(w: seq<Candidate>): (es: seq<Emission>)
    decreases |Emissions(w)|
  {
    var f := Fetch(w);
    FetchIsFirstEmission(w);
    if f.next.None? then [] else [f.next.value] + FetchAll(f.rest)
  }

  /**
   * Fetching until nothing is left hands out exactly the drain of `w`:
   * one tuple per heap TID held in `w`, in the order of Emissions.
   */
  lemma {:induction false} FetchAllIsEmissions(w: seq<Candidate>)
    ensures FetchAll(w) == Emissions(w)
    ensures |FetchAll(w)| == TotalTids(w)
    decreases |Emissions(w)|
  {
    FetchIsFirstEmission(w);
    EmissionsCount(w);
    var f := Fetch(w);
    if f.next.Some? {
      FetchAllIsEmissions(f.rest);
    }
  }

  /**
   * A fetch that hands out a TID changes nothing but the candidate it took
   * the TID from, which loses exactly that TID (its last), and the
   * candidates after it, which had no TIDs and are gone. A fetch that hands
   * out nothing found no candidate with a TID and leaves an empty list.
   */
  lemma FetchTouchesOnlyTail(w: seq<Candidate>)
    ensures var f := Fetch(w);
      f.next.None? ==> f.rest == [] && forall i :: 0 <= i < |w| ==> w[i].element.heaptids == []
    ensures var f := Fetch(w);
      f.next.Some? ==>
        var n := |f.rest|;
        && 0 < n <= |w|
        && f.rest[..n - 1] == w[..n - 1]
        && f.rest[n - 1].element.heaptids + [f.next.value.tid] == w[n - 1].element.heaptids
        && f.rest[n - 1].element.blkno == w[n - 1].element.blkno == f.next.value.blkno
        && f.rest[n - 1].element.level == w[n - 1].element.level
        && f.rest[n - 1].distance == w[n - 1].distance == f.next.value.distance
        && (forall i :: n <= i < |w| ==> w[i].element.heaptids == [])
  {
    var d := DropEmpty(w);
    if d != [] {
      var c := d[|d| - 1];
      var tids := c.element.heaptids;
      assert w[|d| - 1] == c;
      assert tids[..|tids| - 1] + [tids[|tids| - 1]] == tids;
    }
  }

  /** The list is ordered farthest first, nearest last. */
  ghost predicate DescendingByDistance(w: seq<Candidate>)
  {
    forall i, j :: 0 <= i < j < |w| ==> w[j].distance <= w[i].distance
  }

  ghost predicate NonDecreasingDistance(es: seq<Emission>)
  {
    forall i, j :: 0 <= i < j < |es| ==> es[i].distance <= es[j].distance
  }

  /** A lower bound on the candidates' distances bounds every tuple a drain yields. */
  lemma {:induction false} EmissionsAtLeast(w: seq<Candidate>, d: real)
    requires forall i :: 0 <= i < |w| ==> d <= w[i].distance
    ensures forall e :: e in Emissions(w) ==> d <= e.distance
    decreases |w|
  {
    if w != [] {
      CandidateEmissionsFacts(w[|w| - 1]);
      EmissionsAtLeast(w[..|w| - 1], d);
    }
  }

  /**
   * If the list is ordered farthest first (the order the layer search is
   * expected to return), a drain yields tuples nearest first.
   */
  lemma {:induction false} NearestFirst(w: seq<Candidate>)
    requires DescendingByDistance(w)
    ensures NonDecreasingDistance(Emissions(w))
    decreases |w|
  {
    if w != [] {
      var c := w[|w| - 1];
      var a := CandidateEmissions(c);
      var rest := w[..|w| - 1];
      var b := Emissions(rest);
      NearestFirst(rest);
      CandidateEmissionsFacts(c);
      EmissionsAtLeast(rest, c.distance);
      var es := a + b;
      forall i, j | 0 <= i < j < |es| ensures es[i].distance <= es[j].distance {
        if j < |a| {
          assert es[i] in a && es[j] in a;
        } else if i < |a| {
          assert es[i] in a && es[j] == b[j - |a|] && b[j - |a|] in b;
        } else {
          assert es[i] == b[i - |a|] && es[j] == b[j - |a|];
        }
      }
    }
  }
}
