/** Whole applies as runs of the swap protocol: what they leave behind, when they succeed, and how
    far the guarantees for packets in flight reach. */
module SwapRuns {
  import opened Words
  import opened RuleMaps
  import opened Xdp
  import opened SwapProtocol
  import opened Flights

  /** The maps hold `img` under generation `g` and nothing else. */
  ghost predicate Exactly(m: Entries, g: U32, img: Image) {
    IsView(m, g, img) && forall s | s in m :: s.gen == g
  }

  /** Between applies nothing but the last published image is left, under its own generation. */
  lemma IdleIsExact(k: Plane)
    requires PlaneInv(k) && k.control.Idle?
    ensures Exactly(k.entries, k.gen, k.hist[Epoch(k)])
  {
    NeighboursDiffer(k.gen);
  }

  lemma ExactlyUnique(m: Entries, n: Entries, g: U32, img: Image)
    requires Exactly(m, g, img) && Exactly(n, g, img)
    ensures m == n
  {
    forall s | s in m || s in n
      ensures s in m && s in n && m[s] == n[s]
    {
      assert s == Slot(g, s.item);
      assert s.item in img;
    }
  }

  /** History independence: after any finite run from empty maps, once the swapper is idle, the maps
      are the image of the last success and the cell counts the successes modulo 2^32. */
  lemma HistoryIndependence(es: seq<Event>)
    requires PlaneRun(START, es).control.Idle?
    ensures var k := PlaneRun(START, es);
            && |k.hist| >= 1
            && Exactly(k.entries, k.gen, k.hist[|k.hist| - 1])
            && k.gen == (|k.hist| - 1) % 0x1_0000_0000
  {
    StartInv();
    RunInv(START, es);
    IdleIsExact(PlaneRun(START, es));
  }

  lemma {:induction false} RunHistoryGrows(k: Plane, es: seq<Event>)
    requires PlaneInv(k)
    ensures k.hist <= PlaneRun(k, es).hist
  {
    if es != [] {
      var n := |es| - 1;
      RunHistoryGrows(k, es[..n]);
      RunInv(k, es[..n]);
      HistoryGrows(PlaneRun(k, es[..n]), es[n]);
    }
  }

  /** Rollback: as long as no apply has succeeded, whatever was staged, failed or rolled back, the
      cell and every packet's decision are as before; and at rest the maps are too. */
  lemma FailedApplyInvisible(k: Plane, es: seq<Event>, p: Packet)
    requires PlaneInv(k) && k.control.Idle?
    requires |PlaneRun(k, es).hist| == |k.hist|
    ensures var k' := PlaneRun(k, es);
            && k'.gen == k.gen
            && GenView(k'.entries, k'.gen) == GenView(k.entries, k.gen)
            && Decide(GenView(k'.entries, k'.gen), p) == Decide(GenView(k.entries, k.gen), p)
            && (k'.control.Idle? ==> k'.entries == k.entries)
  {
    RunInv(k, es);
    RunHistoryGrows(k, es);
    SameHistorySameView(k, PlaneRun(k, es));
  }

  lemma SameHistorySameView(k: Plane, k': Plane)
    requires PlaneInv(k) && k.control.Idle? && PlaneInv(k') && k'.hist == k.hist
    ensures k'.gen == k.gen && GenView(k'.entries, k'.gen) == GenView(k.entries, k.gen)
    ensures k'.control.Idle? ==> k'.entries == k.entries
  {
    if k'.control.Idle? {
      IdleIsExact(k);
      IdleIsExact(k');
      ExactlyUnique(k.entries, k'.entries, k.gen, k.hist[Epoch(k)]);
    }
  }

  // ---- Staging a whole list --------------------------------------------------------------

  function Staged(m: Entries, g: U32, ops: seq<Op>): Entries {
    if ops == [] then m else
      var m' := Staged(m, g, ops[..|ops| - 1]);
      match ops[|ops| - 1]
      case Put(it, e) => m'[Slot(g, it) := e]
      case Refused => m'
  }

  /** Operation `i` is a write, and finds room when its turn comes. */
  predicate Placeable(m: Entries, g: U32, ops: seq<Op>, i: nat)
    requires i < |ops|
  {
    ops[i].Put? && Room(Staged(m, g, ops[..i]), Slot(g, ops[i].item))
  }

  predicate FitsFirst(m: Entries, g: U32, ops: seq<Op>, n: nat) {
    n <= |ops| && forall i: nat | i < n :: Placeable(m, g, ops, i)
  }

  predicate Fits(m: Entries, g: U32, ops: seq<Op>) {
    FitsFirst(m, g, ops, |ops|)
  }

  lemma StagedStep(m: Entries, g: U32, ops: seq<Op>, n: nat)
    requires n < |ops| && ops[n].Put?
    ensures Staged(m, g, ops[..n + 1]) == Staged(m, g, ops[..n])[Slot(g, ops[n].item) := ops[n].entry]
  {
    assert ops[..n + 1][..n] == ops[..n];
  }
}
