/** The generation swap as a step machine (pkg/compiler/atomic_swap.go:27-76) interleaved with
    packets that read the generation once and then look up three times (bpf/xdp_firewall.c:89-248).

    A run is any sequence of events; an event that is not enabled leaves the state alone. So a
    statement about every event sequence is a statement about every interleaving. Deletions inside
    one purge may come in any order, which covers the order the loader uses. */
module SwapProtocol {
  import opened Words
  import opened Folds
  import opened RuleMaps
  import opened Xdp

  /** Where the single swapper stands. */
  datatype Control =
    | Idle
    | Clearing(ops: seq<Op>)            // emptying the next generation before staging
    | Staging(ops: seq<Op>, done: nat)  // `done` writes are in place
    | RollingBack                       // emptying the next generation after a failure
    | Swapped                           // generation cell flipped, purge not begun
    | Purging                           // emptying the previous generation

  /** The maps, the generation cell and the swapper. `hist[e]` is the image published by the e-th
      success; `begun` counts applies begun. Neither is read by any step's guard. */
  datatype Plane = Plane(gen: U32, entries: Entries, control: Control, hist: seq<Image>, begun: nat)

  datatype Event =
    | Begin(ops: seq<Op>)
    | Delete(slot: Slot)
    | Finish
    | Stage
    | StageFails
    | Flip
    | FlipFails
    | StartPurge
    | Arrive(packet: Packet)
    | Look(flight: nat)

  /** 32-bit successor, wrapping around. */
  function Next(g: U32): U32 { if g == 0xFFFF_FFFF then 0 else g + 1 }

  function Previous(g: U32): U32 { if g == 0 then 0xFFFF_FFFF else g - 1 }

  /** The generation number of the e-th success. */
  function GenOf(e: nat): U32 { e % 0x1_0000_0000 }

  /** The generation being emptied, if one is. */
  function Emptying(k: Plane): Option<U32> {
    match k.control
    case Clearing(_) => Some(Next(k.gen))
    case RollingBack => Some(Next(k.gen))
    case Purging => Some(Previous(k.gen))
    case _ => None
  }

  predicate NoneOf(m: Entries, g: U32) {
    forall s | s in m :: s.gen != g
  }

  /** One control step; packet events do not touch the plane. */
  function PlaneStep(k: Plane, e: Event): Plane {
    match e
    case Begin(ops) =>
      if k.control.Idle? then k.(control := Clearing(ops), begun := k.begun + 1) else k
    case Delete(slot) =>
      if Emptying(k) == Some(slot.gen) then k.(entries := k.entries - {slot}) else k
    case Finish =>
      if Emptying(k).Some? && NoneOf(k.entries, Emptying(k).value)
      then k.(control := if k.control.Clearing? then Staging(k.control.ops, 0) else Idle) else k
    case Stage =>
      if CanStage(k) then
        var op := k.control.ops[k.control.done];
        k.(entries := k.entries[Slot(Next(k.gen), op.item) := op.entry],
           control := Staging(k.control.ops, k.control.done + 1))
      else k
    case StageFails =>
      if k.control.Staging? && k.control.done < |k.control.ops| then k.(control := RollingBack) else k
    case Flip =>
      if k.control.Staging? && k.control.done == |k.control.ops|
      then k.(gen := Next(k.gen), control := Swapped, hist := k.hist + [ImageOf(k.control.ops)])
      else k
    case FlipFails =>
      if k.control.Staging? && k.control.done == |k.control.ops| then k.(control := RollingBack) else k
    case StartPurge =>
      if k.control.Swapped? then k.(control := Purging) else k
    case Arrive(_) => k
    case Look(_) => k
  }

  function PlaneRun(k: Plane, es: seq<Event>): Plane {
    Fold(PlaneStep, k, es)
  }

  const START := Plane(0, map[], Idle, [map[]], 0)

  // ---- The invariant of the plane --------------------------------------------------------

  /** The number of successful applies. */
  function Epoch(k: Plane): int { |k.hist| - 1 }

  ghost predicate PlaneInv(k: Plane) {
    && |k.hist| >= 1
    && k.gen == GenOf(Epoch(k))
    // the published generation is always complete
    && GenView(k.entries, k.gen) == k.hist[Epoch(k)]
    // only three generations can hold anything
    && (forall s | s in k.entries :: s.gen in {k.gen, Next(k.gen), Previous(k.gen)})
    && NextInv(k)
    && PreviousInv(k)
    && Bounded(k.entries)
    && Horizon(k) <= k.begun
  }

  ghost predicate NextInv(k: Plane) {
    match k.control
    case Staging(ops, done) =>
      && done <= |ops|
      && AllPuts(ops[..done])
      && GenView(k.entries, Next(k.gen)) == ImageOf(ops[..done])
    case RollingBack => true
    case _ => NoneOf(k.entries, Next(k.gen))
  }

  ghost predicate PreviousInv(k: Plane) {
    match k.control
    case Swapped =>
      Epoch(k) >= 1 && GenView(k.entries, Previous(k.gen)) == k.hist[Epoch(k) - 1]
    case Purging =>
      Epoch(k) >= 1 && Within(GenView(k.entries, Previous(k.gen)), k.hist[Epoch(k) - 1])
    case _ => NoneOf(k.entries, Previous(k.gen))
  }

  /** The latest epoch whose generation slot may be in use. */
  function Horizon(k: Plane): int {
    if k.control.Clearing? || k.control.Staging? || k.control.RollingBack? then |k.hist| else |k.hist| - 1
  }

  lemma NeighboursDiffer(g: U32)
    ensures Next(g) != g && Previous(g) != g && Next(g) != Previous(g)
    ensures Previous(Next(g)) == g
  {
  }

  lemma StartInv()
    ensures PlaneInv(START)
  {
    assert GenView(START.entries, 0) == map[];
    forall t: Table ensures |TableSlots(START.entries, t)| <= CAPACITY {
      assert TableSlots(START.entries, t) == {};
    }
  }

  lemma DeleteInv(k: Plane, slot: Slot)
    requires PlaneInv(k)
    ensures PlaneInv(PlaneStep(k, Delete(slot)))
  {
    NeighboursDiffer(k.gen);
    if Emptying(k) == Some(slot.gen) {
      ViewAfterDelete(k.entries, slot, k.gen);
      BoundedAfterDelete(k.entries, slot);
    }
  }

  predicate CanStage(k: Plane) {
    && k.control.Staging? && k.control.done < |k.control.ops|
    && var op := k.control.ops[k.control.done];
       op.Put? && Room(k.entries, Slot(Next(k.gen), op.item))
  }

  lemma StageInv(k: Plane)
    requires PlaneInv(k)
    ensures PlaneInv(PlaneStep(k, Stage))
  {
    if CanStage(k) {
      var ops, n, next := k.control.ops, k.control.done, Next(k.gen);
      var s, e := Slot(next, ops[n].item), ops[n].entry;
      NeighboursDiffer(k.gen);
      ViewAfterPut(k.entries, s, e, next);
      ViewAfterPut(k.entries, s, e, k.gen);
      BoundedAfterPut(k.entries, s, e);
      StagedOne(ops, n);
    }
  }

  lemma StagedOne(ops: seq<Op>, n: nat)
    requires n < |ops| && ops[n].Put? && AllPuts(ops[..n])
    ensures AllPuts(ops[..n + 1])
    ensures ImageOf(ops[..n + 1]) == ImageOf(ops[..n])[ops[n].item := ops[n].entry]
  {
    ImageStep(ops, n);
    assert ops[..n + 1] == ops[..n] + [ops[n]];
  }

  lemma FlipInv(k: Plane)
    requires PlaneInv(k)
    ensures PlaneInv(PlaneStep(k, Flip))
  {
    NeighboursDiffer(k.gen);
    NeighboursDiffer(Next(k.gen));
    if k.control.Staging? && k.control.done == |k.control.ops| {
      assert k.control.ops[..k.control.done] == k.control.ops;
      EpochAdvances(Epoch(k));
      assert Next(Next(k.gen)) != Previous(k.gen);
    }
  }

  lemma EpochAdvances(e: nat)
    ensures Next(GenOf(e)) == GenOf(e + 1)
  {
  }

  /** Every step keeps the invariant. */
  lemma StepInv(k: Plane, e: Event)
    requires PlaneInv(k)
    ensures PlaneInv(PlaneStep(k, e))
  {
    match e
    case Delete(slot) => DeleteInv(k, slot);
    case Stage => StageInv(k);
    case Flip => FlipInv(k);
    case Finish =>
      if Emptying(k).Some? && k.control.Clearing? && NoneOf(k.entries, Emptying(k).value) {
        assert GenView(k.entries, Next(k.gen)) == map[];
        assert k.control.ops[..0] == [];
      }
    case _ =>
  }

  lemma {:induction false} RunInv(k: Plane, es: seq<Event>)
    requires PlaneInv(k)
    ensures PlaneInv(PlaneRun(k, es))
  {
    if es != [] {
      RunInv(k, es[..|es| - 1]);
      StepInv(PlaneRun(k, es[..|es| - 1]), es[|es| - 1]);
    }
  }
}
