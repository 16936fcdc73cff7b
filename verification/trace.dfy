/** The map writes a run of the swap protocol issues, in order, and whole applies as such runs. */
module SwapTrace {
  import opened Words
  import opened Folds
  import opened RuleMaps
  import opened SwapProtocol
  import opened SwapRuns

  /** The start of an apply, or a write that took effect on the kernel maps or on the generation cell. */
  datatype Write =
    | Started(ops: seq<Op>)
    | PutEntry(slot: Slot, entry: Entry)
    | Remove(slot: Slot)
    | SetGen(gen: U32)

  function WriteOf(k: Plane, e: Event): seq<Write> {
    match e
    case Begin(ops) => [Started(ops)]
    case Stage =>
      if CanStage(k) then
        var op := k.control.ops[k.control.done];
        [PutEntry(Slot(Next(k.gen), op.item), op.entry)]
      else []
    case Delete(slot) => if Emptying(k) == Some(slot.gen) then [Remove(slot)] else []
    case Flip => if k.control.Staging? && k.control.done == |k.control.ops| then [SetGen(Next(k.gen))] else []
    case _ => []
  }

  function Issued(k: Plane, es: seq<Event>): seq<Write> {
    Emitted(PlaneStep, WriteOf, k, es)
  }

  ghost predicate ControlOnly(es: seq<Event>) {
    forall i | 0 <= i < |es| :: !es[i].Arrive? && !es[i].Look?
  }

  /** The control events `es` lead from `k` to `k'` and issue exactly the writes `ws`. */
  ghost predicate Does(k: Plane, es: seq<Event>, k': Plane, ws: seq<Write>) {
    ControlOnly(es) && PlaneRun(k, es) == k' && Issued(k, es) == ws
  }

  ghost predicate Reaches(k: Plane, k': Plane, ws: seq<Write>) {
    exists es :: Does(k, es, k', ws)
  }

  // ---- Composing runs --------------------------------------------------------------------

  lemma Stay(k: Plane)
    ensures Reaches(k, k, [])
  {
    assert Does(k, [], k, []);
  }

  lemma Then(k: Plane, k1: Plane, w1: seq<Write>, k2: Plane, w2: seq<Write>)
    requires Reaches(k, k1, w1) && Reaches(k1, k2, w2)
    ensures Reaches(k, k2, w1 + w2)
  {
    var a :| Does(k, a, k1, w1);
    var b :| Does(k1, b, k2, w2);
    FoldConcat(PlaneStep, k, a, b);
    EmittedConcat(PlaneStep, WriteOf, k, a, b);
    assert Does(k, a + b, k2, w1 + w2);
  }

  /** One more step, with or without a write. */
  lemma ThenStep(k: Plane, k1: Plane, ws: seq<Write>, e: Event, k2: Plane, ws': seq<Write>)
    requires Reaches(k, k1, ws) && !e.Arrive? && !e.Look?
    requires k2 == PlaneStep(k1, e) && ws' == ws + WriteOf(k1, e)
    ensures Reaches(k, k2, ws')
  {
    var es :| Does(k, es, k1, ws);
    FoldMore(PlaneStep, k, es, e);
    EmittedMore(PlaneStep, WriteOf, k, es, e);
    assert Does(k, es + [e], k2, ws');
  }

  // ---- The phases of an apply ------------------------------------------------------------

  function Puts(g: U32, ops: seq<Op>): seq<Write> {
    if ops == [] then [] else
      match ops[|ops| - 1]
      case Put(it, e) => Puts(g, ops[..|ops| - 1]) + [PutEntry(Slot(g, it), e)]
      case Refused => Puts(g, ops[..|ops| - 1])
  }

  function Removes(slots: seq<Slot>): seq<Write> {
    if slots == [] then [] else Removes(slots[..|slots| - 1]) + [Remove(slots[|slots| - 1])]
  }

  lemma PutsStep(g: U32, ops: seq<Op>, n: nat)
    requires n < |ops| && ops[n].Put?
    ensures Puts(g, ops[..n + 1]) == Puts(g, ops[..n]) + [PutEntry(Slot(g, ops[n].item), ops[n].entry)]
  {
    assert ops[..n + 1][..n] == ops[..n];
  }

  function Elements(slots: seq<Slot>): set<Slot> {
    set s | s in slots
  }

  /** The applies started among some writes, in order. */
  function Starts(ws: seq<Write>): seq<seq<Op>> {
    if ws == [] then []
    else Starts(ws[..|ws| - 1]) + if ws[|ws| - 1].Started? then [ws[|ws| - 1].ops] else []
  }

  lemma {:induction false} StartsConcat(a: seq<Write>, b: seq<Write>)
    ensures Starts(a + b) == Starts(a) + Starts(b)
  {
    if b == [] {
      assert a + b == a;
    } else {
      StartsConcat(a, b[..|b| - 1]);
      assert (a + b)[..|a + b| - 1] == a + b[..|b| - 1];
    }
  }

  lemma {:induction false} NoStarts(ws: seq<Write>)
    requires forall i | 0 <= i < |ws| :: !ws[i].Started?
    ensures Starts(ws) == []
  {
    if ws != [] {
      NoStarts(ws[..|ws| - 1]);
    }
  }

  lemma {:induction false} PutsStartNothing(g: U32, ops: seq<Op>)
    ensures forall i | 0 <= i < |Puts(g, ops)| :: !Puts(g, ops)[i].Started?
  {
    if ops != [] {
      PutsStartNothing(g, ops[..|ops| - 1]);
    }
  }

  lemma {:induction false} RemovesStartNothing(slots: seq<Slot>)
    ensures forall i | 0 <= i < |Removes(slots)| :: !Removes(slots)[i].Started?
  {
    if slots != [] {
      RemovesStartNothing(slots[..|slots| - 1]);
    }
  }

  /** Putting, flipping and removing after one start: that start and no other. */
  lemma OneStart(g: U32, ops: seq<Op>, n: nat, flip: seq<Write>, slots: seq<Slot>)
    requires n <= |ops| && (flip == [] || flip == [SetGen(g)])
    ensures Starts([Started(ops)] + Puts(g, ops[..n]) + flip + Removes(slots)) == [ops]
  {
    var rest := Puts(g, ops[..n]) + flip + Removes(slots);
    PutsStartNothing(g, ops[..n]);
    RemovesStartNothing(slots);
    NoStarts(rest);
    StartsConcat([Started(ops)], rest);
    assert [Started(ops)][..0] == [];
    assert [Started(ops)] + Puts(g, ops[..n]) + flip + Removes(slots) == [Started(ops)] + rest;
  }

  /** The plane after `Begin`, an empty clearing and the first `n` puts. */
  function StagedPlane(k: Plane, ops: seq<Op>, n: nat): Plane
    requires n <= |ops|
  {
    k.(entries := Staged(k.entries, Next(k.gen), ops[..n]), control := Staging(ops, n), begun := k.begun + 1)
  }

  /** What an apply has issued when `n` of its writes are staged. */
  function StagingWrites(k: Plane, ops: seq<Op>, n: nat): seq<Write>
    requires n <= |ops|
  {
    [Started(ops)] + Puts(Next(k.gen), ops[..n])
  }

  lemma {:induction false} StagingReaches(k: Plane, ops: seq<Op>, n: nat)
    requires PlaneInv(k) && k.control.Idle? && FitsFirst(k.entries, Next(k.gen), ops, n)
    ensures Reaches(k, StagedPlane(k, ops, n), StagingWrites(k, ops, n))
  {
    if n == 0 {
      BeginSteps(k, ops);
      Stay(k);
      ThenStep(k, k, [], Begin(ops), PlaneStep(k, Begin(ops)), [Started(ops)]);
      ThenStep(k, PlaneStep(k, Begin(ops)), [Started(ops)], Finish, StagedPlane(k, ops, 0), StagingWrites(k, ops, 0));
    } else {
      StageStep(k, ops, n - 1);
      StagingReaches(k, ops, n - 1);
      ThenStep(k, StagedPlane(k, ops, n - 1), StagingWrites(k, ops, n - 1), Stage,
               StagedPlane(k, ops, n), StagingWrites(k, ops, n));
    }
  }

  /** Nothing is left of the next generation at rest, so clearing it takes no deletion. */
  lemma BeginSteps(k: Plane, ops: seq<Op>)
    requires PlaneInv(k) && k.control.Idle?
    ensures PlaneStep(PlaneStep(k, Begin(ops)), Finish) == StagedPlane(k, ops, 0)
    ensures WriteOf(PlaneStep(k, Begin(ops)), Finish) == [] && StagingWrites(k, ops, 0) == [Started(ops)]
  {
    assert Emptying(PlaneStep(k, Begin(ops))) == Some(Next(k.gen));
  }

  lemma StageStep(k: Plane, ops: seq<Op>, n: nat)
    requires FitsFirst(k.entries, Next(k.gen), ops, n + 1)
    ensures PlaneStep(StagedPlane(k, ops, n), Stage) == StagedPlane(k, ops, n + 1)
    ensures StagingWrites(k, ops, n + 1) == StagingWrites(k, ops, n) + WriteOf(StagedPlane(k, ops, n), Stage)
  {
    assert Placeable(k.entries, Next(k.gen), ops, n);
    StagedStep(k.entries, Next(k.gen), ops, n);
    PutsStep(Next(k.gen), ops, n);
    assert CanStage(StagedPlane(k, ops, n));
  }

  lemma {:induction false} DeletingReaches(k: Plane, slots: seq<Slot>)
    requires Emptying(k).Some? && forall s | s in slots :: s.gen == Emptying(k).value
    ensures Reaches(k, k.(entries := k.entries - Elements(slots)), Removes(slots))
  {
    if slots == [] {
      assert k.entries - Elements(slots) == k.entries;
      Stay(k);
    } else {
      var n := |slots| - 1;
      DeletingReaches(k, slots[..n]);
      assert slots == slots[..n] + [slots[n]];
      assert k.entries - Elements(slots) == (k.entries - Elements(slots[..n])) - {slots[n]};
      ThenStep(k, k.(entries := k.entries - Elements(slots[..n])), Removes(slots[..n]), Delete(slots[n]),
               k.(entries := k.entries - Elements(slots)), Removes(slots));
    }
  }

  /** Emptying a generation and coming to rest. */
  lemma EmptyingReaches(k: Plane, slots: seq<Slot>)
    requires (k.control.RollingBack? || k.control.Purging?) && forall s | s in slots :: s.gen == Emptying(k).value
    requires NoneOf(k.entries - Elements(slots), Emptying(k).value)
    ensures Reaches(k, k.(entries := k.entries - Elements(slots), control := Idle), Removes(slots))
  {
    DeletingReaches(k, slots);
    ThenStep(k, k.(entries := k.entries - Elements(slots)), Removes(slots), Finish,
             k.(entries := k.entries - Elements(slots), control := Idle), Removes(slots));
  }

  function RestoredPlane(k: Plane, ops: seq<Op>, n: nat, slots: seq<Slot>): Plane
    requires n <= |ops|
  {
    k.(entries := Staged(k.entries, Next(k.gen), ops[..n]) - Elements(slots), begun := k.begun + 1)
  }

  /** A failed apply: some puts, then the removal of what they left. */
  lemma FailureReaches(k: Plane, ops: seq<Op>, n: nat, slots: seq<Slot>)
    requires PlaneInv(k) && k.control.Idle? && FitsFirst(k.entries, Next(k.gen), ops, n)
    requires forall s | s in slots :: s.gen == Next(k.gen)
    requires NoneOf(Staged(k.entries, Next(k.gen), ops[..n]) - Elements(slots), Next(k.gen))
    ensures Reaches(k, RestoredPlane(k, ops, n, slots), StagingWrites(k, ops, n) + Removes(slots))
  {
    RollbackReaches(k, ops, n);
    RestoreReaches(k, ops, n, slots);
    Then(k, StagedPlane(k, ops, n).(control := RollingBack), StagingWrites(k, ops, n),
         RestoredPlane(k, ops, n, slots), Removes(slots));
  }

  lemma RestoreReaches(k: Plane, ops: seq<Op>, n: nat, slots: seq<Slot>)
    requires k.control.Idle? && n <= |ops| && forall s | s in slots :: s.gen == Next(k.gen)
    requires NoneOf(Staged(k.entries, Next(k.gen), ops[..n]) - Elements(slots), Next(k.gen))
    ensures Reaches(StagedPlane(k, ops, n).(control := RollingBack), RestoredPlane(k, ops, n, slots), Removes(slots))
  {
    EmptyingReaches(StagedPlane(k, ops, n).(control := RollingBack), slots);
  }

  lemma RollbackReaches(k: Plane, ops: seq<Op>, n: nat)
    requires PlaneInv(k) && k.control.Idle? && FitsFirst(k.entries, Next(k.gen), ops, n)
    ensures Reaches(k, StagedPlane(k, ops, n).(control := RollingBack), StagingWrites(k, ops, n))
  {
    var puts, k1 := StagingWrites(k, ops, n), StagedPlane(k, ops, n);
    var failure := if n < |ops| then StageFails else FlipFails;
    assert PlaneStep(k1, failure) == k1.(control := RollingBack) && puts == puts + WriteOf(k1, failure);
    StagingReaches(k, ops, n);
    ThenStep(k, k1, puts, failure, k1.(control := RollingBack), puts);
  }

  function AppliedPlane(k: Plane, ops: seq<Op>, slots: seq<Slot>): Plane {
    Plane(Next(k.gen), Staged(k.entries, Next(k.gen), ops) - Elements(slots), Idle,
          k.hist + [ImageOf(ops)], k.begun + 1)
  }

  /** A successful apply: every put, the flip, the removal of the old generation. */
  lemma SuccessReaches(k: Plane, ops: seq<Op>, slots: seq<Slot>)
    requires PlaneInv(k) && k.control.Idle? && Fits(k.entries, Next(k.gen), ops)
    requires forall s | s in slots :: s.gen == k.gen
    requires NoneOf(Staged(k.entries, Next(k.gen), ops) - Elements(slots), k.gen)
    ensures Reaches(k, AppliedPlane(k, ops, slots),
                    StagingWrites(k, ops, |ops|) + [SetGen(Next(k.gen))] + Removes(slots))
  {
    FlipReaches(k, ops);
    PurgeReaches(k, ops, slots);
    Then(k, PublishedPlane(k, ops), StagingWrites(k, ops, |ops|) + [SetGen(Next(k.gen))],
         AppliedPlane(k, ops, slots), Removes(slots));
  }

  lemma PurgeReaches(k: Plane, ops: seq<Op>, slots: seq<Slot>)
    requires forall s | s in slots :: s.gen == k.gen
    requires NoneOf(Staged(k.entries, Next(k.gen), ops) - Elements(slots), k.gen)
    ensures Reaches(PublishedPlane(k, ops), AppliedPlane(k, ops, slots), Removes(slots))
  {
    NeighboursDiffer(k.gen);
    assert Emptying(PublishedPlane(k, ops)) == Some(k.gen);
    EmptyingReaches(PublishedPlane(k, ops), slots);
  }

  function PublishedPlane(k: Plane, ops: seq<Op>): Plane {
    Plane(Next(k.gen), Staged(k.entries, Next(k.gen), ops), Purging, k.hist + [ImageOf(ops)], k.begun + 1)
  }

  lemma FlipReaches(k: Plane, ops: seq<Op>)
    requires PlaneInv(k) && k.control.Idle? && Fits(k.entries, Next(k.gen), ops)
    ensures Reaches(k, PublishedPlane(k, ops), StagingWrites(k, ops, |ops|) + [SetGen(Next(k.gen))])
  {
    assert ops[..|ops|] == ops;
    StagingReaches(k, ops, |ops|);
    FlipSteps(StagedPlane(k, ops, |ops|));
    Then(k, StagedPlane(k, ops, |ops|), StagingWrites(k, ops, |ops|), PublishedPlane(k, ops), [SetGen(Next(k.gen))]);
  }

  lemma FlipSteps(k: Plane)
    requires k.control.Staging? && k.control.done == |k.control.ops|
    ensures Reaches(k, k.(gen := Next(k.gen), control := Purging, hist := k.hist + [ImageOf(k.control.ops)]),
                    [SetGen(Next(k.gen))])
  {
    var k1, w := PlaneStep(k, Flip), [SetGen(Next(k.gen))];
    Stay(k);
    ThenStep(k, k, [], Flip, k1, w);
    ThenStep(k, k1, w, StartPurge, k1.(control := Purging), w);
  }

  // ---- Applies that can always be made ---------------------------------------------------

  lemma {:induction false} Enumerate(slots: set<Slot>) returns (order: seq<Slot>)
    ensures Elements(order) == slots
  {
    if slots == {} {
      order := [];
    } else {
      var s :| s in slots;
      var rest := Enumerate(slots - {s});
      order := rest + [s];
      assert Elements(order) == Elements(rest) + {s};
    }
  }

  /** A policy that fits can be applied: some run of control steps publishes it and comes to rest. */
  lemma ApplyRun(k: Plane, ops: seq<Op>) returns (es: seq<Event>)
    requires PlaneInv(k) && k.control.Idle? && Fits(k.entries, Next(k.gen), ops)
    ensures ControlOnly(es)
    ensures var k' := PlaneRun(k, es);
            && k'.control.Idle? && PlaneInv(k') && k'.begun == k.begun + 1
            && k'.hist == k.hist + [ImageOf(ops)] && k'.gen == Next(k.gen)
  {
    var m := Staged(k.entries, Next(k.gen), ops);
    var slots := Enumerate(set s | s in m && s.gen == k.gen);
    assert NoneOf(m - Elements(slots), k.gen);
    assert forall s | s in slots :: s in Elements(slots);
    SuccessReaches(k, ops, slots);
    es :| Does(k, es, AppliedPlane(k, ops, slots),
               StagingWrites(k, ops, |ops|) + [SetGen(Next(k.gen))] + Removes(slots));
    RunInv(k, es);
  }

  /** Staging without publishing. */
  lemma StagingRun(k: Plane, ops: seq<Op>) returns (es: seq<Event>)
    requires PlaneInv(k) && k.control.Idle? && Fits(k.entries, Next(k.gen), ops)
    ensures ControlOnly(es) && PlaneRun(k, es) == StagedPlane(k, ops, |ops|)
  {
    StagingReaches(k, ops, |ops|);
    es :| Does(k, es, StagedPlane(k, ops, |ops|), StagingWrites(k, ops, |ops|));
  }
}
