/** When an apply fits, and how far the guarantees for packets in flight can be stretched. */
module SwapLimits {
  import opened Words
  import opened Folds
  import opened RuleMaps
  import opened Xdp
  import opened SwapProtocol
  import opened Flights
  import opened SwapRuns
  import opened SwapTrace

  // ---- Capacity --------------------------------------------------------------------------

  lemma {:induction false} SameCount(slots: set<Slot>, items: set<Item>, g: U32)
    requires forall s | s in slots :: s.gen == g && s.item in items
    requires forall it | it in items :: Slot(g, it) in slots
    ensures |slots| == |items|
  {
    if slots == {} {
      assert items == {} by {
        if it :| it in items {
          assert Slot(g, it) in slots;
        }
      }
    } else {
      var s :| s in slots;
      SameCount(slots - {s}, items - {s.item}, g);
    }
  }

  lemma ImageCount(m: Entries, g: U32, img: Image, t: Table)
    requires Exactly(m, g, img)
    ensures |TableSlots(m, t)| == |TableItems(img, t)|
  {
    SameCount(TableSlots(m, t), TableItems(img, t), g);
  }

  lemma ItemCounts(img: Image, it: Item, e: Entry, t: Table)
    ensures |TableItems(img[it := e], t)| == |TableItems(img, t)| + if TableOf(it) == t && it !in img then 1 else 0
  {
    if TableOf(it) == t {
      assert TableItems(img[it := e], t) == TableItems(img, t) + {it};
    } else {
      assert TableItems(img[it := e], t) == TableItems(img, t);
    }
  }

  /** Staging into an empty generation adds one entry per distinct key. */
  lemma {:induction false} StagedCount(m: Entries, g: U32, ops: seq<Op>, n: nat, t: Table)
    requires NoneOf(m, g) && AllPuts(ops) && n <= |ops|
    ensures |TableSlots(Staged(m, g, ops[..n]), t)| == |TableSlots(m, t)| + |TableItems(ImageOf(ops[..n]), t)|
    ensures forall it :: Slot(g, it) in Staged(m, g, ops[..n]) <==> it in ImageOf(ops[..n])
  {
    if n == 0 {
      assert TableItems(map[], t) == {};
    } else {
      var op := ops[n - 1];
      StagedCount(m, g, ops, n - 1, t);
      StagedStep(m, g, ops, n - 1);
      ImageStep(ops, n - 1);
      PutCounts(Staged(m, g, ops[..n - 1]), Slot(g, op.item), op.entry, t);
      ItemCounts(ImageOf(ops[..n - 1]), op.item, op.entry, t);
    }
  }

  lemma {:induction false} ImageGrows(ops: seq<Op>, i: nat, n: nat)
    requires AllPuts(ops) && i <= n <= |ops|
    ensures forall it | it in ImageOf(ops[..i]) :: it in ImageOf(ops[..n])
  {
    if i < n {
      ImageGrows(ops, i, n - 1);
      ImageStep(ops, n - 1);
    }
  }

  /** Old and new keys of one table together. */
  ghost function Demand(active: Image, next: Image, t: Table): nat {
    |TableItems(active, t)| + |TableItems(next, t)|
  }

  lemma RoomWhenSmall(k: Plane, ops: seq<Op>, i: nat)
    requires PlaneInv(k) && k.control.Idle? && AllPuts(ops) && i < |ops|
    requires Demand(k.hist[Epoch(k)], ImageOf(ops), TableOf(ops[i].item)) <= CAPACITY
    ensures Placeable(k.entries, Next(k.gen), ops, i)
  {
    var g, t := Next(k.gen), TableOf(ops[i].item);
    IdleIsExact(k);
    ImageCount(k.entries, k.gen, k.hist[Epoch(k)], t);
    StagedCount(k.entries, g, ops, i, t);
    ImageStep(ops, i);
    ItemCounts(ImageOf(ops[..i]), ops[i].item, ops[i].entry, t);
    ImageGrows(ops, i + 1, |ops|);
    assert ops[..|ops|] == ops;
    SubsetCount(TableItems(ImageOf(ops[..i + 1]), t), TableItems(ImageOf(ops), t));
  }

  lemma {:induction false} FitsStaysBounded(m: Entries, g: U32, ops: seq<Op>, n: nat)
    requires Bounded(m) && Fits(m, g, ops) && n <= |ops|
    ensures Bounded(Staged(m, g, ops[..n]))
  {
    if n > 0 {
      FitsStaysBounded(m, g, ops, n - 1);
      assert Placeable(m, g, ops, n - 1);
      StagedStep(m, g, ops, n - 1);
      BoundedAfterPut(Staged(m, g, ops[..n - 1]), Slot(g, ops[n - 1].item), ops[n - 1].entry);
    }
  }

  /** In each table the distinct keys of both images together number at most 1024. */
  ghost predicate RoomForBoth(active: Image, next: Image) {
    forall t: Table :: Demand(active, next, t) <= 1024
  }

  lemma SmallFits(k: Plane, ops: seq<Op>)
    requires PlaneInv(k) && k.control.Idle? && AllPuts(ops) && RoomForBoth(k.hist[Epoch(k)], ImageOf(ops))
    ensures Fits(k.entries, Next(k.gen), ops)
  {
    forall i: nat | i < |ops|
      ensures Placeable(k.entries, Next(k.gen), ops, i)
    {
      assert Demand(k.hist[Epoch(k)], ImageOf(ops), TableOf(ops[i].item)) <= CAPACITY;
      RoomWhenSmall(k, ops, i);
    }
  }

  lemma FittingIsSmall(k: Plane, ops: seq<Op>)
    requires PlaneInv(k) && k.control.Idle? && Fits(k.entries, Next(k.gen), ops)
    ensures RoomForBoth(k.hist[Epoch(k)], ImageOf(ops))
  {
    assert AllPuts(ops) by {
      forall i | 0 <= i < |ops| ensures ops[i].Put? {
        assert Placeable(k.entries, Next(k.gen), ops, i);
      }
    }
    FitsStaysBounded(k.entries, Next(k.gen), ops, |ops|);
    assert ops[..|ops|] == ops;
    IdleIsExact(k);
    forall t: Table ensures Demand(k.hist[Epoch(k)], ImageOf(ops), t) <= CAPACITY {
      ImageCount(k.entries, k.gen, k.hist[Epoch(k)], t);
      StagedCount(k.entries, Next(k.gen), ops, |ops|, t);
      assert |TableSlots(Staged(k.entries, Next(k.gen), ops), t)| <= CAPACITY;
    }
  }

  /** Capacity: at rest, a list of writes fits exactly when the published policy and the new one
      together have at most 1024 distinct keys in each table. */
  lemma FitsExactly(k: Plane, ops: seq<Op>)
    requires PlaneInv(k) && k.control.Idle? && AllPuts(ops)
    ensures Fits(k.entries, Next(k.gen), ops) <==> RoomForBoth(k.hist[Epoch(k)], ImageOf(ops))
  {
    if Fits(k.entries, Next(k.gen), ops) {
      FittingIsSmall(k, ops);
    }
    if RoomForBoth(k.hist[Epoch(k)], ImageOf(ops)) {
      SmallFits(k, ops);
    }
  }

  /** The three tables are the networks, the cgroups and the port rules. */
  lemma RoomSpelledOut(a: Image, b: Image)
    ensures RoomForBoth(a, b)
       <==> && |set it | it in a && it.BlockCidr?| + |set it | it in b && it.BlockCidr?| <= 1024
            && |set it | it in a && it.BlockCgroup?| + |set it | it in b && it.BlockCgroup?| <= 1024
            && |set it | it in a && it.PortRule?| + |set it | it in b && it.PortRule?| <= 1024
  {
    ItemsSpelledOut(a);
    ItemsSpelledOut(b);
    assert RoomForBoth(a, b)
      <==> Demand(a, b, CidrTable) <= 1024 && Demand(a, b, CgroupTable) <= 1024 && Demand(a, b, PortTable) <= 1024;
  }

  lemma ItemsSpelledOut(img: Image)
    ensures TableItems(img, CidrTable) == set it | it in img && it.BlockCidr?
    ensures TableItems(img, CgroupTable) == set it | it in img && it.BlockCgroup?
    ensures TableItems(img, PortTable) == set it | it in img && it.PortRule?
  {
  }

  ghost predicate HalfFull(img: Image) {
    forall t: Table :: |TableItems(img, t)| <= 512
  }

  lemma HalvesFit(k: Plane, ops: seq<Op>)
    requires PlaneInv(k) && k.control.Idle? && HalfFull(k.hist[Epoch(k)]) && AllPuts(ops) && HalfFull(ImageOf(ops))
    ensures Fits(k.entries, Next(k.gen), ops)
  {
    forall t: Table ensures Demand(k.hist[Epoch(k)], ImageOf(ops), t) <= CAPACITY {
      assert |TableItems(k.hist[Epoch(k)], t)| <= CAPACITY / 2;
      assert |TableItems(ImageOf(ops), t)| <= CAPACITY / 2;
    }
    FitsExactly(k, ops);
  }

  /** The plane has come to rest with exactly these policies published after `k`. */
  ghost predicate Replaced(k: Plane, policies: seq<seq<Op>>, k': Plane) {
    && PlaneInv(k') && k'.control.Idle? && HalfFull(k'.hist[Epoch(k')])
    && |k'.hist| == |k.hist| + |policies|
    && forall i | 0 <= i < |policies| :: k'.hist[|k.hist| + i] == ImageOf(policies[i])
  }

  lemma ReplaceOnce(k: Plane, done: seq<seq<Op>>, m: Plane, ops: seq<Op>) returns (es: seq<Event>)
    requires Replaced(k, done, m) && AllPuts(ops) && HalfFull(ImageOf(ops))
    ensures ControlOnly(es) && Replaced(k, done + [ops], PlaneRun(m, es))
  {
    HalvesFit(m, ops);
    es := ApplyRun(m, ops);
  }

  /** Policies of at most 512 distinct keys per table can replace one another forever. */
  lemma {:induction false} ReplaceForever(k: Plane, policies: seq<seq<Op>>) returns (es: seq<Event>)
    requires PlaneInv(k) && k.control.Idle? && HalfFull(k.hist[Epoch(k)])
    requires forall i | 0 <= i < |policies| :: AllPuts(policies[i]) && HalfFull(ImageOf(policies[i]))
    ensures ControlOnly(es) && Replaced(k, policies, PlaneRun(k, es))
  {
    if policies == [] {
      es := [];
    } else {
      var n := |policies| - 1;
      var first := ReplaceForever(k, policies[..n]);
      var last := ReplaceOnce(k, policies[..n], PlaneRun(k, first), policies[n]);
      assert policies[..n] + [policies[n]] == policies;
      FoldConcat(PlaneStep, k, first, last);
      es := first + last;
    }
  }

  // ---- The purge can overtake a packet ---------------------------------------------------

  lemma {:induction false} ControlKeepsFlights(s: System, es: seq<Event>)
    requires PlaneInv(s.plane) && ControlOnly(es)
    ensures Run(s, es).flights == s.flights
  {
    if es != [] {
      ControlKeepsFlights(s, es[..|es| - 1]);
    }
  }

  lemma EmptyImagePasses(p: Packet)
    ensures Decide(map[], p) == Pass && PortDecision(map[], p) == Pass
    ensures Longest(map[], p.src).None? && !CgroupHit(map[], p)
  {
  }

  lemma LooksInEmptyGeneration(s: System) returns (looks: seq<Event>)
    requires PlaneInv(s.plane) && |s.flights| == 1 && s.flights[0].at.AtCgroup?
    requires NoneOf(s.plane.entries, s.flights[0].gen)
    requires !s.flights[0].stale && !Reused(s.plane, s.flights[0].epoch)
    ensures forall i | 0 <= i < |looks| :: looks[i].Look?
    ensures var s' := Run(s, looks);
            |s'.flights| == 1 && s'.flights[0].at == Done(Pass) && !s'.flights[0].stale
  {
    EmptyImagePasses(s.flights[0].packet);
    assert GenView(s.plane.entries, s.flights[0].gen) == map[];
    var s1, s2 := Step(s, Look(0)), Step(Step(s, Look(0)), Look(0));
    RunOne(s, Look(0));
    RunOne(s1, Look(0));
    RunOne(s2, Look(0));
    RunConcat(s, [Look(0)], [Look(0)]);
    RunConcat(s, [Look(0)] + [Look(0)], [Look(0)]);
    looks := [Look(0)] + [Look(0)] + [Look(0)];
  }

  lemma RunOne(s: System, e: Event)
    requires PlaneInv(s.plane)
    ensures Run(s, [e]) == Step(s, e)
  {
    assert [e][..0] == [];
    assert Run(s, [e][..0]) == s;
  }

  /** Whatever the active policy and its successor say about a packet, one interleaving lets it pass:
      it reads the generation, the successor is published and the old generation purged, and its
      three lookups find nothing. */
  lemma PurgeOvertakesPacket(k: Plane, p: Packet, ops: seq<Op>) returns (es: seq<Event>)
    requires PlaneInv(k) && k.control.Idle? && Fits(k.entries, Next(k.gen), ops)
    ensures var s := Run(System(k, []), [Arrive(p)] + es);
            && |s.flights| == 1 && s.flights[0].at == Done(Pass) && !s.flights[0].stale
            && s.plane.hist == k.hist + [ImageOf(ops)]
  {
    var apply := ApplyRun(k, ops);
    var s1 := Step(System(k, []), Arrive(p));
    GenerationEmptied(s1, apply);
    var looks := LooksInEmptyGeneration(Run(s1, apply));
    es := apply + looks;
    RunOne(System(k, []), Arrive(p));
    RunConcat(System(k, []), [Arrive(p)], es);
    RunConcat(s1, apply, looks);
    PlaneLooks(PlaneRun(k, apply), looks);
  }

  /** Once a successor is published and the swapper at rest, a waiting packet's generation is empty. */
  lemma GenerationEmptied(s: System, es: seq<Event>)
    requires PlaneInv(s.plane) && ControlOnly(es)
    requires |s.flights| == 1 && s.flights[0].gen == s.plane.gen && s.flights[0].epoch == Epoch(s.plane)
    requires var k' := PlaneRun(s.plane, es);
             k'.control.Idle? && |k'.hist| == |s.plane.hist| + 1 && k'.gen == Next(s.plane.gen)
    ensures var s' := Run(s, es);
            && s'.flights == s.flights && NoneOf(s'.plane.entries, s.flights[0].gen)
            && !Reused(s'.plane, s.flights[0].epoch)
  {
    ControlKeepsFlights(s, es);
    IdleIsExact(Run(s, es).plane);
    NeighboursDiffer(s.plane.gen);
  }

  lemma {:induction false} PlaneLooks(k: Plane, es: seq<Event>)
    requires forall i | 0 <= i < |es| :: es[i].Look?
    ensures PlaneRun(k, es) == k
  {
    if es != [] {
      PlaneLooks(k, es[..|es| - 1]);
    }
  }

  /** The packet that reads the cell at `k` gets the active policy's verdict in this continuation. */
  ghost predicate VerdictKept(k: Plane, p: Packet, es: seq<Event>)
    requires PlaneInv(k)
  {
    var s := Run(System(k, []), [Arrive(p)] + es);
    |s.flights| >= 1 && !s.flights[0].stale && s.flights[0].at.Done? ==>
      (s.flights[0].at.decision.Drop? <==> Decide(k.hist[Epoch(k)], p).Drop?)
  }

  lemma PassingPacketPasses(k: Plane, p: Packet, es: seq<Event>)
    requires PlaneInv(k) && !Decide(k.hist[Epoch(k)], p).Drop?
    ensures VerdictKept(k, p, es)
  {
    var s0 := System(k, []);
    var s1 := Step(s0, Arrive(p));
    RunOne(s0, Arrive(p));
    RunConcat(s0, [Arrive(p)], es);
    FlightIdentity(s1, es, 0);
    RunKeeps(s0, [Arrive(p)] + es);
  }

  /** Exactly when the verdict is safe from concurrent applies: every interleaving keeps the active
      policy's verdict if and only if that verdict is to pass. */
  lemma VerdictSafeIffPass(k: Plane, p: Packet)
    requires PlaneInv(k) && k.control.Idle?
    ensures (forall es :: VerdictKept(k, p, es)) <==> !Decide(k.hist[Epoch(k)], p).Drop?
  {
    if Decide(k.hist[Epoch(k)], p).Drop? {
      var es := PurgeOvertakesPacket(k, p, []);
      assert !VerdictKept(k, p, es);
    } else {
      forall es ensures VerdictKept(k, p, es) {
        PassingPacketPasses(k, p, es);
      }
    }
  }

  // ---- Generation numbers repeat ---------------------------------------------------------

  lemma {:induction false} ManyApplies(k: Plane, n: nat) returns (es: seq<Event>)
    requires PlaneInv(k) && k.control.Idle? && k.hist[Epoch(k)] == map[]
    ensures ControlOnly(es)
    ensures var k' := PlaneRun(k, es);
            && PlaneInv(k') && k'.control.Idle? && k'.hist[Epoch(k')] == map[]
            && |k'.hist| == |k.hist| + n && k'.begun == k.begun + n
  {
    if n == 0 {
      es := [];
    } else {
      var first := ManyApplies(k, n - 1);
      var last := ApplyRun(PlaneRun(k, first), []);
      FoldConcat(PlaneStep, k, first, last);
      es := first + last;
    }
  }

  /** Staging one write over an empty policy. */
  lemma StageOneOverEmpty(k: Plane, op: Op) returns (es: seq<Event>)
    requires PlaneInv(k) && k.control.Idle? && k.hist[Epoch(k)] == map[] && op.Put?
    ensures ControlOnly(es)
    ensures var k' := PlaneRun(k, es); Slot(Next(k.gen), op.item) in k'.entries && k'.begun == k.begun + 1
  {
    var ops := [op];
    assert ops[..0] == [] && Staged(k.entries, Next(k.gen), ops[..0]) == k.entries;
    IdleIsExact(k);
    assert TableSlots(k.entries, TableOf(op.item)) == {};
    es := StagingRun(k, ops);
  }

  lemma WrapAround(k: Plane)
    requires PlaneInv(k) && |k.hist| == 0x1_0000_0000
    ensures Next(k.gen) == 0
  {
  }

  /** The bound of 2^32 applies is tight: with exactly that many begun, a packet that read the empty
      initial policy can be dropped by the one being staged under the same number. */
  lemma GenerationReuseDrops(p: Packet) returns (es: seq<Event>)
    requires p.cgroup > 0
    ensures var s := Run(Boot(), [Arrive(p)] + es);
            && |s.flights| == 1 && s.flights[0].epoch == 0 && s.plane.begun == 0x1_0000_0000
            && |s.plane.hist| >= 1 && !Decide(s.plane.hist[0], p).Drop?
            && s.flights[0].at.Done? && s.flights[0].at.decision.Drop?
  {
    var s1 := Step(Boot(), Arrive(p));
    RunOne(Boot(), Arrive(p));
    var quiet := ReuseGenerationZero(BlockCgroup(p.cgroup));
    es := quiet + [Look(0)];
    ControlKeepsFlights(s1, quiet);
    LookHits(Run(s1, quiet), p);
    RunConcat(s1, quiet, [Look(0)]);
    RunConcat(Boot(), [Arrive(p)], es);
    FlightIdentity(s1, es, 0);
    EmptyImagePasses(p);
  }

  /** 2^32 applies put an item under generation 0 again. */
  lemma ReuseGenerationZero(it: Item) returns (es: seq<Event>)
    ensures ControlOnly(es)
    ensures var k := PlaneRun(START, es); Slot(0, it) in k.entries && k.begun == 0x1_0000_0000
  {
    StartInv();
    var many := ManyApplies(START, 0xFFFF_FFFF);
    var k := PlaneRun(START, many);
    WrapAround(k);
    var stage := StageOneOverEmpty(k, Put(it, Block(1)));
    es := many + stage;
    FoldConcat(PlaneStep, START, many, stage);
  }

  lemma LookHits(s: System, p: Packet)
    requires PlaneInv(s.plane) && |s.flights| == 1 && s.flights[0].at.AtCgroup? && s.flights[0].packet == p
    requires p.cgroup > 0 && Slot(s.flights[0].gen, BlockCgroup(p.cgroup)) in s.plane.entries
    ensures var s' := Run(s, [Look(0)]);
            && |s'.flights| == 1 && s'.flights[0].at.Done? && s'.flights[0].at.decision.Drop?
            && s'.plane == s.plane
  {
    RunOne(s, Look(0));
  }
}
