/** Packets in flight while policies are swapped (bpf/xdp_firewall.c:82-248). */
module Flights {
  import opened Words
  import opened RuleMaps
  import opened Xdp
  import opened SwapProtocol

  /** The next lookup a packet will make, or its decision. */
  datatype Progress = AtCgroup | AtCidr | AtPort | Done(decision: Decision)

  /** A packet that has read the generation cell. `epoch` is the number of successes at that moment.
      `late` records a lookup made after the purge of its generation began, `stale` a lookup made
      after 2^32 later applies could reuse its generation number. Neither is read by any step. */
  datatype Flight = Flight(
    packet: Packet, gen: U32, at: Progress, epoch: nat, late: bool, stale: bool)

  datatype System = System(plane: Plane, flights: seq<Flight>)

  predicate PurgeBegun(k: Plane, epoch: nat) {
    !(epoch == Epoch(k) || (epoch == Epoch(k) - 1 && k.control.Swapped?))
  }

  predicate Reused(k: Plane, epoch: nat) {
    Horizon(k) - epoch >= 0x1_0000_0000
  }

  /** A packet without a cgroup skips the first lookup, one without a port the third. */
  predicate Reads(f: Flight) {
    match f.at
    case AtCgroup => f.packet.cgroup > 0
    case AtCidr => true
    case AtPort => DstPort(f.packet) > 0
    case Done(_) => false
  }

  ghost function Advance(view: Image, p: Packet, at: Progress): Progress {
    match at
    case AtCgroup =>
      if CgroupHit(view, p) then Done(Drop(REASON_IDENTITY_DENY, view[BlockCgroup(p.cgroup)].ruleId)) else AtCidr
    case AtCidr =>
      (match Longest(view, p.src)
       case Some(c) => Done(Drop(REASON_CIDR_BLOCKED, view[BlockCidr(c)].ruleId))
       case None => AtPort)
    case AtPort => Done(PortDecision(view, p))
    case Done(_) => at
  }

  ghost function LookOnce(k: Plane, f: Flight): Flight {
    f.(at := Advance(GenView(k.entries, f.gen), f.packet, f.at),
       late := f.late || (Reads(f) && PurgeBegun(k, f.epoch)),
       stale := f.stale || (Reads(f) && Reused(k, f.epoch)))
  }

  ghost function Step(s: System, e: Event): System
    requires PlaneInv(s.plane)
  {
    System(PlaneStep(s.plane, e),
           match e
           case Arrive(p) => s.flights + [Flight(p, s.plane.gen, AtCgroup, Epoch(s.plane), false, false)]
           case Look(i) => if i < |s.flights| then s.flights[i := LookOnce(s.plane, s.flights[i])] else s.flights
           case _ => s.flights)
  }

  ghost function Run(s: System, es: seq<Event>): (s': System)
    requires PlaneInv(s.plane)
    ensures s'.plane == PlaneRun(s.plane, es) && PlaneInv(s'.plane)
  {
    if es == [] then s
    else
      RunInv(s.plane, es);
      Step(Run(s, es[..|es| - 1]), es[|es| - 1])
  }

  // ---- What a packet's generation holds --------------------------------------------------

  lemma FarApart(e: nat, d: nat)
    requires 0 < d < 0x1_0000_0000
    ensures GenOf(e) != GenOf(e + d)
  {
  }

  /** Until its number is reused, the generation of epoch `e` holds part of the image published as
      epoch `e`, and all of it until its purge begins. */
  lemma SlotHolds(k: Plane, e: nat)
    requires PlaneInv(k) && e <= Epoch(k) && !Reused(k, e)
    ensures Within(GenView(k.entries, GenOf(e)), k.hist[e])
    ensures !PurgeBegun(k, e) ==> GenView(k.entries, GenOf(e)) == k.hist[e]
  {
    var d := Epoch(k) - e;
    if d == 1 {
      EpochAdvances(e);
      NeighboursDiffer(GenOf(e));
    } else if d > 1 {
      FarApart(e, d);
      EpochAdvances(Epoch(k) - 1);
      NeighboursDiffer(GenOf(Epoch(k) - 1));
      FarApart(e, d - 1);
      if d + 1 < 0x1_0000_0000 {
        FarApart(e, d + 1);
        EpochAdvances(Epoch(k));
      }
      assert NoneOf(k.entries, GenOf(e));
    }
  }

  // ---- The invariant of a flight ---------------------------------------------------------

  ghost predicate FlightInv(k: Plane, f: Flight)
    requires |k.hist| >= 1
  {
    && f.epoch <= Epoch(k)
    && f.gen == GenOf(f.epoch)
    && (f.stale ==> k.begun >= 0x1_0000_0000)
    && (!f.stale ==> DropJustified(k.hist[f.epoch], f))
    && (!f.stale && !f.late ==> OnTrack(k.hist[f.epoch], f))
  }

  ghost predicate DropJustified(img: Image, f: Flight) {
    f.at.Done? && f.at.decision.Drop? ==> Explains(img, f.packet, f.at.decision)
  }

  /** The lookups made so far answered as the whole image would. */
  ghost predicate OnTrack(img: Image, f: Flight) {
    match f.at
    case AtCgroup => true
    case AtCidr => !CgroupHit(img, f.packet)
    case AtPort => !CgroupHit(img, f.packet) && Longest(img, f.packet.src).None?
    case Done(d) => d == Decide(img, f.packet)
  }

  ghost predicate SystemInv(s: System) {
    PlaneInv(s.plane) && forall i | 0 <= i < |s.flights| :: FlightInv(s.plane, s.flights[i])
  }

  lemma LookInv(k: Plane, f: Flight)
    requires PlaneInv(k) && FlightInv(k, f)
    ensures FlightInv(k, LookOnce(k, f))
  {
    var view, img := GenView(k.entries, f.gen), k.hist[f.epoch];
    if !Reads(f) {
    } else if !Reused(k, f.epoch) {
      SlotHolds(k, f.epoch);
      PartExplained(view, img, f.packet);
    }
  }

  /** Published images are never rewritten. */
  lemma HistoryGrows(k: Plane, e: Event)
    requires PlaneInv(k)
    ensures k.hist <= PlaneStep(k, e).hist && k.begun <= PlaneStep(k, e).begun
  {
  }

  lemma PlaneStepKeepsFlight(k: Plane, e: Event, f: Flight)
    requires PlaneInv(k) && FlightInv(k, f)
    ensures |PlaneStep(k, e).hist| >= 1 && FlightInv(PlaneStep(k, e), f)
  {
    HistoryGrows(k, e);
    assert PlaneStep(k, e).hist[f.epoch] == k.hist[f.epoch];
  }

  lemma StepKeeps(s: System, e: Event)
    requires SystemInv(s)
    ensures SystemInv(Step(s, e))
  {
    StepInv(s.plane, e);
    var s' := Step(s, e);
    forall i | 0 <= i < |s'.flights|
      ensures FlightInv(s'.plane, s'.flights[i])
    {
      if i < |s.flights| {
        LookInv(s.plane, s.flights[i]);
        PlaneStepKeepsFlight(s.plane, e, s.flights[i]);
      }
    }
  }

  lemma {:induction false} RunKeeps(s: System, es: seq<Event>)
    requires SystemInv(s)
    ensures SystemInv(Run(s, es))
  {
    if es != [] {
      RunKeeps(s, es[..|es| - 1]);
      StepKeeps(Run(s, es[..|es| - 1]), es[|es| - 1]);
    }
  }

  // ---- Theorems over every interleaving --------------------------------------------------

  /** The system before any policy: empty maps, generation 0, no packets. */
  ghost function Boot(): (s: System)
    ensures SystemInv(s)
  {
    StartInv();
    System(START, [])
  }

  /** Zero-drop reload. In every interleaving with fewer than 2^32 applies, a packet is dropped only
      if the complete policy it read drops it, wherever the purge of that policy stands; and the drop
      names an entry of that policy that applies to the packet. */
  lemma ZeroDropReload(es: seq<Event>, i: nat)
    requires var s := Run(Boot(), es);
             i < |s.flights| && s.flights[i].at.Done? && s.flights[i].at.decision.Drop?
             && s.plane.begun < 0x1_0000_0000
    ensures var s := Run(Boot(), es);
            s.flights[i].epoch < |s.plane.hist|
            && Decide(s.plane.hist[s.flights[i].epoch], s.flights[i].packet).Drop?
            && Explains(s.plane.hist[s.flights[i].epoch], s.flights[i].packet, s.flights[i].at.decision)
  {
    RunKeeps(Boot(), es);
    var s := Run(Boot(), es);
    ExplainedIsDropped(s.plane.hist[s.flights[i].epoch], s.flights[i].packet, s.flights[i].at.decision);
  }

  /** Exactness. In every interleaving, a packet whose lookups all came before the purge of its
      generation gets the full decision, rule and reason included, of the policy it read. */
  lemma ExactBeforePurge(es: seq<Event>, i: nat)
    requires var s := Run(Boot(), es);
             i < |s.flights| && s.flights[i].at.Done? && !s.flights[i].late
             && s.plane.begun < 0x1_0000_0000
    ensures var s := Run(Boot(), es);
            s.flights[i].epoch < |s.plane.hist|
            && s.flights[i].at.decision == Decide(s.plane.hist[s.flights[i].epoch], s.flights[i].packet)
  {
    RunKeeps(Boot(), es);
  }

  lemma {:induction false} RunConcat(s: System, a: seq<Event>, b: seq<Event>)
    requires PlaneInv(s.plane)
    ensures Run(s, a + b) == Run(Run(s, a), b)
  {
    if b == [] {
      assert a + b == a;
    } else {
      var n := |b| - 1;
      assert (a + b[..n]) + [b[n]] == a + b && b[..n] + [b[n]] == b;
      RunConcat(s, a, b[..n]);
      RunMore(s, a + b[..n], b[n]);
      RunMore(Run(s, a), b[..n], b[n]);
    }
  }

  lemma RunMore(s: System, es: seq<Event>, e: Event)
    requires PlaneInv(s.plane)
    ensures Run(s, es + [e]) == Step(Run(s, es), e)
  {
    assert (es + [e])[..|es|] == es;
  }

  ghost predicate SameFlight(s: System, s': System, i: nat) {
    && i < |s.flights| && i < |s'.flights|
    && s'.flights[i].packet == s.flights[i].packet
    && s'.flights[i].epoch == s.flights[i].epoch
    && s.plane.hist <= s'.plane.hist
  }

  lemma StepIdentity(s: System, e: Event, i: nat)
    requires PlaneInv(s.plane) && i < |s.flights|
    ensures SameFlight(s, Step(s, e), i)
  {
    HistoryGrows(s.plane, e);
  }

  lemma {:induction false} FlightIdentity(s: System, es: seq<Event>, i: nat)
    requires PlaneInv(s.plane) && i < |s.flights|
    ensures SameFlight(s, Run(s, es), i)
  {
    if es != [] {
      FlightIdentity(s, es[..|es| - 1], i);
      StepIdentity(Run(s, es[..|es| - 1]), es[|es| - 1], i);
    }
  }

  /** The policy a packet is judged by is the one the maps held in full when it read the cell. */
  lemma LinearisedAtRead(before: seq<Event>, p: Packet, after: seq<Event>)
    ensures var s0 := Run(Boot(), before);
            var s := Run(Boot(), before + [Arrive(p)] + after);
            var i := |s0.flights|;
            && i < |s.flights| && s.flights[i].packet == p
            && s.flights[i].epoch < |s.plane.hist|
            && s.plane.hist[s.flights[i].epoch] == GenView(s0.plane.entries, s0.plane.gen)
  {
    var s0 := Run(Boot(), before);
    var s1 := Run(Boot(), before + [Arrive(p)]);
    assert (before + [Arrive(p)])[..|before|] == before;
    assert s1 == Step(s0, Arrive(p));
    RunConcat(Boot(), before + [Arrive(p)], after);
    FlightIdentity(s1, after, |s0.flights|);
  }

  // ---- Before the purge, by events -------------------------------------------------------

  ghost predicate NoPurgeIn(es: seq<Event>) {
    forall i | 0 <= i < |es| :: !es[i].StartPurge?
  }

  /** Since the packet read the cell, at most one flip, with the purge still ahead. */
  ghost predicate Unpurged(k: Plane, f: Flight) {
    !PurgeBegun(k, f.epoch) && !f.late
  }

  lemma StepUnpurged(s: System, e: Event, i: nat)
    requires PlaneInv(s.plane) && i < |s.flights| && Unpurged(s.plane, s.flights[i]) && !e.StartPurge?
    ensures i < |Step(s, e).flights| && Unpurged(Step(s, e).plane, Step(s, e).flights[i])
  {
  }

  lemma {:induction false} RunUnpurged(s: System, es: seq<Event>, i: nat)
    requires PlaneInv(s.plane) && i < |s.flights| && Unpurged(s.plane, s.flights[i]) && NoPurgeIn(es)
    ensures i < |Run(s, es).flights| && Unpurged(Run(s, es).plane, Run(s, es).flights[i])
  {
    if es != [] {
      RunUnpurged(s, es[..|es| - 1], i);
      StepUnpurged(Run(s, es[..|es| - 1]), es[|es| - 1], i);
    }
  }

  /** Exactness by events alone: if no purge starts between the moment a packet reads the cell and its last
      lookup, its decision is that of what the maps held in full at that moment, whatever else happens. */
  lemma ExactWithoutPurge(before: seq<Event>, p: Packet, after: seq<Event>)
    requires NoPurgeIn(after) && Run(Boot(), before + [Arrive(p)] + after).plane.begun < 0x1_0000_0000
    ensures var s0, s := Run(Boot(), before), Run(Boot(), before + [Arrive(p)] + after);
            var i := |s0.flights|;
            && i < |s.flights| && s.flights[i].packet == p
            && (s.flights[i].at.Done? ==>
                  s.flights[i].at.decision == Decide(GenView(s0.plane.entries, s0.plane.gen), p))
  {
    var s0 := Run(Boot(), before);
    var s1 := Step(s0, Arrive(p));
    RunMore(Boot(), before, Arrive(p));
    RunConcat(Boot(), before + [Arrive(p)], after);
    RunUnpurged(s1, after, |s0.flights|);
    LinearisedAtRead(before, p, after);
    if Run(Boot(), before + [Arrive(p)] + after).flights[|s0.flights|].at.Done? {
      ExactBeforePurge(before + [Arrive(p)] + after, |s0.flights|);
    }
  }
}
