/** From source rules to packets in flight: what concurrent reloads of accepted policies may do to a
    packet, stated over the rules of the policies alone. */
module Reloads {
  import opened Policies
  import opened RuleMaps
  import opened Xdp
  import opened SwapProtocol
  import opened Flights
  import opened SwapLimits
  import opened Meaning
  import opened Verdicts

  /** These images only: the empty one, or one an accepted policy of the list publishes. */
  ghost predicate Publishable(w: World, policies: seq<Policy>, img: Image) {
    img == map[] || exists j :: 0 <= j < |policies| && Publishes(w, policies[j], img)
  }

  ghost predicate Publishes(w: World, pol: Policy, img: Image) {
    Accepted(w, pol) && img == PolicyImage(w, pol)
  }

  /** Every apply begun in the run stages an accepted policy of the list, or nothing. */
  ghost predicate AppliesOnly(w: World, policies: seq<Policy>, es: seq<Event>) {
    forall i | 0 <= i < |es| && es[i].Begin? :: Publishable(w, policies, ImageOf(es[i].ops))
  }

  ghost predicate AllPublishable(w: World, policies: seq<Policy>, k: Plane) {
    && (forall e | 0 <= e < |k.hist| :: Publishable(w, policies, k.hist[e]))
    && (k.control.Clearing? || k.control.Staging? ==> Publishable(w, policies, ImageOf(k.control.ops)))
  }

  lemma StepPublishable(w: World, policies: seq<Policy>, k: Plane, e: Event)
    requires AllPublishable(w, policies, k) && (e.Begin? ==> Publishable(w, policies, ImageOf(e.ops)))
    ensures AllPublishable(w, policies, PlaneStep(k, e))
  {
  }

  /** Whatever is ever published was begun. */
  lemma {:induction false} RunPublishable(w: World, policies: seq<Policy>, es: seq<Event>)
    requires AppliesOnly(w, policies, es)
    ensures AllPublishable(w, policies, PlaneRun(START, es))
  {
    if es != [] {
      var n := |es| - 1;
      RunPublishable(w, policies, es[..n]);
      StepPublishable(w, policies, PlaneRun(START, es[..n]), es[n]);
    }
  }

  /** End to end: in every interleaving of packets with fewer than 2^32 reloads of accepted policies,
      failed ones included, a packet is dropped only if the source rules of the policy it read drop it.
      So traffic that every policy passes survives any sequence of reloads. And the drop names one rule
      of that policy, which lists the packet's cgroup, a network containing its source, or its port with
      deny, even when the purge has taken part of the policy away. */
  lemma DroppedOnlyByRules(w: World, policies: seq<Policy>, es: seq<Event>, i: nat) returns (j: nat, r: nat)
    requires AppliesOnly(w, policies, es)
    requires var s := Run(Boot(), es);
             i < |s.flights| && s.flights[i].at.Done? && s.flights[i].at.decision.Drop?
             && s.plane.begun < 0x1_0000_0000
    ensures var s := Run(Boot(), es);
            && j < |policies| && RulesDrop(w, policies[j].rules, s.flights[i].packet)
            && s.flights[i].epoch < |s.plane.hist|
            && Publishes(w, policies[j], s.plane.hist[s.flights[i].epoch])
            && Names(w, policies[j].rules, s.flights[i].packet, s.flights[i].at.decision.reason, r)
            && IdNames(policies[j].rules, s.flights[i].at.decision.ruleId, r)
  {
    var s := Run(Boot(), es);
    var f := s.flights[i];
    ZeroDropReload(es, i);
    RunPublishable(w, policies, es);
    EmptyImagePasses(f.packet);
    j :| 0 <= j < |policies| && Publishes(w, policies[j], s.plane.hist[f.epoch]);
    MeaningPreserved(w, policies[j], f.packet);
    r := ExplainedNamesRule(w, policies[j], f.packet, f.at.decision);
  }

  /** And exactly if they do, when its lookups came before the purge of that policy; a packet that read
      the cell before any reload passes. */
  lemma JudgedByRules(w: World, policies: seq<Policy>, es: seq<Event>, i: nat)
    requires AppliesOnly(w, policies, es)
    requires var s := Run(Boot(), es);
             i < |s.flights| && s.flights[i].at.Done? && !s.flights[i].late && s.plane.begun < 0x1_0000_0000
    ensures var s := Run(Boot(), es);
            && s.flights[i].epoch < |s.plane.hist|
            && JudgedAs(w, policies, s.plane.hist[s.flights[i].epoch], s.flights[i])
  {
    var s := Run(Boot(), es);
    var f := s.flights[i];
    ExactBeforePurge(es, i);
    RunPublishable(w, policies, es);
    var img := s.plane.hist[f.epoch];
    if img == map[] {
      EmptyImagePasses(f.packet);
    } else {
      var j :| 0 <= j < |policies| && Publishes(w, policies[j], img);
      MeaningPreserved(w, policies[j], f.packet);
      assert JudgedBy(w, policies[j], img, f);
    }
  }

  ghost predicate JudgedAs(w: World, policies: seq<Policy>, img: Image, f: Flight) {
    || (img == map[] && f.at == Done(Pass))
    || exists j :: 0 <= j < |policies| && JudgedBy(w, policies[j], img, f)
  }

  ghost predicate JudgedBy(w: World, pol: Policy, img: Image, f: Flight) {
    && Publishes(w, pol, img)
    && f.at.Done? && (f.at.decision.Drop? <==> RulesDrop(w, pol.rules, f.packet))
  }
}
