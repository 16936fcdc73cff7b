/** Traffic during a control server's life: the log of its applies as a protocol run, and every
    interleaving of packets with that run. */
module Served {
  import opened Folds
  import opened Policies
  import opened RuleMaps
  import opened SwapProtocol
  import opened Flights
  import opened SwapTrace
  import opened Verdicts
  import opened Reloads

  /** The staging calls of some policies, in order. */
  function Asked(w: World, policies: seq<Policy>): seq<seq<Op>> {
    seq(|policies|, i requires 0 <= i < |policies| => PolicyOps(w, CompiledForm(policies[i])))
  }

  ghost predicate AllAccepted(w: World, policies: seq<Policy>) {
    forall i | 0 <= i < |policies| :: Accepted(w, policies[i])
  }

  /** The log is that of a protocol run from empty maps to `k` which starts exactly these applies. */
  ghost predicate Logged(w: World, policies: seq<Policy>, k: Plane, log: seq<Write>) {
    AllAccepted(w, policies) && Starts(log) == Asked(w, policies) && Reaches(START, k, log)
  }

  lemma LoggedStart(w: World)
    ensures Logged(w, [], START, [])
  {
    Stay(START);
  }

  lemma AskedMore(w: World, policies: seq<Policy>, p: Policy)
    ensures Asked(w, policies + [p]) == Asked(w, policies) + [PolicyOps(w, CompiledForm(p))]
  {
  }

  lemma LoggedMore(w: World, policies: seq<Policy>, k: Plane, log: seq<Write>, p: Policy, k': Plane, issued: seq<Write>)
    requires Logged(w, policies, k, log) && Accepted(w, p)
    requires Reaches(k, k', issued) && Starts(issued) == [PolicyOps(w, CompiledForm(p))]
    ensures Logged(w, policies + [p], k', log + issued)
  {
    AskedMore(w, policies, p);
    StartsConcat(log, issued);
    Then(START, k, log, k', issued);
  }

  // ---- Begun applies ---------------------------------------------------------------------

  function Begins(es: seq<Event>): seq<seq<Op>> {
    if es == [] then []
    else Begins(es[..|es| - 1]) + if es[|es| - 1].Begin? then [es[|es| - 1].ops] else []
  }

  lemma WriteStarts(k: Plane, e: Event)
    ensures Starts(WriteOf(k, e)) == if e.Begin? then [e.ops] else []
  {
    assert |WriteOf(k, e)| == 1 ==> WriteOf(k, e)[..0] == [];
  }

  /** The starts in a run's trace are the applies begun in it. */
  lemma {:induction false} StartsAreBegins(k: Plane, es: seq<Event>)
    ensures Starts(Issued(k, es)) == Begins(es)
  {
    if es != [] {
      var front, e := es[..|es| - 1], es[|es| - 1];
      StartsAreBegins(k, front);
      assert front + [e] == es;
      EmittedMore(PlaneStep, WriteOf, k, front, e);
      WriteStarts(PlaneRun(k, front), e);
      StartsConcat(Issued(k, front), WriteOf(PlaneRun(k, front), e));
    }
  }

  lemma StepBegins(k: Plane, e: Event)
    ensures PlaneStep(k, e).begun <= k.begun + if e.Begin? then 1 else 0
  {
  }

  lemma {:induction false} BegunAtMost(k: Plane, es: seq<Event>)
    ensures PlaneRun(k, es).begun <= k.begun + |Begins(es)|
  {
    if es != [] {
      BegunAtMost(k, es[..|es| - 1]);
      StepBegins(PlaneRun(k, es[..|es| - 1]), es[|es| - 1]);
    }
  }

  lemma {:induction false} BeginListed(es: seq<Event>, i: nat)
    requires i < |es| && es[i].Begin?
    ensures es[i].ops in Begins(es)
  {
    if i < |es| - 1 {
      BeginListed(es[..|es| - 1], i);
    }
  }

  /** A run that begins only these policies applies only these policies. */
  lemma BeginsApply(w: World, policies: seq<Policy>, es: seq<Event>)
    requires AllAccepted(w, policies) && Begins(es) == Asked(w, policies)
    ensures AppliesOnly(w, policies, es)
  {
    forall i | 0 <= i < |es| && es[i].Begin?
      ensures Publishable(w, policies, ImageOf(es[i].ops))
    {
      BeginListed(es, i);
      var j :| 0 <= j < |Asked(w, policies)| && Asked(w, policies)[j] == es[i].ops;
      assert Publishes(w, policies[j], ImageOf(es[i].ops));
    }
  }

  // ---- Packets in between ----------------------------------------------------------------

  /** The control events of a run. */
  function Controls(es: seq<Event>): seq<Event> {
    if es == [] then []
    else Controls(es[..|es| - 1]) + if es[|es| - 1].Arrive? || es[|es| - 1].Look? then [] else [es[|es| - 1]]
  }

  /** Packets in between change neither the maps nor what is begun. */
  lemma {:induction false} PacketsInBetween(k: Plane, es: seq<Event>)
    ensures PlaneRun(k, es) == PlaneRun(k, Controls(es)) && Begins(es) == Begins(Controls(es))
  {
    if es != [] {
      var front, e := es[..|es| - 1], es[|es| - 1];
      PacketsInBetween(k, front);
      if e.Arrive? || e.Look? {
        assert Controls(es) == Controls(front);
      } else {
        FoldMore(PlaneStep, k, Controls(front), e);
        assert (Controls(front) + [e])[..|Controls(front)|] == Controls(front);
      }
    }
  }

  ghost predicate DroppedIn(es: seq<Event>, i: nat) {
    var s := Run(Boot(), es);
    i < |s.flights| && s.flights[i].at.Done? && s.flights[i].at.decision.Drop?
  }

  /** The packet's drop is due to the rules of one of the policies, and names one of them. */
  ghost predicate DueTo(w: World, pol: Policy, f: Flight, r: nat) {
    && Accepted(w, pol) && f.at.Done? && f.at.decision.Drop? && RulesDrop(w, pol.rules, f.packet)
    && Names(w, pol.rules, f.packet, f.at.decision.reason, r) && IdNames(pol.rules, f.at.decision.ruleId, r)
  }

  ghost predicate DueToOneOf(w: World, policies: seq<Policy>, f: Flight) {
    exists j, r: nat :: 0 <= j < |policies| && DueTo(w, policies[j], f, r)
  }

  ghost predicate DropsDue(w: World, policies: seq<Policy>, es: seq<Event>) {
    forall i: nat | DroppedIn(es, i) :: DueToOneOf(w, policies, Run(Boot(), es).flights[i])
  }

  lemma InterleavingSafe(w: World, policies: seq<Policy>, es: seq<Event>)
    requires AllAccepted(w, policies) && |policies| < 0x1_0000_0000
    requires Begins(es) == Asked(w, policies)
    ensures DropsDue(w, policies, es)
  {
    BeginsApply(w, policies, es);
    BegunAtMost(START, es);
    forall i: nat | DroppedIn(es, i)
      ensures DueToOneOf(w, policies, Run(Boot(), es).flights[i])
    {
      var j, r := DroppedOnlyByRules(w, policies, es, i);
      assert DueTo(w, policies[j], Run(Boot(), es).flights[i], r);
    }
  }

  /** Traffic under a served log: the log is the trace of a run of control events, and however packets
      are interleaved with those, every drop is due to the source rules of a policy that was asked for. */
  lemma ServedTraffic(w: World, policies: seq<Policy>, k: Plane, log: seq<Write>) returns (es: seq<Event>)
    requires Logged(w, policies, k, log) && |policies| < 0x1_0000_0000
    ensures Does(START, es, k, log)
    ensures forall es' | Controls(es') == es :: PlaneRun(START, es') == k && DropsDue(w, policies, es')
  {
    es :| Does(START, es, k, log);
    StartsAreBegins(START, es);
    forall es' | Controls(es') == es
      ensures PlaneRun(START, es') == k && DropsDue(w, policies, es')
    {
      PacketsInBetween(START, es');
      InterleavingSafe(w, policies, es');
    }
  }
}
