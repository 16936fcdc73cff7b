/** What the audit events of the two packet programs say (bpf/xdp_firewall.c:123-237,
    bpf/tc_firewall.c:129-144). */
module Events {
  import opened Words
  import opened Lpm
  import opened Policies
  import opened Xdp
  import opened Meaning
  import opened Verdicts
  import opened Conntrack
  import opened Programs

  /** The event is about this packet: its addresses in network byte order, its ports if it is TCP or UDP
      with a whole header, its protocol and cgroup. */
  ghost predicate About(e: AuditEvent, p: Packet, time: U64) {
    && e.time == time && e.protocol == p.protocol && e.cgroup == p.cgroup
    && LeBytes(e.src) == IpBytes(p.src) && LeBytes(e.dst) == IpBytes(p.dst)
    && (e.srcPort, e.dstPort) == if (p.protocol == 6 || p.protocol == 17) && p.l4.Some? then p.l4.value else (0, 0)
  }

  lemma EventIsAbout(p: Packet, d: Decision, time: U64)
    requires !d.Pass?
    ensures |EventsOf(p, d, time)| == 1 && About(EventsOf(p, d, time)[0], p, time)
  {
    WordRoundTrip(p.src);
    WordRoundTrip(p.dst);
    var l4 := if p.l4.Some? then p.l4.value else (0, 0);
    PortsSpelledOut(p, l4.0, l4.1);
  }

  /** Explainability of the event: a packet dropped under an accepted policy gives one event, with the
      drop verdict, about that packet, whose rule ID names exactly the rule that accounts for its reason;
      an identity drop carries the ID as identity too. */
  lemma DropEventNamesItsRule(w: World, pol: Policy, p: Packet, time: U64) returns (i: nat)
    requires Policies.Accepted(w, pol) && Decide(PolicyImage(w, pol), p).Drop?
    ensures var es := EventsOf(p, Decide(PolicyImage(w, pol), p), time);
            && |es| == 1 && About(es[0], p, time) && es[0].verdict == 1
            && Accounts(w, pol.rules, p, es[0].reason, i) && IdNames(pol.rules, es[0].ruleId, i)
            && es[0].reason in {1, 2, 4} && es[0].identity == if es[0].reason == 4 then es[0].ruleId else 0
  {
    i := DropNamesItsRule(w, pol, p);
    EventIsAbout(p, Decide(PolicyImage(w, pol), p), time);
  }

  /** A passed packet gives an event exactly when a rule allows its port: with the pass verdict, reason 0
      and the ID of the last rule listing the port. */
  lemma PassEventNamesItsRule(w: World, pol: Policy, p: Packet, time: U64)
    requires Policies.Accepted(w, pol) && !Decide(PolicyImage(w, pol), p).Drop?
    ensures var es, i := EventsOf(p, Decide(PolicyImage(w, pol), p), time), PortLister(w, pol.rules, p);
            if i >= 0 then
              && |es| == 1 && About(es[0], p, time) && es[0].verdict == 0 && es[0].reason == 0
              && es[0].ruleId == pol.rules[i].id && es[0].identity == 0 && !Denies(pol.rules[i])
            else es == []
  {
    DecisionByRules(w, pol, p);
    PortMeans(w, pol, p);
    if !Decide(PolicyImage(w, pol), p).Pass? {
      EventIsAbout(p, Decide(PolicyImage(w, pol), p), time);
    }
  }

  /** The event of an untracked packet, every field written out. */
  lemma UntrackedEventSpelledOut(src: U32, dst: U32, sport: U16, dport: U16, s: Segment, cgroup: U64)
    requires s.key == FlowKey(src, dst, sport, dport)
    ensures UntrackedEvent(s, cgroup) == AuditEvent(s.time, src, dst, sport, dport, 6, 1, 5, 201, cgroup, 0)
  {
  }
}
