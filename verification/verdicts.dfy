/** The verdicts a published policy gives, stated over its source rules alone. */
module Verdicts {
  import opened Words
  import opened Lpm
  import opened Text
  import opened Policies
  import opened RuleMaps
  import opened Xdp
  import opened Meaning

  // ---- A direct reading of the rules -----------------------------------------------------

  /** Some rule lists the packet's cgroup, or a network containing its source. */
  ghost predicate SourceListed(w: World, rules: seq<Rule>, p: Packet) {
    || (p.cgroup > 0 && exists i | 0 <= i < |rules| :: Lists(w, rules[i], BlockCgroup(p.cgroup)))
    || exists i, c: Net | 0 <= i < |rules| :: Lists(w, rules[i], BlockCidr(c)) && Contains(c, p.src)
  }

  /** The last rule listing the packet's destination port and protocol, or -1. */
  ghost function PortLister(w: World, rules: seq<Rule>, p: Packet): int {
    LastListing(w, rules, PortRule(DstPort(p), p.protocol))
  }

  ghost predicate PortDenied(w: World, rules: seq<Rule>, p: Packet) {
    PortLister(w, rules, p) >= 0 && Denies(rules[PortLister(w, rules, p)])
  }

  ghost predicate RulesDrop(w: World, rules: seq<Rule>, p: Packet) {
    SourceListed(w, rules, p) || PortDenied(w, rules, p)
  }

  // ---- Meaning preservation --------------------------------------------------------------

  /** No accepted rule lists port 0, so the data plane's `dst_port > 0` test loses nothing. */
  lemma PortZeroUnlisted(w: World, rules: seq<Rule>, protocol: U8)
    requires RulesOk(w, rules)
    ensures LastListing(w, rules, PortRule(0, protocol)) == -1
  {
    forall j | 0 <= j < |rules|
      ensures !Lists(w, rules[j], PortRule(0, protocol))
    {
      assert RuleOk(w, rules[j]);
      assert !HasPort(rules[j], |rules[j].dstPorts|, 0);
    }
  }

  lemma PortMeans(w: World, pol: Policy, p: Packet)
    requires RulesOk(w, pol.rules)
    ensures PortDecision(PolicyImage(w, pol), p)
         == var i := PortLister(w, pol.rules, p);
            if i < 0 then Pass
            else if Denies(pol.rules[i]) then Drop(REASON_PORT_BLOCKED, pol.rules[i].id)
            else PassAudited(pol.rules[i].id)
  {
    PolicyImageMeans(w, pol, PortRule(DstPort(p), p.protocol));
    PortZeroUnlisted(w, pol.rules, p.protocol);
  }

  lemma CgroupMeans(w: World, pol: Policy, p: Packet)
    requires RulesOk(w, pol.rules)
    ensures CgroupHit(PolicyImage(w, pol), p)
       <==> p.cgroup > 0 && exists i | 0 <= i < |pol.rules| :: Lists(w, pol.rules[i], BlockCgroup(p.cgroup))
  {
    PolicyImageMeans(w, pol, BlockCgroup(p.cgroup));
  }

  lemma CidrMeans(w: World, pol: Policy, src: Ip)
    requires RulesOk(w, pol.rules)
    ensures Longest(PolicyImage(w, pol), src).Some?
       <==> exists i, c: Net | 0 <= i < |pol.rules| :: Lists(w, pol.rules[i], BlockCidr(c)) && Contains(c, src)
  {
    var img := PolicyImage(w, pol);
    if Longest(img, src).Some? {
      var c := Longest(img, src).value;
      PolicyImageMeans(w, pol, BlockCidr(c));
      assert Lists(w, pol.rules[LastListing(w, pol.rules, BlockCidr(c))], BlockCidr(c));
    }
    forall i, c: Net | 0 <= i < |pol.rules| && Lists(w, pol.rules[i], BlockCidr(c)) && Contains(c, src)
      ensures Longest(img, src).Some?
    {
      PolicyImageMeans(w, pol, BlockCidr(c));
      assert Listed(img, src, c);
    }
  }

  /** Meaning preservation: for every accepted policy and packet, the data plane drops exactly when
      the source rules, read directly, say so. */
  lemma MeaningPreserved(w: World, pol: Policy, p: Packet)
    requires Accepted(w, pol)
    ensures Decide(PolicyImage(w, pol), p).Drop? <==> RulesDrop(w, pol.rules, p)
  {
    CgroupMeans(w, pol, p);
    CidrMeans(w, pol, p.src);
    PortMeans(w, pol, p);
  }

  // ---- Explainability --------------------------------------------------------------------

  /** The longest network containing the source that any rule lists. */
  ghost predicate LongestListed(w: World, rules: seq<Rule>, src: Ip, c: Net) {
    && LastListing(w, rules, BlockCidr(c)) >= 0 && Contains(c, src)
    && forall d: Net | LastListing(w, rules, BlockCidr(d)) >= 0 && Contains(d, src) :: d.plen <= c.plen
  }

  /** Rule `i` accounts for a drop with this reason. */
  ghost predicate Accounts(w: World, rules: seq<Rule>, p: Packet, reason: U16, i: int) {
    && 0 <= i < |rules|
    && if reason == REASON_IDENTITY_DENY then p.cgroup > 0 && i == LastListing(w, rules, BlockCgroup(p.cgroup))
       else if reason == REASON_CIDR_BLOCKED then
         exists c: Net :: LongestListed(w, rules, p.src, c) && i == LastListing(w, rules, BlockCidr(c))
       else reason == REASON_PORT_BLOCKED && i == PortLister(w, rules, p) && Denies(rules[i])
  }

  /** Explainability: every drop carries a nonzero rule ID that names exactly one rule of the policy,
      and that rule is the last one listing what the drop is for. */
  lemma DropNamesItsRule(w: World, pol: Policy, p: Packet) returns (i: nat)
    requires Accepted(w, pol) && Decide(PolicyImage(w, pol), p).Drop?
    ensures var d := Decide(PolicyImage(w, pol), p);
            Accounts(w, pol.rules, p, d.reason, i) && IdNames(pol.rules, d.ruleId, i)
  {
    var img := PolicyImage(w, pol);
    if CgroupHit(img, p) {
      i := CgroupBlame(w, pol, p);
    } else if Longest(img, p.src).Some? {
      i := CidrBlame(w, pol, p.src);
    } else {
      PortMeans(w, pol, p);
      i := PortLister(w, pol.rules, p);
    }
    assert RuleOk(w, pol.rules[i]);
  }

  lemma CgroupBlame(w: World, pol: Policy, p: Packet) returns (i: nat)
    requires RulesOk(w, pol.rules) && CgroupHit(PolicyImage(w, pol), p)
    ensures i == LastListing(w, pol.rules, BlockCgroup(p.cgroup)) && i < |pol.rules|
    ensures PolicyImage(w, pol)[BlockCgroup(p.cgroup)] == Block(pol.rules[i].id)
  {
    PolicyImageMeans(w, pol, BlockCgroup(p.cgroup));
    i := LastListing(w, pol.rules, BlockCgroup(p.cgroup));
  }

  lemma CidrBlame(w: World, pol: Policy, src: Ip) returns (i: nat)
    requires RulesOk(w, pol.rules) && Longest(PolicyImage(w, pol), src).Some?
    ensures var c := Longest(PolicyImage(w, pol), src).value;
            && LongestListed(w, pol.rules, src, c) && i == LastListing(w, pol.rules, BlockCidr(c)) && i < |pol.rules|
            && PolicyImage(w, pol)[BlockCidr(c)] == Block(pol.rules[i].id)
  {
    var img := PolicyImage(w, pol);
    var c := Longest(img, src).value;
    PolicyImageMeans(w, pol, BlockCidr(c));
    i := LastListing(w, pol.rules, BlockCidr(c));
    forall d: Net | LastListing(w, pol.rules, BlockCidr(d)) >= 0 && Contains(d, src)
      ensures d.plen <= c.plen
    {
      PolicyImageMeans(w, pol, BlockCidr(d));
      assert Listed(img, src, d);
    }
  }

  /** Rule `i` is the last one listing something about the packet that the reason is for. */
  ghost predicate Names(w: World, rules: seq<Rule>, p: Packet, reason: U16, i: int) {
    && 0 <= i < |rules|
    && if reason == REASON_IDENTITY_DENY then p.cgroup > 0 && i == LastListing(w, rules, BlockCgroup(p.cgroup))
       else if reason == REASON_CIDR_BLOCKED then
         exists c: Net :: Contains(c, p.src) && i == LastListing(w, rules, BlockCidr(c))
       else reason == REASON_PORT_BLOCKED && i == PortLister(w, rules, p) && Denies(rules[i])
  }

  /** The ID is nonzero and names rule `i` and no other. */
  ghost predicate IdNames(rules: seq<Rule>, id: U32, i: int) {
    && id != 0 && 0 <= i < |rules| && rules[i].id == id
    && forall j | 0 <= j < |rules| && rules[j].id == id :: j == i
  }

  /** A drop explained by the published image, also one answered from a part of it, names one rule. */
  lemma ExplainedNamesRule(w: World, pol: Policy, p: Packet, d: Decision) returns (i: nat)
    requires Accepted(w, pol) && d.Drop? && Explains(PolicyImage(w, pol), p, d)
    ensures Names(w, pol.rules, p, d.reason, i) && IdNames(pol.rules, d.ruleId, i)
  {
    if d.reason == REASON_IDENTITY_DENY {
      i := CgroupBlame(w, pol, p);
    } else if d.reason == REASON_CIDR_BLOCKED {
      var c: Net :| NamesNet(PolicyImage(w, pol), p, c, d.ruleId);
      PolicyImageMeans(w, pol, BlockCidr(c));
      i := LastListing(w, pol.rules, BlockCidr(c));
    } else {
      PortMeans(w, pol, p);
      i := PortLister(w, pol.rules, p);
    }
    assert RuleOk(w, pol.rules[i]);
  }

  // ---- Actions and the default -----------------------------------------------------------

  predicate DefaultDenies(pol: Policy) {
    Normalize(pol.defaultAction) == "deny"
  }

  /** The same reading, restricted to rules with one action. */
  ghost predicate SourceListedBy(w: World, rules: seq<Rule>, p: Packet, deny: bool) {
    || (p.cgroup > 0 && exists i | 0 <= i < |rules| ::
                          Denies(rules[i]) == deny && Lists(w, rules[i], BlockCgroup(p.cgroup)))
    || exists i, c: Net | 0 <= i < |rules| ::
         Denies(rules[i]) == deny && Lists(w, rules[i], BlockCidr(c)) && Contains(c, p.src)
  }

  /** The policy as written: a deny rule listing the packet drops it; the default action decides about
      a packet that no rule lists, neither its source nor its port. */
  ghost predicate WrittenDrop(w: World, pol: Policy, p: Packet) {
    || SourceListedBy(w, pol.rules, p, true)
    || var i := PortLister(w, pol.rules, p);
       if i >= 0 then Denies(pol.rules[i]) else DefaultDenies(pol) && !SourceListedBy(w, pol.rules, p, false)
  }

  lemma ListedByEither(w: World, rules: seq<Rule>, p: Packet)
    ensures SourceListed(w, rules, p) <==> SourceListedBy(w, rules, p, true) || SourceListedBy(w, rules, p, false)
  {
    if SourceListed(w, rules, p) {
      if p.cgroup > 0 && exists i | 0 <= i < |rules| :: Lists(w, rules[i], BlockCgroup(p.cgroup)) {
        var i :| 0 <= i < |rules| && Lists(w, rules[i], BlockCgroup(p.cgroup));
        assert Denies(rules[i]) == true || Denies(rules[i]) == false;
      } else {
        var i, c: Net :| 0 <= i < |rules| && Lists(w, rules[i], BlockCidr(c)) && Contains(c, p.src);
        assert Denies(rules[i]) == true || Denies(rules[i]) == false;
      }
    }
  }

  /** Two families: a source that only allow rules list, on a port that none denies; and a packet that
      no rule lists under default deny. */
  ghost predicate Misjudged(w: World, pol: Policy, p: Packet) {
    && !SourceListedBy(w, pol.rules, p, true)
    && var i := PortLister(w, pol.rules, p);
       if SourceListedBy(w, pol.rules, p, false) then i < 0 || !Denies(pol.rules[i])
       else i < 0 && DefaultDenies(pol)
  }

  /** Exactly when the data plane honours the policy as written: always, except for the two families
      above. It drops all of the first and passes all of the second. */
  lemma HonouredExactlyUnless(w: World, pol: Policy, p: Packet)
    requires Accepted(w, pol)
    ensures (Decide(PolicyImage(w, pol), p).Drop? <==> WrittenDrop(w, pol, p)) <==> !Misjudged(w, pol, p)
    ensures Misjudged(w, pol, p) ==>
              (Decide(PolicyImage(w, pol), p).Drop? <==> SourceListedBy(w, pol.rules, p, false))
  {
    MeaningPreserved(w, pol, p);
    ListedByEither(w, pol.rules, p);
  }

  /** Default allow, and only deny rules list sources. */
  ghost predicate IsBlockList(pol: Policy) {
    && !DefaultDenies(pol)
    && forall i | 0 <= i < |pol.rules| :: Denies(pol.rules[i])
                                          || (pol.rules[i].srcCidrs == [] && pol.rules[i].srcCgroups == [])
  }

  /** Block-list policies are honoured as written for every packet. */
  lemma BlockListsHonoured(w: World, pol: Policy, p: Packet)
    requires Accepted(w, pol) && IsBlockList(pol)
    ensures Decide(PolicyImage(w, pol), p).Drop? <==> WrittenDrop(w, pol, p)
  {
    NoAllowedSource(w, pol, p);
    HonouredExactlyUnless(w, pol, p);
  }

  lemma NoSources(w: World, r: Rule, it: Item)
    requires r.srcCidrs == [] && r.srcCgroups == [] && !it.PortRule?
    ensures !Lists(w, r, it)
  {
  }

  lemma NoAllowedSource(w: World, pol: Policy, p: Packet)
    requires IsBlockList(pol)
    ensures !SourceListedBy(w, pol.rules, p, false)
  {
    forall i, it: Item | 0 <= i < |pol.rules| && !Denies(pol.rules[i]) && !it.PortRule?
      ensures !Lists(w, pol.rules[i], it)
    {
      NoSources(w, pol.rules[i], it);
    }
  }

  /** Not so in general. First family: whatever the default, an accepted policy that only allows a
      network drops all of it. */
  lemma AllowRuleBlocks(w: World, text: string, net: Net, p: Packet, default: string) returns (pol: Policy)
    requires w.parseCidr(text) == Network(net) && Contains(net, p.src) && p.cgroup == 0
    requires default == "allow" || default == "deny"
    ensures Accepted(w, pol) && pol.defaultAction == default && |pol.rules| == 1
    ensures pol.rules[0].action == "allow" && pol.rules[0].srcCidrs == [text]
    ensures Decide(PolicyImage(w, pol), p).Drop? && !WrittenDrop(w, pol, p)
  {
    var r := Rule(1, "", "allow", [text], [], [], []);
    pol := Policy("v1", "FirewallPolicy", "", default, [r]);
    ActionWords();
    assert RuleOk(w, r);
    AllowedOnly(w, r, text, net, p);
    MeaningPreserved(w, pol, p);
  }

  /** A rule that allows one network and names no ports. */
  lemma AllowedOnly(w: World, r: Rule, text: string, net: Net, p: Packet)
    requires w.parseCidr(text) == Network(net) && Contains(net, p.src) && p.cgroup == 0
    requires r.srcCidrs == [text] && r.dstPorts == [] && !Denies(r)
    ensures SourceListedBy(w, [r], p, false) && SourceListed(w, [r], p)
    ensures !SourceListedBy(w, [r], p, true) && PortLister(w, [r], p) == -1
  {
    var rules := [r];
    assert w.parseCidr(r.srcCidrs[0]) == Network(net);
    assert Lists(w, rules[0], BlockCidr(net));
  }

  /** Second family: an accepted policy without rules passes every packet, also under default deny. */
  lemma DefaultDenyPasses(w: World, p: Packet) returns (pol: Policy)
    ensures Accepted(w, pol) && pol.defaultAction == "deny" && pol.rules == []
    ensures !Decide(PolicyImage(w, pol), p).Drop? && WrittenDrop(w, pol, p)
  {
    pol := Policy("v1", "FirewallPolicy", "", "deny", []);
    ActionWords();
    MeaningPreserved(w, pol, p);
  }

  // ---- Rules that say nothing ------------------------------------------------------------

  /** No sources and no ports: the action and the protocols are all there is. */
  predicate Bare(r: Rule) {
    r.srcCidrs == [] && r.srcCgroups == [] && r.dstPorts == []
  }

  lemma BareAsksNothing(w: World, r: Rule, t: Table)
    requires Bare(r)
    ensures RuleOps(w, r, t) == []
  {
  }

  lemma RulesOpsMore(w: World, front: seq<Rule>, r: Rule, t: Table)
    ensures RulesOps(w, front + [r], t) == RulesOps(w, front, t) + RuleOps(w, r, t)
  {
    assert (front + [r])[..|front|] == front;
    RulesOpsStep(w, front + [r], t);
  }

  /** A bare rule asks for no write, wherever it stands. */
  lemma {:induction false} BareRuleSkipped(w: World, a: seq<Rule>, r: Rule, b: seq<Rule>, t: Table)
    requires Bare(r)
    ensures RulesOps(w, a + [r] + b, t) == RulesOps(w, a + b, t)
  {
    if b == [] {
      assert a + [r] + b == a + [r] && a + b == a;
      RulesOpsMore(w, a, r, t);
      BareAsksNothing(w, r, t);
    } else {
      var front, last := b[..|b| - 1], b[|b| - 1];
      BareRuleSkipped(w, a, r, front, t);
      RulesOpsMore(w, a + [r] + front, last, t);
      RulesOpsMore(w, a + front, last, t);
      assert a + [r] + b == a + [r] + front + [last] && a + b == a + front + [last];
    }
  }

  /** So a bare rule, whatever it denies, leaves no trace in the published image. */
  lemma BareRuleIsLost(w: World, pol: Policy, a: seq<Rule>, r: Rule, b: seq<Rule>)
    requires Bare(r) && pol.rules == a + [r] + b
    ensures PolicyImage(w, pol) == PolicyImage(w, pol.(rules := a + b))
  {
    BareRuleSkipped(w, a, r, b, CidrTable);
    BareRuleSkipped(w, a, r, b, CgroupTable);
    BareRuleSkipped(w, a, r, b, PortTable);
  }

  /** An accepted policy that denies a protocol and nothing else passes every packet. */
  lemma ProtocolDenyPasses(w: World, protocol: string, p: Packet) returns (pol: Policy)
    requires IsProtocol(Normalize(protocol))
    ensures Accepted(w, pol) && |pol.rules| == 1
    ensures pol.rules[0].action == "deny" && pol.rules[0].protocols == [protocol] && Bare(pol.rules[0])
    ensures !Decide(PolicyImage(w, pol), p).Drop?
  {
    var r := Rule(1, "", "deny", [], [], [protocol], []);
    pol := Policy("v1", "FirewallPolicy", "", "allow", [r]);
    ActionWords();
    assert RuleOk(w, r);
    var rules := pol.rules;
    assert !SourceListed(w, rules, p) && PortLister(w, rules, p) == -1;
    MeaningPreserved(w, pol, p);
  }

  // ---- Spelled out -----------------------------------------------------------------------

  /** The verdict on a written-out packet that no rule lists by source: the last rule naming its
      destination port and protocol decides; without TCP or UDP ports it passes. */
  lemma PortVerdictSpelledOut(w: World, pol: Policy, p: Packet, sport: U16, dport: U16)
    requires Accepted(w, pol) && !SourceListed(w, pol.rules, p)
    ensures (p.protocol == 6 || p.protocol == 17) && p.l4 == Some((sport, dport)) ==>
              var i := LastListing(w, pol.rules, PortRule(dport, p.protocol));
              && (Decide(PolicyImage(w, pol), p).Drop? <==> i >= 0 && Denies(pol.rules[i]))
              && (RulesDrop(w, pol.rules, p) <==> i >= 0 && Denies(pol.rules[i]))
    ensures (p.protocol != 6 && p.protocol != 17) || p.l4.None? ==>
              !Decide(PolicyImage(w, pol), p).Drop? && !RulesDrop(w, pol.rules, p)
  {
    MeaningPreserved(w, pol, p);
    PortsSpelledOut(p, sport, dport);
    PortZeroUnlisted(w, pol.rules, p.protocol);
  }

  /** The whole decision by the source rules: which reason, and when a pass is audited. */
  lemma DecisionByRules(w: World, pol: Policy, p: Packet)
    requires Accepted(w, pol)
    ensures var d, i := Decide(PolicyImage(w, pol), p), PortLister(w, pol.rules, p);
            var cgroup := p.cgroup > 0 && LastListing(w, pol.rules, BlockCgroup(p.cgroup)) >= 0;
            && (d.Drop? && d.reason == 4 <==> cgroup)
            && (d.Drop? && d.reason == 1 <==> !cgroup && SourceListed(w, pol.rules, p))
            && (d.Drop? && d.reason == 2 <==> !SourceListed(w, pol.rules, p) && PortDenied(w, pol.rules, p))
            && (d.PassAudited? <==> !SourceListed(w, pol.rules, p) && i >= 0 && !Denies(pol.rules[i]))
            && (d.PassAudited? ==> d.ruleId == pol.rules[i].id)
  {
    CgroupMeans(w, pol, p);
    CidrMeans(w, pol, p.src);
    PortMeans(w, pol, p);
  }

  /** A policy of one rule that denies a port and names no protocol drops exactly the TCP and UDP packets
      to that destination port. */
  lemma DenyPortPolicy(w: World, port: U16, p: Packet) returns (pol: Policy)
    requires port > 0
    ensures Accepted(w, pol) && pol.rules == [Rule(7, "", "deny", [], [port], [], [])]
    ensures Decide(PolicyImage(w, pol), p).Drop?
       <==> (p.protocol == 6 || p.protocol == 17) && p.l4.Some? && p.l4.value.1 == port
  {
    var r := Rule(7, "", "deny", [], [port], [], []);
    pol := Policy("v1", "FirewallPolicy", "", "", [r]);
    ActionWords();
    assert RuleOk(w, r);
    assert !SourceListed(w, [r], p);
    var l4 := if p.l4.Some? then p.l4.value else (0, 0);
    PortVerdictSpelledOut(w, pol, p, l4.0, l4.1);
    ListsPortSpelledOut(w, r, l4.1, p.protocol);
    OneRule(w, r, PortRule(l4.1, p.protocol));
  }

  lemma OneRule(w: World, r: Rule, it: Item)
    ensures LastListing(w, [r], it) == if Lists(w, r, it) then 0 else -1
  {
    assert [r][..0] == [];
  }
}
