/** Policies, their validation and their compilation (pkg/compiler/dsl.go, pkg/compiler/compiler.go). */
module Policies {
  import opened Words
  import opened Lpm
  import opened Text

  datatype Rule = Rule(
    id: U32, name: string, action: string, srcCidrs: seq<string>,
    dstPorts: seq<U16>, protocols: seq<string>, srcCgroups: seq<string>)

  datatype Policy = Policy(
    apiVersion: string, kind: string, name: string, defaultAction: string, rules: seq<Rule>)

  datatype CompiledCidr = CompiledCidr(ruleId: U32, text: string, action: string)
  datatype CompiledCgroup = CompiledCgroup(ruleId: U32, path: string, action: string)
  datatype CompiledPort = CompiledPort(ruleId: U32, port: U16, protocol: string, action: string)

  datatype CompiledPolicy = CompiledPolicy(
    name: string, defaultAction: string,
    cidrs: seq<CompiledCidr>, cgroups: seq<CompiledCgroup>, ports: seq<CompiledPort>)

  /** What the address parser makes of a text. `Unstageable` texts pass validation but cannot be
      put into the trie: IPv6 networks and addresses, and prefixes longer than 32 bits. */
  datatype CidrText = Malformed | Unstageable | Network(net: Net)

  /** The parts of the environment the compiler and the loader consult. */
  datatype World = World(parseCidr: string -> CidrText, resolve: string -> Option<U64>)

  // ---- Validation ------------------------------------------------------------------------

  predicate IsAction(s: string) {
    s == "allow" || s == "deny"
  }

  predicate IsProtocol(s: string) {
    s == "tcp" || s == "udp" || s == "icmp"
  }

  /** The rule taken alone is well formed. */
  ghost predicate RuleOk(w: World, r: Rule) {
    && r.id != 0
    && IsAction(Normalize(r.action))
    && (forall j | 0 <= j < |r.srcCidrs| :: w.parseCidr(r.srcCidrs[j]) != Malformed)
    && (forall j | 0 <= j < |r.dstPorts| :: r.dstPorts[j] != 0)
    && (forall j | 0 <= j < |r.protocols| :: IsProtocol(Normalize(r.protocols[j])))
  }

  ghost predicate RulesOk(w: World, rules: seq<Rule>) {
    && (forall i | 0 <= i < |rules| :: RuleOk(w, rules[i]))
    && (forall i, j | 0 <= i < j < |rules| :: rules[i].id != rules[j].id)
  }

  ghost predicate Accepted(w: World, p: Policy) {
    && p.apiVersion == "v1"
    && p.kind == "FirewallPolicy"
    && (Normalize(p.defaultAction) == "" || IsAction(Normalize(p.defaultAction)))
    && RulesOk(w, p.rules)
  }

  datatype PolicyError =
    | BadHeader
    | ZeroId(rule: nat)
    | DuplicateId(rule: nat)
    | BadAction(rule: nat)
    | BadCidr(rule: nat)
    | BadPort(rule: nat)
    | BadProtocol(rule: nat)

  /** The error is real, and no earlier rule has one. */
  ghost predicate RuleBlamed(w: World, rules: seq<Rule>, e: PolicyError)
    requires !e.BadHeader?
  {
    && e.rule < |rules|
    && RulesOk(w, rules[..e.rule])
    && var r := rules[e.rule];
       match e
       case ZeroId(_) => r.id == 0
       case DuplicateId(_) => exists j | 0 <= j < e.rule :: rules[j].id == r.id
       case _ => FieldBlamed(w, r, e)
  }

  ghost predicate FieldBlamed(w: World, r: Rule, e: PolicyError) {
    match e
    case BadAction(_) => !IsAction(Normalize(r.action))
    case BadCidr(_) => exists j | 0 <= j < |r.srcCidrs| :: w.parseCidr(r.srcCidrs[j]) == Malformed
    case BadPort(_) => exists j | 0 <= j < |r.dstPorts| :: r.dstPorts[j] == 0
    case BadProtocol(_) => exists j | 0 <= j < |r.protocols| :: !IsProtocol(Normalize(r.protocols[j]))
    case _ => false
  }

  ghost predicate Blames(w: World, p: Policy, e: PolicyError) {
    if e.BadHeader? then
      !(p.apiVersion == "v1" && p.kind == "FirewallPolicy"
        && (Normalize(p.defaultAction) == "" || IsAction(Normalize(p.defaultAction))))
    else RuleBlamed(w, p.rules, e)
  }

  method ValidateRule(w: World, r: Rule, i: nat) returns (err: Option<PolicyError>)
    requires r.id != 0
    ensures err.None? <==> RuleOk(w, r)
    ensures err.Some? ==> !err.value.BadHeader? && err.value.rule == i
    ensures err.Some? ==> FieldBlamed(w, r, err.value)
  {
    if !IsAction(Normalize(r.action)) {
      return Some(BadAction(i));
    }
    for j := 0 to |r.srcCidrs|
      invariant forall k | 0 <= k < j :: w.parseCidr(r.srcCidrs[k]) != Malformed
    {
      if w.parseCidr(r.srcCidrs[j]).Malformed? {
        return Some(BadCidr(i));
      }
    }
    for j := 0 to |r.dstPorts|
      invariant forall k | 0 <= k < j :: r.dstPorts[k] != 0
    {
      if r.dstPorts[j] == 0 {
        return Some(BadPort(i));
      }
    }
    for j := 0 to |r.protocols|
      invariant forall k | 0 <= k < j :: IsProtocol(Normalize(r.protocols[k]))
    {
      if !IsProtocol(Normalize(r.protocols[j])) {
        return Some(BadProtocol(i));
      }
    }
    return None;
  }

  lemma OneMoreRule(w: World, rules: seq<Rule>, i: nat)
    requires i < |rules| && RulesOk(w, rules[..i]) && RuleOk(w, rules[i])
    requires forall j | 0 <= j < i :: rules[j].id != rules[i].id
    ensures RulesOk(w, rules[..i + 1])
  {
    assert rules[..i + 1] == rules[..i] + [rules[i]];
  }

  lemma PrefixOk(w: World, rules: seq<Rule>, i: nat)
    requires i < |rules| && RulesOk(w, rules)
    ensures RuleOk(w, rules[i]) && forall j | 0 <= j < i :: rules[j].id != rules[i].id
  {
  }

  method ValidateRules(w: World, rules: seq<Rule>) returns (err: Option<PolicyError>)
    ensures err.None? <==> RulesOk(w, rules)
    ensures err.Some? ==> !err.value.BadHeader? && RuleBlamed(w, rules, err.value)
  {
    var seenIds: map<U32, string> := map[];
    for i := 0 to |rules|
      invariant RulesOk(w, rules[..i])
      invariant forall id :: id in seenIds <==> exists j | 0 <= j < i :: rules[j].id == id
    {
      var r := rules[i];
      if RulesOk(w, rules) {
        PrefixOk(w, rules, i);
      }
      if r.id == 0 {
        return Some(ZeroId(i));
      }
      if r.id in seenIds {
        return Some(DuplicateId(i));
      }
      seenIds := seenIds[r.id := r.name];
      var e := ValidateRule(w, r, i);
      if e.Some? {
        return e;
      }
      OneMoreRule(w, rules, i);
    }
    assert rules[..|rules|] == rules;
    return None;
  }

  method Validate(w: World, p: Policy) returns (err: Option<PolicyError>)
    ensures err.None? <==> Accepted(w, p)
    ensures err.Some? ==> Blames(w, p, err.value)
  {
    var def := Normalize(p.defaultAction);
    if p.apiVersion != "v1" || p.kind != "FirewallPolicy" || (def != "" && !IsAction(def)) {
      return Some(BadHeader);
    }
    err := ValidateRules(w, p.rules);
  }

  // ---- Compilation -----------------------------------------------------------------------

  /** No protocol list on a rule with ports means both TCP and UDP. */
  function EffectiveProtocols(r: Rule): seq<string> {
    if r.protocols == [] && r.dstPorts != [] then ["tcp", "udp"] else r.protocols
  }

  function RuleCidrs(r: Rule, n: nat): seq<CompiledCidr>
    requires n <= |r.srcCidrs|
  {
    if n == 0 then []
    else RuleCidrs(r, n - 1) + [CompiledCidr(r.id, r.srcCidrs[n - 1], Normalize(r.action))]
  }

  function RuleCgroups(r: Rule, n: nat): seq<CompiledCgroup>
    requires n <= |r.srcCgroups|
  {
    if n == 0 then []
    else RuleCgroups(r, n - 1) + [CompiledCgroup(r.id, r.srcCgroups[n - 1], Normalize(r.action))]
  }

  /** A port for the k-th protocol of its rule. */
  function PortItem(r: Rule, port: U16, k: nat): CompiledPort
    requires k < |EffectiveProtocols(r)|
  {
    CompiledPort(r.id, port, Normalize(EffectiveProtocols(r)[k]), Normalize(r.action))
  }

  function PortProtocols(r: Rule, port: U16, n: nat): (cs: seq<CompiledPort>)
    requires n <= |EffectiveProtocols(r)|
    ensures |cs| == n
  {
    seq(n, k requires 0 <= k < n => PortItem(r, port, k))
  }

  function RulePorts(r: Rule, n: nat): seq<CompiledPort>
    requires n <= |r.dstPorts|
  {
    if n == 0 then []
    else RulePorts(r, n - 1) + PortProtocols(r, r.dstPorts[n - 1], |EffectiveProtocols(r)|)
  }

  function AllCidrs(rules: seq<Rule>): seq<CompiledCidr> {
    if rules == [] then [] else
      var r := rules[|rules| - 1];
      AllCidrs(rules[..|rules| - 1]) + RuleCidrs(r, |r.srcCidrs|)
  }

  function AllCgroups(rules: seq<Rule>): seq<CompiledCgroup> {
    if rules == [] then [] else
      var r := rules[|rules| - 1];
      AllCgroups(rules[..|rules| - 1]) + RuleCgroups(r, |r.srcCgroups|)
  }

  function AllPorts(rules: seq<Rule>): seq<CompiledPort> {
    if rules == [] then [] else
      var r := rules[|rules| - 1];
      AllPorts(rules[..|rules| - 1]) + RulePorts(r, |r.dstPorts|)
  }

  function CompiledForm(p: Policy): CompiledPolicy {
    var def := Normalize(p.defaultAction);
    CompiledPolicy(p.name, if def == "" then "allow" else def,
                   AllCidrs(p.rules), AllCgroups(p.rules), AllPorts(p.rules))
  }

  /** Compile succeeds exactly on accepted policies and yields their expansion, in declaration order. */
  method Compile(w: World, p: Policy) returns (cp: Option<CompiledPolicy>)
    ensures cp.Some? <==> Accepted(w, p)
    ensures cp.Some? ==> cp.value == CompiledForm(p)
  {
    var err := Validate(w, p);
    if err.Some? {
      return None;
    }
    var def := Normalize(p.defaultAction);
    if def == "" {
      def := "allow";
    }
    var cidrs: seq<CompiledCidr>, cgroups: seq<CompiledCgroup>, ports: seq<CompiledPort> := [], [], [];
    for i := 0 to |p.rules|
      invariant cidrs == AllCidrs(p.rules[..i])
      invariant cgroups == AllCgroups(p.rules[..i])
      invariant ports == AllPorts(p.rules[..i])
    {
      var more := CompileRule(p.rules[i]);
      OneMoreCompiled(p.rules, i);
      cidrs, cgroups, ports := cidrs + more.0, cgroups + more.1, ports + more.2;
    }
    assert p.rules[..|p.rules|] == p.rules;
    return Some(CompiledPolicy(p.name, def, cidrs, cgroups, ports));
  }

  lemma OneMoreCompiled(rules: seq<Rule>, i: nat)
    requires i < |rules|
    ensures AllCidrs(rules[..i + 1]) == AllCidrs(rules[..i]) + RuleCidrs(rules[i], |rules[i].srcCidrs|)
    ensures AllCgroups(rules[..i + 1]) == AllCgroups(rules[..i]) + RuleCgroups(rules[i], |rules[i].srcCgroups|)
    ensures AllPorts(rules[..i + 1]) == AllPorts(rules[..i]) + RulePorts(rules[i], |rules[i].dstPorts|)
  {
    assert rules[..i + 1][..i] == rules[..i];
  }

  method CompileRule(r: Rule)
    returns (out: (seq<CompiledCidr>, seq<CompiledCgroup>, seq<CompiledPort>))
    ensures out.0 == RuleCidrs(r, |r.srcCidrs|)
    ensures out.1 == RuleCgroups(r, |r.srcCgroups|)
    ensures out.2 == RulePorts(r, |r.dstPorts|)
  {
    var action := Normalize(r.action);
    var cidrs: seq<CompiledCidr>, cgroups: seq<CompiledCgroup> := [], [];
    for j := 0 to |r.srcCidrs|
      invariant cidrs == RuleCidrs(r, j)
    {
      cidrs := cidrs + [CompiledCidr(r.id, r.srcCidrs[j], action)];
    }
    for j := 0 to |r.srcCgroups|
      invariant cgroups == RuleCgroups(r, j)
    {
      cgroups := cgroups + [CompiledCgroup(r.id, r.srcCgroups[j], action)];
    }
    var ports := CompilePorts(r, action);
    return (cidrs, cgroups, ports);
  }

  method CompilePorts(r: Rule, action: string) returns (ports: seq<CompiledPort>)
    requires action == Normalize(r.action)
    ensures ports == RulePorts(r, |r.dstPorts|)
  {
    var protocols := r.protocols;
    if |protocols| == 0 && |r.dstPorts| > 0 {
      protocols := ["tcp", "udp"];
    }
    ports := [];
    for j := 0 to |r.dstPorts|
      invariant ports == RulePorts(r, j)
    {
      for k := 0 to |protocols|
        invariant ports == RulePorts(r, j) + PortProtocols(r, r.dstPorts[j], k)
      {
        OneMoreProtocol(r, RulePorts(r, j), r.dstPorts[j], k);
        ports := ports + [CompiledPort(r.id, r.dstPorts[j], Normalize(protocols[k]), action)];
      }
    }
  }

  lemma OneMoreProtocol(r: Rule, before: seq<CompiledPort>, port: U16, k: nat)
    requires k < |EffectiveProtocols(r)|
    ensures before + PortProtocols(r, port, k + 1) == before + PortProtocols(r, port, k) + [PortItem(r, port, k)]
  {
  }

  // ---- Spelled out -----------------------------------------------------------------------

  /** Acceptance with every keyword and number written out. */
  lemma AcceptedSpelledOut(w: World, p: Policy)
    ensures Accepted(w, p)
       <==> && p.apiVersion == "v1" && p.kind == "FirewallPolicy"
            && Normalize(p.defaultAction) in {"", "allow", "deny"}
            && (forall i | 0 <= i < |p.rules| :: RuleSpelledOut(w, p.rules[i]))
            && (forall i, j | 0 <= i < j < |p.rules| :: p.rules[i].id != p.rules[j].id)
  {
    forall i | 0 <= i < |p.rules|
      ensures RuleOk(w, p.rules[i]) <==> RuleSpelledOut(w, p.rules[i])
    {
      RuleIsSpelledOut(w, p.rules[i]);
    }
  }

  ghost predicate RuleSpelledOut(w: World, r: Rule) {
    && r.id > 0 && Normalize(r.action) in {"allow", "deny"} && 0 !in r.dstPorts
    && (forall text | text in r.srcCidrs :: w.parseCidr(text) != Malformed)
    && (forall word | word in r.protocols :: Normalize(word) in {"tcp", "udp", "icmp"})
  }

  lemma RuleIsSpelledOut(w: World, r: Rule)
    ensures RuleOk(w, r) <==> RuleSpelledOut(w, r)
  {
  }

  /** The compiled CIDR list holds each rule's texts with its ID and normalised action, and no others. */
  lemma {:induction false} CompiledCidrsAre(rules: seq<Rule>, c: CompiledCidr)
    ensures c in AllCidrs(rules)
       <==> exists i :: 0 <= i < |rules| && c.text in rules[i].srcCidrs
                        && c == CompiledCidr(rules[i].id, c.text, Normalize(rules[i].action))
  {
    if rules != [] {
      var n := |rules| - 1;
      CompiledCidrsAre(rules[..n], c);
      RuleCidrsAre(rules[n], |rules[n].srcCidrs|, c);
      assert rules == rules[..n] + [rules[n]];
    }
  }

  lemma {:induction false} RuleCidrsAre(r: Rule, n: nat, c: CompiledCidr)
    requires n <= |r.srcCidrs|
    ensures c in RuleCidrs(r, n) <==> c.text in r.srcCidrs[..n] && c == CompiledCidr(r.id, c.text, Normalize(r.action))
    ensures |RuleCidrs(r, n)| == n
  {
    if n > 0 {
      RuleCidrsAre(r, n - 1, c);
      assert r.srcCidrs[..n] == r.srcCidrs[..n - 1] + [r.srcCidrs[n - 1]];
    }
  }

  /** The same for cgroup paths. */
  lemma {:induction false} CompiledCgroupsAre(rules: seq<Rule>, c: CompiledCgroup)
    ensures c in AllCgroups(rules)
       <==> exists i :: 0 <= i < |rules| && c.path in rules[i].srcCgroups
                        && c == CompiledCgroup(rules[i].id, c.path, Normalize(rules[i].action))
  {
    if rules != [] {
      var n := |rules| - 1;
      CompiledCgroupsAre(rules[..n], c);
      RuleCgroupsAre(rules[n], |rules[n].srcCgroups|, c);
      assert rules == rules[..n] + [rules[n]];
    }
  }

  lemma {:induction false} RuleCgroupsAre(r: Rule, n: nat, c: CompiledCgroup)
    requires n <= |r.srcCgroups|
    ensures c in RuleCgroups(r, n)
       <==> c.path in r.srcCgroups[..n] && c == CompiledCgroup(r.id, c.path, Normalize(r.action))
    ensures |RuleCgroups(r, n)| == n
  {
    if n > 0 {
      RuleCgroupsAre(r, n - 1, c);
      assert r.srcCgroups[..n] == r.srcCgroups[..n - 1] + [r.srcCgroups[n - 1]];
    }
  }

  /** The protocols a port rule is compiled for: the rule's own, or both TCP and UDP if it names none. */
  predicate For(r: Rule, protocol: string) {
    if r.protocols == [] then protocol == "tcp" || protocol == "udp"
    else exists j | 0 <= j < |r.protocols| :: protocol == Normalize(r.protocols[j])
  }

  /** One of the rule's ports for one of its protocols, with its ID and normalised action. */
  predicate PortOf(r: Rule, c: CompiledPort) {
    c.port in r.dstPorts && For(r, c.protocol) && Tagged(r, c)
  }

  predicate Tagged(r: Rule, c: CompiledPort) {
    c.ruleId == r.id && c.action == Normalize(r.action)
  }

  ghost predicate PortOfSome(rules: seq<Rule>, c: CompiledPort) {
    exists i :: 0 <= i < |rules| && PortOf(rules[i], c)
  }

  lemma PortOfMore(front: seq<Rule>, r: Rule, c: CompiledPort)
    ensures PortOfSome(front + [r], c) <==> PortOfSome(front, c) || PortOf(r, c)
  {
    var rules := front + [r];
    if PortOfSome(front, c) {
      var i :| 0 <= i < |front| && PortOf(front[i], c);
      assert PortOf(rules[i], c);
    }
    if PortOf(r, c) {
      assert PortOf(rules[|front|], c);
    }
  }

  /** The compiled port rules are each rule's ports for each of its protocols, and no others. */
  lemma {:induction false} CompiledPortsAre(rules: seq<Rule>, c: CompiledPort)
    ensures c in AllPorts(rules) <==> PortOfSome(rules, c)
  {
    if rules != [] {
      var front, r := rules[..|rules| - 1], rules[|rules| - 1];
      CompiledPortsAre(front, c);
      RulePortsAre(r, |r.dstPorts|, c);
      PortOfMore(front, r, c);
      assert rules == front + [r] && r.dstPorts[..|r.dstPorts|] == r.dstPorts;
      assert AllPorts(rules) == AllPorts(front) + RulePorts(r, |r.dstPorts|);
    }
  }

  lemma {:induction false} RulePortsAre(r: Rule, n: nat, c: CompiledPort)
    requires n <= |r.dstPorts|
    ensures c in RulePorts(r, n) <==> c.port in r.dstPorts[..n] && For(r, c.protocol) && Tagged(r, c)
  {
    if n > 0 {
      RulePortsAre(r, n - 1, c);
      PortProtocolsAre(r, r.dstPorts[n - 1], |EffectiveProtocols(r)|, c);
      ForMeans(r, c.protocol);
      assert r.dstPorts[..n] == r.dstPorts[..n - 1] + [r.dstPorts[n - 1]];
      assert RulePorts(r, n)
          == RulePorts(r, n - 1) + PortProtocols(r, r.dstPorts[n - 1], |EffectiveProtocols(r)|);
    }
  }

  lemma PortProtocolsAre(r: Rule, port: U16, n: nat, c: CompiledPort)
    requires n <= |EffectiveProtocols(r)|
    ensures c in PortProtocols(r, port, n) <==> c.port == port && Tagged(r, c) && Effective(r, n, c.protocol)
  {
    if c in PortProtocols(r, port, n) {
      var k :| 0 <= k < n && PortProtocols(r, port, n)[k] == c;
      assert c == PortItem(r, port, k);
    }
    if c.port == port && Tagged(r, c) && Effective(r, n, c.protocol) {
      var k :| 0 <= k < n && c.protocol == Normalize(EffectiveProtocols(r)[k]);
      assert PortProtocols(r, port, n)[k] == c;
    }
  }

  /** One of the first `n` protocols in effect is this one. */
  predicate Effective(r: Rule, n: nat, protocol: string)
    requires n <= |EffectiveProtocols(r)|
  {
    exists k | 0 <= k < n :: protocol == Normalize(EffectiveProtocols(r)[k])
  }

  lemma ForMeans(r: Rule, protocol: string)
    requires r.dstPorts != []
    ensures For(r, protocol) <==> Effective(r, |EffectiveProtocols(r)|, protocol)
  {
    var ps := EffectiveProtocols(r);
    if r.protocols == [] {
      DefaultWords();
      assert Normalize(ps[0]) == "tcp" && Normalize(ps[1]) == "udp";
    } else {
      assert ps == r.protocols;
    }
  }

  lemma DefaultWords()
    ensures Normalize("tcp") == "tcp" && Normalize("udp") == "udp"
  {
    assert TrimLeft("tcp") == "tcp" && TrimRight("tcp") == "tcp";
    assert TrimLeft("udp") == "udp" && TrimRight("udp") == "udp";
  }

  /** The default action is kept normalised; none means allow. */
  lemma CompiledDefault(w: World, p: Policy)
    requires Accepted(w, p)
    ensures var cp := CompiledForm(p);
            && cp.name == p.name
            && (cp.defaultAction == "deny" <==> Normalize(p.defaultAction) == "deny")
            && (cp.defaultAction == "allow" <==> Normalize(p.defaultAction) in {"", "allow"})
  {
    AcceptedSpelledOut(w, p);
    assert "allow"[0] != "deny"[0];
  }
}
