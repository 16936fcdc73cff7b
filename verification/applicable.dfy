/** Which accepted policies can be applied, told from their source rules. */
module Applicability {
  import opened Words
  import opened Policies
  import opened RuleMaps
  import opened SwapProtocol
  import opened SwapRuns
  import opened SwapLimits
  import opened Loader
  import opened Meaning

  /** Every address text is an IPv4 network the trie can hold, and every cgroup path resolves. */
  ghost predicate Stageable(w: World, r: Rule) {
    && (forall j | 0 <= j < |r.srcCidrs| :: w.parseCidr(r.srcCidrs[j]).Network?)
    && (forall j | 0 <= j < |r.srcCgroups| :: w.resolve(r.srcCgroups[j]).Some?)
  }

  ghost predicate AllStageable(w: World, rules: seq<Rule>) {
    forall i | 0 <= i < |rules| :: Stageable(w, rules[i])
  }

  /** What one table needs of a rule. */
  ghost predicate StageableIn(w: World, r: Rule, t: Table) {
    match t
    case CidrTable => forall j | 0 <= j < |r.srcCidrs| :: w.parseCidr(r.srcCidrs[j]).Network?
    case CgroupTable => forall j | 0 <= j < |r.srcCgroups| :: w.resolve(r.srcCgroups[j]).Some?
    case PortTable => true
  }

  lemma RuleStageable(w: World, r: Rule, t: Table)
    ensures AllPuts(RuleOps(w, r, t)) <==> StageableIn(w, r, t)
  {
    var ops := RuleOps(w, r, t);
    match t
    case CidrTable =>
      RuleCidrsAt(r, |r.srcCidrs|);
      assert forall j | 0 <= j < |ops| :: ops[j].Put? <==> w.parseCidr(r.srcCidrs[j]).Network?;
    case CgroupTable =>
      RuleCgroupsAt(r, |r.srcCgroups|);
      assert forall j | 0 <= j < |ops| :: ops[j].Put? <==> w.resolve(r.srcCgroups[j]).Some?;
    case PortTable =>
  }

  lemma PutsConcat(a: seq<Op>, b: seq<Op>)
    ensures AllPuts(a + b) <==> AllPuts(a) && AllPuts(b)
  {
    if AllPuts(a + b) {
      assert forall i | 0 <= i < |a| :: a[i] == (a + b)[i];
      assert forall i | 0 <= i < |b| :: b[i] == (a + b)[|a| + i];
    }
  }

  ghost predicate AllStageableIn(w: World, rules: seq<Rule>, t: Table) {
    forall i | 0 <= i < |rules| :: StageableIn(w, rules[i], t)
  }

  lemma StageableMore(w: World, front: seq<Rule>, r: Rule, t: Table)
    ensures AllStageableIn(w, front + [r], t) <==> AllStageableIn(w, front, t) && StageableIn(w, r, t)
  {
    var rules := front + [r];
    assert rules[|front|] == r && forall i | 0 <= i < |front| :: rules[i] == front[i];
  }

  lemma {:induction false} TableStageable(w: World, rules: seq<Rule>, t: Table)
    ensures AllPuts(RulesOps(w, rules, t)) <==> AllStageableIn(w, rules, t)
  {
    if rules != [] {
      var front, r := rules[..|rules| - 1], rules[|rules| - 1];
      TableStageable(w, front, t);
      RulesOpsStep(w, rules, t);
      RuleStageable(w, r, t);
      PutsConcat(RulesOps(w, front, t), RuleOps(w, r, t));
      StageableMore(w, front, r, t);
      assert front + [r] == rules;
    }
  }

  /** No staging call of a compiled policy is refused exactly when all its rules are stageable. */
  lemma PolicyStageable(w: World, p: Policy)
    ensures AllPuts(PolicyOps(w, CompiledForm(p))) <==> AllStageable(w, p.rules)
  {
    var a, b, c := RulesOps(w, p.rules, CidrTable), RulesOps(w, p.rules, CgroupTable), RulesOps(w, p.rules, PortTable);
    TableStageable(w, p.rules, CidrTable);
    TableStageable(w, p.rules, CgroupTable);
    TableStageable(w, p.rules, PortTable);
    assert PolicyOps(w, CompiledForm(p)) == a + b + c;
    PutsConcat(a, b);
    PutsConcat(a + b, c);
    assert forall i | 0 <= i < |p.rules| ::
        Stageable(w, p.rules[i]) <==> StageableIn(w, p.rules[i], CidrTable) && StageableIn(w, p.rules[i], CgroupTable);
  }

  lemma FitsArePuts(m: Entries, g: U32, ops: seq<Op>)
    requires Fits(m, g, ops)
    ensures AllPuts(ops)
  {
    forall i | 0 <= i < |ops| ensures ops[i].Put? {
      assert Placeable(m, g, ops, i);
    }
  }

  function ItemCount(cp: CompiledPolicy): nat {
    |cp.cidrs| + |cp.cgroups| + |cp.ports|
  }

  /** Exactly when a policy can be applied over the one in force: every text and path of its rules can
      be staged, each table has room for the distinct keys of both, and none of the writes fails. */
  lemma AppliedExactly(k: Plane, gen: U32, m: Entries, w: World, p: Policy, fails: nat -> bool, writes: nat)
    requires InStep(k, gen, m)
    ensures Succeeds(m, Next(gen), PolicyOps(w, CompiledForm(p)), fails, writes)
       <==> && AllStageable(w, p.rules)
            && RoomForBoth(GenView(m, gen), PolicyImage(w, p))
            && NoFailure(fails, writes, ItemCount(CompiledForm(p)) + 1)
  {
    var ops := PolicyOps(w, CompiledForm(p));
    PolicyStageable(w, p);
    if AllPuts(ops) {
      FitsExactly(k, ops);
    } else if Fits(m, Next(gen), ops) {
      FitsArePuts(m, Next(gen), ops);
    }
  }

  /** So validation and staging disagree: an accepted policy need not be stageable. */
  lemma AcceptedUnstageable(w: World, text: string) returns (pol: Policy)
    requires w.parseCidr(text) == Unstageable
    ensures Accepted(w, pol) && |pol.rules| == 1 && pol.rules[0].srcCidrs == [text] && !AllStageable(w, pol.rules)
  {
    var r := Rule(1, "", "deny", [text], [], [], []);
    pol := Policy("v1", "FirewallPolicy", "", "", [r]);
    ActionWords();
    assert RuleOk(w, r);
    assert pol.rules[0] == r && !w.parseCidr(r.srcCidrs[0]).Network?;
  }

  /** The number of staging calls, rule by rule: texts, paths, and ports times protocols, where a rule
      without protocols counts two. */
  function CallsOf(r: Rule): nat {
    |r.srcCidrs| + |r.srcCgroups| + |r.dstPorts| * if r.protocols == [] then 2 else |r.protocols|
  }

  function CallsOfAll(rules: seq<Rule>): nat {
    if rules == [] then 0 else CallsOfAll(rules[..|rules| - 1]) + CallsOf(rules[|rules| - 1])
  }

  lemma {:induction false} PortCount(r: Rule, n: nat)
    requires n <= |r.dstPorts|
    ensures |RulePorts(r, n)| == n * |EffectiveProtocols(r)|
  {
    if n > 0 {
      PortCount(r, n - 1);
      OneTimesMore(n - 1, |EffectiveProtocols(r)|);
    }
  }

  lemma OneTimesMore(n: nat, m: nat)
    ensures (n + 1) * m == n * m + m
  {
  }

  lemma RuleCount(r: Rule)
    ensures |RuleCidrs(r, |r.srcCidrs|)| + |RuleCgroups(r, |r.srcCgroups|)| + |RulePorts(r, |r.dstPorts|)| == CallsOf(r)
  {
    RuleCidrsAt(r, |r.srcCidrs|);
    RuleCgroupsAt(r, |r.srcCgroups|);
    PortCount(r, |r.dstPorts|);
    if r.dstPorts != [] {
      assert |EffectiveProtocols(r)| == if r.protocols == [] then 2 else |r.protocols|;
    }
  }

  /** The count a successful apply is answered with. */
  lemma {:induction false} ItemsCounted(p: Policy)
    ensures ItemCount(CompiledForm(p)) == CallsOfAll(p.rules)
  {
    ListsCounted(p.rules);
  }

  lemma {:induction false} ListsCounted(rules: seq<Rule>)
    ensures |AllCidrs(rules)| + |AllCgroups(rules)| + |AllPorts(rules)| == CallsOfAll(rules)
  {
    if rules != [] {
      ListsCounted(rules[..|rules| - 1]);
      RuleCount(rules[|rules| - 1]);
    }
  }
}
