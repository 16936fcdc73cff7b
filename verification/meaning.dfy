/** What a compiled policy does to packets, told from its source rules
    (pkg/compiler/compiler.go:96-149, pkg/bpf/loader.go:230-322, bpf/xdp_firewall.c:116-248). */
module Meaning {
  import opened Words
  import opened Text
  import opened Policies
  import opened RuleMaps

  // ---- Reading a rule --------------------------------------------------------------------

  /** The IP protocol number named by a word of the policy language. */
  function ProtocolOf(word: string): Option<U8> {
    var s := Normalize(word);
    if s == "tcp" then Some(6) else if s == "udp" then Some(17) else if s == "icmp" then Some(1) else None
  }

  predicate Denies(r: Rule) {
    Normalize(r.action) == "deny"
  }

  /** The rule lists this network, cgroup, or port and protocol. */
  ghost predicate Lists(w: World, r: Rule, it: Item) {
    match it
    case BlockCidr(net) => exists j | 0 <= j < |r.srcCidrs| :: w.parseCidr(r.srcCidrs[j]) == Network(net)
    case BlockCgroup(id) => exists j | 0 <= j < |r.srcCgroups| :: w.resolve(r.srcCgroups[j]) == Some(id)
    case PortRule(port, protocol) => ListsPort(r, port, protocol)
  }

  predicate ListsPort(r: Rule, port: U16, protocol: U8) {
    HasPort(r, |r.dstPorts|, port) && NamesOneOf(r, |EffectiveProtocols(r)|, protocol)
  }

  predicate HasPort(r: Rule, n: nat, port: U16)
    requires n <= |r.dstPorts|
  {
    exists j | 0 <= j < n :: r.dstPorts[j] == port
  }

  /** One of the first `n` protocol words of the rule names this protocol. */
  predicate NamesOneOf(r: Rule, n: nat, protocol: U8)
    requires n <= |EffectiveProtocols(r)|
  {
    exists j | 0 <= j < n :: ProtocolOf(EffectiveProtocols(r)[j]) == Some(protocol)
  }

  /** Index of the last rule that lists an item, or -1. */
  ghost function LastListing(w: World, rules: seq<Rule>, it: Item): (i: int)
    ensures -1 <= i < |rules|
    ensures i >= 0 ==> Lists(w, rules[i], it)
    ensures forall j | i < j < |rules| :: !Lists(w, rules[j], it)
  {
    if rules == [] then -1
    else if Lists(w, rules[|rules| - 1], it) then |rules| - 1
    else LastListing(w, rules[..|rules| - 1], it)
  }

  /** The entry a rule writes for an item it lists. */
  function EntryFor(r: Rule, it: Item): Entry {
    if it.PortRule? then PortAction(if Denies(r) then ACTION_DENY else ACTION_ALLOW, r.id) else Block(r.id)
  }

  /** What listing a port means, with the words and the protocol numbers written out. */
  lemma ListsPortSpelledOut(w: World, r: Rule, port: U16, protocol: U8)
    ensures r.protocols == [] ==>
              (Lists(w, r, PortRule(port, protocol)) <==> port in r.dstPorts && (protocol == 6 || protocol == 17))
    ensures r.protocols != [] ==>
              (Lists(w, r, PortRule(port, protocol))
               <==> port in r.dstPorts && exists word | word in r.protocols :: WordNumbers(Normalize(word), protocol))
  {
    assert HasPort(r, |r.dstPorts|, port) <==> port in r.dstPorts;
    if r.protocols == [] && r.dstPorts != [] {
      DefaultWords();
      assert EffectiveProtocols(r)[0] == "tcp" && EffectiveProtocols(r)[1] == "udp";
    } else if r.protocols != [] {
      NamesWord(r, protocol);
    }
  }

  predicate WordNumbers(word: string, protocol: U8) {
    (word == "tcp" && protocol == 6) || (word == "udp" && protocol == 17) || (word == "icmp" && protocol == 1)
  }

  lemma NamesWord(r: Rule, protocol: U8)
    requires r.protocols != []
    ensures NamesOneOf(r, |EffectiveProtocols(r)|, protocol)
       <==> exists word | word in r.protocols :: WordNumbers(Normalize(word), protocol)
  {
    forall word
      ensures ProtocolOf(word) == Some(protocol) <==> WordNumbers(Normalize(word), protocol)
    {
      assert "tcp"[0] != "udp"[0] && "udp"[0] != "icmp"[0] && "tcp"[0] != "icmp"[0];
    }
    if NamesOneOf(r, |EffectiveProtocols(r)|, protocol) {
      var j :| 0 <= j < |r.protocols| && ProtocolOf(r.protocols[j]) == Some(protocol);
      assert r.protocols[j] in r.protocols;
    }
  }

  // ---- The writes of one rule ------------------------------------------------------------

  ghost predicate Writes(ops: seq<Op>, it: Item) {
    exists i | 0 <= i < |ops| :: ops[i].Put? && ops[i].item == it
  }

  /** Every write is the rule's own entry for its item. */
  ghost predicate Uniform(r: Rule, ops: seq<Op>) {
    forall i | 0 <= i < |ops| :: ops[i].Put? ==> ops[i].entry == EntryFor(r, ops[i].item)
  }

  lemma {:induction false} UniformImage(r: Rule, ops: seq<Op>, it: Item)
    requires Uniform(r, ops)
    ensures it in ImageOf(ops) <==> Writes(ops, it)
    ensures it in ImageOf(ops) ==> ImageOf(ops)[it] == EntryFor(r, it)
  {
    if ops != [] {
      var n := |ops| - 1;
      UniformImage(r, ops[..n], it);
      assert ops == ops[..n] + [ops[n]];
    }
  }

  /** The loader's numbers mean what the words say. */
  lemma ProtocolNumberMeans(word: string)
    requires IsProtocol(Normalize(word))
    ensures ProtocolOf(word) == Some(ProtocolNumber(Normalize(word)))
  {
    LowerIdempotent(TrimRight(TrimLeft(word)));
    assert "tcp"[0] != "udp"[0] && "udp"[0] != "icmp"[0] && "tcp"[0] != "icmp"[0];
  }

  lemma ActionCodeMeans(r: Rule)
    requires IsAction(Normalize(r.action))
    ensures ActionCode(Normalize(r.action)) == if Denies(r) then ACTION_DENY else ACTION_ALLOW
  {
    LowerIdempotent(TrimRight(TrimLeft(r.action)));
    assert "allow"[0] != "deny"[0];
  }

  lemma ActionWords()
    ensures Normalize("allow") == "allow" && Normalize("deny") == "deny" && "allow" != "deny" && "allow" != ""
  {
    assert TrimLeft("allow") == "allow" && TrimRight("allow") == "allow";
    assert TrimLeft("deny") == "deny" && TrimRight("deny") == "deny";
    assert "allow"[0] != "deny"[0];
  }

  lemma EffectiveProtocolsOk(w: World, r: Rule, j: nat)
    requires RuleOk(w, r) && j < |EffectiveProtocols(r)|
    ensures IsProtocol(Normalize(EffectiveProtocols(r)[j]))
  {
    DefaultWords();
  }

  lemma {:induction false} RuleCidrsAt(r: Rule, n: nat)
    requires n <= |r.srcCidrs|
    ensures |RuleCidrs(r, n)| == n
    ensures forall j | 0 <= j < n :: RuleCidrs(r, n)[j] == CompiledCidr(r.id, r.srcCidrs[j], Normalize(r.action))
  {
    if n > 0 {
      RuleCidrsAt(r, n - 1);
    }
  }

  lemma {:induction false} RuleCgroupsAt(r: Rule, n: nat)
    requires n <= |r.srcCgroups|
    ensures |RuleCgroups(r, n)| == n
    ensures forall j | 0 <= j < n :: RuleCgroups(r, n)[j] == CompiledCgroup(r.id, r.srcCgroups[j], Normalize(r.action))
  {
    if n > 0 {
      RuleCgroupsAt(r, n - 1);
    }
  }

  /** A rule compiles to one port rule for each of its ports and protocol words. */
  lemma {:induction false} RulePortsHold(r: Rule, n: nat, c: CompiledPort)
    requires n <= |r.dstPorts|
    ensures c in RulePorts(r, n) <==> PortItemOf(r, n, c)
  {
    if n > 0 {
      RulePortsHold(r, n - 1, c);
      var port, m := r.dstPorts[n - 1], |EffectiveProtocols(r)|;
      assert RulePorts(r, n) == RulePorts(r, n - 1) + PortProtocols(r, port, m);
      PortProtocolsHold(r, port, m, c);
      PortItemOfMore(r, n - 1, c);
    }
  }

  ghost predicate ProtocolItemOf(r: Rule, port: U16, n: nat, c: CompiledPort)
    requires n <= |EffectiveProtocols(r)|
  {
    exists k: nat | k < n :: c == PortItem(r, port, k)
  }

  lemma PortProtocolsHold(r: Rule, port: U16, n: nat, c: CompiledPort)
    requires n <= |EffectiveProtocols(r)|
    ensures c in PortProtocols(r, port, n) <==> ProtocolItemOf(r, port, n, c)
  {
    var cs := PortProtocols(r, port, n);
    if c in cs {
      var k: nat :| k < n && cs[k] == c;
      assert c == PortItem(r, port, k);
    }
    if ProtocolItemOf(r, port, n, c) {
      var k: nat :| k < n && c == PortItem(r, port, k);
      assert cs[k] == c;
    }
  }

  ghost predicate PortItemOf(r: Rule, n: nat, c: CompiledPort)
    requires n <= |r.dstPorts|
  {
    exists j: nat, k: nat | j < n && k < |EffectiveProtocols(r)| :: c == PortItem(r, r.dstPorts[j], k)
  }

  lemma PortItemOfMore(r: Rule, n: nat, c: CompiledPort)
    requires n < |r.dstPorts|
    ensures PortItemOf(r, n + 1, c)
       <==> PortItemOf(r, n, c)
            || ProtocolItemOf(r, r.dstPorts[n], |EffectiveProtocols(r)|, c)
  {
  }

  lemma PortItemMeans(w: World, r: Rule, j: nat, k: nat)
    requires RuleOk(w, r) && j < |r.dstPorts| && k < |EffectiveProtocols(r)|
    ensures var op := PortOp(PortItem(r, r.dstPorts[j], k));
            && op.Put? && op.item.PortRule? && op.item.port == r.dstPorts[j]
            && ProtocolOf(EffectiveProtocols(r)[k]) == Some(op.item.protocol)
            && op.entry == EntryFor(r, op.item)
  {
    EffectiveProtocolsOk(w, r, k);
    ActionCodeMeans(r);
    ProtocolNumberMeans(EffectiveProtocols(r)[k]);
  }

  lemma PortsUniform(w: World, r: Rule)
    requires RuleOk(w, r)
    ensures Uniform(r, PortOps(RulePorts(r, |r.dstPorts|)))
  {
    var cs := RulePorts(r, |r.dstPorts|);
    forall i | 0 <= i < |cs|
      ensures PortOps(cs)[i].entry == EntryFor(r, PortOps(cs)[i].item)
    {
      RulePortsHold(r, |r.dstPorts|, cs[i]);
      var j: nat, k: nat :| j < |r.dstPorts| && k < |EffectiveProtocols(r)| && cs[i] == PortItem(r, r.dstPorts[j], k);
      PortItemMeans(w, r, j, k);
    }
  }

  lemma WrittenPortListed(w: World, r: Rule, i: nat)
    requires RuleOk(w, r) && i < |RulePorts(r, |r.dstPorts|)|
    ensures Lists(w, r, PortOp(RulePorts(r, |r.dstPorts|)[i]).item)
  {
    var c := RulePorts(r, |r.dstPorts|)[i];
    RulePortsHold(r, |r.dstPorts|, c);
    var j: nat, k: nat :| j < |r.dstPorts| && k < |EffectiveProtocols(r)| && c == PortItem(r, r.dstPorts[j], k);
    PortItemMeans(w, r, j, k);
  }

  lemma ListedPortWritten(w: World, r: Rule, it: Item) returns (i: nat)
    requires RuleOk(w, r) && it.PortRule? && Lists(w, r, it)
    ensures i < |RulePorts(r, |r.dstPorts|)| && PortOp(RulePorts(r, |r.dstPorts|)[i]).item == it
  {
    var j: nat :| j < |r.dstPorts| && r.dstPorts[j] == it.port;
    var k: nat :| k < |EffectiveProtocols(r)| && ProtocolOf(EffectiveProtocols(r)[k]) == Some(it.protocol);
    PortItemMeans(w, r, j, k);
    RulePortsHold(r, |r.dstPorts|, PortItem(r, r.dstPorts[j], k));
    i :| 0 <= i < |RulePorts(r, |r.dstPorts|)| && RulePorts(r, |r.dstPorts|)[i] == PortItem(r, r.dstPorts[j], k);
  }

  lemma PortsWritten(w: World, r: Rule, it: Item)
    requires RuleOk(w, r)
    ensures Writes(PortOps(RulePorts(r, |r.dstPorts|)), it) <==> it.PortRule? && Lists(w, r, it)
  {
    var ops := PortOps(RulePorts(r, |r.dstPorts|));
    if Writes(ops, it) {
      var i :| 0 <= i < |ops| && ops[i].Put? && ops[i].item == it;
      WrittenPortListed(w, r, i);
    }
    if it.PortRule? && Lists(w, r, it) {
      var i := ListedPortWritten(w, r, it);
      assert ops[i].item == it;
    }
  }

  lemma CidrsWritten(w: World, r: Rule, it: Item)
    ensures Uniform(r, CidrOps(w, RuleCidrs(r, |r.srcCidrs|)))
    ensures Writes(CidrOps(w, RuleCidrs(r, |r.srcCidrs|)), it) <==> it.BlockCidr? && Lists(w, r, it)
  {
    RuleCidrsAt(r, |r.srcCidrs|);
    var ops := CidrOps(w, RuleCidrs(r, |r.srcCidrs|));
    if it.BlockCidr? && Lists(w, r, it) {
      var j :| 0 <= j < |r.srcCidrs| && w.parseCidr(r.srcCidrs[j]) == Network(it.net);
      assert ops[j].item == it;
    }
  }

  lemma CgroupsWritten(w: World, r: Rule, it: Item)
    ensures Uniform(r, CgroupOps(w, RuleCgroups(r, |r.srcCgroups|)))
    ensures Writes(CgroupOps(w, RuleCgroups(r, |r.srcCgroups|)), it) <==> it.BlockCgroup? && Lists(w, r, it)
  {
    RuleCgroupsAt(r, |r.srcCgroups|);
    var ops := CgroupOps(w, RuleCgroups(r, |r.srcCgroups|));
    if it.BlockCgroup? && Lists(w, r, it) {
      var j :| 0 <= j < |r.srcCgroups| && w.resolve(r.srcCgroups[j]) == Some(it.id);
      assert ops[j].item == it;
    }
  }

  lemma PortOpsConcat(a: seq<CompiledPort>, b: seq<CompiledPort>)
    ensures PortOps(a + b) == PortOps(a) + PortOps(b)
  {
  }

  lemma CidrOpsConcat(w: World, a: seq<CompiledCidr>, b: seq<CompiledCidr>)
    ensures CidrOps(w, a + b) == CidrOps(w, a) + CidrOps(w, b)
  {
  }

  lemma CgroupOpsConcat(w: World, a: seq<CompiledCgroup>, b: seq<CompiledCgroup>)
    ensures CgroupOps(w, a + b) == CgroupOps(w, a) + CgroupOps(w, b)
  {
  }

  /** The writes of one table, for one rule and for a list of rules. */
  function RuleOps(w: World, r: Rule, t: Table): seq<Op> {
    match t
    case CidrTable => CidrOps(w, RuleCidrs(r, |r.srcCidrs|))
    case CgroupTable => CgroupOps(w, RuleCgroups(r, |r.srcCgroups|))
    case PortTable => PortOps(RulePorts(r, |r.dstPorts|))
  }

  function RulesOps(w: World, rules: seq<Rule>, t: Table): seq<Op> {
    match t
    case CidrTable => CidrOps(w, AllCidrs(rules))
    case CgroupTable => CgroupOps(w, AllCgroups(rules))
    case PortTable => PortOps(AllPorts(rules))
  }

  lemma RuleImage(w: World, r: Rule, t: Table, it: Item)
    requires RuleOk(w, r)
    ensures it in ImageOf(RuleOps(w, r, t)) <==> TableOf(it) == t && Lists(w, r, it)
    ensures it in ImageOf(RuleOps(w, r, t)) ==> ImageOf(RuleOps(w, r, t))[it] == EntryFor(r, it)
  {
    match t {
      case CidrTable => CidrsWritten(w, r, it);
      case CgroupTable => CgroupsWritten(w, r, it);
      case PortTable => PortsUniform(w, r); PortsWritten(w, r, it);
    }
    UniformImage(r, RuleOps(w, r, t), it);
  }

  lemma RulesOpsStep(w: World, rules: seq<Rule>, t: Table)
    requires rules != []
    ensures RulesOps(w, rules, t) == RulesOps(w, rules[..|rules| - 1], t) + RuleOps(w, rules[|rules| - 1], t)
  {
    var front, r := rules[..|rules| - 1], rules[|rules| - 1];
    match t
    case CidrTable => CidrOpsConcat(w, AllCidrs(front), RuleCidrs(r, |r.srcCidrs|));
    case CgroupTable => CgroupOpsConcat(w, AllCgroups(front), RuleCgroups(r, |r.srcCgroups|));
    case PortTable => PortOpsConcat(AllPorts(front), RulePorts(r, |r.dstPorts|));
  }

  // ---- The image of a policy -------------------------------------------------------------

  /** Every item of the table that some rule lists is there, as its last lister wrote it. */
  lemma {:induction false} TableImage(w: World, rules: seq<Rule>, t: Table, it: Item)
    requires forall i | 0 <= i < |rules| :: RuleOk(w, rules[i])
    ensures var img, i := ImageOf(RulesOps(w, rules, t)), LastListing(w, rules, it);
            && (it in img <==> TableOf(it) == t && i >= 0)
            && (it in img ==> img[it] == EntryFor(rules[i], it))
  {
    if rules != [] {
      var front, r := rules[..|rules| - 1], rules[|rules| - 1];
      TableImage(w, front, t, it);
      RuleImage(w, r, t, it);
      RulesOpsStep(w, rules, t);
      ImageConcat(RulesOps(w, front, t), RuleOps(w, r, t));
    }
  }

  /** The image an accepted policy publishes. */
  function PolicyImage(w: World, p: Policy): Image {
    ImageOf(PolicyOps(w, CompiledForm(p)))
  }

  /** The published image, read off the rules: an item is present iff some rule lists it, and carries
      the ID and action of the last rule that does. */
  lemma PolicyImageMeans(w: World, p: Policy, it: Item)
    requires RulesOk(w, p.rules)
    ensures it in PolicyImage(w, p) <==> LastListing(w, p.rules, it) >= 0
    ensures it in PolicyImage(w, p) ==> PolicyImage(w, p)[it] == EntryFor(p.rules[LastListing(w, p.rules, it)], it)
  {
    var a, b, c := RulesOps(w, p.rules, CidrTable), RulesOps(w, p.rules, CgroupTable), RulesOps(w, p.rules, PortTable);
    TableImage(w, p.rules, CidrTable, it);
    TableImage(w, p.rules, CgroupTable, it);
    TableImage(w, p.rules, PortTable, it);
    assert PolicyOps(w, CompiledForm(p)) == a + b + c;
    ImageConcat(a, b);
    ImageConcat(a + b, c);
    assert TableOf(it) == CidrTable || TableOf(it) == CgroupTable || TableOf(it) == PortTable;
  }
}
