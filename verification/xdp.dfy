/** The XDP program's decision: three ordered lookups in one generation (bpf/xdp_firewall.c:96-248). */
module Xdp {
  import opened Words
  import opened Lpm
  import opened RuleMaps

  const REASON_CIDR_BLOCKED: U16 := 1
  const REASON_PORT_BLOCKED: U16 := 2
  const REASON_IDENTITY_DENY: U16 := 4
  const PROTO_TCP: U8 := 6
  const PROTO_UDP: U8 := 17

  /** An IPv4 packet. `l4` holds source and destination port when a whole transport header is there. */
  datatype Packet = Packet(
    src: Ip, dst: Ip, protocol: U8, l4: Option<(U16, U16)>, cgroup: U64, length: U32)

  function DstPort(p: Packet): U16 {
    if (p.protocol == PROTO_TCP || p.protocol == PROTO_UDP) && p.l4.Some? then p.l4.value.1 else 0
  }

  function SrcPort(p: Packet): U16 {
    if (p.protocol == PROTO_TCP || p.protocol == PROTO_UDP) && p.l4.Some? then p.l4.value.0 else 0
  }

  /** `Pass` leaves no event; the other two emit one that names a rule. */
  datatype Decision = Pass | PassAudited(ruleId: U32) | Drop(reason: U16, ruleId: U32)

  // ---- Longest prefix --------------------------------------------------------------------

  ghost predicate Listed(img: Image, src: Ip, c: Net) {
    BlockCidr(c) in img && Contains(c, src)
  }

  ghost predicate IsLongest(img: Image, src: Ip, c: Net) {
    Listed(img, src, c) && forall d: Net | Listed(img, src, d) :: d.plen <= c.plen
  }

  ghost function Longest(img: Image, src: Ip): (r: Option<Net>)
    ensures r.None? <==> forall c: Net :: !Listed(img, src, c)
    ensures r.Some? ==> IsLongest(img, src, r.value)
  {
    if c: Net :| Listed(img, src, c) then
      LongestExists(img, src, c);
      var l: Net :| IsLongest(img, src, l);
      Some(l)
    else None
  }

  lemma {:induction false} LongestExists(img: Image, src: Ip, c: Net)
    requires Listed(img, src, c)
    ensures exists l: Net :: IsLongest(img, src, l)
    decreases 32 - c.plen
  {
    if !IsLongest(img, src, c) {
      var d: Net :| Listed(img, src, d) && d.plen > c.plen;
      LongestExists(img, src, d);
    }
  }

  /** The longest listed network is unique. */
  lemma LongestUnique(img: Image, src: Ip, c: Net)
    requires IsLongest(img, src, c)
    ensures Longest(img, src) == Some(c)
  {
    SameLengthSameNet(c, Longest(img, src).value, src);
  }

  /** The kernel's answer for a lookup key over the whole trie, every generation in it. */
  ghost predicate TrieAnswers(m: Entries, key: LpmKey, s: Slot) {
    && s in m && s.item.BlockCidr? && TrieMatch(StoredKey(s.gen, s.item.net), key)
    && forall s' | s' in m && s'.item.BlockCidr? && TrieMatch(StoredKey(s'.gen, s'.item.net), key) ::
         s'.item.net.plen <= s.item.net.plen
  }

  /** Byte-level trie lookup is generation-isolated and returns the longest listed network that
      contains the source address (section 5.1 of RFC 4632). */
  lemma TrieLookupIsLongest(m: Entries, g: U32, src: Ip, s: Slot)
    ensures TrieAnswers(m, LookupKey(g, src), s)
       <==> s.gen == g && s.item.BlockCidr? && Longest(GenView(m, g), src) == Some(s.item.net)
    ensures Longest(GenView(m, g), src).None?
       <==> forall s' | s' in m && s'.item.BlockCidr? :: !TrieMatch(StoredKey(s'.gen, s'.item.net), LookupKey(g, src))
  {
    var key, img := LookupKey(g, src), GenView(m, g);
    forall s' | s' in m && s'.item.BlockCidr?
      ensures TrieMatch(StoredKey(s'.gen, s'.item.net), key) <==> s'.gen == g && Listed(img, src, s'.item.net)
    {
      TrieMatchIsContainment(s'.gen, s'.item.net, g, src);
    }
    forall c: Net | Listed(img, src, c)
      ensures Slot(g, BlockCidr(c)) in m && TrieMatch(StoredKey(g, c), key)
    {
      TrieMatchIsContainment(g, c, g, src);
    }
    if TrieAnswers(m, key, s) {
      forall d: Net | Listed(img, src, d)
        ensures d.plen <= s.item.net.plen
      {
        assert Slot(g, BlockCidr(d)).item.BlockCidr?;
      }
      LongestUnique(img, src, s.item.net);
    }
  }

  // ---- The decision ----------------------------------------------------------------------

  ghost predicate CgroupHit(img: Image, p: Packet) {
    p.cgroup > 0 && BlockCgroup(p.cgroup) in img
  }

  function PortDecision(img: Image, p: Packet): Decision {
    var it := PortRule(DstPort(p), p.protocol);
    if DstPort(p) > 0 && it in img then
      var e := img[it];
      if e == PortAction(ACTION_DENY, e.ruleId) then Drop(REASON_PORT_BLOCKED, e.ruleId)
      else if e == PortAction(ACTION_ALLOW, e.ruleId) then PassAudited(e.ruleId)
      else Pass
    else Pass
  }

  /** Cgroup first, then the longest prefix, then the port rule. */
  ghost function Decide(img: Image, p: Packet): Decision {
    if CgroupHit(img, p) then Drop(REASON_IDENTITY_DENY, img[BlockCgroup(p.cgroup)].ruleId)
    else match Longest(img, p.src)
         case Some(c) => Drop(REASON_CIDR_BLOCKED, img[BlockCidr(c)].ruleId)
         case None => PortDecision(img, p)
  }

  /** Every entry of `sub` is in `img` with the same value. */
  ghost predicate Within(sub: Image, img: Image) {
    forall it | it in sub :: it in img && img[it] == sub[it]
  }

  // ---- Explanations ----------------------------------------------------------------------

  /** A drop that names an entry of the image that applies to the packet. For a network it need not be
      the longest one. */
  ghost predicate Explains(img: Image, p: Packet, d: Decision)
    requires d.Drop?
  {
    if d.reason == REASON_IDENTITY_DENY then CgroupHit(img, p) && img[BlockCgroup(p.cgroup)].ruleId == d.ruleId
    else if d.reason == REASON_CIDR_BLOCKED then exists c: Net :: NamesNet(img, p, c, d.ruleId)
    else PortDecision(img, p) == d
  }

  ghost predicate NamesNet(img: Image, p: Packet, c: Net, ruleId: U32) {
    Listed(img, p.src, c) && img[BlockCidr(c)].ruleId == ruleId
  }

  lemma ExplainedIsDropped(img: Image, p: Packet, d: Decision)
    requires d.Drop? && Explains(img, p, d)
    ensures Decide(img, p).Drop?
  {
  }

  /** What a lookup answers from part of an image is explained by the whole. */
  lemma PartExplained(sub: Image, img: Image, p: Packet)
    requires Within(sub, img)
    ensures CgroupHit(sub, p) ==>
              Explains(img, p, Drop(REASON_IDENTITY_DENY, sub[BlockCgroup(p.cgroup)].ruleId))
    ensures Longest(sub, p.src).Some? ==>
              Explains(img, p, Drop(REASON_CIDR_BLOCKED, sub[BlockCidr(Longest(sub, p.src).value)].ruleId))
    ensures PortDecision(sub, p).Drop? ==> Explains(img, p, PortDecision(sub, p))
  {
    if Longest(sub, p.src).Some? {
      var c := Longest(sub, p.src).value;
      assert NamesNet(img, p, c, sub[BlockCidr(c)].ruleId);
    }
  }

  /** Dropping is monotone: each lookup that drops with part of an image drops with the whole. */
  lemma DropIsMonotone(sub: Image, img: Image, p: Packet)
    requires Within(sub, img)
    ensures CgroupHit(sub, p) ==> Decide(img, p).Drop?
    ensures Longest(sub, p.src).Some? ==> Decide(img, p).Drop?
    ensures PortDecision(sub, p).Drop? ==> Decide(img, p).Drop?
    ensures Decide(sub, p).Drop? ==> Decide(img, p).Drop?
  {
    PartExplained(sub, img, p);
    if CgroupHit(sub, p) {
      ExplainedIsDropped(img, p, Drop(REASON_IDENTITY_DENY, sub[BlockCgroup(p.cgroup)].ruleId));
    }
    if Longest(sub, p.src).Some? {
      var c := Longest(sub, p.src).value;
      ExplainedIsDropped(img, p, Drop(REASON_CIDR_BLOCKED, sub[BlockCidr(c)].ruleId));
    }
    if PortDecision(sub, p).Drop? {
      ExplainedIsDropped(img, p, PortDecision(sub, p));
    }
  }

  // ---- Port entries that can matter ------------------------------------------------------

  /** Some packet has this destination port and protocol. */
  predicate Matchable(port: U16, protocol: U8) {
    port > 0 && (protocol == PROTO_TCP || protocol == PROTO_UDP)
  }

  /** A port entry that is not matchable, such as any for ICMP, changes no decision. */
  lemma UnmatchableIsInert(img: Image, port: U16, protocol: U8, e: Entry, p: Packet)
    requires !Matchable(port, protocol)
    ensures PortDecision(img[PortRule(port, protocol) := e], p) == PortDecision(img, p)
    ensures Decide(img[PortRule(port, protocol) := e], p) == Decide(img, p)
  {
    var img' := img[PortRule(port, protocol) := e];
    assert forall c: Net :: Listed(img', p.src, c) <==> Listed(img, p.src, c);
    if Longest(img', p.src).Some? {
      LongestUnique(img, p.src, Longest(img', p.src).value);
    }
  }

  /** Exactly the matchable entries can drop a packet. */
  lemma MatchableExactly(port: U16, protocol: U8)
    ensures Matchable(port, protocol)
       <==> exists e: Entry, p: Packet :: PortDecision(map[PortRule(port, protocol) := e], p).Drop?
  {
    if Matchable(port, protocol) {
      var e := PortAction(ACTION_DENY, 0);
      var p := Packet(Ip(0, 0, 0, 0), Ip(0, 0, 0, 0), protocol, Some((0, port)), 0, 0);
      assert PortDecision(map[PortRule(port, protocol) := e], p).Drop?;
    }
  }

  // ---- Spelled out -----------------------------------------------------------------------

  /** The ports of a packet: those of its transport header for TCP and UDP, else none. */
  lemma PortsSpelledOut(p: Packet, sport: U16, dport: U16)
    ensures (p.protocol == 6 || p.protocol == 17) && p.l4 == Some((sport, dport)) ==>
              SrcPort(p) == sport && DstPort(p) == dport
    ensures (p.protocol != 6 && p.protocol != 17) || p.l4.None? ==> SrcPort(p) == 0 && DstPort(p) == 0
  {
  }

  /** A deny entry for a port and protocol drops exactly the packets to that destination port. */
  lemma DenyEntryDrops(port: U16, protocol: U8, id: U32, p: Packet)
    ensures PortDecision(map[PortRule(port, protocol) := PortAction(2, id)], p).Drop?
       <==> && (protocol == 6 || protocol == 17) && p.protocol == protocol
            && p.l4.Some? && p.l4.value.1 == port && port > 0
    ensures !PortDecision(map[PortRule(port, protocol) := PortAction(1, id)], p).Drop?
  {
  }

  /** The order of the lookups: a listed cgroup decides, then a containing network, then the port. */
  lemma DecisionSpelledOut(img: Image, p: Packet)
    ensures var d := Decide(img, p);
            var cgroup := p.cgroup > 0 && BlockCgroup(p.cgroup) in img;
            var net := exists c: Net :: BlockCidr(c) in img && Contains(c, p.src);
            && (d.Drop? && d.reason == 4 <==> cgroup)
            && (d.Drop? && d.reason == 1 <==> !cgroup && net)
            && (d.Drop? && d.reason == 2 <==> !cgroup && !net && PortDecision(img, p).Drop?)
            && (!cgroup && !net ==> d == PortDecision(img, p))
  {
    assert Longest(img, p.src).Some? <==> exists c: Net :: Listed(img, p.src, c);
    if c: Net :| BlockCidr(c) in img && Contains(c, p.src) {
      assert Listed(img, p.src, c);
    }
  }
}
