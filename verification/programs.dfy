/** Per-CPU packet counters (bpf/headers/common.h:93-99) and their totals (pkg/bpf/loader.go:433-459). */
module Counters {
  import opened Words

  datatype Stats = Stats(rx: U64, rxBytes: U64, pass: U64, drop: U64)

  const ZERO := Stats(0, 0, 0, 0)

  /** Every received packet was passed or dropped; all counters wrap at 2^64. */
  predicate Balanced(s: Stats) {
    s.rx == Add64(s.pass, s.drop)
  }

  ghost predicate AllBalanced(stats: seq<Stats>) {
    forall i | 0 <= i < |stats| :: Balanced(stats[i])
  }

  /** One packet counted. */
  function Tally(s: Stats, length: U32, dropped: bool): Stats {
    Stats(Add64(s.rx, 1), Add64(s.rxBytes, length),
          Add64(s.pass, if dropped then 0 else 1), Add64(s.drop, if dropped then 1 else 0))
  }

  /** The packets one CPU has counted: length and whether dropped. */
  datatype Tallied = Tallied(length: U32, dropped: bool)

  function Bytes(h: seq<Tallied>): nat {
    if h == [] then 0 else Bytes(h[..|h| - 1]) + h[|h| - 1].length
  }

  function Drops(h: seq<Tallied>): (n: nat)
    ensures n <= |h|
  {
    if h == [] then 0 else Drops(h[..|h| - 1]) + if h[|h| - 1].dropped then 1 else 0
  }

  /** The counters say how many packets and bytes came, how many packets were dropped, and that all
      others were passed, modulo 2^64. */
  ghost predicate Says(s: Stats, h: seq<Tallied>) {
    s == Stats(|h| % MOD64, Bytes(h) % MOD64, (|h| - Drops(h)) % MOD64, Drops(h) % MOD64)
  }

  ghost predicate AllSay(stats: seq<Stats>, counted: seq<seq<Tallied>>) {
    |stats| == |counted| && forall i | 0 <= i < |stats| :: Says(stats[i], counted[i])
  }

  lemma NothingCounted()
    ensures Says(ZERO, [])
  {
  }

  lemma SaysMore(s: Stats, h: seq<Tallied>, c: Tallied)
    requires Says(s, h)
    ensures Says(Tally(s, c.length, c.dropped), h + [c])
  {
    assert (h + [c])[..|h|] == h;
    AddIsMod(|h|, 1);
    AddIsMod(Bytes(h), c.length);
    AddIsMod(|h| - Drops(h), if c.dropped then 0 else 1);
    AddIsMod(Drops(h), if c.dropped then 1 else 0);
  }

  /** So received is passed plus dropped. */
  lemma SaysBalanced(s: Stats, h: seq<Tallied>)
    requires Says(s, h)
    ensures Balanced(s)
  {
    AddModMod(|h| - Drops(h), Drops(h));
  }

  lemma AllSayBalanced(stats: seq<Stats>, counted: seq<seq<Tallied>>)
    requires AllSay(stats, counted)
    ensures AllBalanced(stats)
  {
    forall i | 0 <= i < |stats|
      ensures Balanced(stats[i])
    {
      SaysBalanced(stats[i], counted[i]);
    }
  }

  /** One more packet on one CPU. */
  lemma AllSayMore(stats: seq<Stats>, counted: seq<seq<Tallied>>, cpu: nat, c: Tallied)
    requires AllSay(stats, counted) && cpu < |stats|
    ensures AllSay(stats[cpu := Tally(stats[cpu], c.length, c.dropped)], counted[cpu := counted[cpu] + [c]])
  {
    SaysMore(stats[cpu], counted[cpu], c);
  }

  function Plus(a: Stats, b: Stats): Stats {
    Stats(Add64(a.rx, b.rx), Add64(a.rxBytes, b.rxBytes), Add64(a.pass, b.pass), Add64(a.drop, b.drop))
  }

  /** Field by field, the sums over all CPUs before any wrap-around. */
  datatype Sums = Sums(rx: nat, rxBytes: nat, pass: nat, drop: nat)

  function SumOver(cpus: seq<Stats>): Sums {
    if cpus == [] then Sums(0, 0, 0, 0) else
      var t, s := SumOver(cpus[..|cpus| - 1]), cpus[|cpus| - 1];
      Sums(t.rx + s.rx, t.rxBytes + s.rxBytes, t.pass + s.pass, t.drop + s.drop)
  }

  ghost predicate IsTotal(total: Stats, cpus: seq<Stats>) {
    var t := SumOver(cpus);
    total == Stats(t.rx % MOD64, t.rxBytes % MOD64, t.pass % MOD64, t.drop % MOD64)
  }

  lemma PlusBalances(a: Stats, b: Stats)
    requires Balanced(a) && Balanced(b)
    ensures Balanced(Plus(a, b))
  {
  }

  lemma TotalMore(total: Stats, cpus: seq<Stats>, s: Stats)
    requires IsTotal(total, cpus)
    ensures IsTotal(Plus(total, s), cpus + [s])
  {
    assert (cpus + [s])[..|cpus|] == cpus;
    var t := SumOver(cpus);
    AddIsMod(t.rx, s.rx);
    AddIsMod(t.rxBytes, s.rxBytes);
    AddIsMod(t.pass, s.pass);
    AddIsMod(t.drop, s.drop);
  }

  /** The totals are the sums over the XDP and the TC counters of every CPU, and stay balanced. */
  method GetStats(xdp: seq<Stats>, tc: seq<Stats>) returns (total: Stats)
    ensures IsTotal(total, xdp + tc)
    ensures AllBalanced(xdp + tc) ==> Balanced(total)
  {
    ghost var cpus := xdp + tc;
    total := ZERO;
    for i := 0 to |xdp|
      invariant IsTotal(total, cpus[..i]) && (AllBalanced(cpus) ==> Balanced(total))
    {
      total := AddOne(total, xdp[i], cpus, i);
    }
    for i := 0 to |tc|
      invariant IsTotal(total, cpus[..|xdp| + i]) && (AllBalanced(cpus) ==> Balanced(total))
    {
      total := AddOne(total, tc[i], cpus, |xdp| + i);
    }
    assert cpus[..|cpus|] == cpus;
  }

  method AddOne(total: Stats, s: Stats, ghost cpus: seq<Stats>, ghost i: nat) returns (more: Stats)
    requires i < |cpus| && cpus[i] == s && IsTotal(total, cpus[..i])
    ensures more == Plus(total, s) && IsTotal(more, cpus[..i + 1])
    ensures Balanced(total) && Balanced(s) ==> Balanced(more)
  {
    more := Plus(total, s);
    TotalMore(total, cpus[..i], s);
    assert cpus[..i] + [s] == cpus[..i + 1];
    if Balanced(total) && Balanced(s) {
      PlusBalances(total, s);
    }
  }
}

/** The two packet programs with their state: counters, audit events and, for TC, the flow table. */
module Programs {
  import opened Words
  import opened Lpm
  import opened RuleMaps
  import opened Xdp
  import opened Counters
  import opened Loader
  import opened Conntrack

  const VERDICT_PASS: U8 := 0
  const VERDICT_DROP: U8 := 1
  const REASON_OK: U16 := 0
  const REASON_UNTRACKED_NON_SYN: U16 := 5
  const UNTRACKED_RULE: U32 := 201

  /** struct audit_event; addresses are the words loaded from the packet. */
  datatype AuditEvent = AuditEvent(
    time: U64, src: U32, dst: U32, srcPort: U16, dstPort: U16, protocol: U8,
    verdict: U8, reason: U16, ruleId: U32, cgroup: U64, identity: U32)

  /** The event a decision emits, if any: identity drops repeat the rule ID as identity. */
  function EventsOf(p: Packet, d: Decision, time: U64): seq<AuditEvent> {
    match d
    case Pass => []
    case PassAudited(id) =>
      [AuditEvent(time, LeWord(p.src), LeWord(p.dst), SrcPort(p), DstPort(p), p.protocol,
                  VERDICT_PASS, REASON_OK, id, p.cgroup, 0)]
    case Drop(reason, id) =>
      [AuditEvent(time, LeWord(p.src), LeWord(p.dst), SrcPort(p), DstPort(p), p.protocol,
                  VERDICT_DROP, reason, id, p.cgroup, if reason == REASON_IDENTITY_DENY then id else 0)]
  }

  /** bpf_map_lookup_elem on the trie: the best match for the lookup key over all stored keys. */
  method TrieLookup(m: Entries, g: U32, src: Ip) returns (r: Option<Slot>)
    ensures r.Some? ==> TrieAnswers(m, LookupKey(g, src), r.value)
    ensures r.None? ==> forall s | s in m && s.item.BlockCidr? ::
                           !TrieMatch(StoredKey(s.gen, s.item.net), LookupKey(g, src))
  {
    r := None;
    var todo := m.Keys;
    while todo != {}
      invariant todo <= m.Keys
      invariant r.Some? ==> r.value in m && r.value !in todo && Matches(r.value, g, src)
      invariant r.None? ==> forall s | s in m && s !in todo :: !Matches(s, g, src)
      invariant r.Some? ==> forall s | s in m && s !in todo && Matches(s, g, src) ::
                              s.item.net.plen <= r.value.item.net.plen
    {
      var s :| s in todo;
      todo := todo - {s};
      if Matches(s, g, src) && (r.None? || r.value.item.net.plen < s.item.net.plen) {
        r := Some(s);
      }
    }
    forall s | s in m && s.item.BlockCidr?
      ensures Matches(s, g, src) <==> TrieMatch(StoredKey(s.gen, s.item.net), LookupKey(g, src))
    {
      TrieMatchIsContainment(s.gen, s.item.net, g, src);
    }
  }

  predicate Matches(s: Slot, g: U32, src: Ip) {
    s.item.BlockCidr? && s.gen == g && Contains(s.item.net, src)
  }

  class XdpProgram {
    const maps: FirewallLoader
    var stats: seq<Stats>
    var events: seq<AuditEvent>
    /** What each CPU has counted. */
    ghost var counted: seq<seq<Tallied>>

    ghost predicate Valid()
      reads this
    {
      AllSay(stats, counted)
    }

    constructor (maps: FirewallLoader, cpus: nat)
      ensures Valid() && this.maps == maps && |stats| == cpus && events == []
      ensures forall i | 0 <= i < cpus :: counted[i] == []
    {
      this.maps, events := maps, [];
      stats := seq(cpus, _ => ZERO);
      counted := seq(cpus, _ => []);
      NothingCounted();
    }

    /** The lookups of one packet, none of them disturbed by an apply. */
    method Classify(p: Packet) returns (d: Decision)
      ensures d == Decide(GenView(maps.entries, maps.activeGen), p)
    {
      var gen := maps.activeGen;
      if p.cgroup > 0 && Slot(gen, BlockCgroup(p.cgroup)) in maps.entries {
        return Drop(REASON_IDENTITY_DENY, maps.entries[Slot(gen, BlockCgroup(p.cgroup))].ruleId);
      }
      var hit := TrieLookup(maps.entries, gen, p.src);
      TrieLookupIsLongest(maps.entries, gen, p.src, if hit.Some? then hit.value else Slot(gen, BlockCgroup(0)));
      if hit.Some? {
        return Drop(REASON_CIDR_BLOCKED, maps.entries[hit.value].ruleId);
      }
      var port := DstPort(p);
      if port > 0 && Slot(gen, PortRule(port, p.protocol)) in maps.entries {
        var e := maps.entries[Slot(gen, PortRule(port, p.protocol))];
        if e.PortAction? && e.action == ACTION_DENY {
          return Drop(REASON_PORT_BLOCKED, e.ruleId);
        } else if e.PortAction? && e.action == ACTION_ALLOW {
          return PassAudited(e.ruleId);
        }
      }
      return Pass;
    }

    /** `frame` is None for anything but a whole IPv4 header; `room` says whether the ring buffer has space. */
    method XdpFirewallFunc(cpu: nat, frame: Option<Packet>, room: bool, now: U64) returns (drop: bool)
      requires Valid() && cpu < |stats|
      modifies this
      ensures Valid() && |stats| == |old(stats)|
      ensures frame.None? ==> !drop && counted == old(counted) && events == old(events)
      ensures frame.Some? ==>
                var d := Decide(GenView(maps.entries, maps.activeGen), frame.value);
                && drop == d.Drop?
                && counted == old(counted)[cpu := old(counted)[cpu] + [Tallied(frame.value.length, drop)]]
                && events == old(events) + if room then EventsOf(frame.value, d, now) else []
    {
      if frame.None? {
        return false;
      }
      var p := frame.value;
      var st := stats[cpu];
      st := st.(rx := Add64(st.rx, 1), rxBytes := Add64(st.rxBytes, p.length));
      var d := Classify(p);
      drop := d.Drop?;
      if drop {
        st := st.(drop := Add64(st.drop, 1));
      } else {
        st := st.(pass := Add64(st.pass, 1));
      }
      AllSayMore(stats, counted, cpu, Tallied(p.length, drop));
      assert st == Tally(stats[cpu], p.length, drop);
      stats, counted := stats[cpu := st], counted[cpu := counted[cpu] + [Tallied(p.length, drop)]];
      if room {
        events := events + EventsOf(p, d, now);
      }
    }
  }

  /** The event of an untracked packet, with the fixed rule ID such drops carry. */
  function UntrackedEvent(s: Segment, cgroup: U64): AuditEvent {
    AuditEvent(s.time, s.key.srcIp, s.key.dstIp, s.key.srcPort, s.key.dstPort, PROTO_TCP,
               VERDICT_DROP, REASON_UNTRACKED_NON_SYN, UNTRACKED_RULE, cgroup, 0)
  }

  class TcProgram {
    var flows: FlowTable
    var stats: seq<Stats>
    var events: seq<AuditEvent>
    /** What each CPU has counted. */
    ghost var counted: seq<seq<Tallied>>

    ghost predicate Valid()
      reads this
    {
      AllSay(stats, counted)
    }

    constructor (cpus: nat)
      ensures Valid() && flows == map[] && |stats| == cpus && events == []
      ensures forall i | 0 <= i < cpus :: counted[i] == []
    {
      flows, events := map[], [];
      stats := seq(cpus, _ => ZERO);
      counted := seq(cpus, _ => []);
      NothingCounted();
    }

    /** `frame` is None for anything but a whole TCP header over IPv4: such packets pass uncounted. */
    method TcFirewallFunc(cpu: nat, frame: Option<Segment>, cgroup: U64, room: bool) returns (drop: bool)
      requires Valid() && cpu < |stats|
      modifies this
      ensures Valid() && |stats| == |old(stats)|
      ensures frame.None? ==> !drop && flows == old(flows) && counted == old(counted) && events == old(events)
      ensures frame.Some? ==>
                && drop == !Accepted(old(flows), frame.value)
                && flows == Process(old(flows), frame.value)
                && counted == old(counted)[cpu := old(counted)[cpu] + [Tallied(frame.value.length, drop)]]
                && events == old(events)
                     + if drop && room then [UntrackedEvent(frame.value, cgroup)] else []
    {
      if frame.None? {
        return false;
      }
      var s := frame.value;
      drop := Track(s);
      AllSayMore(stats, counted, cpu, Tallied(s.length, drop));
      stats := stats[cpu := Tally(stats[cpu], s.length, drop)];
      counted := counted[cpu := counted[cpu] + [Tallied(s.length, drop)]];
      if drop && room {
        events := events + [UntrackedEvent(s, cgroup)];
      }
    }

    /** The flow-table part, update by update. */
    method Track(s: Segment) returns (drop: bool)
      modifies this`flows
      ensures drop == !Accepted(old(flows), s) && flows == Process(old(flows), s)
    {
      var fwd, rev := s.key, Reverse(s.key);
      if fwd !in flows && rev !in flows {
        if PureSyn(s) {
          var initial := FlowState(SYN_SENT, 1, s.length, s.time);
          flows := flows[fwd := initial];
          flows := flows[rev := initial];
          return false;
        }
        return true;
      }
      var at := if fwd in flows then fwd else rev;
      if flows[at].state == SYN_SENT && s.ack {
        flows := flows[at := flows[at].(state := ESTABLISHED)];
        if rev in flows {
          flows := flows[rev := flows[rev].(state := ESTABLISHED)];
        }
      }
      if FinOrRst(s) {
        flows := flows - {fwd};
        flows := flows - {rev};
      } else {
        var e := flows[at];
        flows := flows[at := FlowState(e.state, Add64(e.packets, 1), Add64(e.bytes, s.length), s.time)];
      }
      return false;
    }
  }
}
