/** The contents of the three rule maps (bpf/xdp_firewall.c:24-47) and the writes that fill them
    (pkg/bpf/loader.go:230-322). The three maps are kept as one map whose keys carry their table. */
module RuleMaps {
  import opened Words
  import opened Lpm
  import opened Text
  import opened Policies

  const ACTION_ALLOW: U32 := 1
  const ACTION_DENY: U32 := 2
  const CAPACITY := 1024

  /** A key without its generation. */
  datatype Item =
    | BlockCidr(net: Net)
    | BlockCgroup(id: U64)
    | PortRule(port: U16, protocol: U8)

  /** lpm_blocklist and cgroup_identity_map store a rule ID; port_rules_map an action as well. */
  datatype Entry = Block(ruleId: U32) | PortAction(action: U32, ruleId: U32)

  datatype Table = CidrTable | CgroupTable | PortTable

  function TableOf(it: Item): Table {
    match it
    case BlockCidr(_) => CidrTable
    case BlockCgroup(_) => CgroupTable
    case PortRule(_, _) => PortTable
  }

  datatype Slot = Slot(gen: U32, item: Item)

  type Entries = map<Slot, Entry>

  /** What one generation holds. */
  type Image = map<Item, Entry>

  ghost predicate IsView(m: Entries, g: U32, img: Image) {
    && (forall it :: it in img <==> Slot(g, it) in m)
    && (forall it :: it in img ==> img[it] == m[Slot(g, it)])
  }

  lemma ViewExists(m: Entries, g: U32)
    ensures exists img: Image :: IsView(m, g, img)
  {
    var img: Image := map s | s in m && s.gen == g :: s.item := m[s];
    assert IsView(m, g, img);
  }

  /** The part of the maps that carries generation `g`. */
  ghost function GenView(m: Entries, g: U32): (img: Image)
    ensures IsView(m, g, img)
  {
    ViewExists(m, g);
    var img: Image :| IsView(m, g, img);
    img
  }

  function TableSlots(m: Entries, t: Table): set<Slot> {
    set s | s in m && TableOf(s.item) == t
  }

  function TableItems(img: Image, t: Table): set<Item> {
    set it | it in img && TableOf(it) == t
  }

  /** A put succeeds on an existing key or in a map that is not full. */
  predicate Room(m: Entries, s: Slot) {
    s in m || |TableSlots(m, TableOf(s.item))| < CAPACITY
  }

  // ---- The writes a compiled policy asks for ---------------------------------------------

  /** One staging call: a put, or an item refused before any put (bad text, unresolvable path). */
  datatype Op = Put(item: Item, entry: Entry) | Refused

  function ProtocolNumber(protocol: string): U8 {
    var p := ToLower(protocol);
    if p == "udp" then 17 else if p == "icmp" then 1 else 6
  }

  function ActionCode(action: string): U32 {
    if ToLower(action) == "allow" then ACTION_ALLOW else ACTION_DENY
  }

  function CidrOp(w: World, c: CompiledCidr): Op {
    match w.parseCidr(c.text)
    case Network(net) => Put(BlockCidr(net), Block(c.ruleId))
    case _ => Refused
  }

  function CgroupOp(w: World, c: CompiledCgroup): Op {
    match w.resolve(c.path)
    case Some(id) => Put(BlockCgroup(id), Block(c.ruleId))
    case None => Refused
  }

  function PortOp(c: CompiledPort): Op {
    Put(PortRule(c.port, ProtocolNumber(c.protocol)), PortAction(ActionCode(c.action), c.ruleId))
  }

  function CidrOps(w: World, cs: seq<CompiledCidr>): (ops: seq<Op>)
    ensures |ops| == |cs|
  {
    seq(|cs|, i requires 0 <= i < |cs| => CidrOp(w, cs[i]))
  }

  function CgroupOps(w: World, cs: seq<CompiledCgroup>): (ops: seq<Op>)
    ensures |ops| == |cs|
  {
    seq(|cs|, i requires 0 <= i < |cs| => CgroupOp(w, cs[i]))
  }

  function PortOps(cs: seq<CompiledPort>): (ops: seq<Op>)
    ensures |ops| == |cs|
  {
    seq(|cs|, i requires 0 <= i < |cs| => PortOp(cs[i]))
  }

  /** The staging calls of an apply, in the order the swapper makes them. */
  function PolicyOps(w: World, cp: CompiledPolicy): seq<Op> {
    CidrOps(w, cp.cidrs) + CgroupOps(w, cp.cgroups) + PortOps(cp.ports)
  }

  predicate AllPuts(ops: seq<Op>) {
    forall i | 0 <= i < |ops| :: ops[i].Put?
  }

  /** The image the writes leave behind: a later write to a key replaces an earlier one. */
  function ImageOf(ops: seq<Op>): Image {
    if ops == [] then map[] else
      var img := ImageOf(ops[..|ops| - 1]);
      match ops[|ops| - 1]
      case Put(it, e) => img[it := e]
      case Refused => img
  }

  lemma {:induction false} ImageConcat(a: seq<Op>, b: seq<Op>)
    ensures ImageOf(a + b) == ImageOf(a) + ImageOf(b)
  {
    if b == [] {
      assert a + b == a;
    } else {
      var n := |b| - 1;
      ImageConcat(a, b[..n]);
      assert (a + b)[..|a + b| - 1] == a + b[..n];
    }
  }

  lemma ImageStep(ops: seq<Op>, n: nat)
    requires n < |ops| && ops[n].Put?
    ensures ImageOf(ops[..n + 1]) == ImageOf(ops[..n])[ops[n].item := ops[n].entry]
  {
    assert ops[..n + 1][..n] == ops[..n];
  }

  lemma ViewAfterDelete(m: Entries, s: Slot, g: U32)
    requires s.gen != g
    ensures GenView(m - {s}, g) == GenView(m, g)
  {
  }

  lemma ViewAfterPut(m: Entries, s: Slot, e: Entry, g: U32)
    ensures GenView(m[s := e], g) == if s.gen == g then GenView(m, g)[s.item := e] else GenView(m, g)
  {
  }

  // ---- Capacity --------------------------------------------------------------------------

  lemma {:induction false} PutCounts(m: Entries, s: Slot, e: Entry, t: Table)
    ensures |TableSlots(m[s := e], t)| == |TableSlots(m, t)| + if TableOf(s.item) == t && s !in m then 1 else 0
  {
    if TableOf(s.item) == t {
      assert TableSlots(m[s := e], t) == TableSlots(m, t) + {s};
    } else {
      assert TableSlots(m[s := e], t) == TableSlots(m, t);
    }
  }

  lemma {:induction false} SubsetCount<T>(a: set<T>, b: set<T>)
    requires a <= b
    ensures |a| <= |b|
  {
    assert b == a + (b - a);
  }

  /** No table holds more entries than its map was created for. */
  ghost predicate Bounded(m: Entries) {
    forall t: Table :: |TableSlots(m, t)| <= CAPACITY
  }

  lemma BoundedAfterDelete(m: Entries, s: Slot)
    requires Bounded(m)
    ensures Bounded(m - {s})
  {
    forall t: Table ensures |TableSlots(m - {s}, t)| <= CAPACITY {
      SubsetCount(TableSlots(m - {s}, t), TableSlots(m, t));
    }
  }

  lemma BoundedAfterPut(m: Entries, s: Slot, e: Entry)
    requires Bounded(m) && Room(m, s)
    ensures Bounded(m[s := e])
  {
    var m' := m[s := e];
    forall t: Table ensures |TableSlots(m', t)| <= CAPACITY {
      PutCounts(m, s, e, t);
    }
  }
}
