/** The TCP connection tracker (bpf/tc_firewall.c:66-174, bpf/headers/state_machine.h): two mirrored
    entries per connection in one map, against one session per connection. */
module Conntrack {
  import opened Words

  const SYN_SENT: U32 := 1
  const ESTABLISHED: U32 := 3

  /** struct flow_key; the protocol is always TCP here. */
  datatype FlowKey = FlowKey(srcIp: U32, dstIp: U32, srcPort: U16, dstPort: U16)

  function Reverse(k: FlowKey): FlowKey {
    FlowKey(k.dstIp, k.srcIp, k.dstPort, k.srcPort)
  }

  /** struct flow_state, without its unused fields. */
  datatype FlowState = FlowState(state: U32, packets: U64, bytes: U64, lastSeen: U64)

  type FlowTable = map<FlowKey, FlowState>

  /** A TCP packet: its 5-tuple, flags, length and arrival time. */
  datatype Segment = Segment(
    key: FlowKey, syn: bool, ack: bool, fin: bool, rst: bool, length: U32, time: U64)

  predicate PureSyn(s: Segment) { s.syn && !s.ack }

  predicate FinOrRst(s: Segment) { s.fin || s.rst }

  /** The key of the entry the program works on: forward first, then reverse. */
  function Tracked(m: FlowTable, k: FlowKey): Option<FlowKey> {
    if k in m then Some(k) else if Reverse(k) in m then Some(Reverse(k)) else None
  }

  predicate Accepted(m: FlowTable, s: Segment) {
    Tracked(m, s.key).Some? || PureSyn(s)
  }

  function Created(m: FlowTable, s: Segment): FlowTable {
    var st := FlowState(SYN_SENT, 1, s.length, s.time);
    m[s.key := st][Reverse(s.key) := st]
  }

  /** SYN_SENT becomes ESTABLISHED on an ACK, in the entry at hand and in the reverse one if present. */
  function Handshaken(m: FlowTable, s: Segment, at: FlowKey): FlowTable
    requires at in m
  {
    if m[at].state == SYN_SENT && s.ack then
      var m1 := m[at := m[at].(state := ESTABLISHED)];
      var rev := Reverse(s.key);
      if rev in m1 then m1[rev := m1[rev].(state := ESTABLISHED)] else m1
    else m
  }

  function Counted(m: FlowTable, s: Segment, at: FlowKey): FlowTable
    requires at in m
  {
    m[at := FlowState(m[at].state, Add64(m[at].packets, 1), Add64(m[at].bytes, s.length), s.time)]
  }

  /** The table after one packet. */
  function Process(m: FlowTable, s: Segment): FlowTable {
    match Tracked(m, s.key)
    case None => if PureSyn(s) then Created(m, s) else m
    case Some(at) =>
      if FinOrRst(s) then m - {s.key, Reverse(s.key)}
      else Counted(Handshaken(m, s, at), s, at)
  }

  // ---- Sessions: one automaton per connection --------------------------------------------

  predicate OfConnection(k: FlowKey, s: Segment) {
    s.key == k || s.key == Reverse(k)
  }

  /** An open session is the list of packets it has accepted, the opening SYN first. */
  datatype Session = Closed | Open(log: seq<Segment>)

  function SessionStep(x: Session, s: Segment): Session {
    match x
    case Closed => if PureSyn(s) then Open([s]) else Closed
    case Open(log) => if FinOrRst(s) then Closed else Open(log + [s])
  }

  /** The session of the connection of `k` after a packet history. */
  function SessionOf(h: seq<Segment>, k: FlowKey): Session {
    if h == [] then Closed
    else
      var x := SessionOf(h[..|h| - 1], k);
      if OfConnection(k, h[|h| - 1]) then SessionStep(x, h[|h| - 1]) else x
  }

  lemma {:induction false} SessionSymmetric(h: seq<Segment>, k: FlowKey)
    ensures SessionOf(h, k) == SessionOf(h, Reverse(k))
  {
    if h != [] {
      SessionSymmetric(h[..|h| - 1], k);
    }
  }

  lemma {:induction false} SessionShape(h: seq<Segment>, k: FlowKey)
    ensures SessionOf(h, k).Open? ==>
              var log := SessionOf(h, k).log;
              log != [] && PureSyn(log[0]) && forall i | 0 <= i < |log| :: OfConnection(k, log[i])
  {
    if h != [] {
      SessionShape(h[..|h| - 1], k);
    }
  }

  /** What the entry of direction `k` should say about a session. */
  predicate Acknowledged(log: seq<Segment>) {
    exists i | 1 <= i < |log| :: log[i].ack
  }

  function Carried(log: seq<Segment>, k: FlowKey): nat {
    if |log| <= 1 then 0
    else Carried(log[..|log| - 1], k) + if log[|log| - 1].key == k then 1 else 0
  }

  function CarriedBytes(log: seq<Segment>, k: FlowKey): nat {
    if |log| <= 1 then 0
    else CarriedBytes(log[..|log| - 1], k) + if log[|log| - 1].key == k then log[|log| - 1].length else 0
  }

  function LastTime(log: seq<Segment>, k: FlowKey): U64
    requires log != []
  {
    if |log| == 1 || log[|log| - 1].key == k then log[|log| - 1].time else LastTime(log[..|log| - 1], k)
  }

  /** Opening SYN plus what this direction carried since, modulo 2^64. */
  function EntryOf(log: seq<Segment>, k: FlowKey): FlowState
    requires log != []
  {
    FlowState(if Acknowledged(log) then ESTABLISHED else SYN_SENT,
              (1 + Carried(log, k)) % MOD64,
              (log[0].length + CarriedBytes(log, k)) % MOD64,
              LastTime(log, k))
  }

  /** The table after a packet history. */
  function TableOf(h: seq<Segment>): FlowTable {
    if h == [] then map[] else Process(TableOf(h[..|h| - 1]), h[|h| - 1])
  }

  /** The entry of `k` in `m` says what session `x` amounts to. */
  ghost predicate Mirrors(m: FlowTable, k: FlowKey, x: Session) {
    match x
    case Closed => k !in m
    case Open(log) => log != [] && k in m && m[k] == EntryOf(log, k)
  }

  lemma ReverseTwice(k: FlowKey)
    ensures Reverse(Reverse(k)) == k
  {
  }

  /** A packet leaves the entries of other connections alone. */
  lemma OtherConnection(m: FlowTable, s: Segment, k: FlowKey)
    requires !OfConnection(k, s)
    ensures k in Process(m, s) <==> k in m
    ensures k in m ==> Process(m, s)[k] == m[k]
  {
    ReverseTwice(k);
  }

  lemma OpeningEntry(s: Segment, k: FlowKey)
    ensures EntryOf([s], k) == FlowState(SYN_SENT, 1, s.length, s.time)
  {
  }

  lemma EntryStep(log: seq<Segment>, s: Segment, k: FlowKey)
    requires log != []
    ensures var e, e' := EntryOf(log, k), EntryOf(log + [s], k);
            && e'.state == (if s.ack then ESTABLISHED else e.state)
            && (s.key == k ==> e'.packets == Add64(e.packets, 1)
                               && e'.bytes == Add64(e.bytes, s.length) && e'.lastSeen == s.time)
            && (s.key != k ==> e'.packets == e.packets && e'.bytes == e.bytes && e'.lastSeen == e.lastSeen)
  {
    var more := log + [s];
    assert more[..|more| - 1] == log;
    AddIsMod(1 + Carried(log, k), 1);
    AddIsMod(log[0].length + CarriedBytes(log, k), s.length);
    assert Acknowledged(more) <==> Acknowledged(log) || s.ack by {
      if s.ack {
        assert more[|log|].ack;
      }
      if Acknowledged(log) {
        var i :| 1 <= i < |log| && log[i].ack;
        assert more[i].ack;
      }
    }
  }

  /** One packet moves both entries of its connection as the session moves. */
  lemma SameConnection(m: FlowTable, s: Segment, x: Session, k: FlowKey)
    requires Mirrors(m, s.key, x) && Mirrors(m, Reverse(s.key), x)
    requires OfConnection(k, s)
    ensures Mirrors(Process(m, s), k, SessionStep(x, s))
  {
    match x
    case Closed => OpeningEntry(s, k);
    case Open(log) =>
      if !FinOrRst(s) {
        EntryStep(log, s, k);
        EntryStep(log, s, s.key);
      }
  }

  /** Refinement: without eviction, after every packet history the table holds an entry for a key
      exactly when the session of its connection is open, and every field of it is the one the
      session's packet list determines. */
  lemma {:induction false} TableIsSessions(h: seq<Segment>, k: FlowKey)
    ensures Mirrors(TableOf(h), k, SessionOf(h, k))
  {
    if h != [] {
      var front, s := h[..|h| - 1], h[|h| - 1];
      if OfConnection(k, s) {
        TableIsSessions(front, s.key);
        TableIsSessions(front, Reverse(s.key));
        SessionSymmetric(front, s.key);
        ReverseTwice(k);
        SameConnection(TableOf(front), s, SessionOf(front, s.key), k);
      } else {
        TableIsSessions(front, k);
        OtherConnection(TableOf(front), s, k);
      }
    }
  }
}
