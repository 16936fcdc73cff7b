/** What the connection tracker guarantees over whole runs, with and without LRU evictions. */
module ConntrackRuns {
  import opened Words
  import opened Conntrack

  // ---- Without eviction ------------------------------------------------------------------

  /** The verdict on the next packet is the session's. */
  lemma VerdictIsSession(h: seq<Segment>, s: Segment)
    ensures Accepted(TableOf(h), s) <==> SessionOf(h, s.key).Open? || PureSyn(s)
  {
    TableIsSessions(h, s.key);
    TableIsSessions(h, Reverse(s.key));
    SessionSymmetric(h, s.key);
  }

  /** Both directions are present together, in the same state. */
  lemma DirectionsMirrored(h: seq<Segment>, k: FlowKey)
    ensures k in TableOf(h) <==> Reverse(k) in TableOf(h)
    ensures k in TableOf(h) ==> TableOf(h)[k].state == TableOf(h)[Reverse(k)].state
  {
    TableIsSessions(h, k);
    TableIsSessions(h, Reverse(k));
    SessionSymmetric(h, k);
  }

  function TotalBytes(log: seq<Segment>): nat {
    if log == [] then 0 else TotalBytes(log[..|log| - 1]) + log[|log| - 1].length
  }

  lemma {:induction false} CarriedSplits(log: seq<Segment>, k: FlowKey)
    requires log != [] && k != Reverse(k) && forall i | 0 <= i < |log| :: OfConnection(k, log[i])
    ensures Carried(log, k) + Carried(log, Reverse(k)) == |log| - 1
    ensures log[0].length + CarriedBytes(log, k) + CarriedBytes(log, Reverse(k)) == TotalBytes(log)
  {
    if |log| == 1 {
      assert TotalBytes(log[..0]) == 0;
    } else {
      CarriedSplits(log[..|log| - 1], k);
    }
  }

  /** An endpoint's connection with itself has one direction, which carries everything. */
  lemma {:induction false} CarriedAlone(log: seq<Segment>, k: FlowKey)
    requires log != [] && k == Reverse(k) && forall i | 0 <= i < |log| :: OfConnection(k, log[i])
    ensures Carried(log, k) == |log| - 1
    ensures log[0].length + CarriedBytes(log, k) == TotalBytes(log)
  {
    if |log| == 1 {
      assert TotalBytes(log[..0]) == 0;
    } else {
      CarriedAlone(log[..|log| - 1], k);
    }
  }

  /** Flow counter conservation: the two packet counters sum to the packets accepted in the session
      plus one, the two byte counters to the accepted bytes plus the opening SYN's length. When both
      keys are one, the single entry counts the session's packets and bytes. */
  lemma CountersConserved(h: seq<Segment>, k: FlowKey)
    requires k in TableOf(h)
    ensures SessionOf(h, k).Open? && Reverse(k) in TableOf(h) && SessionOf(h, k).log != []
    ensures var log, a, b := SessionOf(h, k).log, TableOf(h)[k], TableOf(h)[Reverse(k)];
            if k != Reverse(k) then
              && Add64(a.packets, b.packets) == (|log| + 1) % MOD64
              && Add64(a.bytes, b.bytes) == (TotalBytes(log) + log[0].length) % MOD64
            else a.packets == |log| % MOD64 && a.bytes == TotalBytes(log) % MOD64
  {
    TableIsSessions(h, k);
    TableIsSessions(h, Reverse(k));
    SessionSymmetric(h, k);
    SessionShape(h, k);
    var log := SessionOf(h, k).log;
    if k != Reverse(k) {
      CarriedSplits(log, k);
      PacketsAddUp(log, k);
      BytesAddUp(log, k);
    } else {
      CarriedAlone(log, k);
    }
  }

  lemma PacketsAddUp(log: seq<Segment>, k: FlowKey)
    requires log != []
    ensures Add64(EntryOf(log, k).packets, EntryOf(log, Reverse(k)).packets)
         == (2 + Carried(log, k) + Carried(log, Reverse(k))) % MOD64
  {
    AddModMod(1 + Carried(log, k), 1 + Carried(log, Reverse(k)));
  }

  lemma BytesAddUp(log: seq<Segment>, k: FlowKey)
    requires log != []
    ensures Add64(EntryOf(log, k).bytes, EntryOf(log, Reverse(k)).bytes)
         == (2 * log[0].length + CarriedBytes(log, k) + CarriedBytes(log, Reverse(k))) % MOD64
  {
    AddModMod(log[0].length + CarriedBytes(log, k), log[0].length + CarriedBytes(log, Reverse(k)));
  }

  // What a packet of the connection does to its session, by its flags alone.

  predicate Opening(k: FlowKey, s: Segment) {
    OfConnection(k, s) && PureSyn(s) && !FinOrRst(s)
  }

  predicate Closing(k: FlowKey, s: Segment) {
    OfConnection(k, s) && FinOrRst(s) && !PureSyn(s)
  }

  /** A pure SYN that also carries FIN or RST closes an open session and opens a closed one. */
  predicate Toggling(k: FlowKey, s: Segment) {
    OfConnection(k, s) && PureSyn(s) && FinOrRst(s)
  }

  /** The number of toggling packets from position `j` on. */
  function Toggles(h: seq<Segment>, k: FlowKey, j: nat): nat {
    if |h| <= j then 0 else Toggles(h[..|h| - 1], k, j) + if Toggling(k, h[|h| - 1]) then 1 else 0
  }

  /** The last opening or closing packet is right before `j`, or there is none and `j` is 0. */
  ghost predicate Settles(h: seq<Segment>, k: FlowKey, j: nat) {
    && j <= |h| && (j > 0 ==> Opening(k, h[j - 1]) || Closing(k, h[j - 1]))
    && forall i | j <= i < |h| :: !Opening(k, h[i]) && !Closing(k, h[i])
  }

  lemma {:induction false} SettlesSomewhere(h: seq<Segment>, k: FlowKey) returns (j: nat)
    ensures Settles(h, k, j)
  {
    if h == [] || Opening(k, h[|h| - 1]) || Closing(k, h[|h| - 1]) {
      j := |h|;
    } else {
      j := SettlesSomewhere(h[..|h| - 1], k);
    }
  }

  /** History characterisation, by packets alone: the last packet that only opens or only closes decides,
      and every toggling packet after it turns the answer around. */
  lemma {:induction false} OpenByHistory(h: seq<Segment>, k: FlowKey, j: nat)
    requires Settles(h, k, j)
    ensures SessionOf(h, k).Open? <==> ((j > 0 && Opening(k, h[j - 1])) <==> Toggles(h, k, j) % 2 == 0)
  {
    if j < |h| {
      OpenByHistory(h[..|h| - 1], k, j);
    }
  }

  /** Position `j` opened the session and nothing has ended it. */
  ghost predicate Opens(h: seq<Segment>, k: FlowKey, j: nat) {
    j < |h| && Opening(k, h[j]) && forall i | j < i < |h| :: OfConnection(k, h[i]) ==> !FinOrRst(h[i])
  }

  lemma {:induction false} NoToggles(h: seq<Segment>, k: FlowKey, j: nat)
    requires forall i | 0 <= i < |h| :: !Toggling(k, h[i])
    ensures Toggles(h, k, j) == 0
  {
    if |h| > j {
      NoToggles(h[..|h| - 1], k, j);
    }
  }

  /** So, as long as no packet is both a pure SYN and a FIN or RST, a connection is tracked exactly when
      some pure SYN of it has been followed by no FIN or RST of it. */
  lemma OpenIffSynUnfinished(h: seq<Segment>, k: FlowKey)
    requires forall i | 0 <= i < |h| :: !Toggling(k, h[i])
    ensures SessionOf(h, k).Open? <==> exists j: nat :: Opens(h, k, j)
  {
    var n := SettlesSomewhere(h, k);
    OpenByHistory(h, k, n);
    NoToggles(h, k, n);
    if SessionOf(h, k).Open? {
      assert Opens(h, k, n - 1);
    }
    if j: nat :| Opens(h, k, j) {
      assert j < n;
      assert Opening(k, h[n - 1]);
    }
  }

  // ---- Runs with evictions ---------------------------------------------------------------

  /** The LRU map may evict any entry between packets; an insertion that fails or displaces another
      entry is the same as the insertion followed by evictions. */
  datatype Happening = Packet(segment: Segment) | Evict(key: FlowKey)

  function After(m: FlowTable, e: Happening): FlowTable {
    match e
    case Packet(s) => Process(m, s)
    case Evict(k) => m - {k}
  }

  function RunTable(es: seq<Happening>): FlowTable {
    if es == [] then map[] else After(RunTable(es[..|es| - 1]), es[|es| - 1])
  }

  /** A packet of the connection with this property at position `i`. */
  predicate SynAt(es: seq<Happening>, k: FlowKey, i: nat) {
    i < |es| && es[i].Packet? && OfConnection(k, es[i].segment) && PureSyn(es[i].segment)
  }

  predicate AckAt(es: seq<Happening>, k: FlowKey, i: nat) {
    i < |es| && es[i].Packet? && OfConnection(k, es[i].segment) && es[i].segment.ack
  }

  ghost predicate NoFinAfter(es: seq<Happening>, k: FlowKey, j: nat) {
    forall i | j < i < |es| :: es[i].Packet? && OfConnection(k, es[i].segment) ==> !FinOrRst(es[i].segment)
  }

  /** Present directions agree. */
  predicate Agrees(m: FlowTable, k: FlowKey) {
    k in m && Reverse(k) in m ==> m[k].state == m[Reverse(k)].state
  }

  lemma AgreementKept(m: FlowTable, e: Happening, k: FlowKey)
    requires Agrees(m, k) && Agrees(m, Reverse(k))
    ensures Agrees(After(m, e), k)
  {
    ReverseTwice(k);
  }

  lemma {:induction false} StatesAgree(es: seq<Happening>, k: FlowKey)
    ensures Agrees(RunTable(es), k)
  {
    if es != [] {
      StatesAgree(es[..|es| - 1], k);
      StatesAgree(es[..|es| - 1], Reverse(k));
      AgreementKept(RunTable(es[..|es| - 1]), es[|es| - 1], k);
    }
  }

  /** A live entry never goes back from ESTABLISHED, whatever happens next. */
  lemma EstablishedStays(m: FlowTable, e: Happening, k: FlowKey)
    requires k in m && m[k].state == ESTABLISHED && k in After(m, e)
    ensures After(m, e)[k].state == ESTABLISHED
  {
  }

  // ---- The life of a connection ----------------------------------------------------------

  /** Some direction of the connection is in the table. */
  predicate Live(m: FlowTable, k: FlowKey) {
    k in m || Reverse(k) in m
  }

  /** The SYN at `j` created what has been live ever since. */
  ghost predicate CreatedAt(es: seq<Happening>, k: FlowKey, j: nat) {
    && SynAt(es, k, j) && !Live(RunTable(es[..j]), k)
    && forall n | j < n <= |es| :: Live(RunTable(es[..n]), k)
  }

  ghost predicate AckAfter(es: seq<Happening>, k: FlowKey, j: nat) {
    exists i: nat :: i > j && AckAt(es, k, i)
  }

  /** Whatever is present of the connection is in the same state, one of two. */
  predicate InState(m: FlowTable, k: FlowKey, established: bool) {
    var state := if established then ESTABLISHED else SYN_SENT;
    (k in m ==> m[k].state == state) && (Reverse(k) in m ==> m[Reverse(k)].state == state)
  }

  predicate Acknowledges(k: FlowKey, e: Happening) {
    e.Packet? && OfConnection(k, e.segment) && e.segment.ack
  }

  /** Only a pure SYN brings a connection to life, in SYN_SENT. */
  lemma Birth(m: FlowTable, e: Happening, k: FlowKey)
    requires !Live(m, k) && Live(After(m, e), k)
    ensures e.Packet? && OfConnection(k, e.segment) && PureSyn(e.segment) && InState(After(m, e), k, false)
  {
    ReverseTwice(k);
    if e.Packet? && !OfConnection(k, e.segment) {
      OtherConnection(m, e.segment, k);
      OtherConnection(m, e.segment, Reverse(k));
    }
  }

  /** A live connection is established by its first ACK, and ended by its first FIN or RST. */
  lemma LifeGoesOn(m: FlowTable, e: Happening, k: FlowKey, established: bool)
    requires Live(m, k) && InState(m, k, established) && Live(After(m, e), k)
    ensures InState(After(m, e), k, established || Acknowledges(k, e))
    ensures e.Packet? && OfConnection(k, e.segment) ==> !FinOrRst(e.segment)
  {
    ReverseTwice(k);
    if e.Packet? && !OfConnection(k, e.segment) {
      OtherConnection(m, e.segment, k);
      OtherConnection(m, e.segment, Reverse(k));
    }
  }

  lemma CreatedMore(es: seq<Happening>, k: FlowKey, j: nat, e: Happening)
    requires CreatedAt(es, k, j) && Live(RunTable(es + [e]), k)
    ensures CreatedAt(es + [e], k, j)
  {
    var more := es + [e];
    assert more[..j] == es[..j];
    forall n | j < n <= |more|
      ensures Live(RunTable(more[..n]), k)
    {
      assert more[..n] == if n <= |es| then es[..n] else more;
    }
  }

  lemma AckMore(es: seq<Happening>, k: FlowKey, j: nat, e: Happening)
    requires j < |es|
    ensures AckAfter(es + [e], k, j) <==> AckAfter(es, k, j) || Acknowledges(k, e)
  {
    var more := es + [e];
    if AckAfter(es, k, j) {
      var i: nat :| i > j && AckAt(es, k, i);
      assert AckAt(more, k, i);
    }
    if Acknowledges(k, e) {
      assert AckAt(more, k, |es|);
    }
    if AckAfter(more, k, j) {
      var i: nat :| i > j && AckAt(more, k, i);
      assert i < |es| ==> AckAt(es, k, i);
    }
  }

  /** The life of a connection under arbitrary eviction: a pure SYN created it, no FIN or RST came since,
      and whatever is present of it is ESTABLISHED if an ACK has come since that SYN, else SYN_SENT. */
  lemma {:induction false} LifeOf(es: seq<Happening>, k: FlowKey) returns (j: nat)
    requires Live(RunTable(es), k)
    ensures CreatedAt(es, k, j) && NoFinAfter(es, k, j) && InState(RunTable(es), k, AckAfter(es, k, j))
  {
    var n := |es| - 1;
    var front, e := es[..n], es[n];
    assert front + [e] == es;
    if Live(RunTable(front), k) {
      j := LifeOf(front, k);
      LifeGoesOn(RunTable(front), e, k, AckAfter(front, k, j));
      CreatedMore(front, k, j, e);
      AckMore(front, k, j, e);
    } else {
      Birth(RunTable(front), e, k);
      j := n;
      assert es[..n + 1] == es;
      assert !AckAfter(es, k, j);
    }
  }

  /** Safety under arbitrary eviction: a packet that is not a pure SYN is accepted only if an earlier
      pure SYN of its connection has been followed by no FIN or RST of it. */
  lemma AcceptedOnlyAfterSyn(es: seq<Happening>, s: Segment)
    requires Accepted(RunTable(es), s) && !PureSyn(s)
    ensures exists j: nat :: SynAt(es, s.key, j) && NoFinAfter(es, s.key, j)
  {
    var j := LifeOf(es, s.key);
  }

  /** Only two states are ever stored, and an entry is ESTABLISHED exactly when an ACK has come since the
      SYN that created what is present of its connection now. */
  lemma EstablishedMeansAcknowledged(es: seq<Happening>, k: FlowKey) returns (j: nat)
    requires k in RunTable(es)
    ensures RunTable(es)[k].state == SYN_SENT || RunTable(es)[k].state == ESTABLISHED
    ensures CreatedAt(es, k, j) && NoFinAfter(es, k, j)
    ensures RunTable(es)[k].state == ESTABLISHED <==> AckAfter(es, k, j)
  {
    j := LifeOf(es, k);
  }

  // ---- Connections do not interfere ------------------------------------------------------

  predicate Concerns(k: FlowKey, e: Happening) {
    match e
    case Packet(s) => OfConnection(k, s)
    case Evict(q) => q == k || q == Reverse(k)
  }

  /** What happened to one connection. */
  function Project(es: seq<Happening>, k: FlowKey): seq<Happening> {
    if es == [] then []
    else Project(es[..|es| - 1], k) + if Concerns(k, es[|es| - 1]) then [es[|es| - 1]] else []
  }

  predicate SameEntry(m: FlowTable, n: FlowTable, k: FlowKey) {
    (k in m <==> k in n) && (k in m ==> m[k] == n[k])
  }

  predicate SameFor(m: FlowTable, n: FlowTable, k: FlowKey) {
    SameEntry(m, n, k) && SameEntry(m, n, Reverse(k))
  }

  lemma ConcernedStep(m: FlowTable, n: FlowTable, k: FlowKey, e: Happening)
    requires SameFor(m, n, k) && Concerns(k, e)
    ensures SameFor(After(m, e), After(n, e), k)
  {
    ReverseTwice(k);
  }

  lemma UnconcernedStep(m: FlowTable, k: FlowKey, e: Happening)
    requires !Concerns(k, e)
    ensures SameFor(After(m, e), m, k)
  {
    ReverseTwice(k);
    if e.Packet? {
      OtherConnection(m, e.segment, k);
      OtherConnection(m, e.segment, Reverse(k));
    }
  }

  /** Non-interference, evictions included: the entries of a connection, counters and all, and the
      verdict on its next packet depend on nothing but what happened to that connection. */
  lemma {:induction false} NonInterference(es: seq<Happening>, s: Segment)
    ensures SameFor(RunTable(es), RunTable(Project(es, s.key)), s.key)
    ensures Accepted(RunTable(es), s) == Accepted(RunTable(Project(es, s.key)), s)
  {
    if es != [] {
      var n := |es| - 1;
      var front := Project(es[..n], s.key);
      NonInterference(es[..n], s);
      if Concerns(s.key, es[n]) {
        ConcernedStep(RunTable(es[..n]), RunTable(front), s.key, es[n]);
        assert (front + [es[n]])[..|front|] == front;
      } else {
        UnconcernedStep(RunTable(es[..n]), s.key, es[n]);
        assert Project(es, s.key) == front;
      }
    }
  }

  // ---- Spelled out -----------------------------------------------------------------------

  /** A connection is the four address fields in either direction. */
  lemma ConnectionSpelledOut(a: U32, b: U32, x: U16, y: U16, s: Segment)
    ensures OfConnection(FlowKey(a, b, x, y), s) <==> s.key == FlowKey(a, b, x, y) || s.key == FlowKey(b, a, y, x)
  {
  }

  /** One packet of an untracked connection: a SYN without ACK is accepted and stored both ways in state
      1, anything else is refused and changes nothing. */
  lemma UntrackedStep(m: FlowTable, a: U32, b: U32, x: U16, y: U16, s: Segment)
    requires s.key == FlowKey(a, b, x, y) && FlowKey(a, b, x, y) !in m && FlowKey(b, a, y, x) !in m
    ensures Accepted(m, s) <==> s.syn && !s.ack
    ensures var st := FlowState(1, 1, s.length, s.time);
            Process(m, s) == if s.syn && !s.ack then m[FlowKey(a, b, x, y) := st][FlowKey(b, a, y, x) := st] else m
  {
  }

  /** One packet of a tracked connection is accepted. FIN or RST removes both directions; anything else is
      counted once, in its own direction if that is present, and an ACK turns state 1 into 3. */
  lemma TrackedStep(m: FlowTable, a: U32, b: U32, x: U16, y: U16, s: Segment)
    requires s.key == FlowKey(a, b, x, y) && (FlowKey(a, b, x, y) in m || FlowKey(b, a, y, x) in m)
    ensures Accepted(m, s)
    ensures s.fin || s.rst ==> Process(m, s) == m - {FlowKey(a, b, x, y), FlowKey(b, a, y, x)}
    ensures !s.fin && !s.rst ==>
              var at := if FlowKey(a, b, x, y) in m then FlowKey(a, b, x, y) else FlowKey(b, a, y, x);
              && Process(m, s).Keys == m.Keys
              && Process(m, s)[at] == FlowState(if m[at].state == 1 && s.ack then 3 else m[at].state,
                                                Add64(m[at].packets, 1), Add64(m[at].bytes, s.length), s.time)
  {
  }

  lemma {:induction false} OpensIsOpen(h: seq<Segment>, k: FlowKey, j: nat)
    requires Opens(h, k, j)
    ensures SessionOf(h, k).Open?
  {
    if j < |h| - 1 {
      OpensIsOpen(h[..|h| - 1], k, j);
    }
  }

  /** After a SYN without ACK, FIN or RST from a:x to b:y, and no FIN or RST between the two since, packets
      go through both ways, whatever their flags. */
  lemma BothWaysAccepted(h: seq<Segment>, j: nat, a: U32, b: U32, x: U16, y: U16, s: Segment)
    requires j < |h| && h[j].key == FlowKey(a, b, x, y) && h[j].syn && !h[j].ack
    requires forall i | j <= i < |h| && (h[i].key == FlowKey(a, b, x, y) || h[i].key == FlowKey(b, a, y, x)) ::
               !h[i].fin && !h[i].rst
    requires s.key == FlowKey(a, b, x, y) || s.key == FlowKey(b, a, y, x)
    ensures Accepted(TableOf(h), s)
  {
    OpensIsOpen(h, FlowKey(a, b, x, y), j);
    SessionSymmetric(h, FlowKey(a, b, x, y));
    VerdictIsSession(h, s);
  }

  /** Without a SYN between the two, nothing but a SYN goes through either way, under any evictions. */
  lemma StrayRefused(es: seq<Happening>, a: U32, b: U32, x: U16, y: U16, s: Segment)
    requires s.key == FlowKey(a, b, x, y) && !(s.syn && !s.ack)
    requires forall i | 0 <= i < |es| && es[i].Packet?
               && (es[i].segment.key == FlowKey(a, b, x, y) || es[i].segment.key == FlowKey(b, a, y, x)) ::
               !(es[i].segment.syn && !es[i].segment.ack)
    ensures !Accepted(RunTable(es), s)
  {
    if Accepted(RunTable(es), s) {
      AcceptedOnlyAfterSyn(es, s);
    }
  }
}
