/** The bounded audit history (pkg/observability/audit.go). */
module AuditHistory {
  import opened Text
  import opened Ascending
  import opened Programs

  datatype AuditOp = Add(event: AuditEvent) | Clear

  /** The events added since the history was last cleared. */
  ghost function SinceClear(ops: seq<AuditOp>): seq<AuditEvent> {
    if ops == [] then []
    else match ops[|ops| - 1]
      case Clear => []
      case Add(e) => SinceClear(ops[..|ops| - 1]) + [e]
  }

  ghost function LastOf(s: seq<AuditEvent>, n: nat): seq<AuditEvent> {
    if |s| <= n then s else s[|s| - n..]
  }

  lemma SinceClearMore(ops: seq<AuditOp>, op: AuditOp)
    ensures SinceClear(ops + [op]) == match op case Clear => [] case Add(e) => SinceClear(ops) + [e]
  {
    assert (ops + [op])[..|ops|] == ops;
  }

  function VerdictString(e: AuditEvent): string {
    match e.verdict
    case 0 => "PASS"
    case 1 => "DROP"
    case 2 => "REDIRECT"
    case _ => "UNKNOWN"
  }

  predicate OccursAt(part: string, text: string, i: int) {
    0 <= i <= |text| - |part| && part == text[i..i + |part|]
  }

  predicate Occurs(part: string, text: string) {
    exists i :: 0 <= i <= |text| && OccursAt(part, text, i)
  }

  /** A verdict filter that is blank or "all" lets every verdict through, and a blank query every text. */
  predicate Wanted(render: AuditEvent -> string, verdictFilter: string, query: string, e: AuditEvent) {
    var v, q := Normalize(verdictFilter), Normalize(query);
    && (v == "" || v == "all" || ToLower(VerdictString(e)) == v)
    && (q == "" || Occurs(q, ToLower(render(e))))
  }

  predicate Before(i: nat, j: nat) {
    i < j
  }

  /** `picked` is the subsequence of `events` at the places `at`, which are exactly the wanted ones. */
  ghost predicate Picks(picked: seq<AuditEvent>, at: seq<nat>, events: seq<AuditEvent>, wanted: AuditEvent -> bool) {
    && |at| == |picked| && Increasing(Before, at)
    && (forall k :: 0 <= k < |at| ==> at[k] < |events| && picked[k] == events[at[k]])
    && (forall i: nat :: i in at <==> i < |events| && wanted(events[i]))
  }

  /** `picked` is the subsequence of all wanted events, in order. */
  ghost predicate Selects(picked: seq<AuditEvent>, events: seq<AuditEvent>, wanted: AuditEvent -> bool) {
    exists at :: Picks(picked, at, events, wanted)
  }

  lemma PicksMore(picked: seq<AuditEvent>, at: seq<nat>, events: seq<AuditEvent>,
                  wanted: AuditEvent -> bool, e: AuditEvent)
    requires Picks(picked, at, events, wanted)
    ensures wanted(e) ==> Picks(picked + [e], at + [|events|], events + [e], wanted)
    ensures !wanted(e) ==> Picks(picked, at, events + [e], wanted)
  {
    var more := events + [e];
    if wanted(e) {
      IncreasingMore<nat>(Before, at, |events|);
    }
    forall i: nat
      ensures i in at <==> i < |events| && wanted(more[i])
    {
      assert i < |events| ==> more[i] == events[i];
    }
  }

  class AuditStore {
    const capacity: nat
    const render: AuditEvent -> string
    var events: seq<AuditEvent>
    /** Everything done to the store so far. */
    ghost var ops: seq<AuditOp>

    /** After any sequence of additions and clearings the store holds exactly the last min(capacity, n)
        of the n events added since the last clearing, in order. */
    ghost predicate Valid()
      reads this
    {
      capacity > 0 && events == LastOf(SinceClear(ops), capacity)
    }

    constructor (capacity: int, render: AuditEvent -> string)
      ensures Valid() && ops == [] && this.render == render
      ensures this.capacity == if capacity <= 0 then 1000 else capacity
    {
      this.capacity := if capacity <= 0 then 1000 else capacity;
      this.render := render;
      events, ops := [], [];
    }

    method Add(event: AuditEvent)
      requires Valid()
      modifies this
      ensures Valid() && ops == old(ops) + [AuditOp.Add(event)]
    {
      if |events| >= capacity {
        events := events[1..];
      }
      events := events + [event];
      SinceClearMore(ops, AuditOp.Add(event));
      ops := ops + [AuditOp.Add(event)];
    }

    method Clear()
      requires Valid()
      modifies this
      ensures Valid() && ops == old(ops) + [AuditOp.Clear]
    {
      events := [];
      SinceClearMore(ops, AuditOp.Clear);
      ops := ops + [AuditOp.Clear];
    }

    method Events() returns (res: seq<AuditEvent>)
      requires Valid()
      ensures res == LastOf(SinceClear(ops), capacity)
    {
      res := events;
    }

    method Count() returns (n: nat)
      requires Valid()
      ensures n == if |SinceClear(ops)| <= capacity then |SinceClear(ops)| else capacity
    {
      n := |events|;
    }

    method Filter(verdictFilter: string, query: string) returns (filtered: seq<AuditEvent>)
      requires Valid()
      ensures Selects(filtered, LastOf(SinceClear(ops), capacity), e => Wanted(render, verdictFilter, query, e))
    {
      var v, q := Normalize(verdictFilter), Normalize(query);
      ghost var wanted := (e: AuditEvent) => Wanted(render, verdictFilter, query, e);
      filtered := [];
      ghost var at: seq<nat> := [];
      for i := 0 to |events|
        invariant Picks(filtered, at, events[..i], wanted)
      {
        var e := events[i];
        PicksMore(filtered, at, events[..i], wanted, e);
        assert events[..i] + [e] == events[..i + 1];
        if v != "" && v != "all" && ToLower(VerdictString(e)) != v {
          continue;
        }
        if q != "" && !Occurs(q, ToLower(render(e))) {
          continue;
        }
        filtered, at := filtered + [e], at + [i];
      }
      assert events[..|events|] == events;
    }
  }

  // ---- Spelled out -----------------------------------------------------------------------

  /** A blank filter and "all" keep everything; "drop", "pass" and "redirect", in any case and with white
      space around them, keep exactly the events with verdict 1, 0 and 2, "unknown" all others. */
  lemma FilterSpelledOut(render: AuditEvent -> string, filter: string, e: AuditEvent)
    ensures var v := Normalize(filter);
            && (v == "" || v == "all" ==> Wanted(render, filter, "", e))
            && (v == "pass" ==> (Wanted(render, filter, "", e) <==> e.verdict == 0))
            && (v == "drop" ==> (Wanted(render, filter, "", e) <==> e.verdict == 1))
            && (v == "redirect" ==> (Wanted(render, filter, "", e) <==> e.verdict == 2))
            && (v == "unknown" ==> (Wanted(render, filter, "", e) <==> e.verdict > 2))
  {
    VerdictWords();
  }

  lemma VerdictWords()
    ensures ToLower("PASS") == "pass" && ToLower("DROP") == "drop"
    ensures ToLower("REDIRECT") == "redirect" && ToLower("UNKNOWN") == "unknown"
    ensures "pass"[0] != "drop"[0] && "pass"[0] != "redirect"[0] && "pass"[0] != "unknown"[0]
    ensures "drop"[0] != "redirect"[0] && "drop"[0] != "unknown"[0] && "redirect"[0] != "unknown"[0]
  {
  }

  /** A query keeps the events whose rendered text contains it. */
  lemma OccursSpelledOut(part: string, text: string)
    ensures Occurs(part, text) <==> exists a, b :: text == a + part + b
  {
    if Occurs(part, text) {
      var i :| 0 <= i <= |text| && OccursAt(part, text, i);
      assert text == text[..i] + part + text[i + |part|..];
    }
    if a, b :| text == a + part + b {
      assert text[|a|..|a| + |part|] == part;
      assert OccursAt(part, text, |a|);
    }
  }
}
