/** The loader's map operations (pkg/bpf/loader.go:205-371) and the swapper that drives them
    (pkg/compiler/atomic_swap.go:27-76). */
module Loader {
  import opened Words
  import opened Policies
  import opened RuleMaps
  import opened SwapProtocol
  import opened SwapRuns
  import opened SwapTrace

  /** The loader's state at some moment. */
  datatype Snapshot = Snapshot(gen: U32, entries: Entries, writes: nat, log: seq<Write>)

  ghost function Now(l: FirewallLoader): Snapshot
    reads l
  {
    Snapshot(l.activeGen, l.entries, l.writes, l.log)
  }

  /** What a staging call for `op` does: nothing at all when it is refused. */
  ghost predicate Performed(was: Snapshot, now: Snapshot, fails: nat -> bool, g: U32, op: Op, ok: bool) {
    match op
    case Refused => !ok && now == was
    case Put(it, e) =>
      && (ok <==> Room(was.entries, Slot(g, it)) && !fails(was.writes))
      && now == if ok then Snapshot(was.gen, was.entries[Slot(g, it) := e], was.writes + 1,
                                    was.log + [PutEntry(Slot(g, it), e)])
                else was.(writes := was.writes + 1)
  }

  class FirewallLoader {
    const world: World
    /** Whether the n-th write to a map fails for a reason outside this model. */
    const fails: nat -> bool

    var activeGen: U32
    var entries: Entries
    /** Writes attempted so far. */
    var writes: nat
    /** The writes that took effect, in order. */
    ghost var log: seq<Write>

    constructor (world: World, fails: nat -> bool)
      ensures this.world == world && this.fails == fails
      ensures activeGen == 0 && entries == map[] && writes == 0 && log == []
    {
      this.world, this.fails := world, fails;
      activeGen, entries, writes, log := 0, map[], 0, [];
    }

    method GetActiveGeneration() returns (gen: U32)
      ensures gen == activeGen
    {
      return activeGen;
    }

    /** A failed set has no effect. */
    method SetActiveGeneration(gen: U32) returns (ok: bool)
      modifies this
      ensures ok <==> !fails(old(writes))
      ensures activeGen == if ok then gen else old(activeGen)
      ensures log == if ok then old(log) + [SetGen(gen)] else old(log)
      ensures entries == old(entries) && writes == old(writes) + 1
    {
      ok := !fails(writes);
      writes := writes + 1;
      if ok {
        activeGen := gen;
        log := log + [SetGen(gen)];
      }
    }

    /** Map update: fails on a full map unless the key is already there. */
    method PutSlot(slot: Slot, entry: Entry) returns (ok: bool)
      modifies this
      ensures ok <==> Room(old(entries), slot) && !fails(old(writes))
      ensures entries == if ok then old(entries)[slot := entry] else old(entries)
      ensures log == if ok then old(log) + [PutEntry(slot, entry)] else old(log)
      ensures activeGen == old(activeGen) && writes == old(writes) + 1
    {
      ok := Room(entries, slot) && !fails(writes);
      writes := writes + 1;
      if ok {
        entries := entries[slot := entry];
        log := log + [PutEntry(slot, entry)];
      }
    }

    /** The action is not stored: the list is a block list. */
    method StageCidrRule(gen: U32, c: CompiledCidr) returns (ok: bool)
      modifies this
      ensures Performed(old(Now(this)), Now(this), fails, gen, CidrOp(world, c), ok)
    {
      match world.parseCidr(c.text) {
        case Network(net) => ok := PutSlot(Slot(gen, BlockCidr(net)), Block(c.ruleId));
        case _ => ok := false;
      }
    }

    method StageCgroupRule(gen: U32, c: CompiledCgroup) returns (ok: bool)
      modifies this
      ensures Performed(old(Now(this)), Now(this), fails, gen, CgroupOp(world, c), ok)
    {
      match world.resolve(c.path) {
        case Some(id) => ok := PutSlot(Slot(gen, BlockCgroup(id)), Block(c.ruleId));
        case None => ok := false;
      }
    }

    method StagePortRule(gen: U32, c: CompiledPort) returns (ok: bool)
      modifies this
      ensures Performed(old(Now(this)), Now(this), fails, gen, PortOp(c), ok)
    {
      var it := PortRule(c.port, ProtocolNumber(c.protocol));
      ok := PutSlot(Slot(gen, it), PortAction(ActionCode(c.action), c.ruleId));
    }

    /** Collect the keys of one table and generation, then delete them one by one. */
    method ClearTable(gen: U32, t: Table) returns (ghost deleted: seq<Slot>)
      modifies this
      ensures entries == old(entries) - Elements(deleted)
      ensures IsTable(old(entries), gen, t, deleted)
      ensures log == old(log) + Removes(deleted)
      ensures activeGen == old(activeGen) && writes == old(writes)
    {
      var keys: seq<Slot> := [];
      var todo := entries.Keys;
      while todo != {}
        invariant todo <= entries.Keys
        invariant forall s :: s in keys <==> s in entries && s !in todo && s.gen == gen && TableOf(s.item) == t
      {
        var s :| s in todo;
        todo := todo - {s};
        if s.gen == gen && TableOf(s.item) == t {
          keys := keys + [s];
        }
      }
      assert entries - Elements(keys[..0]) == entries;
      for i := 0 to |keys|
        invariant entries == old(entries) - Elements(keys[..i])
        invariant log == old(log) + Removes(keys[..i])
        invariant activeGen == old(activeGen) && writes == old(writes)
      {
        entries := entries - {keys[i]};
        log := log + [Remove(keys[i])];
        assert keys[..i + 1] == keys[..i] + [keys[i]];
        assert Removes(keys[..i + 1]) == Removes(keys[..i]) + [Remove(keys[i])];
        assert Elements(keys[..i + 1]) == Elements(keys[..i]) + {keys[i]};
      }
      assert keys[..|keys|] == keys;
      deleted := keys;
    }

    /** Purge one generation from all three tables. */
    method ClearGenerationRules(gen: U32) returns (ghost deleted: seq<Slot>)
      modifies this
      ensures entries == old(entries) - Elements(deleted)
      ensures forall s :: s in deleted <==> s in old(entries) && s.gen == gen
      ensures log == old(log) + Removes(deleted)
      ensures activeGen == old(activeGen) && writes == old(writes)
    {
      ghost var m := entries;
      ghost var a := ClearTable(gen, CidrTable);
      ghost var b := ClearTable(gen, CgroupTable);
      ghost var c := ClearTable(gen, PortTable);
      deleted := a + b + c;
      ThreeRemovals(m, a, b, c);
      ThreeTables(m, gen, a, b, c);
    }
  }

  lemma {:induction false} RemovesConcat(a: seq<Slot>, b: seq<Slot>)
    ensures Removes(a + b) == Removes(a) + Removes(b)
  {
    if b == [] {
      assert a + b == a;
    } else {
      RemovesConcat(a, b[..|b| - 1]);
      assert (a + b)[..|a + b| - 1] == a + b[..|b| - 1];
    }
  }

  lemma ThreeRemovals(m: Entries, a: seq<Slot>, b: seq<Slot>, c: seq<Slot>)
    ensures m - Elements(a) - Elements(b) - Elements(c) == m - Elements(a + b + c)
    ensures Removes(a + b + c) == Removes(a) + Removes(b) + Removes(c)
  {
    RemovesConcat(a, b);
    RemovesConcat(a + b, c);
  }

  /** `keys` are the slots of one generation and table. */
  ghost predicate IsTable(m: Entries, gen: U32, t: Table, keys: seq<Slot>) {
    forall s :: s in keys <==> s in m && s.gen == gen && TableOf(s.item) == t
  }

  lemma ThreeTables(m: Entries, gen: U32, a: seq<Slot>, b: seq<Slot>, c: seq<Slot>)
    requires IsTable(m, gen, CidrTable, a) && IsTable(m - Elements(a), gen, CgroupTable, b)
    requires IsTable(m - Elements(a) - Elements(b), gen, PortTable, c)
    ensures forall s :: s in a + b + c <==> s in m && s.gen == gen
  {
    forall s | s in m && s.gen == gen ensures s in a + b + c {
      assert TableOf(s.item) == CidrTable || TableOf(s.item) == CgroupTable || TableOf(s.item) == PortTable;
    }
  }

  // ---- The swapper -----------------------------------------------------------------------

  /** Exactly when an apply succeeds: every item is stageable and finds room, and no write fails. */
  ghost predicate Succeeds(m: Entries, g: U32, ops: seq<Op>, fails: nat -> bool, writes: nat) {
    Fits(m, g, ops) && NoFailure(fails, writes, |ops| + 1)
  }

  ghost predicate NoFailure(fails: nat -> bool, from: nat, n: nat) {
    forall i | from <= i < from + n :: !fails(i)
  }

  /** From `was`, exactly the first `n` operations have been staged under generation `g`. */
  ghost predicate StagedFirst(was: Snapshot, now: Snapshot, fails: nat -> bool, g: U32, ops: seq<Op>, n: nat) {
    && FitsFirst(was.entries, g, ops, n)
    && NoFailure(fails, was.writes, n)
    && now == Snapshot(was.gen, Staged(was.entries, g, ops[..n]), was.writes + n, was.log + Puts(g, ops[..n]))
  }

  /** Operation `n` cannot be staged: refused, no room, or its write fails. */
  ghost predicate Blocked(was: Snapshot, fails: nat -> bool, g: U32, ops: seq<Op>, n: nat) {
    n < |ops| && !(Placeable(was.entries, g, ops, n) && !fails(was.writes + n))
  }

  /** Either all operations up to `end` are staged, or staging stopped at the first blocked one. */
  ghost predicate StagingOutcome(was: Snapshot, now: Snapshot, fails: nat -> bool, g: U32, ops: seq<Op>,
                                 end: nat, ok: bool, n: nat) {
    if ok then n == end && StagedFirst(was, now, fails, g, ops, n)
    else Blocked(was, fails, g, ops, n) && StagedFirst(was, now.(writes := was.writes + n), fails, g, ops, n)
  }

  /** Either everything is staged and the cell flipped, or the first `n` operations are staged and the
      apply cannot succeed. */
  ghost predicate FlipOutcome(was: Snapshot, now: Snapshot, fails: nat -> bool, g: U32, ops: seq<Op>,
                              ok: bool, n: nat) {
    && FitsFirst(was.entries, g, ops, n)
    && (ok <==> Succeeds(was.entries, g, ops, fails, was.writes))
    && now.entries == Staged(was.entries, g, ops[..n])
    && (ok ==> n == |ops| && now.gen == g && now.log == was.log + (Puts(g, ops) + [SetGen(g)]))
    && (!ok ==> now.gen == was.gen && now.log == was.log + Puts(g, ops[..n]))
  }

  /** One staging call extends the staged prefix or stops there. */
  lemma AfterStage(was: Snapshot, before: Snapshot, now: Snapshot, fails: nat -> bool, g: U32, ops: seq<Op>, n: nat,
                   op: Op, ok: bool)
    requires StagedFirst(was, before, fails, g, ops, n) && n < |ops| && ops[n] == op
    requires Performed(before, now, fails, g, op, ok)
    ensures ok ==> StagedFirst(was, now, fails, g, ops, n + 1)
    ensures !ok ==> StagingOutcome(was, now, fails, g, ops, |ops|, false, n)
  {
    if ok {
      StagedStep(was.entries, g, ops, n);
      PutsStep(g, ops, n);
    }
  }

  lemma AfterFlip(was: Snapshot, mid: Snapshot, now: Snapshot, fails: nat -> bool, g: U32, ops: seq<Op>, ok: bool)
    requires StagedFirst(was, mid, fails, g, ops, |ops|)
    requires ok <==> !fails(mid.writes)
    requires now == if ok then Snapshot(g, mid.entries, mid.writes + 1, mid.log + [SetGen(g)])
                    else mid.(writes := mid.writes + 1)
    ensures FlipOutcome(was, now, fails, g, ops, ok, |ops|)
  {
    assert ops[..|ops|] == ops;
    assert was.log + Puts(g, ops) + [SetGen(g)] == was.log + (Puts(g, ops) + [SetGen(g)]);
  }

  lemma BlockedFails(was: Snapshot, now: Snapshot, fails: nat -> bool, g: U32, ops: seq<Op>, n: nat)
    requires StagingOutcome(was, now, fails, g, ops, |ops|, false, n)
    ensures FlipOutcome(was, now, fails, g, ops, false, n)
  {
  }

  lemma NothingStaged(was: Snapshot, fails: nat -> bool, g: U32, ops: seq<Op>)
    ensures StagedFirst(was, was, fails, g, ops, 0)
  {
    assert ops[..0] == [] && was.log + [] == was.log;
  }

  lemma ReachesKeepsInv(k: Plane, k': Plane, ws: seq<Write>)
    requires PlaneInv(k) && Reaches(k, k', ws)
    ensures PlaneInv(k')
  {
    var es :| Does(k, es, k', ws);
    RunInv(k, es);
  }

  /** At rest, the maps and the cell are those of protocol state `k`. */
  ghost predicate InStep(k: Plane, gen: U32, m: Entries) {
    PlaneInv(k) && k.control.Idle? && k.gen == gen && k.entries == m
  }

  /** Success leaves exactly the new image under the next generation; failure leaves everything as it was. */
  ghost predicate Outcome(k: Plane, k': Plane, ops: seq<Op>, ok: bool) {
    if ok then
      && k'.gen == Next(k.gen) && k'.hist == k.hist + [ImageOf(ops)]
      && Exactly(k'.entries, k'.gen, ImageOf(ops))
    else k'.gen == k.gen && k'.hist == k.hist && k'.entries == k.entries
  }

  lemma RolledBack(k: Plane, ops: seq<Op>, n: nat, slots: seq<Slot>) returns (k': Plane)
    requires PlaneInv(k) && k.control.Idle? && FitsFirst(k.entries, Next(k.gen), ops, n)
    requires forall s :: s in slots <==> s in Staged(k.entries, Next(k.gen), ops[..n]) && s.gen == Next(k.gen)
    ensures InStep(k', k.gen, Staged(k.entries, Next(k.gen), ops[..n]) - Elements(slots))
    ensures Outcome(k, k', ops, false)
    ensures Reaches(k, k', StagingWrites(k, ops, n) + Removes(slots))
  {
    FailureReaches(k, ops, n, slots);
    k' := RestoredPlane(k, ops, n, slots);
    ReachesKeepsInv(k, k', StagingWrites(k, ops, n) + Removes(slots));
    SameHistorySameView(k, k');
  }

  lemma Published(k: Plane, ops: seq<Op>, slots: seq<Slot>) returns (k': Plane)
    requires PlaneInv(k) && k.control.Idle? && Fits(k.entries, Next(k.gen), ops)
    requires forall s :: s in slots <==> s in Staged(k.entries, Next(k.gen), ops) && s.gen == k.gen
    ensures InStep(k', Next(k.gen), Staged(k.entries, Next(k.gen), ops) - Elements(slots))
    ensures Outcome(k, k', ops, true)
    ensures Reaches(k, k', StagingWrites(k, ops, |ops|) + [SetGen(Next(k.gen))] + Removes(slots))
  {
    SuccessReaches(k, ops, slots);
    k' := AppliedPlane(k, ops, slots);
    ReachesKeepsInv(k, k', StagingWrites(k, ops, |ops|) + [SetGen(Next(k.gen))] + Removes(slots));
    IdleIsExact(k');
  }

  lemma LogGrew(before: seq<Write>, start: seq<Write>, puts: seq<Write>, flip: seq<Write>, removes: seq<Write>)
    ensures before + start + (puts + flip) + removes == before + (start + puts + flip + removes)
    ensures before + start + puts + removes == before + (start + puts + [] + removes)
    ensures start + puts + [] + removes == start + puts + removes
  {
  }

  lemma NothingDeleted(m: Entries, g: U32, deleted: seq<Slot>)
    requires NoneOf(m, g) && forall s :: s in deleted <==> s in m && s.gen == g
    ensures |deleted| == 0 && m - Elements(deleted) == m && Removes(deleted) == []
  {
    EmptyIfNoMember(deleted);
  }

  lemma EmptyIfNoMember<T>(s: seq<T>)
    ensures |s| == 0 || exists x :: x in s
  {
    if |s| > 0 {
      assert s[0] in s;
    }
  }

  lemma NextIsWrap(g: U32)
    ensures Add32(g, 1) == Next(g)
  {
  }

  class MapSwapper {
    constructor () {}

    method StageCidrs(l: FirewallLoader, next: U32, cs: seq<CompiledCidr>, ghost was: Snapshot, ghost ops: seq<Op>)
      returns (ok: bool, ghost n: nat)
      requires |cs| <= |ops| && forall i | 0 <= i < |cs| :: ops[i] == CidrOp(l.world, cs[i])
      requires StagedFirst(was, Now(l), l.fails, next, ops, 0)
      modifies l
      ensures StagingOutcome(was, Now(l), l.fails, next, ops, |cs|, ok, n)
    {
      for i := 0 to |cs|
        invariant StagedFirst(was, Now(l), l.fails, next, ops, i)
      {
        ghost var now := Now(l);
        ok := l.StageCidrRule(next, cs[i]);
        AfterStage(was, now, Now(l), l.fails, next, ops, i, CidrOp(l.world, cs[i]), ok);
        if !ok {
          return false, i;
        }
      }
      return true, |cs|;
    }

    method StageCgroups(l: FirewallLoader, next: U32, cs: seq<CompiledCgroup>,
                        ghost was: Snapshot, ghost ops: seq<Op>, ghost o: nat)
      returns (ok: bool, ghost n: nat)
      requires o + |cs| <= |ops| && forall i | 0 <= i < |cs| :: ops[o + i] == CgroupOp(l.world, cs[i])
      requires StagedFirst(was, Now(l), l.fails, next, ops, o)
      modifies l
      ensures StagingOutcome(was, Now(l), l.fails, next, ops, o + |cs|, ok, n)
    {
      for i := 0 to |cs|
        invariant StagedFirst(was, Now(l), l.fails, next, ops, o + i)
      {
        assert ops[o + i] == CgroupOp(l.world, cs[i]);
        ghost var now := Now(l);
        ok := l.StageCgroupRule(next, cs[i]);
        AfterStage(was, now, Now(l), l.fails, next, ops, o + i, CgroupOp(l.world, cs[i]), ok);
        if !ok {
          return false, o + i;
        }
      }
      return true, o + |cs|;
    }

    method StagePorts(l: FirewallLoader, next: U32, cs: seq<CompiledPort>,
                      ghost was: Snapshot, ghost ops: seq<Op>, ghost o: nat)
      returns (ok: bool, ghost n: nat)
      requires o + |cs| <= |ops| && forall i | 0 <= i < |cs| :: ops[o + i] == PortOp(cs[i])
      requires StagedFirst(was, Now(l), l.fails, next, ops, o)
      modifies l
      ensures StagingOutcome(was, Now(l), l.fails, next, ops, o + |cs|, ok, n)
    {
      for i := 0 to |cs|
        invariant StagedFirst(was, Now(l), l.fails, next, ops, o + i)
      {
        assert ops[o + i] == PortOp(cs[i]);
        ghost var now := Now(l);
        ok := l.StagePortRule(next, cs[i]);
        AfterStage(was, now, Now(l), l.fails, next, ops, o + i, PortOp(cs[i]), ok);
        if !ok {
          return false, o + i;
        }
      }
      return true, o + |cs|;
    }

    /** CIDRs, then cgroups, then ports; stops at the first item that cannot be staged. */
    method StagePolicy(l: FirewallLoader, next: U32, cp: CompiledPolicy) returns (ok: bool, ghost n: nat)
      modifies l
      ensures StagingOutcome(old(Now(l)), Now(l), l.fails, next, PolicyOps(l.world, cp),
                             |PolicyOps(l.world, cp)|, ok, n)
    {
      ghost var was, ops := Now(l), PolicyOps(l.world, cp);
      NothingStaged(was, l.fails, next, ops);
      ok, n := StageCidrs(l, next, cp.cidrs, was, ops);
      if ok {
        ok, n := StageCgroups(l, next, cp.cgroups, was, ops, n);
      }
      if ok {
        ok, n := StagePorts(l, next, cp.ports, was, ops, n);
      }
    }

    /** Staging followed by the write of the generation cell. */
    method StageAndFlip(l: FirewallLoader, next: U32, cp: CompiledPolicy) returns (ok: bool, ghost n: nat)
      modifies l
      ensures FlipOutcome(old(Now(l)), Now(l), l.fails, next, PolicyOps(l.world, cp), ok, n)
    {
      ghost var was, ops := Now(l), PolicyOps(l.world, cp);
      ok, n := StagePolicy(l, next, cp);
      if ok {
        ghost var mid := Now(l);
        ok := l.SetActiveGeneration(next);
        AfterFlip(was, mid, Now(l), l.fails, next, ops, ok);
      } else {
        BlockedFails(was, Now(l), l.fails, next, ops, n);
      }
    }

    /** Stage under the next generation, flip the cell, purge the old one; roll back on any failure.
        `k` is the protocol state the loader's maps are in, `k'` the one they end in. */
    method ApplyPolicyAtomic(l: FirewallLoader, cp: CompiledPolicy, ghost k: Plane)
      returns (ok: bool, gen: U32, ghost k': Plane, ghost issued: seq<Write>)
      requires InStep(k, l.activeGen, l.entries)
      modifies l
      // the maps follow a run of the protocol, write by write
      ensures InStep(k', l.activeGen, l.entries)
      ensures l.log == old(l.log) + issued && Reaches(k, k', issued)
      ensures Starts(issued) == [PolicyOps(l.world, cp)]
      // exactly when it succeeds
      ensures ok <==> Succeeds(old(l.entries), Next(old(l.activeGen)), PolicyOps(l.world, cp), l.fails, old(l.writes))
      // what it leaves behind
      ensures Outcome(k, k', PolicyOps(l.world, cp), ok) && gen == l.activeGen
    {
      ghost var ops, before := PolicyOps(l.world, cp), l.log;
      l.log := l.log + [Started(ops)];
      ghost var was := Now(l);
      var cur := l.GetActiveGeneration();
      var next := Add32(cur, 1);
      NextIsWrap(cur);
      ghost var none := l.ClearGenerationRules(next);
      NothingDeleted(k.entries, next, none);
      assert Now(l) == was;
      ghost var n: nat;
      ok, n := StageAndFlip(l, next, cp);
      if !ok {
        ghost var slots := l.ClearGenerationRules(next);
        k' := RolledBack(k, ops, n, slots);
        LogGrew(before, [Started(ops)], Puts(next, ops[..n]), [], Removes(slots));
        OneStart(next, ops, n, [], slots);
        return false, cur, k', StagingWrites(k, ops, n) + Removes(slots);
      }
      assert ops[..n] == ops;
      ghost var slots := l.ClearGenerationRules(cur);
      k' := Published(k, ops, slots);
      LogGrew(before, [Started(ops)], Puts(next, ops), [SetGen(next)], Removes(slots));
      OneStart(next, ops, n, [SetGen(next)], slots);
      return true, next, k', StagingWrites(k, ops, |ops|) + [SetGen(next)] + Removes(slots);
    }
  }
}
