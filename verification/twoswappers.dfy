/** Two swappers on one loader. The swapper's lock belongs to one instance (pkg/compiler/atomic_swap.go:29),
    and the agent applies its startup policy with its own one (cmd/firewall-agent/main.go:98) beside the
    control server's. Only single loader calls exclude one another then. Writes are taken to succeed. */
module TwoSwappers {
  import opened Words
  import opened Folds
  import opened RuleMaps
  import opened Xdp
  import opened SwapProtocol
  import opened SwapRuns

  /** A loader call that changes something. */
  datatype Call = Clear(gen: U32) | Store(slot: Slot, entry: Entry) | SetCell(gen: U32)

  datatype Cells = Cells(gen: U32, entries: Entries)

  function Without(m: Entries, g: U32): Entries {
    m - (set s | s in m && s.gen == g)
  }

  function Exec(s: Cells, c: Call): Cells {
    match c
    case Clear(g) => s.(entries := Without(s.entries, g))
    case Store(slot, e) => s.(entries := s.entries[slot := e])
    case SetCell(g) => s.(gen := g)
  }

  function Execute(s: Cells, cs: seq<Call>): Cells {
    Fold(Exec, s, cs)
  }

  function Stores(g: U32, ops: seq<Op>): seq<Call>
    requires AllPuts(ops)
  {
    seq(|ops|, i requires 0 <= i < |ops| => Store(Slot(g, ops[i].item), ops[i].entry))
  }

  /** The calls of an apply that has read generation `cur`, up to the flip and after it. */
  function UpToFlip(cur: U32, ops: seq<Op>): seq<Call>
    requires AllPuts(ops)
  {
    [Clear(Next(cur))] + Stores(Next(cur), ops) + [SetCell(Next(cur))]
  }

  function Calls(cur: U32, ops: seq<Op>): seq<Call>
    requires AllPuts(ops)
  {
    UpToFlip(cur, ops) + [Clear(cur)]
  }

  /** `c` is an interleaving of `a` and `b`. */
  ghost predicate Merges(c: seq<Call>, a: seq<Call>, b: seq<Call>)
    decreases |c|
  {
    if c == [] then a == [] && b == []
    else
      var n := |c| - 1;
      || (a != [] && a[|a| - 1] == c[n] && Merges(c[..n], a[..|a| - 1], b))
      || (b != [] && b[|b| - 1] == c[n] && Merges(c[..n], a, b[..|b| - 1]))
  }

  // ---- One apply alone -------------------------------------------------------------------

  lemma {:induction false} StoresStage(s: Cells, g: U32, ops: seq<Op>)
    requires AllPuts(ops)
    ensures Execute(s, Stores(g, ops)) == Cells(s.gen, Staged(s.entries, g, ops))
  {
    if ops != [] {
      var n := |ops| - 1;
      StoresStage(s, g, ops[..n]);
      assert Stores(g, ops)[..n] == Stores(g, ops[..n]);
    }
  }

  /** Staging into a fresh generation gives it exactly the image of the list. */
  lemma {:induction false} StagedImage(m: Entries, h: U32, g: U32, ops: seq<Op>)
    requires AllPuts(ops) && g != h && forall s | s in m :: s.gen == h
    ensures IsView(Staged(m, g, ops), g, ImageOf(ops))
    ensures forall s | s in Staged(m, g, ops) :: s.gen == g || s.gen == h
  {
    if ops != [] {
      StagedImage(m, h, g, ops[..|ops| - 1]);
    }
  }

  lemma ClearedImage(m: Entries, h: U32, g: U32, img: Image)
    requires g != h && IsView(m, g, img) && forall s | s in m :: s.gen == g || s.gen == h
    ensures Exactly(Without(m, h), g, img)
  {
  }

  lemma NothingToClear(m: Entries, g: U32)
    requires NoneOf(m, g)
    ensures Without(m, g) == m
  {
  }

  lemma ExecuteConcat(s: Cells, a: seq<Call>, b: seq<Call>)
    ensures Execute(s, a + b) == Execute(Execute(s, a), b)
  {
    FoldConcat(Exec, s, a, b);
  }

  lemma ExecuteOne(s: Cells, c: Call)
    ensures Execute(s, [c]) == Exec(s, c)
  {
    FoldMore(Exec, s, [], c);
    assert [] + [c] == [c];
  }

  lemma FlipState(s: Cells, ops: seq<Op>)
    requires AllPuts(ops) && NoneOf(s.entries, Next(s.gen))
    ensures Execute(s, UpToFlip(s.gen, ops)) == Cells(Next(s.gen), Staged(s.entries, Next(s.gen), ops))
  {
    var g := Next(s.gen);
    NothingToClear(s.entries, g);
    ExecuteOne(s, Clear(g));
    ExecuteConcat(s, [Clear(g)], Stores(g, ops));
    StoresStage(s, g, ops);
    ExecuteConcat(s, [Clear(g)] + Stores(g, ops), [SetCell(g)]);
    ExecuteOne(Cells(s.gen, Staged(s.entries, g, ops)), SetCell(g));
  }

  /** Alone, an apply leaves exactly its image under the next generation. */
  lemma AppliedAlone(s: Cells, img: Image, ops: seq<Op>)
    requires AllPuts(ops) && Exactly(s.entries, s.gen, img)
    ensures var s' := Execute(s, Calls(s.gen, ops));
            s'.gen == Next(s.gen) && Exactly(s'.entries, Next(s.gen), ImageOf(ops))
  {
    var g := Next(s.gen);
    NeighboursDiffer(s.gen);
    FlipState(s, ops);
    ExecuteConcat(s, UpToFlip(s.gen, ops), [Clear(s.gen)]);
    ExecuteOne(Cells(g, Staged(s.entries, g, ops)), Clear(s.gen));
    StagedImage(s.entries, s.gen, g, ops);
    ClearedImage(Staged(s.entries, g, ops), s.gen, g, ImageOf(ops));
  }

  // ---- The second one reads the cell after the flip --------------------------------------

  /** Clearing a generation commutes with every call that does not store into it. */
  lemma ClearCommutes(s: Cells, c: Call, g: U32)
    requires c.Store? ==> c.slot.gen != g
    ensures Exec(Exec(s, c), Clear(g)) == Exec(Exec(s, Clear(g)), c)
  {
  }

  ghost predicate StoresElsewhere(cs: seq<Call>, g: U32) {
    forall i | 0 <= i < |cs| :: cs[i].Store? ==> cs[i].slot.gen != g
  }

  lemma {:induction false} ClearFirst(s: Cells, cs: seq<Call>, g: U32)
    requires StoresElsewhere(cs, g)
    ensures Exec(Execute(s, cs), Clear(g)) == Execute(Exec(s, Clear(g)), cs)
  {
    if cs != [] {
      var n := |cs| - 1;
      ClearFirst(s, cs[..n], g);
      ClearCommutes(Execute(s, cs[..n]), cs[n], g);
    }
  }

  lemma {:induction false} MergeOfNothing(c: seq<Call>, b: seq<Call>)
    requires Merges(c, [], b)
    ensures c == b
  {
    if c != [] {
      MergeOfNothing(c[..|c| - 1], b[..|b| - 1]);
      assert c == c[..|c| - 1] + [c[|c| - 1]];
    }
  }

  /** A single purge may come anywhere among calls that store elsewhere. */
  lemma {:induction false} PurgeAnywhere(s: Cells, c: seq<Call>, g: U32, b: seq<Call>)
    requires Merges(c, [Clear(g)], b) && StoresElsewhere(b, g)
    ensures Execute(s, c) == Execute(Exec(s, Clear(g)), b)
    decreases |c|
  {
    var n := |c| - 1;
    if c[n] == Clear(g) && Merges(c[..n], [Clear(g)][..0], b) {
      assert [Clear(g)][..0] == [];
      MergeOfNothing(c[..n], b);
      ClearFirst(s, b, g);
    } else {
      PurgeAnywhere(s, c[..n], g, b[..|b| - 1]);
    }
  }

  /** An apply that reads the cell after another one's flip is safe: however it interleaves with the
      other's purge, the outcome is that of one apply after the other. */
  lemma OverlapAfterFlip(s: Cells, img: Image, a: seq<Op>, b: seq<Op>, c: seq<Call>)
    requires AllPuts(a) && AllPuts(b) && Exactly(s.entries, s.gen, img)
    requires Merges(c, [Clear(s.gen)], Calls(Next(s.gen), b))
    ensures var s' := Execute(s, UpToFlip(s.gen, a) + c);
            && s' == Execute(s, Calls(s.gen, a) + Calls(Next(s.gen), b))
            && s'.gen == Next(Next(s.gen)) && Exactly(s'.entries, s'.gen, ImageOf(b))
  {
    var g := Next(s.gen);
    TwoAway(s.gen);
    ExecuteConcat(s, UpToFlip(s.gen, a), c);
    PurgeAnywhere(Execute(s, UpToFlip(s.gen, a)), c, s.gen, Calls(g, b));
    ExecuteOne(Execute(s, UpToFlip(s.gen, a)), Clear(s.gen));
    ExecuteConcat(s, UpToFlip(s.gen, a), [Clear(s.gen)]);
    ExecuteConcat(s, Calls(s.gen, a), Calls(g, b));
    AppliedAlone(s, img, a);
    AppliedAlone(Execute(s, Calls(s.gen, a)), ImageOf(a), b);
  }

  lemma TwoAway(g: U32)
    ensures Next(Next(g)) != g
  {
  }

  // ---- Both read the cell before either flips --------------------------------------------

  ghost predicate SetsOnly(cs: seq<Call>, g: U32) {
    forall i | 0 <= i < |cs| :: cs[i].SetCell? ==> cs[i].gen == g
  }

  lemma {:induction false} MergeSetsOnly(c: seq<Call>, a: seq<Call>, b: seq<Call>, g: U32)
    requires Merges(c, a, b) && SetsOnly(a, g) && SetsOnly(b, g)
    ensures SetsOnly(c, g)
    decreases |c|
  {
    if c != [] {
      var n := |c| - 1;
      if a != [] && a[|a| - 1] == c[n] && Merges(c[..n], a[..|a| - 1], b) {
        MergeSetsOnly(c[..n], a[..|a| - 1], b, g);
      } else {
        MergeSetsOnly(c[..n], a, b[..|b| - 1], g);
      }
    }
  }

  /** Nothing gets lost in an interleaving. */
  lemma {:induction false} MergeKeeps(c: seq<Call>, a: seq<Call>, b: seq<Call>, x: Call)
    requires Merges(c, a, b) && x in a
    ensures x in c
    decreases |c|
  {
    if c != [] {
      var n := |c| - 1;
      assert c == c[..n] + [c[n]];
      if a != [] && a[|a| - 1] == c[n] && Merges(c[..n], a[..|a| - 1], b) {
        assert a == a[..|a| - 1] + [c[n]];
        if x in a[..|a| - 1] {
          MergeKeeps(c[..n], a[..|a| - 1], b, x);
        }
      } else {
        MergeKeeps(c[..n], a, b[..|b| - 1], x);
      }
    }
  }

  lemma {:induction false} CellAfter(s: Cells, cs: seq<Call>, g: U32)
    requires SetsOnly(cs, g)
    ensures Execute(s, cs).gen == g || (Execute(s, cs).gen == s.gen && SetCell(g) !in cs)
  {
    if cs != [] {
      CellAfter(s, cs[..|cs| - 1], g);
      assert cs == cs[..|cs| - 1] + [cs[|cs| - 1]];
    }
  }

  /** Two applies that read the same generation are never both counted: in every interleaving both
      succeed and the generation advances by one. */
  lemma OverlapLosesOne(s: Cells, a: seq<Op>, b: seq<Op>, c: seq<Call>)
    requires AllPuts(a) && AllPuts(b) && Merges(c, Calls(s.gen, a), Calls(s.gen, b))
    ensures Execute(s, c).gen == Next(s.gen) && Next(s.gen) != Next(Next(s.gen))
  {
    var g := Next(s.gen);
    NeighboursDiffer(g);
    MergeSetsOnly(c, Calls(s.gen, a), Calls(s.gen, b), g);
    assert Calls(s.gen, a)[|Stores(g, a)| + 1] == SetCell(g);
    MergeKeeps(c, Calls(s.gen, a), Calls(s.gen, b), SetCell(g));
    CellAfter(s, c, g);
  }

  // ---- What can be published then --------------------------------------------------------

  lemma {:induction false} MergeConcat(c: seq<Call>, a: seq<Call>, b: seq<Call>,
                                       c': seq<Call>, a': seq<Call>, b': seq<Call>)
    requires Merges(c, a, b) && Merges(c', a', b')
    ensures Merges(c + c', a + a', b + b')
    decreases |c'|
  {
    if c' == [] {
      assert c + c' == c && a + a' == a && b + b' == b;
    } else {
      var n := |c'| - 1;
      assert (c + c')[..|c| + n] == c + c'[..n];
      if a' != [] && a'[|a'| - 1] == c'[n] && Merges(c'[..n], a'[..|a'| - 1], b') {
        MergeConcat(c, a, b, c'[..n], a'[..|a'| - 1], b');
        assert (a + a')[..|a + a'| - 1] == a + a'[..|a'| - 1];
      } else {
        MergeConcat(c, a, b, c'[..n], a', b'[..|b'| - 1]);
        assert (b + b')[..|b + b'| - 1] == b + b'[..|b'| - 1];
      }
    }
  }

  lemma {:induction false} MergeLeft(a: seq<Call>)
    ensures Merges(a, a, [])
  {
    if a != [] {
      MergeLeft(a[..|a| - 1]);
    }
  }

  lemma {:induction false} MergeRight(b: seq<Call>)
    ensures Merges(b, [], b)
  {
    if b != [] {
      MergeRight(b[..|b| - 1]);
    }
  }

  /** One block of calls of each swapper, the first one's before the second one's. */
  lemma MergeBlocks(a: seq<Call>, b: seq<Call>)
    ensures Merges(a + b, a, b)
  {
    MergeLeft(a);
    MergeRight(b);
    MergeConcat(a, a, [], b, [], b);
    assert a + [] == a && [] + b == b;
  }

  lemma ClearTwice(s: Cells, g: U32)
    ensures Execute(s, [Clear(g)] + [Clear(g)]) == Execute(s, [Clear(g)])
  {
    ExecuteConcat(s, [Clear(g)], [Clear(g)]);
    ExecuteOne(s, Clear(g));
    ExecuteOne(Exec(s, Clear(g)), Clear(g));
  }

  lemma SetTwice(s: Cells, g: U32)
    ensures Execute(s, [SetCell(g)] + [SetCell(g)]) == Execute(s, [SetCell(g)])
  {
    ExecuteConcat(s, [SetCell(g)], [SetCell(g)]);
    ExecuteOne(s, SetCell(g));
    ExecuteOne(Exec(s, SetCell(g)), SetCell(g));
  }

  /** The two applies going hand in hand, phase by phase. */
  function HandInHand(g: U32, a: seq<Op>, b: seq<Op>): seq<Call>
    requires AllPuts(a) && AllPuts(b)
  {
    var n := Next(g);
    ([Clear(n)] + [Clear(n)]) + (Stores(n, a) + Stores(n, b))
    + ([SetCell(n)] + [SetCell(n)]) + ([Clear(g)] + [Clear(g)])
  }

  lemma HandInHandMerges(g: U32, a: seq<Op>, b: seq<Op>)
    requires AllPuts(a) && AllPuts(b)
    ensures Merges(HandInHand(g, a, b), Calls(g, a), Calls(g, b))
  {
    var n := Next(g);
    var clears, stores := [Clear(n)] + [Clear(n)], Stores(n, a) + Stores(n, b);
    var sets, purges := [SetCell(n)] + [SetCell(n)], [Clear(g)] + [Clear(g)];
    MergeBlocks([Clear(n)], [Clear(n)]);
    MergeBlocks(Stores(n, a), Stores(n, b));
    MergeBlocks([SetCell(n)], [SetCell(n)]);
    MergeBlocks([Clear(g)], [Clear(g)]);
    MergeConcat(clears, [Clear(n)], [Clear(n)], stores, Stores(n, a), Stores(n, b));
    MergeConcat(clears + stores, [Clear(n)] + Stores(n, a), [Clear(n)] + Stores(n, b),
                sets, [SetCell(n)], [SetCell(n)]);
    MergeConcat(clears + stores + sets, UpToFlip(g, a), UpToFlip(g, b), purges, [Clear(g)], [Clear(g)]);
  }

  lemma HandInHandState(s: Cells, a: seq<Op>, b: seq<Op>)
    requires AllPuts(a) && AllPuts(b)
    ensures AllPuts(a + b) && Execute(s, HandInHand(s.gen, a, b)) == Execute(s, Calls(s.gen, a + b))
  {
    var n := Next(s.gen);
    var clears, stores := [Clear(n)] + [Clear(n)], Stores(n, a) + Stores(n, b);
    var sets, purges := [SetCell(n)] + [SetCell(n)], [Clear(s.gen)] + [Clear(s.gen)];
    assert stores == Stores(n, a + b);
    ExecuteConcat(s, clears, stores);
    ExecuteConcat(s, clears + stores, sets);
    ExecuteConcat(s, clears + stores + sets, purges);
    ClearTwice(s, n);
    ExecuteConcat(s, [Clear(n)], stores);
    SetTwice(Execute(s, [Clear(n)] + stores), n);
    ExecuteConcat(s, [Clear(n)] + stores, [SetCell(n)]);
    ClearTwice(Execute(s, UpToFlip(s.gen, a + b)), s.gen);
    ExecuteConcat(s, UpToFlip(s.gen, a + b), [Clear(s.gen)]);
  }

  /** A mixture of both policies can be published, with both applies answered with success. */
  lemma MixedImagePublished(s: Cells, img: Image, a: seq<Op>, b: seq<Op>) returns (c: seq<Call>)
    requires AllPuts(a) && AllPuts(b) && Exactly(s.entries, s.gen, img)
    ensures Merges(c, Calls(s.gen, a), Calls(s.gen, b))
    ensures Exactly(Execute(s, c).entries, Next(s.gen), ImageOf(a) + ImageOf(b))
  {
    c := HandInHand(s.gen, a, b);
    HandInHandMerges(s.gen, a, b);
    HandInHandState(s, a, b);
    AppliedAlone(s, img, a + b);
    ImageConcat(a, b);
  }

  /** The mixture still drops only what one of the policies drops. */
  lemma MixtureDropsOnlyIf(a: Image, b: Image, p: Packet)
    requires Decide(a + b, p).Drop?
    ensures Decide(a, p).Drop? || Decide(b, p).Drop?
  {
    var mix := a + b;
    if CgroupHit(mix, p) {
      assert CgroupHit(a, p) || CgroupHit(b, p);
    } else if Longest(mix, p.src).Some? {
      var c := Longest(mix, p.src).value;
      assert Listed(a, p.src, c) || Listed(b, p.src, c);
    }
  }

  /** A policy already published and answered with success can be erased by the other swapper's first
      call: the maps are then empty under the active generation, and every packet passes. */
  lemma PublishedThenErased(s: Cells, img: Image, a: seq<Op>, b: seq<Op>, p: Packet)
    returns (c: seq<Call>, rest: seq<Call>)
    requires AllPuts(a) && AllPuts(b) && Exactly(s.entries, s.gen, img)
    ensures Merges(c + rest, Calls(s.gen, a), Calls(s.gen, b)) && Calls(s.gen, a) <= c
    ensures var s' := Execute(s, c);
            s'.gen == Next(s.gen) && s'.entries == map[] && Decide(GenView(s'.entries, s'.gen), p) == Pass
  {
    var n := Next(s.gen);
    c, rest := Calls(s.gen, a) + [Clear(n)], Stores(n, b) + [SetCell(n)] + [Clear(s.gen)];
    MergeBlocks(Calls(s.gen, a), Calls(s.gen, b));
    assert c + rest == Calls(s.gen, a) + Calls(s.gen, b);
    AppliedAlone(s, img, a);
    ExecuteConcat(s, Calls(s.gen, a), [Clear(n)]);
    ExecuteOne(Execute(s, Calls(s.gen, a)), Clear(n));
    assert GenView(map[], n) == map[];
  }
}
