/** Process capabilities (pkg/security/caps.go): a list of capability IDs packed into 64 bits, handed to
    the kernel as two 32-bit words, read back and listed again. */
module Capabilities {
  import opened Words
  import opened Ascending
  import opened Membership

  const CAP_NET_ADMIN: bv32 := 12
  const CAP_SYS_ADMIN: bv32 := 21
  const CAP_SYS_RESOURCE: bv32 := 24
  const CAP_PERFMON: bv32 := 38
  const CAP_BPF: bv32 := 39

  /** One of the two words of each set that capget and capset exchange. */
  datatype CapUserData = CapUserData(effective: bv32, permitted: bv32, inheritable: bv32)

  datatype CapabilitySet = CapabilitySet(
    effective: seq<CapId>, permitted: seq<CapId>, isRoot: bool, hasCapBpf: bool, hasCapNet: bool)

  predicate HasCap(bits: bv64, id: bv32) {
    id < 64 && bits & ((1 as bv64) << id) != 0
  }

  function Recombine(lo: bv32, hi: bv32): bv64 {
    (lo as bv64) | ((hi as bv64) << 32)
  }

  function LowWord(bits: bv64): bv32 {
    (bits & 0xFFFF_FFFF) as bv32
  }

  function HighWord(bits: bv64): bv32 {
    ((bits >> 32) & 0xFFFF_FFFF) as bv32
  }

  lemma WordsRoundTrip(bits: bv64)
    ensures Recombine(LowWord(bits), HighWord(bits)) == bits
  {
  }

  /** Capability `id` is bit `id` of the low word, or bit `id - 32` of the high one. */
  lemma BitPlaces(lo: bv32, hi: bv32, id: bv32)
    ensures id < 32 ==> (HasCap(Recombine(lo, hi), id) <==> (lo >> id) & 1 == 1)
    ensures 32 <= id < 64 ==> (HasCap(Recombine(lo, hi), id) <==> (hi >> (id - 32)) & 1 == 1)
    ensures id >= 64 ==> !HasCap(Recombine(lo, hi), id)
  {
  }

  function WithCap(bits: bv64, id: bv32): bv64
    requires id < 64
  {
    bits | ((1 as bv64) << id)
  }

  lemma OrBit(bits: bv64, id: bv32, other: bv32)
    requires id < 64
    ensures HasCap(bits | ((1 as bv64) << id), other) <==> HasCap(bits, other) || other == id
  {
  }

  lemma SetBit(bits: bv64, id: bv32, other: bv32)
    requires id < 64
    ensures HasCap(WithCap(bits, id), other) <==> HasCap(bits, other) || other == id
  {
    OrBit(bits, id, other);
  }

  /** The IDs that have a bit. */
  type CapId = id: bv32 | id < 64

  predicate Below(a: CapId, b: CapId) {
    a < b
  }

  const BELOW: (CapId, CapId) -> bool := Below

  lemma BelowFacts(x: CapId, y: CapId, z: CapId)
    ensures !Below(x, x) && (Below(x, y) && Below(y, z) ==> Below(x, z)) && (Below(x, y) || Below(y, x) || x == y)
  {
  }

  lemma BelowOrders()
    ensures StrictOrder(BELOW)
  {
    forall x: CapId, y: CapId, z: CapId
      ensures !BELOW(x, x) && (BELOW(x, y) && BELOW(y, z) ==> BELOW(x, z)) && (BELOW(x, y) || BELOW(y, x) || x == y)
    {
      BelowFacts(x, y, z);
    }
  }

  ghost function In(bits: bv64): bv32 -> bool {
    (id: bv32) => HasCap(bits, id)
  }

  const FITS: bv32 -> bool := (id: bv32) => id < 64

  /** `bits` holds exactly these IDs; those from 64 up have no bit. */
  ghost predicate Packs(bits: bv64, keep: seq<bv32>) {
    Members(In(bits), FITS, keep)
  }

  lemma InMore(bits: bv64, id: bv32)
    requires id < 64
    ensures Joined(In(bits), In(WithCap(bits, id)), id)
  {
    forall other: bv32
      ensures JoinedAt(In(bits), In(WithCap(bits, id)), id, other)
    {
      SetBit(bits, id, other);
    }
  }

  lemma PacksMore(bits: bv64, keep: seq<bv32>, id: bv32)
    requires Packs(bits, keep)
    ensures Packs(if id < 64 then WithCap(bits, id) else bits, keep + [id])
  {
    if id < 64 {
      InMore(bits, id);
      MembersMore(In(bits), In(WithCap(bits, id)), FITS, keep, id);
    } else {
      MembersSkip(In(bits), FITS, keep, id);
    }
  }

  method PackCaps(keep: seq<bv32>) returns (bits: bv64)
    ensures Packs(bits, keep)
  {
    bits := 0;
    for i := 0 to |keep|
      invariant Packs(bits, keep[..i])
    {
      var id := keep[i];
      PacksMore(bits, keep[..i], id);
      assert keep[..i + 1] == keep[..i] + [id];
      if id < 64 {
        bits := WithCap(bits, id);
      }
    }
    assert keep[..|keep|] == keep;
  }

  ghost function InBelow(has: bv32 -> bool, bound: bv32): CapId -> bool {
    (id: CapId) => has(id) && id < bound
  }

  const ALL: CapId -> bool := (id: CapId) => true

  /** `ids` is the increasing list of the IDs below a bound that `has` admits. */
  ghost predicate SpellsBelow(ids: seq<CapId>, has: bv32 -> bool, bound: bv32) {
    Increasing(BELOW, ids) && Members(InBelow(has, bound), ALL, ids)
  }

  /** `ids` is the increasing list of the IDs in `bits`. */
  ghost predicate Spells(ids: seq<CapId>, bits: bv64) {
    SpellsBelow(ids, In(bits), 64)
  }

  lemma BoundMore(i: CapId, id: CapId)
    ensures id < i + 1 <==> id < i || id == i
  {
  }

  lemma InBelowMore(has: bv32 -> bool, i: CapId)
    ensures has(i) ==> Joined(InBelow(has, i), InBelow(has, i + 1), i)
    ensures !has(i) ==> forall id: CapId :: InBelow(has, i + 1)(id) <==> InBelow(has, i)(id)
  {
    forall id: CapId
      ensures InBelow(has, i + 1)(id) <==> InBelow(has, i)(id) || (has(i) && id == i)
      ensures has(i) ==> JoinedAt(InBelow(has, i), InBelow(has, i + 1), i, id)
    {
      BoundMore(i, id);
    }
  }

  lemma SpellsMore(ids: seq<CapId>, has: bv32 -> bool, i: CapId)
    requires SpellsBelow(ids, has, i)
    ensures SpellsBelow(if has(i) then ids + [i] else ids, has, i + 1)
  {
    InBelowMore(has, i);
    if has(i) {
      assert forall id :: id in ids ==> InBelow(has, i)(id);
      IncreasingMore<CapId>(BELOW, ids, i);
      MembersMore<CapId>(InBelow(has, i), InBelow(has, i + 1), ALL, ids, i);
    }
  }

  method ExtractCapBits(bits: bv64) returns (ids: seq<CapId>)
    ensures Spells(ids, bits)
  {
    ids := [];
    var i: bv32 := 0;
    while i < 64
      invariant i <= 64 && SpellsBelow(ids, In(bits), i)
      decreases 64 - i
    {
      SpellsMore(ids, In(bits), i);
      if HasCap(bits, i) {
        ids := ids + [i];
      }
      i := i + 1;
    }
  }

  /** The calling process: its capability words in the kernel. Either system call may fail, and a
      failed capset changes nothing. */
  class Process {
    var low: CapUserData
    var high: CapUserData
    var calls: nat
    const euid: U32
    const fails: nat -> bool

    constructor (low: CapUserData, high: CapUserData, euid: U32, fails: nat -> bool)
      ensures this.low == low && this.high == high && this.euid == euid && this.fails == fails && calls == 0
    {
      this.low, this.high, this.euid, this.fails, calls := low, high, euid, fails, 0;
    }

    ghost function Effective(): bv64
      reads this
    {
      Recombine(low.effective, high.effective)
    }

    ghost function Permitted(): bv64
      reads this
    {
      Recombine(low.permitted, high.permitted)
    }

    /** The report spells out both sets, and its flags say what the effective one grants. */
    ghost predicate Reported(cs: CapabilitySet)
      reads this
    {
      && Spells(cs.effective, Effective()) && Spells(cs.permitted, Permitted())
      && (cs.isRoot <==> euid == 0)
      && (cs.hasCapBpf <==> 39 in cs.effective || 21 in cs.effective)
      && (cs.hasCapNet <==> 12 in cs.effective || 21 in cs.effective)
    }

    method GetProcessCapabilities() returns (cs: Option<CapabilitySet>)
      modifies this`calls
      ensures calls == old(calls) + 1 && (cs.None? <==> fails(old(calls)))
      ensures cs.Some? ==> Reported(cs.value)
    {
      calls := calls + 1;
      if fails(calls - 1) {
        return None;
      }
      var effBits := Recombine(low.effective, high.effective);
      var permBits := Recombine(low.permitted, high.permitted);
      var effective := ExtractCapBits(effBits);
      var permitted := ExtractCapBits(permBits);
      cs := Some(CapabilitySet(effective, permitted, euid == 0,
                               HasCap(effBits, CAP_BPF) || HasCap(effBits, CAP_SYS_ADMIN),
                               HasCap(effBits, CAP_NET_ADMIN) || HasCap(effBits, CAP_SYS_ADMIN)));
    }

    method DropCapabilities(keep: seq<bv32>) returns (ok: bool)
      modifies this
      ensures calls == old(calls) + 1 && (ok <==> !fails(old(calls)))
      ensures ok ==> Packs(Effective(), keep) && Packs(Permitted(), keep)
      ensures ok ==> low.inheritable == 0 && high.inheritable == 0
      ensures !ok ==> low == old(low) && high == old(high)
    {
      var bits := PackCaps(keep);
      var lo, hi := LowWord(bits), HighWord(bits);
      calls := calls + 1;
      if fails(calls - 1) {
        return false;
      }
      low, high := CapUserData(lo, lo, 0), CapUserData(hi, hi, 0);
      WordsRoundTrip(bits);
      ok := true;
    }

    /** Bounding to the minimal set: once the words were written and read back, the report is exactly
        the five IDs in increasing order. A failed drop leaves the process as it was; a failed second
        read hands back the report from before the drop. */
    method EnsureMinimalCapabilities() returns (cs: Option<CapabilitySet>)
      modifies this
      ensures cs.None? <==> fails(old(calls))
      ensures cs.None? || fails(old(calls) + 1) ==> low == old(low) && high == old(high)
      ensures cs.Some? && !fails(old(calls) + 2) ==> Reported(cs.value)
      ensures cs.Some? && fails(old(calls) + 2) ==> old(Reported(cs.value))
      ensures cs.Some? && !fails(old(calls) + 1) && !fails(old(calls) + 2) ==>
                cs.value == CapabilitySet(MINIMAL, MINIMAL, euid == 0, true, true)
    {
      var before := GetProcessCapabilities();
      if before.None? {
        return None;
      }
      var ok := DropCapabilities(REQUIRED);
      var after := GetProcessCapabilities();
      if after.None? {
        return before;
      }
      if ok {
        MinimalRoundTrip(Effective(), after.value.effective);
        MinimalRoundTrip(Permitted(), after.value.permitted);
      }
      return after;
    }
  }

  const REQUIRED: seq<bv32> := [CAP_BPF, CAP_NET_ADMIN, CAP_SYS_RESOURCE, CAP_PERFMON, CAP_SYS_ADMIN]

  const MINIMAL: seq<CapId> := [12, 21, 24, 38, 39]

  lemma MinimalSorts()
    ensures Increasing(BELOW, MINIMAL) && forall id :: id in MINIMAL <==> id in REQUIRED && id < 64
  {
  }

  lemma MinimalRoundTrip(bits: bv64, ids: seq<CapId>)
    requires Packs(bits, REQUIRED) && Spells(ids, bits)
    ensures ids == MINIMAL
  {
    WordsRoundTrip(bits);
    MinimalSorts();
    RoundTrip(REQUIRED, bits, ids, MINIMAL);
  }

  /** Packing, splitting, recombining and listing gives the increasing list of the distinct IDs below
      64, whatever the order and repetitions of the list that was packed; and HasCap is membership. */
  lemma RoundTrip(keep: seq<bv32>, bits: bv64, ids: seq<CapId>, sorted: seq<CapId>)
    requires Packs(bits, keep) && Spells(ids, Recombine(LowWord(bits), HighWord(bits)))
    requires Increasing(BELOW, sorted) && forall id :: id in sorted <==> id in keep && id < 64
    ensures ids == sorted
    ensures forall id :: HasCap(bits, id) <==> id in sorted
  {
    WordsRoundTrip(bits);
    BelowOrders();
    assert SameMembers(ids, sorted);
    IncreasingUnique(BELOW, ids, sorted);
  }
}
