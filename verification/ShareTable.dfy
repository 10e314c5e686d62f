/**
 The 200-slot table that translates between page frames and user-space addresses, against the finite
 map of the mappings that are live.
 */
module ShareTable {
  import opened Words

  const MMAP_LIMIT: nat := 200
  const TWO64: int := 0x1_0000_0000_0000_0000

  datatype Slot = Slot(pfn: u64, vmStart: u64, size: u32, uid: u32)

  const CLEAR := Slot(0, 0, 0, 0)

  /** A sum of 64-bit words. */
  function Wrap(x: int): (r: u64)
    ensures 0 <= x < TWO64 ==> r == x
  {
    x % TWO64
  }

  // ---------- The table as the scan loops see it; sums wrap at 64 bits ----------

  predicate HoldsAddr(s: Slot, addr: u64) {
    s.vmStart <= addr && addr < Wrap(s.vmStart + s.size)
  }

  predicate HoldsPfn(s: Slot, pfn: u64, uid: u32) {
    s.pfn <= pfn && pfn < Wrap(s.pfn + s.size / PAGE_SIZE) && s.uid == uid
  }

  function Translated(s: Slot, addr: u64): int { (addr - s.vmStart) / PAGE_SIZE + s.pfn }

  /** The page frame of addr by the first slot from i on that holds it, or 0. */
  function PfnFrom(slots: seq<Slot>, addr: u64, i: nat): u64
    requires i <= |slots|
    decreases |slots| - i
  {
    if i == |slots| then 0
    else if HoldsAddr(slots[i], addr) then Wrap(Translated(slots[i], addr))
    else PfnFrom(slots, addr, i + 1)
  }

  /** The address of pfn by the first slot from i on that holds it for uid, or 0. */
  function AddrFrom(slots: seq<Slot>, pfn: u64, uid: u32, i: nat): u64
    requires i <= |slots|
    decreases |slots| - i
  {
    if i == |slots| then 0
    else if HoldsPfn(slots[i], pfn, uid) then Wrap((pfn - slots[i].pfn) * PAGE_SIZE + slots[i].vmStart)
    else AddrFrom(slots, pfn, uid, i + 1)
  }

  function Recorded(pfn: u64, vmStart: u64, size: u64, uid: u32): Slot {
    Slot(pfn, vmStart, size % 0x1_0000_0000, uid)
  }

  function Removed(slots: seq<Slot>, vmStart: u64): (r: seq<Slot>)
    ensures |r| == |slots|
  {
    seq(|slots|, i requires 0 <= i < |slots| => if slots[i].vmStart == vmStart then CLEAR else slots[i])
  }

  class Table {
    const slots: array<Slot>
    var mmapIndex: nat

    ghost predicate Valid()
      reads this
    {
      slots.Length == MMAP_LIMIT && mmapIndex <= MMAP_LIMIT
    }

    constructor ()
      ensures Valid() && fresh(slots) && mmapIndex == 0
      ensures forall i :: 0 <= i < MMAP_LIMIT ==> slots[i] == CLEAR
    {
      slots := new Slot[MMAP_LIMIT](i => CLEAR);
      mmapIndex := 0;
    }

    method AddShareMmap(pfn: u64, vmStart: u64, size: u64, uid: u32)
      requires Valid() && mmapIndex < MMAP_LIMIT
      modifies this, slots
      ensures Valid() && mmapIndex == old(mmapIndex) + 1
      ensures slots[..] == old(slots[..])[old(mmapIndex) := Recorded(pfn, vmStart, size, uid)]
    {
      slots[mmapIndex] := Recorded(pfn, vmStart, size, uid);
      mmapIndex := mmapIndex + 1;
    }

    method ShareMmapRem(vmStart: u64)
      requires Valid()
      modifies slots
      ensures slots[..] == Removed(old(slots[..]), vmStart)
    {
      for i := 0 to MMAP_LIMIT
        invariant forall j :: 0 <= j < i ==> slots[j] == Removed(old(slots[..]), vmStart)[j]
        invariant forall j :: i <= j < MMAP_LIMIT ==> slots[j] == old(slots[j])
      {
        if slots[i].vmStart == vmStart {
          slots[i] := CLEAR;
        }
      }
    }

    method ReturnCorrectPfn(addr: u64) returns (pfn: u64)
      requires Valid()
      ensures pfn == PfnFrom(slots[..], addr, 0)
    {
      for i := 0 to MMAP_LIMIT
        invariant PfnFrom(slots[..], addr, 0) == PfnFrom(slots[..], addr, i)
      {
        if HoldsAddr(slots[i], addr) {
          return Wrap((addr - slots[i].vmStart) / PAGE_SIZE + slots[i].pfn);
        }
      }
      return 0;
    }

    method ReturnCorrectAddr(pfn: u64, uid: u32) returns (addr: u64)
      requires Valid()
      ensures addr == AddrFrom(slots[..], pfn, uid, 0)
    {
      for i := 0 to MMAP_LIMIT
        invariant AddrFrom(slots[..], pfn, uid, 0) == AddrFrom(slots[..], pfn, uid, i)
      {
        if HoldsPfn(slots[i], pfn, uid) {
          return Wrap((pfn - slots[i].pfn) * PAGE_SIZE + slots[i].vmStart);
        }
      }
      return 0;
    }
  }

  // ---------- The map of live mappings ----------

  datatype Mapping = Mapping(pfn: u64, size: u64, uid: u32)

  type Live = map<u64, Mapping>

  predicate Inside(vmStart: u64, m: Mapping, addr: int) { vmStart <= addr < vmStart + m.size }

  /** What mmap grants: whole pages of user space and of memory, shorter than 4 GiB. */
  predicate Granted(vmStart: u64, m: Mapping) {
    && 0 < vmStart && vmStart % PAGE_SIZE == 0
    && 0 < m.size < 0x1_0000_0000 && m.size % PAGE_SIZE == 0
    && vmStart + m.size < TWO64 && m.pfn + m.size / PAGE_SIZE < TWO64
  }

  ghost predicate Disjoint(live: Live) {
    forall v, w, a: int :: v in live && w in live && Inside(v, live[v], a) && Inside(w, live[w], a) ==> v == w
  }

  ghost predicate WellFormed(live: Live) {
    Disjoint(live) && forall v :: v in live ==> Granted(v, live[v])
  }

  /** Slots below index carry exactly the live mappings, all others are clear. */
  ghost predicate Represents(slots: seq<Slot>, index: nat, live: Live) {
    && (forall i :: 0 <= i < |slots| && slots[i] != CLEAR ==>
          && i < index && slots[i].vmStart in live
          && live[slots[i].vmStart] == Mapping(slots[i].pfn, slots[i].size, slots[i].uid))
    && (forall v :: v in live ==> exists i :: 0 <= i < |slots| && slots[i] != CLEAR && slots[i].vmStart == v)
  }

  datatype Op = Add(vmStart: u64, m: Mapping) | Remove(vmStart: u64)

  ghost predicate LegalOp(live: Live, index: nat, op: Op) {
    op.Add? ==>
      && index < MMAP_LIMIT && Granted(op.vmStart, op.m)
      && forall v, a: int :: v in live && Inside(v, live[v], a) ==> !Inside(op.vmStart, op.m, a)
  }

  function StepLive(live: Live, op: Op): Live {
    match op
    case Add(v, m) => live[v := m]
    case Remove(v) => live - {v}
  }

  /** What the table's methods do to slots and index. */
  function StepSlots(slots: seq<Slot>, index: nat, op: Op): (seq<Slot>, nat)
    requires |slots| == MMAP_LIMIT && (op.Add? ==> index < MMAP_LIMIT)
  {
    match op
    case Add(v, m) => (slots[index := Recorded(m.pfn, v, m.size, m.uid)], index + 1)
    case Remove(v) => (Removed(slots, v), index)
  }

  lemma StepRepresents(slots: seq<Slot>, index: nat, live: Live, op: Op)
    requires |slots| == MMAP_LIMIT && Represents(slots, index, live) && WellFormed(live)
    requires LegalOp(live, index, op)
    ensures var (s', i') := StepSlots(slots, index, op);
            Represents(s', i', StepLive(live, op)) && WellFormed(StepLive(live, op))
  {
    var (s', i') := StepSlots(slots, index, op);
    var live' := StepLive(live, op);
    match op
    case Add(v, m) =>
      assert Inside(v, m, v);
      assert v !in live by { if v in live { assert Inside(v, live[v], v); } }
      assert slots[index] == CLEAR && s'[index] != CLEAR;
      forall u | u in live' ensures exists i :: 0 <= i < |s'| && s'[i] != CLEAR && s'[i].vmStart == u {
        if u != v {
          var i :| 0 <= i < |slots| && slots[i] != CLEAR && slots[i].vmStart == u;
          assert s'[i] == slots[i];
        }
      }
    case Remove(v) =>
      forall u | u in live' ensures exists i :: 0 <= i < |s'| && s'[i] != CLEAR && s'[i].vmStart == u {
        var i :| 0 <= i < |slots| && slots[i] != CLEAR && slots[i].vmStart == u;
        assert s'[i] == slots[i];
      }
  }

  /** The table beside the map of live mappings. */
  datatype Pair = Pair(slots: seq<Slot>, index: nat, live: Live)

  ghost predicate Sound(p: Pair) {
    |p.slots| == MMAP_LIMIT && Represents(p.slots, p.index, p.live) && WellFormed(p.live)
  }

  ghost function Step(p: Pair, op: Op): Pair
    requires |p.slots| == MMAP_LIMIT && LegalOp(p.live, p.index, op)
  {
    var (slots, index) := StepSlots(p.slots, p.index, op);
    Pair(slots, index, StepLive(p.live, op))
  }

  ghost predicate LegalOps(p: Pair, ops: seq<Op>)
    requires |p.slots| == MMAP_LIMIT
    decreases ops
  {
    ops == [] || (LegalOp(p.live, p.index, ops[0]) && LegalOps(Step(p, ops[0]), ops[1..]))
  }

  ghost function Run(p: Pair, ops: seq<Op>): Pair
    requires |p.slots| == MMAP_LIMIT && LegalOps(p, ops)
    decreases ops
  {
    if ops == [] then p else Run(Step(p, ops[0]), ops[1..])
  }

  lemma {:induction false} RunSound(p: Pair, ops: seq<Op>)
    requires Sound(p) && LegalOps(p, ops)
    ensures Sound(Run(p, ops))
    decreases ops
  {
    if ops != [] {
      StepRepresents(p.slots, p.index, p.live, ops[0]);
      RunSound(Step(p, ops[0]), ops[1..]);
    }
  }

  // ---------- Lookups agree with the map ----------

  /** Slot k holds the address and translates it to pfn. */
  ghost predicate Hit(slots: seq<Slot>, k: nat, addr: u64, pfn: u64) {
    k < |slots| && HoldsAddr(slots[k], addr) && pfn == Wrap(Translated(slots[k], addr))
  }

  /** The scan stops at some slot that holds the address, if there is one. */
  lemma {:induction false} ScanStops(slots: seq<Slot>, addr: u64, i: nat)
    requires i <= |slots|
    ensures if exists k: nat :: i <= k < |slots| && HoldsAddr(slots[k], addr)
            then exists k: nat :: Hit(slots, k, addr, PfnFrom(slots, addr, i))
            else PfnFrom(slots, addr, i) == 0
    decreases |slots| - i
  {
    if i < |slots| {
      ScanStops(slots, addr, i + 1);
      if HoldsAddr(slots[i], addr) {
        assert Hit(slots, i, addr, PfnFrom(slots, addr, i));
      } else if k: nat :| i <= k < |slots| && HoldsAddr(slots[k], addr) {
        assert i + 1 <= k;
        assert PfnFrom(slots, addr, i) == PfnFrom(slots, addr, i + 1);
      }
    }
  }

  /** The live mapping v covers addr. */
  ghost predicate Covers(live: Live, v: u64, addr: u64) { v in live && Inside(v, live[v], addr) }

  /** A slot holds an address exactly as its live mapping covers it; a clear slot never does. */
  lemma SlotAgrees(slots: seq<Slot>, index: nat, live: Live, i: nat, addr: u64)
    requires Represents(slots, index, live) && WellFormed(live) && i < |slots|
    ensures HoldsAddr(slots[i], addr) <==> slots[i] != CLEAR && Covers(live, slots[i].vmStart, addr)
    ensures HoldsAddr(slots[i], addr) ==>
              Wrap(Translated(slots[i], addr)) == live[slots[i].vmStart].pfn + (addr - slots[i].vmStart) / PAGE_SIZE
  {
    if slots[i] != CLEAR {
      var v := slots[i].vmStart;
      assert Granted(v, live[v]);
      if Inside(v, live[v], addr) {
        assert (addr - v) / PAGE_SIZE < live[v].size / PAGE_SIZE;
      }
    }
  }

  lemma ScanAgrees(slots: seq<Slot>, index: nat, live: Live, addr: u64, v: u64)
    requires Represents(slots, index, live) && WellFormed(live) && Covers(live, v, addr)
    ensures PfnFrom(slots, addr, 0) == live[v].pfn + (addr - v) / PAGE_SIZE
  {
    var i :| 0 <= i < |slots| && slots[i] != CLEAR && slots[i].vmStart == v;
    SlotAgrees(slots, index, live, i, addr);
    ScanStops(slots, addr, 0);
    var k: nat :| Hit(slots, k, addr, PfnFrom(slots, addr, 0));
    SlotAgrees(slots, index, live, k, addr);
    var w := slots[k].vmStart;
    assert w == v by { assert Inside(v, live[v], addr) && Inside(w, live[w], addr); }
  }

  lemma ScanMisses(slots: seq<Slot>, index: nat, live: Live, addr: u64)
    requires Represents(slots, index, live) && WellFormed(live)
    ensures PfnFrom(slots, addr, 0) == 0 || exists v: u64 :: Covers(live, v, addr)
  {
    ScanStops(slots, addr, 0);
    if k: nat :| 0 <= k < |slots| && HoldsAddr(slots[k], addr) {
      SlotAgrees(slots, index, live, k, addr);
      assert Covers(live, slots[k].vmStart, addr);
    }
  }

  /** First-match lookup of an address is lookup in the map, and 0 outside all live mappings. */
  ghost predicate LookupAgrees(p: Pair, addr: u64) {
    var pfn := PfnFrom(p.slots, addr, 0);
    && (forall v: u64 :: Covers(p.live, v, addr) ==> pfn == p.live[v].pfn + (addr - v) / PAGE_SIZE)
    && (pfn == 0 || exists v: u64 :: Covers(p.live, v, addr))
  }

  lemma SoundAgrees(p: Pair, addr: u64)
    requires Sound(p)
    ensures LookupAgrees(p, addr)
  {
    forall v: u64 | Covers(p.live, v, addr)
      ensures PfnFrom(p.slots, addr, 0) == p.live[v].pfn + (addr - v) / PAGE_SIZE
    {
      ScanAgrees(p.slots, p.index, p.live, addr, v);
    }
    ScanMisses(p.slots, p.index, p.live, addr);
  }

  /** From a cleared table, after any legal sequence of additions and removals, lookup of every address
      agrees with the map of live mappings. */
  lemma LookupRefinesMap(p: Pair, ops: seq<Op>, addr: u64)
    requires |p.slots| == MMAP_LIMIT && p.index == 0 && p.live == map[]
    requires (forall i :: 0 <= i < MMAP_LIMIT ==> p.slots[i] == CLEAR) && LegalOps(p, ops)
    ensures LookupAgrees(Run(p, ops), addr)
  {
    RunSound(p, ops);
    SoundAgrees(Run(p, ops), addr);
  }

  /** The scan stops at the first slot that holds the page frame; the address it yields is in a live
      mapping of that process, on a page boundary. */
  lemma {:induction false} ScanPfn(slots: seq<Slot>, index: nat, live: Live, pfn: u64, uid: u32, i: nat)
    requires Represents(slots, index, live) && WellFormed(live) && i <= |slots|
    ensures var a := AddrFrom(slots, pfn, uid, i);
            if a == 0 then forall k :: i <= k < |slots| ==> !HoldsPfn(slots[k], pfn, uid)
            else exists v :: v in live && live[v].uid == uid && live[v].pfn <= pfn
                             && a == v + (pfn - live[v].pfn) * PAGE_SIZE && Inside(v, live[v], a)
    decreases |slots| - i
  {
    if i < |slots| {
      ScanPfn(slots, index, live, pfn, uid, i + 1);
      if HoldsPfn(slots[i], pfn, uid) {
        var v := slots[i].vmStart;
        assert slots[i] != CLEAR;
        assert Granted(v, live[v]);
        var a := v + (pfn - live[v].pfn) * PAGE_SIZE;
        assert pfn < live[v].pfn + live[v].size / PAGE_SIZE;
        assert Inside(v, live[v], a);
        assert AddrFrom(slots, pfn, uid, i) == a;
      }
    }
  }

  /** The live mapping v of that process covers the page frame. */
  ghost predicate CoversPfn(live: Live, v: u64, pfn: u64, uid: u32) {
    v in live && live[v].uid == uid && live[v].pfn <= pfn < live[v].pfn + live[v].size / PAGE_SIZE
  }

  lemma CoveredIsHeld(slots: seq<Slot>, index: nat, live: Live, v: u64, pfn: u64, uid: u32)
    requires Represents(slots, index, live) && WellFormed(live) && CoversPfn(live, v, pfn, uid)
    ensures exists i :: 0 <= i < |slots| && HoldsPfn(slots[i], pfn, uid)
  {
    var i :| 0 <= i < |slots| && slots[i] != CLEAR && slots[i].vmStart == v;
    assert Granted(v, live[v]);
    assert HoldsPfn(slots[i], pfn, uid);
  }

  /** An address is found exactly when a live mapping of the process covers the page frame, and lies as
      many pages into such a mapping as the page frame. */
  lemma PfnFoundIff(slots: seq<Slot>, index: nat, live: Live, pfn: u64, uid: u32)
    requires Represents(slots, index, live) && WellFormed(live)
    ensures var a := AddrFrom(slots, pfn, uid, 0);
            if a == 0 then forall v: u64 :: !CoversPfn(live, v, pfn, uid)
            else exists v: u64 :: CoversPfn(live, v, pfn, uid) && a == v + (pfn - live[v].pfn) * PAGE_SIZE
  {
    ScanPfn(slots, index, live, pfn, uid, 0);
    var a := AddrFrom(slots, pfn, uid, 0);
    if a == 0 {
      if v: u64 :| CoversPfn(live, v, pfn, uid) {
        CoveredIsHeld(slots, index, live, v, pfn, uid);
        assert false;
      }
    } else {
      var v :| v in live && live[v].uid == uid && live[v].pfn <= pfn
               && a == v + (pfn - live[v].pfn) * PAGE_SIZE && Inside(v, live[v], a);
      assert Granted(v, live[v]);
      assert CoversPfn(live, v, pfn, uid);
    }
  }

  /** Translating a found page frame to an address and back gives the same page frame. */
  lemma PfnRoundTrip(slots: seq<Slot>, index: nat, live: Live, pfn: u64, uid: u32)
    requires Represents(slots, index, live) && WellFormed(live)
    ensures var a := AddrFrom(slots, pfn, uid, 0);
            a != 0 ==> PfnFrom(slots, a, 0) == pfn
  {
    var a := AddrFrom(slots, pfn, uid, 0);
    if a != 0 {
      ScanPfn(slots, index, live, pfn, uid, 0);
      var v :| v in live && live[v].uid == uid && live[v].pfn <= pfn
               && a == v + (pfn - live[v].pfn) * PAGE_SIZE && Inside(v, live[v], a);
      ScanAgrees(slots, index, live, a, v);
      assert (a - v) / PAGE_SIZE == pfn - live[v].pfn;
    }
  }

  /** Sizes are stored in 32 bits: a recorded slot holds exactly the addresses of its mapping if and
      only if the mapping is shorter than 4 GiB. */
  lemma RangeKeptIff(pfn: u64, vmStart: u64, size: u64, uid: u32)
    requires vmStart + size < TWO64
    ensures (forall a: u64 :: HoldsAddr(Recorded(pfn, vmStart, size, uid), a) <==> vmStart <= a < vmStart + size)
            <==> size < 0x1_0000_0000
  {
    var kept := size % 0x1_0000_0000;
    if size >= 0x1_0000_0000 {
      var a: u64 := vmStart + kept;
      assert !HoldsAddr(Recorded(pfn, vmStart, size, uid), a);
      assert vmStart <= a < vmStart + size;
    }
  }
}
