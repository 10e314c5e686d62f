/**
 Handing the rings to user space in version 1: the SHARE_VQS and SHARE_BUF requests choose a page
 frame, and the next small mmap of the device file maps it and records it in the table.
 */
module RingSharing {
  import opened Words
  import opened VirtQueues
  import opened ShareTable

  const RAM_BLOCK: int := 0x40000  // pages in one gigabyte

  datatype MmapResult = Done | RemapFailed | Communication

  /** Every ring lies on the page frame recorded at its queue's place. */
  ghost predicate LandedOn(pfns: seq<u64>, names: seq<bool>, atts: seq<Attempt>)
    requires |names| == |atts| && NamedBefore(names, |names|) <= |pfns|
  {
    forall i :: 0 <= i < |names| && names[i] ==>
      && atts[i].ring.Some? && NamedBefore(names, i) < |pfns|
      && pfns[NamedBefore(names, i)] == Pfn(atts[i].ring.value)
  }

  lemma LandedIff(d: Device, before: seq<u64>, all: seq<u64>, names: seq<bool>, atts: seq<Attempt>)
    requires |names| == |atts| < TWO32 && FindError(d, 1, names, atts, |names|).None?
    requires before <= all && NamedBefore(names, |names|) <= |before|
    ensures var pfns := PfnsOf(d, 1, names, atts, |names|);
            pfns <= before + pfns <==> LandedOn(all, names, atts)
  {
    var pfns := PfnsOf(d, 1, names, atts, |names|);
    PfnsOfServed(d, names, atts, |names|);
    if LandedOn(all, names, atts) {
      forall k: nat | k < |pfns| ensures pfns[k] == before[k] {
        var i := NamedOf(names, |names|, k);
      }
    }
  }

  /** With 4 KiB pages: the byte that address a of a mapping at v stands for, when the mapping begins at
      the physical address base. */
  lemma PhysicalAddress(slots: seq<Slot>, index: nat, live: Live, v: u64, base: nat)
    requires Represents(slots, index, live) && WellFormed(live)
    requires v in live && base == live[v].pfn * 0x1000
    ensures forall a: u64 | Inside(v, live[v], a) :: PfnFrom(slots, a, 0) * 0x1000 + a % 0x1000 == base + (a - v)
  {
    forall a: u64 | Inside(v, live[v], a)
      ensures PfnFrom(slots, a, 0) * 0x1000 + a % 0x1000 == base + (a - v)
    {
      ScanAgrees(slots, index, live, a, v);
      assert Granted(v, live[v]);
    }
  }

  class Loopback {
    const transport: Transport
    const table: Table
    var shareCommunication: bool
    var curRamIdx: nat

    ghost predicate Valid()
      reads this, transport, table
    {
      && transport.Valid() && transport.version == 1 && table.Valid()
      && curRamIdx <= table.mmapIndex
    }

    /** The entry of each queue that is set up is the page frame the device has for it. */
    ghost predicate InStep()
      reads this, transport, transport.vqPfns
      requires transport.vqPfns.Length == MAX_VQS
    {
      && |transport.vqs| <= MAX_VQS
      && forall k: u32 | k < |transport.vqs| :: transport.vqPfns[k] == Activation(transport.dev, 1, k)
    }

    constructor (dev: Device)
      ensures Valid() && InStep() && transport.dev == dev && transport.vqs == [] && transport.vqIndex == 0
      ensures fresh(transport) && fresh(transport.vqPfns) && fresh(table) && fresh(table.slots)
    {
      transport := new Transport(1, dev);
      table := new Table();
      shareCommunication, curRamIdx := false, 0;
    }

    /** The driver's probe after open: if it succeeds, every queue is in step. If it fails no queue is left,
        but the page frames of the entries before the refused one stay recorded, and that of the refused
        one too if it was too large: the next setup records after them (see Reprobe). */
    method Probe(names: seq<bool>, atts: seq<Attempt>, out: array<Entry>) returns (rc: Option<Errno>)
      requires Valid() && transport.vqs == [] && transport.vqIndex == 0
      requires |names| == |atts| == out.Length < TWO32 && NamedBefore(names, |names|) <= MAX_VQS
      modifies transport, transport.vqPfns, out
      ensures Valid() && rc == FindError(old(transport.dev), 1, names, atts, |names|)
      ensures transport.vqPfns[..transport.vqIndex] == PfnsOf(old(transport.dev), 1, names, atts, |names|)
      ensures rc.None? ==>
                && InStep() && Consecutive(transport.vqs)
                && transport.vqIndex == |transport.vqs| == NamedBefore(names, |names|)
                && (forall i :: 0 <= i < |names| ==> EntryServed(transport.dev, 1, names, atts, i, out[i]))
                && (forall j: u32 :: QueueAt(transport.dev, j).numMax == QueueAt(old(transport.dev), j).numMax)
      ensures rc.Some? ==>
                && transport.vqs == []
                && forall j: u32 :: Activation(transport.dev, 1, j) == Activation(old(transport.dev), 1, j)
    {
      rc := transport.FindVqs(names, atts, out);
      if rc.None? {
        FramesInOrder(old(transport.dev), transport.dev, names, atts, out[..]);
        forall k: u32 | k < |transport.vqs| ensures transport.vqPfns[k] == Activation(transport.dev, 1, k) {
          assert transport.vqPfns[..transport.vqIndex][k] == Activation(transport.dev, 1, k);
        }
      }
    }

    /** SHARE_VQS; the source does not check the index. */
    method ShareVqs(queueSel: u32)
      requires Valid() && queueSel < MAX_VQS
      modifies transport`vqPfn
      ensures transport.vqPfn == transport.vqPfns[queueSel]
    {
      transport.vqPfn := transport.vqPfns[queueSel];
    }

    /** SHARE_BUF hands over a physical address. */
    method ShareBuf(addr: u64)
      modifies transport`vqPfn
      ensures transport.vqPfn == addr / PAGE_SIZE
    {
      transport.vqPfn := addr / PAGE_SIZE;
    }

    method ShareComStruct()
      modifies this`shareCommunication
      ensures shareCommunication
    {
      shareCommunication := true;
    }

    /** op_mmap: the first mmap after ShareComStruct maps the mailbox page; a mapping above 100 pages
        stands for the next gigabyte of RAM; any other maps the chosen page frame. */
    method OpMmap(vmStart: u64, vmEnd: u64, uid: u32, remapOk: bool) returns (r: MmapResult)
      requires Valid() && vmStart <= vmEnd && table.mmapIndex < MMAP_LIMIT
      modifies this`curRamIdx, this`shareCommunication, table, table.slots
      ensures Valid() && !shareCommunication
      ensures old(shareCommunication) || (vmEnd - vmStart <= 100 * PAGE_SIZE && !remapOk) ==>
                && r == (if old(shareCommunication) then Communication else RemapFailed)
                && table.mmapIndex == old(table.mmapIndex) && table.slots[..] == old(table.slots[..])
                && curRamIdx == old(curRamIdx)
      ensures !old(shareCommunication) && (vmEnd - vmStart > 100 * PAGE_SIZE || remapOk) ==>
                && r == Done && table.mmapIndex == old(table.mmapIndex) + 1
                && var big := vmEnd - vmStart > 100 * PAGE_SIZE;
                   var pfn := if big then old(curRamIdx) * RAM_BLOCK else transport.vqPfn;
                   && curRamIdx == old(curRamIdx) + (if big then 1 else 0)
                   && table.slots[..] ==
                      old(table.slots[..])[old(table.mmapIndex) := Recorded(pfn, vmStart, vmEnd - vmStart, uid)]
    {
      var size := vmEnd - vmStart;
      if shareCommunication {
        shareCommunication := false;
        return Communication;
      }
      if size > 100 * PAGE_SIZE {
        table.AddShareMmap(curRamIdx * RAM_BLOCK, vmStart, size, uid);
        curRamIdx := curRamIdx + 1;
        return Done;
      }
      if !remapOk {
        return RemapFailed;
      }
      table.AddShareMmap(transport.vqPfn, vmStart, size, uid);
      return Done;
    }

    /** While the queues are in step, sharing queue k and mapping up to 100 pages records exactly the
        page frame the device has for queue k, and every address of the mapping translates into it. */
    method ShareRing(k: u32, vmStart: u64, vmEnd: u64, uid: u32, ghost live: Live)
      requires Valid() && InStep() && !shareCommunication && table.mmapIndex < MMAP_LIMIT
      requires k < |transport.vqs| && vmStart < vmEnd <= vmStart + 100 * PAGE_SIZE
      requires Represents(table.slots[..], table.mmapIndex, live) && WellFormed(live)
      requires LegalOp(live, table.mmapIndex,
                 Add(vmStart, Mapping(Activation(transport.dev, 1, k), vmEnd - vmStart, uid)))
      modifies this`curRamIdx, this`shareCommunication, transport`vqPfn, table, table.slots
      ensures Valid() && InStep()
      ensures Represents(table.slots[..], table.mmapIndex,
                live[vmStart := Mapping(Activation(transport.dev, 1, k), vmEnd - vmStart, uid)])
      ensures forall addr: u64 | vmStart <= addr < vmEnd ::
                PfnFrom(table.slots[..], addr, 0) == Activation(transport.dev, 1, k) + (addr - vmStart) / PAGE_SIZE
    {
      ghost var before, index := table.slots[..], table.mmapIndex;
      ghost var m := Mapping(Activation(transport.dev, 1, k), vmEnd - vmStart, uid);
      ShareVqs(k);
      var r := OpMmap(vmStart, vmEnd, uid, true);
      StepRepresents(before, index, live, Add(vmStart, m));
      forall addr: u64 | vmStart <= addr < vmEnd
        ensures PfnFrom(table.slots[..], addr, 0) == m.pfn + (addr - vmStart) / PAGE_SIZE
      {
        ScanAgrees(table.slots[..], table.mmapIndex, live[vmStart := m], addr, vmStart);
      }
    }

    /** Sharing the buffer at a page-aligned physical address and mapping up to 100 pages: every address
        of the mapping translates to the byte of the buffer that lies as far from its start. */
    method ShareBuffer(addr: u64, vmStart: u64, vmEnd: u64, uid: u32, ghost live: Live)
      requires Valid() && !shareCommunication && table.mmapIndex < MMAP_LIMIT
      requires addr % 0x1000 == 0 && vmStart < vmEnd <= vmStart + 0x64000
      requires Represents(table.slots[..], table.mmapIndex, live) && WellFormed(live)
      requires LegalOp(live, table.mmapIndex, Add(vmStart, Mapping(addr / 0x1000, vmEnd - vmStart, uid)))
      modifies this`curRamIdx, this`shareCommunication, transport`vqPfn, table, table.slots
      ensures Valid()
      ensures Represents(table.slots[..], table.mmapIndex,
                live[vmStart := Mapping(addr / 0x1000, vmEnd - vmStart, uid)])
      ensures forall a: u64 | vmStart <= a < vmEnd ::
                PfnFrom(table.slots[..], a, 0) * 0x1000 + a % 0x1000 == addr + (a - vmStart)
    {
      ghost var before, index := table.slots[..], table.mmapIndex;
      ghost var m := Mapping(addr / 0x1000, vmEnd - vmStart, uid);
      ShareBuf(addr);
      var r := OpMmap(vmStart, vmEnd, uid, true);
      StepRepresents(before, index, live, Add(vmStart, m));
      PhysicalAddress(table.slots[..], table.mmapIndex, live[vmStart := m], vmStart, addr);
    }

    /** A mapping of more than 100 pages stands for the next gigabyte of physical memory: the first such
        mapping for the first, and so on. */
    method MapRam(vmStart: u64, vmEnd: u64, uid: u32, ghost live: Live)
      requires Valid() && !shareCommunication && table.mmapIndex < MMAP_LIMIT
      requires vmStart + 0x64000 < vmEnd
      requires Represents(table.slots[..], table.mmapIndex, live) && WellFormed(live)
      requires LegalOp(live, table.mmapIndex, Add(vmStart, Mapping(curRamIdx * 0x40000, vmEnd - vmStart, uid)))
      modifies this`curRamIdx, this`shareCommunication, table, table.slots
      ensures Valid() && curRamIdx == old(curRamIdx) + 1
      ensures Represents(table.slots[..], table.mmapIndex,
                live[vmStart := Mapping(old(curRamIdx) * 0x40000, vmEnd - vmStart, uid)])
      ensures forall a: u64 | vmStart <= a < vmEnd ::
                PfnFrom(table.slots[..], a, 0) * 0x1000 + a % 0x1000 == old(curRamIdx) * 0x4000_0000 + (a - vmStart)
    {
      ghost var before, index := table.slots[..], table.mmapIndex;
      ghost var m := Mapping(curRamIdx * 0x40000, vmEnd - vmStart, uid);
      var r := OpMmap(vmStart, vmEnd, uid, true);
      StepRepresents(before, index, live, Add(vmStart, m));
      PhysicalAddress(table.slots[..], table.mmapIndex, live[vmStart := m], vmStart, old(curRamIdx) * 0x4000_0000);
    }

    /** A teardown does not take recorded page frames back, nor does a failed setup: the page frames of a
        further setup go after the recorded ones, but queue k is still looked up at entry k. So the
        queues are in step exactly when what was recorded, followed by the new page frames, begins with
        the new page frames; if no more queues are set up than entries were recorded, exactly when every
        ring landed on the page frame recorded at its queue's place. */
    method Reprobe(names: seq<bool>, atts: seq<Attempt>, out: array<Entry>)
      returns (rc: Option<Errno>, ghost torn: Device)
      requires Valid() && |names| == |atts| == out.Length < TWO32
      requires transport.vqIndex + NamedBefore(names, |names|) <= MAX_VQS
      modifies transport, transport.vqPfns, out
      ensures forall j: u32 :: QueueAt(torn, j) ==
                var q := QueueAt(old(transport.dev), j); if j in old(transport.vqs) then Inactive(q, 1) else q
      ensures Valid() && rc == FindError(torn, 1, names, atts, |names|)
      ensures rc.None? ==>
                && Consecutive(transport.vqs) && |transport.vqs| == NamedBefore(names, |names|)
                && forall i :: 0 <= i < |names| ==> EntryServed(transport.dev, 1, names, atts, i, out[i])
      ensures rc.None? ==>
                var before := old(transport.vqPfns[..transport.vqIndex]);
                var pfns := PfnsOf(torn, 1, names, atts, |names|);
                && transport.vqPfns[..transport.vqIndex] == before + pfns && |pfns| == |transport.vqs|
                && (forall k: u32 | k < |pfns| :: pfns[k] == Activation(transport.dev, 1, k))
                && (InStep() <==> pfns <= before + pfns)
      ensures rc.None? && NamedBefore(names, |names|) <= old(transport.vqIndex) ==>
                (InStep() <==> LandedOn(old(transport.vqPfns[..]), names, atts))
      ensures rc.Some? ==> transport.vqs == []
    {
      transport.DelVqs();
      torn := transport.dev;
      rc := transport.FindVqs(names, atts, out);
      ghost var before := old(transport.vqPfns[..transport.vqIndex]);
      ghost var pfns := PfnsOf(torn, 1, names, atts, |names|);
      if rc.None? {
        FramesInOrder(torn, transport.dev, names, atts, out[..]);
        forall k: u32 | k < |pfns| ensures transport.vqPfns[k] == (before + pfns)[k] {
          assert transport.vqPfns[..transport.vqIndex][k] == (before + pfns)[k];
        }
        if |pfns| <= |before| {
          LandedIff(torn, before, old(transport.vqPfns[..]), names, atts);
        }
      }
    }
  }

  /** A driver that is bound again with its ring one page further: the queue is live on the new page, and
      SHARE_VQS still hands out the old one. */
  method RebindOutOfStep() returns (l: Loopback)
    ensures l.Valid() && l.transport.vqs == [0] && !l.InStep()
    ensures l.transport.vqPfns[0] == 5 && Activation(l.transport.dev, 1, 0) == 6
  {
    var queue := Queue(256, 0, 0, 0, 0, 0, 0, 0, 0, 0, 0);
    l := new Loopback(Device(0, map[0 := queue]));
    var out := new Entry[1](i => NoQueue);
    var first := Attempt(true, Some(Ring(5 * PAGE_SIZE, 0, 0, 256)));
    var second := Attempt(true, Some(Ring(6 * PAGE_SIZE, 0, 0, 256)));
    var rc := l.Probe([true], [first], out);
    assert NamedBefore([true], 1) == 1 && rc.None?;
    assert l.transport.vqs[0] in l.transport.vqs;
    ghost var torn;
    rc, torn := l.Reprobe([true], [second], out);
    assert Activation(torn, 1, 0) == 0 && rc.None?;
    ghost var k: u32 := 0;
    assert l.transport.vqPfns[..l.transport.vqIndex][k] == 5;
    assert l.transport.vqPfns[k] != Activation(l.transport.dev, 1, k);
  }
}
