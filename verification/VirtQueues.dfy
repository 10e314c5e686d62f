/**
 Setting up and tearing down the virtqueues over the registers of a virtio-mmio device
 (VIRTIO 1.2, sections 4.2.2, 4.2.3.2 and 4.2.4). Register accesses are atomic and no other thread is
 seen, as module SetupAlone proves; memory allocation is decided by the environment.
 */
module VirtQueues {
  import opened Sequences
  import opened Words

  const QUEUE_SEL: u64 := 0x030
  const QUEUE_NUM_MAX: u64 := 0x034
  const QUEUE_NUM: u64 := 0x038
  const QUEUE_ALIGN: u64 := 0x03c
  const QUEUE_PFN: u64 := 0x040
  const QUEUE_READY: u64 := 0x044
  const QUEUE_DESC_LOW: u64 := 0x080
  const QUEUE_DESC_HIGH: u64 := 0x084
  const QUEUE_AVAIL_LOW: u64 := 0x090
  const QUEUE_AVAIL_HIGH: u64 := 0x094
  const QUEUE_USED_LOW: u64 := 0x0a0
  const QUEUE_USED_HIGH: u64 := 0x0a4

  const TWO32: int := 0x1_0000_0000
  const MAX_VQS: nat := 16

  // ---------- The device's registers ----------

  datatype Queue = Queue(
    numMax: u32, num: u32, align: u32, pfn: u32, ready: u32,
    descLow: u32, descHigh: u32, availLow: u32, availHigh: u32, usedLow: u32, usedHigh: u32)

  /** The queues the device offers, and the selected one. */
  datatype Device = Device(sel: u32, queues: map<u32, Queue>)

  /** An unavailable queue reads as zero. */
  function QueueAt(d: Device, i: u32): Queue {
    if i in d.queues then d.queues[i] else Queue(0, 0, 0, 0, 0, 0, 0, 0, 0, 0, 0)
  }

  function Low(v: u64): (r: u32)
    ensures v < TWO32 ==> r == v
  {
    v % TWO32
  }

  function High(v: u64): u32 { v / TWO32 }

  /** A four-byte write; the writes of the selected queue's fields reach an available queue only. */
  function Store(d: Device, fn: u64, data: u64): Device {
    var v := Low(data);
    if fn == QUEUE_SEL then d.(sel := v)
    else if d.sel !in d.queues then d
    else d.(queues := d.queues[d.sel := StoreQueue(d.queues[d.sel], fn, v)])
  }

  function StoreQueue(q: Queue, fn: u64, v: u32): Queue {
    if fn == QUEUE_NUM then q.(num := v)
    else if fn == QUEUE_ALIGN then q.(align := v)
    else if fn == QUEUE_PFN then q.(pfn := v)
    else if fn == QUEUE_READY then q.(ready := v)
    else if fn == QUEUE_DESC_LOW then q.(descLow := v)
    else if fn == QUEUE_DESC_HIGH then q.(descHigh := v)
    else if fn == QUEUE_AVAIL_LOW then q.(availLow := v)
    else if fn == QUEUE_AVAIL_HIGH then q.(availHigh := v)
    else if fn == QUEUE_USED_LOW then q.(usedLow := v)
    else if fn == QUEUE_USED_HIGH then q.(usedHigh := v)
    else q
  }

  function Load(d: Device, fn: u64): u64 {
    var q := QueueAt(d, d.sel);
    if fn == QUEUE_NUM_MAX then q.numMax
    else if fn == QUEUE_PFN then q.pfn
    else if fn == QUEUE_READY then q.ready
    else 0
  }

  // ---------- What setting up a queue means ----------

  datatype Errno = ENOENT | ENOMEM | E2BIG

  /** Where the kernel placed a ring: the addresses of its three parts and its size. */
  datatype Ring = Ring(desc: u64, avail: u64, used: u64, size: u32)

  /** What the two allocations of a setup yield: the queue's info, and its ring. */
  datatype Attempt = Attempt(info: bool, ring: Option<Ring>)

  /** The register that makes a queue live: its page frame in version 1, its ready flag in version 2. */
  function Activation(d: Device, version: int, i: u32): u32 {
    if version == 1 then QueueAt(d, i).pfn else QueueAt(d, i).ready
  }

  /** The queue as teardown leaves it: only its activation register is cleared. */
  function Inactive(q: Queue, version: int): Queue {
    if version == 1 then q.(pfn := 0) else q.(ready := 0)
  }

  function Pfn(r: Ring): u64 { r.desc / PAGE_SIZE }

  /** Why queue i cannot be set up, if so. */
  function SetupError(d: Device, version: int, i: u32, a: Attempt): Option<Errno> {
    if Activation(d, version, i) != 0 then Some(ENOENT)
    else if !a.info then Some(ENOMEM)
    else if QueueAt(d, i).numMax == 0 then Some(ENOENT)
    else if a.ring.None? then Some(ENOMEM)
    else if version == 1 && Pfn(a.ring.value) >= TWO32 then Some(E2BIG)
    else None
  }

  /** Queue q can be set up: it is not in use, the device offers entries for it, the kernel granted both
      allocations, and a version 1 device can be told where the ring is. */
  predicate Usable(q: Queue, version: int, a: Attempt) {
    && (if version == 1 then q.pfn else q.ready) == 0 && q.numMax > 0
    && a.info && a.ring.Some? && (version == 1 ==> a.ring.value.desc < 0x1000_0000_0000)
  }

  /** A setup succeeds exactly on a usable queue, and what each error says: the queue is in use or has no
      entries, an allocation failed, the ring lies at or above 2^44. */
  lemma SetupErrorMeans(d: Device, version: int, i: u32, a: Attempt)
    ensures var q, e := QueueAt(d, i), SetupError(d, version, i, a);
            var idle := (if version == 1 then q.pfn else q.ready) == 0;
            && (e.None? <==> Usable(q, version, a))
            && (e == Some(ENOENT) <==> !idle || (a.info && q.numMax == 0))
            && (e == Some(ENOMEM) <==> idle && (!a.info || (q.numMax > 0 && a.ring.None?)))
            && (e == Some(E2BIG) <==> idle && a.info && q.numMax > 0 && a.ring.Some?
                                      && version == 1 && a.ring.value.desc >= 0x1000_0000_0000)
  {
    if a.ring.Some? { Division44(a.ring.value.desc); }
  }

  lemma Division44(v: u64)
    ensures v / PAGE_SIZE >= TWO32 <==> v >= 0x1000_0000_0000
  {
  }

  /** The device can find ring r from its registers of queue i. */
  predicate Live(d: Device, version: int, i: u32, r: Ring) {
    var q := QueueAt(d, i);
    && i in d.queues && q.num == r.size
    && if version == 1 then q.pfn == Pfn(r) && q.align == PAGE_SIZE
       else
         && q.ready == 1
         && q.descLow + q.descHigh * TWO32 == r.desc
         && q.availLow + q.availHigh * TWO32 == r.avail
         && q.usedLow + q.usedHigh * TWO32 == r.used
  }

  /** A version 1 device computes the address of a page-aligned ring from the page frame and 4 KiB pages. */
  lemma RingAddress(d: Device, i: u32, r: Ring)
    requires Live(d, 1, i, r) && r.desc % 0x1000 == 0
    ensures QueueAt(d, i).align == 0x1000 && QueueAt(d, i).pfn * 0x1000 == r.desc
  {
  }

  /** Only queue i may have changed, and not the size its device allows. */
  ghost predicate SameBut(d: Device, d': Device, i: u32) {
    && d.queues.Keys == d'.queues.Keys
    && QueueAt(d', i).numMax == QueueAt(d, i).numMax
    && forall j: u32 | j != i :: QueueAt(d', j) == QueueAt(d, j)
  }

  function NamedBefore(names: seq<bool>, i: nat): (n: nat)
    requires i <= |names|
    ensures n <= i
  {
    if i == 0 then 0 else NamedBefore(names, i - 1) + if names[i - 1] then 1 else 0
  }

  /** Why entry i is refused by a device that no earlier entry has touched. */
  function EntryError(d: Device, version: int, names: seq<bool>, atts: seq<Attempt>, i: nat): Option<Errno>
    requires i < |names| == |atts| < TWO32
  {
    if names[i] then SetupError(d, version, NamedBefore(names, i), atts[i]) else None
  }

  /** The error of the first of n entries that is refused. */
  function FindError(d: Device, version: int, names: seq<bool>, atts: seq<Attempt>, n: nat): Option<Errno>
    requires n <= |names| == |atts| < TWO32
  {
    if n == 0 then None
    else
      var e := FindError(d, version, names, atts, n - 1);
      if e.Some? then e else EntryError(d, version, names, atts, n - 1)
  }

  lemma {:induction false} FindErrorIsFirst(d: Device, version: int, names: seq<bool>, atts: seq<Attempt>, n: nat)
    requires n <= |names| == |atts| < TWO32
    ensures var e := FindError(d, version, names, atts, n);
            if e.None? then forall i :: 0 <= i < n ==> EntryError(d, version, names, atts, i).None?
            else exists i :: 0 <= i < n && EntryError(d, version, names, atts, i) == e
                             && forall k :: 0 <= k < i ==> EntryError(d, version, names, atts, k).None?
  {
    if n > 0 {
      FindErrorIsFirst(d, version, names, atts, n - 1);
    }
  }

  /** Each named entry can be served: its queue, the next in order, is usable on the untouched device. */
  ghost predicate AllUsable(d: Device, version: int, names: seq<bool>, atts: seq<Attempt>)
    requires |names| == |atts| < TWO32
  {
    forall i :: 0 <= i < |names| && names[i] ==> Usable(QueueAt(d, NamedBefore(names, i)), version, atts[i])
  }

  lemma FindSucceedsIff(d: Device, version: int, names: seq<bool>, atts: seq<Attempt>)
    requires |names| == |atts| < TWO32
    ensures FindError(d, version, names, atts, |names|).None? <==> AllUsable(d, version, names, atts)
  {
    FindErrorIsFirst(d, version, names, atts, |names|);
    forall i | 0 <= i < |names| && names[i]
      ensures EntryError(d, version, names, atts, i).None? <==>
              Usable(QueueAt(d, NamedBefore(names, i)), version, atts[i])
    {
      SetupErrorMeans(d, version, NamedBefore(names, i), atts[i]);
    }
  }

  lemma {:induction false} FindErrorStays(
      d: Device, version: int, names: seq<bool>, atts: seq<Attempt>, m: nat, n: nat)
    requires m <= n <= |names| == |atts| < TWO32 && FindError(d, version, names, atts, m).Some?
    ensures FindError(d, version, names, atts, n) == FindError(d, version, names, atts, m)
  {
    if m < n { FindErrorStays(d, version, names, atts, m, n - 1); }
  }

  lemma {:induction false} NamedIncreases(names: seq<bool>, k: nat, i: nat)
    requires k < i <= |names|
    ensures NamedBefore(names, k) + (if names[k] then 1 else 0) <= NamedBefore(names, i)
  {
    if k + 1 < i { NamedIncreases(names, k, i - 1); }
  }

  /** What vm_find_vqs leaves in the caller's array. */
  datatype Entry = NoQueue | Vq(index: u32) | ErrPtr(error: Errno)

  /** Entry i was served: its queue is the next one in order, and the device finds its ring there. */
  predicate EntryServed(d: Device, version: int, names: seq<bool>, atts: seq<Attempt>, i: nat, e: Entry)
    requires i < |names| == |atts| < TWO32
  {
    if !names[i] then e == NoQueue
    else
      && e == Vq(NamedBefore(names, i)) && atts[i].ring.Some?
      && Live(d, version, NamedBefore(names, i), atts[i].ring.value)
  }

  /** Setting up a later queue leaves the entries before it served. */
  lemma StillServed(
      d: Device, d': Device, version: int, names: seq<bool>, atts: seq<Attempt>, k: nat, i: nat, e: Entry)
    requires k < i < |names| == |atts| < TWO32
    requires SameBut(d, d', NamedBefore(names, i)) && EntryServed(d, version, names, atts, k, e)
    ensures EntryServed(d', version, names, atts, k, e)
  {
    NamedIncreases(names, k, i);
  }

  /** Version 1 records the page frame of a ring in vq_pfns, even if it is refused for being too large. */
  function PfnRecorded(version: int, e: Option<Errno>, a: Attempt): seq<u64> {
    if version == 1 && a.ring.Some? && (e.None? || e.value == E2BIG) then [Pfn(a.ring.value)] else []
  }

  /** The page frames that the first n entries record; nothing is recorded after a refusal. */
  function PfnsOf(d: Device, version: int, names: seq<bool>, atts: seq<Attempt>, n: nat): (r: seq<u64>)
    requires n <= |names| == |atts| < TWO32
    ensures |r| <= NamedBefore(names, n)
    ensures version == 2 ==> r == []
  {
    if n == 0 then []
    else
      var r := PfnsOf(d, version, names, atts, n - 1);
      if names[n - 1] && FindError(d, version, names, atts, n - 1).None?
      then r + PfnRecorded(version, EntryError(d, version, names, atts, n - 1), atts[n - 1]) else r
  }

  lemma {:induction false} PfnsOfStays(d: Device, version: int, names: seq<bool>, atts: seq<Attempt>, m: nat, n: nat)
    requires m <= n <= |names| == |atts| < TWO32 && FindError(d, version, names, atts, m).Some?
    ensures PfnsOf(d, version, names, atts, n) == PfnsOf(d, version, names, atts, m)
  {
    if m < n {
      FindErrorStays(d, version, names, atts, m, n - 1);
      PfnsOfStays(d, version, names, atts, m, n - 1);
    }
  }

  /** Without a refusal, every named entry records the page frame of its ring, at the place of its queue. */
  lemma {:induction false} PfnsOfServed(d: Device, names: seq<bool>, atts: seq<Attempt>, n: nat)
    requires n <= |names| == |atts| < TWO32 && FindError(d, 1, names, atts, n).None?
    ensures |PfnsOf(d, 1, names, atts, n)| == NamedBefore(names, n)
    ensures forall i :: 0 <= i < n && names[i] ==>
              && atts[i].ring.Some? && NamedBefore(names, i) < NamedBefore(names, n)
              && PfnsOf(d, 1, names, atts, n)[NamedBefore(names, i)] == Pfn(atts[i].ring.value)
  {
    if n > 0 {
      PfnsOfServed(d, names, atts, n - 1);
    }
  }

  /** Every queue below the number of named entries belongs to one of them. */
  lemma {:induction false} NamedOf(names: seq<bool>, n: nat, k: nat) returns (i: nat)
    requires n <= |names| && k < NamedBefore(names, n)
    ensures i < n && names[i] && NamedBefore(names, i) == k
  {
    if names[n - 1] && NamedBefore(names, n - 1) == k { i := n - 1; } else { i := NamedOf(names, n - 1, k); }
  }

  predicate Consecutive(s: seq<u32>) { forall i :: 0 <= i < |s| ==> s[i] == i }

  /** After i entries, none refused: the queues so far, the device and what is in the caller's array. */
  ghost predicate FoundSoFar(
      d0: Device, d: Device, version: int, names: seq<bool>, atts: seq<Attempt>, i: nat,
      vqs: seq<u32>, outs: seq<Entry>)
    requires i <= |names| == |atts| == |outs| < TWO32
  {
    && Consecutive(vqs) && |vqs| == NamedBefore(names, i)
    && FindError(d0, version, names, atts, i).None?
    && (forall j: u32 | j < |vqs| :: Activation(d0, version, j) == 0)
    && (forall j: u32 | |vqs| <= j :: QueueAt(d, j) == QueueAt(d0, j))
    && (forall j: u32 :: QueueAt(d, j).numMax == QueueAt(d0, j).numMax)
    && (forall k :: 0 <= k < i ==> EntryServed(d, version, names, atts, k, outs[k]))
  }

  /** The same, and what the entries recorded in vq_pfns after the page frames that were there before. */
  ghost predicate Progress(
      d0: Device, pfns0: seq<u64>, d: Device, version: int, names: seq<bool>, atts: seq<Attempt>, i: nat,
      vqs: seq<u32>, outs: seq<Entry>, pfns: seq<u64>)
    requires i <= |names| == |atts| == |outs| < TWO32
  {
    && FoundSoFar(d0, d, version, names, atts, i, vqs, outs)
    && pfns == pfns0 + PfnsOf(d0, version, names, atts, i)
  }

  /** After a refusal with e: every activation register is back, and what was recorded stays. */
  ghost predicate Undone(
      d0: Device, pfns0: seq<u64>, d: Device, version: int, names: seq<bool>, atts: seq<Attempt>, e: Errno,
      pfns: seq<u64>)
    requires |names| == |atts| < TWO32
  {
    && FindError(d0, version, names, atts, |names|) == Some(e)
    && pfns == pfns0 + PfnsOf(d0, version, names, atts, |names|)
    && forall j: u32 :: Activation(d, version, j) == Activation(d0, version, j)
  }

  lemma NextUnnamed(
      d0: Device, pfns0: seq<u64>, d: Device, version: int, names: seq<bool>, atts: seq<Attempt>, i: nat,
      vqs: seq<u32>, outs: seq<Entry>, pfns: seq<u64>)
    requires i < |names| == |atts| == |outs| < TWO32 && !names[i]
    requires Progress(d0, pfns0, d, version, names, atts, i, vqs, outs, pfns)
    ensures Progress(d0, pfns0, d, version, names, atts, i + 1, vqs, outs[i := NoQueue], pfns)
  {
  }

  lemma NextServed(
      d0: Device, pfns0: seq<u64>, d: Device, d': Device, version: int, names: seq<bool>, atts: seq<Attempt>, i: nat,
      vqs: seq<u32>, outs: seq<Entry>, pfns: seq<u64>)
    requires i < |names| == |atts| == |outs| < TWO32 && names[i]
    requires Progress(d0, pfns0, d, version, names, atts, i, vqs, outs, pfns)
    requires SetupError(d, version, |vqs|, atts[i]).None? && SameBut(d, d', |vqs|)
    requires Live(d', version, |vqs|, atts[i].ring.value)
    ensures Progress(d0, pfns0, d', version, names, atts, i + 1, vqs + [|vqs|], outs[i := Vq(|vqs|)],
                     pfns + PfnRecorded(version, None, atts[i]))
  {
    forall k | 0 <= k < i ensures EntryServed(d', version, names, atts, k, outs[k]) {
      StillServed(d, d', version, names, atts, k, i, outs[k]);
    }
    assert QueueAt(d, |vqs|) == QueueAt(d0, |vqs|);
  }

  /** What is left after the refused entry i and the teardown of the queues before it. */
  lemma RolledBack(
      d0: Device, pfns0: seq<u64>, d: Device, d1: Device, d2: Device, version: int, names: seq<bool>,
      atts: seq<Attempt>, i: nat, vqs: seq<u32>, outs: seq<Entry>, pfns: seq<u64>)
    requires i < |names| == |atts| == |outs| < TWO32 && names[i]
    requires Progress(d0, pfns0, d, version, names, atts, i, vqs, outs, pfns)
    requires SetupError(d, version, |vqs|, atts[i]).Some? && SameBut(d, d1, |vqs|)
    requires Activation(d1, version, |vqs|) == Activation(d, version, |vqs|)
    requires forall j: u32 :: QueueAt(d2, j) ==
               if j in vqs then Inactive(QueueAt(d1, j), version) else QueueAt(d1, j)
    ensures var e := SetupError(d, version, |vqs|, atts[i]);
            Undone(d0, pfns0, d2, version, names, atts, e.value, pfns + PfnRecorded(version, e, atts[i]))
  {
    assert QueueAt(d, |vqs|) == QueueAt(d0, |vqs|);
    FindErrorStays(d0, version, names, atts, i + 1, |names|);
    PfnsOfStays(d0, version, names, atts, i + 1, |names|);
    forall j: u32 ensures Activation(d2, version, j) == Activation(d0, version, j) {
      if j < |vqs| {
        assert vqs[j] == j;
      } else {
        assert j !in vqs;
        assert QueueAt(d, j) == QueueAt(d0, j);
        assert j != |vqs| ==> QueueAt(d1, j) == QueueAt(d, j);
      }
    }
  }

  /** Once every entry is served, the record holds the page frames the device has, queue by queue. */
  lemma FramesInOrder(d0: Device, d: Device, names: seq<bool>, atts: seq<Attempt>, outs: seq<Entry>)
    requires |names| == |atts| == |outs| < TWO32 && FindError(d0, 1, names, atts, |names|).None?
    requires forall i :: 0 <= i < |names| ==> EntryServed(d, 1, names, atts, i, outs[i])
    ensures |PfnsOf(d0, 1, names, atts, |names|)| == NamedBefore(names, |names|)
    ensures forall k: u32 | k < NamedBefore(names, |names|) ::
              PfnsOf(d0, 1, names, atts, |names|)[k] == Activation(d, 1, k)
  {
    PfnsOfServed(d0, names, atts, |names|);
    forall k: u32 | k < NamedBefore(names, |names|)
      ensures PfnsOf(d0, 1, names, atts, |names|)[k] == Activation(d, 1, k)
    {
      var i := NamedOf(names, |names|, k);
      assert EntryServed(d, 1, names, atts, i, outs[i]);
    }
  }

  class Transport {
    const version: int
    var dev: Device
    var infos: seq<u32>        // vm_dev->virtqueues, newest first
    var vqs: seq<u32>          // vdev->vqs, oldest first
    const vqPfns: array<u64>
    var vqIndex: nat
    var vqPfn: u64             // what the next small mmap will map

    ghost predicate Valid()
      reads this
    {
      && 1 <= version <= 2 && vqPfns.Length == MAX_VQS && vqIndex <= MAX_VQS
      && Distinct(infos) && Distinct(vqs) && |infos| == |vqs|
      && forall i :: i in vqs <==> i in infos
    }

    constructor (version: int, dev: Device)
      requires 1 <= version <= 2
      ensures Valid() && this.version == version && this.dev == dev
      ensures infos == [] && vqs == [] && vqIndex == 0 && fresh(vqPfns)
    {
      this.version, this.dev := version, dev;
      infos, vqs, vqIndex, vqPfn := [], [], 0, 0;
      vqPfns := new u64[MAX_VQS](i => 0);
    }

    method WriteAdapter(data: u64, fn: u64)
      modifies this`dev
      ensures dev == Store(old(dev), fn, data)
      ensures fn != QUEUE_SEL ==>
                && dev.sel == old(dev).sel && SameBut(old(dev), dev, dev.sel)
                && (dev.sel in dev.queues ==>
                      QueueAt(dev, dev.sel) == StoreQueue(QueueAt(old(dev), dev.sel), fn, Low(data)))
    {
      dev := Store(dev, fn, data);
    }

    method ReadAdapter(fn: u64) returns (v: u64)
      ensures v == Load(dev, fn)
    {
      v := Load(dev, fn);
    }

    method Deactivate()
      modifies this`dev
      ensures dev.sel == old(dev).sel && SameBut(old(dev), dev, dev.sel)
      ensures QueueAt(dev, dev.sel) == Inactive(QueueAt(old(dev), dev.sel), version)
    {
      if version == 1 {
        WriteAdapter(0, QUEUE_PFN);
      } else {
        WriteAdapter(0, QUEUE_READY);
        var stillReady := ReadAdapter(QUEUE_READY);
        assert stillReady == 0;  // the source warns otherwise
      }
    }

    /** The addresses of the ring's parts, in halves. */
    method WriteAddresses(r: Ring)
      requires dev.sel in dev.queues
      modifies this`dev
      ensures dev.sel == old(dev).sel && SameBut(old(dev), dev, dev.sel)
      ensures QueueAt(dev, dev.sel) ==
              QueueAt(old(dev), dev.sel).(descLow := Low(r.desc), descHigh := High(r.desc),
                                          availLow := Low(r.avail), availHigh := High(r.avail),
                                          usedLow := Low(r.used), usedHigh := High(r.used))
    {
      WriteAdapter(Low(r.desc), QUEUE_DESC_LOW);
      WriteAdapter(High(r.desc), QUEUE_DESC_HIGH);
      WriteAdapter(Low(r.avail), QUEUE_AVAIL_LOW);
      WriteAdapter(High(r.avail), QUEUE_AVAIL_HIGH);
      WriteAdapter(Low(r.used), QUEUE_USED_LOW);
      WriteAdapter(High(r.used), QUEUE_USED_HIGH);
    }

    method Activate(r: Ring)
      requires Valid()
      requires dev.sel in dev.queues && QueueAt(dev, dev.sel).num == r.size
      requires version == 1 ==> Pfn(r) < TWO32
      modifies this`dev
      ensures dev.sel == old(dev).sel && SameBut(old(dev), dev, dev.sel)
      ensures Live(dev, version, dev.sel, r)
    {
      if version == 1 {
        WriteAdapter(PAGE_SIZE, QUEUE_ALIGN);
        WriteAdapter(Pfn(r), QUEUE_PFN);
      } else {
        WriteAddresses(r);
        WriteAdapter(1, QUEUE_READY);
      }
    }

    /** Sets up one queue that has a name, or leaves its activation register and both lists as they were. Only in
        version 1, and once a ring was created, a page frame is recorded at vqIndex, E2BIG or not. */
    method SetupVq(index: u32, a: Attempt) returns (r: Entry)
      requires Valid() && index !in vqs
      requires version == 1 ==> vqIndex < MAX_VQS
      modifies this, vqPfns
      ensures Valid() && SameBut(old(dev), dev, index)
      ensures r.Vq? <==> Usable(QueueAt(old(dev), index), version, a)
      ensures match SetupError(old(dev), version, index, a)
              case Some(e) =>
                && r == ErrPtr(e) && infos == old(infos) && vqs == old(vqs)
                && Activation(dev, version, index) == Activation(old(dev), version, index)
              case None =>
                && r == Vq(index) && infos == [index] + old(infos) && vqs == old(vqs) + [index]
                && Live(dev, version, index, a.ring.value)
      ensures var pfn := PfnRecorded(version, SetupError(old(dev), version, index, a), a);
              && vqIndex == old(vqIndex) + |pfn| && vqPfns[..vqIndex] == old(vqPfns[..vqIndex]) + pfn
              && (forall k :: vqIndex <= k < MAX_VQS ==> vqPfns[k] == old(vqPfns[k]))
              && vqPfn == if pfn == [] then old(vqPfn) else pfn[0]
    {
      SetupErrorMeans(dev, version, index, a);
      WriteAdapter(index, QUEUE_SEL);
      var active := ReadAdapter(if version == 1 then QUEUE_PFN else QUEUE_READY);
      if active != 0 {
        return ErrPtr(ENOENT);
      }
      if !a.info {
        return ErrPtr(ENOMEM);
      }
      var num := ReadAdapter(QUEUE_NUM_MAX);
      if num == 0 {
        Deactivate();
        return ErrPtr(ENOENT);
      }
      if a.ring.None? {
        Deactivate();
        return ErrPtr(ENOMEM);
      }
      var ring := a.ring.value;
      WriteAdapter(ring.size, QUEUE_NUM);
      if version == 1 {
        vqPfn := Pfn(ring);
        vqPfns[vqIndex] := Pfn(ring);
        vqIndex := vqIndex + 1;
        if Pfn(ring) >= TWO32 {
          Deactivate();
          return ErrPtr(E2BIG);
        }
      }
      Activate(ring);
      infos := [index] + infos;
      vqs := vqs + [index];
      return Vq(index);
    }

    method DelVq(index: u32)
      requires Valid() && index in vqs
      modifies this`dev, this`infos, this`vqs
      ensures Valid() && SameBut(old(dev), dev, index)
      ensures QueueAt(dev, index) == Inactive(QueueAt(old(dev), index), version)
      ensures infos == Without(old(infos), index) && vqs == Without(old(vqs), index)
    {
      infos := Without(infos, index);
      WriteAdapter(index, QUEUE_SEL);
      Deactivate();
      vqs := Without(vqs, index);
    }

    /** Every listed queue is deactivated, no other register of a queue changes. */
    method DelVqs()
      requires Valid()
      modifies this`dev, this`infos, this`vqs
      ensures Valid() && infos == [] && vqs == []
      ensures dev.queues.Keys == old(dev).queues.Keys
      ensures forall j: u32 :: QueueAt(dev, j) ==
                if j in old(vqs) then Inactive(QueueAt(old(dev), j), version) else QueueAt(old(dev), j)
    {
      while vqs != []
        invariant Valid() && dev.queues.Keys == old(dev).queues.Keys
        invariant forall j :: j in vqs ==> j in old(vqs)
        invariant forall j: u32 :: QueueAt(dev, j) ==
                    if j in old(vqs) && j !in vqs then Inactive(QueueAt(old(dev), j), version)
                    else QueueAt(old(dev), j)
        decreases |vqs|
      {
        assert vqs[0] in vqs;
        DelVq(vqs[0]);
      }
    }

    /** One turn of the loop for a named entry: it is served, or everything set up so far is torn down. */
    method SetupEntry(
        ghost d0: Device, ghost pfns0: seq<u64>, names: seq<bool>, atts: seq<Attempt>, i: nat, queueIdx: u32,
        out: array<Entry>) returns (r: Entry)
      requires Valid() && i < |names| == |atts| == out.Length < TWO32 && names[i] && queueIdx == |vqs|
      requires Progress(d0, pfns0, dev, version, names, atts, i, vqs, out[..], vqPfns[..vqIndex])
      requires version == 1 ==> vqIndex < MAX_VQS
      modifies this, vqPfns, out
      ensures Valid() && out[..] == old(out[..])[i := r]
      ensures r.Vq? ==>
                && Progress(d0, pfns0, dev, version, names, atts, i + 1, vqs, out[..], vqPfns[..vqIndex])
                && |vqs| == queueIdx + 1 && vqIndex == old(vqIndex) + if version == 1 then 1 else 0
      ensures r.Vq? || r.ErrPtr?
      ensures r.ErrPtr? ==>
                && vqs == [] && infos == []
                && Undone(d0, pfns0, dev, version, names, atts, r.error, vqPfns[..vqIndex])
      ensures version == 2 ==> vqPfn == old(vqPfn)
    {
      ghost var before, queues, outs, pfns := dev, vqs, out[..], vqPfns[..vqIndex];
      r := SetupVq(queueIdx, atts[i]);
      ghost var recorded := pfns + PfnRecorded(version, SetupError(before, version, queueIdx, atts[i]), atts[i]);
      assert vqPfns[..vqIndex] == recorded;
      out[i] := r;
      assert out[..] == outs[i := r];
      if r.ErrPtr? {
        ghost var refused := dev;
        DelVqs();
        RolledBack(d0, pfns0, before, refused, dev, version, names, atts, i, queues, outs, pfns);
      } else {
        NextServed(d0, pfns0, before, dev, version, names, atts, i, queues, outs, pfns);
      }
    }

    /** The loop over the entries, up to the first that is refused. */
    method SetupEntries(names: seq<bool>, atts: seq<Attempt>, out: array<Entry>)
      returns (rc: Option<Errno>, ghost at: nat)
      requires Valid() && vqs == [] && |names| == |atts| == out.Length < TWO32
      requires version == 1 ==> vqIndex + NamedBefore(names, |names|) <= MAX_VQS
      modifies this, vqPfns, out
      ensures Valid()
      ensures rc.None? ==>
                Progress(old(dev), old(vqPfns[..vqIndex]), dev, version, names, atts, |names|, vqs, out[..],
                         vqPfns[..vqIndex])
      ensures rc.Some? ==>
                && at < |names| && names[at] && out[at] == ErrPtr(rc.value) && vqs == [] && infos == []
                && Undone(old(dev), old(vqPfns[..vqIndex]), dev, version, names, atts, rc.value, vqPfns[..vqIndex])
      ensures version == 2 ==> vqPfn == old(vqPfn)
    {
      var queueIdx := 0;
      ghost var d0, pfns0 := dev, vqPfns[..vqIndex];
      for i := 0 to |names|
        invariant Valid() && queueIdx == |vqs|
        invariant Progress(d0, pfns0, dev, version, names, atts, i, vqs, out[..], vqPfns[..vqIndex])
        invariant version == 1 ==> vqIndex == old(vqIndex) + queueIdx
        invariant version == 2 ==> vqPfn == old(vqPfn)
      {
        if !names[i] {
          ghost var outs := out[..];
          out[i] := NoQueue;
          assert out[..] == outs[i := NoQueue];
          NextUnnamed(d0, pfns0, dev, version, names, atts, i, vqs, outs, vqPfns[..vqIndex]);
        } else {
          NamedIncreases(names, i, |names|);
          var r := SetupEntry(d0, pfns0, names, atts, i, queueIdx, out);
          if r.ErrPtr? {
            return Some(r.error), i;
          }
          queueIdx := queueIdx + 1;
        }
      }
      return None, 0;
    }

    /** All or nothing. On success the named entries got consecutive queues 0, 1, ..., each with its own
        ring; on the error of the first entry that is refused, no queue is left and every activation
        register of the device is back at its starting value. */
    method FindVqs(names: seq<bool>, atts: seq<Attempt>, out: array<Entry>) returns (rc: Option<Errno>)
      requires Valid() && vqs == [] && |names| == |atts| == out.Length < TWO32
      requires version == 1 ==> vqIndex + NamedBefore(names, |names|) <= MAX_VQS
      modifies this, vqPfns, out
      ensures Valid()
      ensures rc == FindError(old(dev), version, names, atts, |names|)
      ensures rc.None? <==> AllUsable(old(dev), version, names, atts)
      ensures rc.None? ==>
                && Consecutive(vqs) && |vqs| == NamedBefore(names, |names|)
                && (forall i :: 0 <= i < |names| ==> EntryServed(dev, version, names, atts, i, out[i]))
                && (forall j: u32 :: QueueAt(dev, j).numMax == QueueAt(old(dev), j).numMax)
      ensures rc.Some? ==>
                && (exists i :: 0 <= i < |names| && names[i] && out[i] == ErrPtr(rc.value))
                && vqs == [] && infos == []
                && forall j: u32 :: Activation(dev, version, j) == Activation(old(dev), version, j)
      ensures vqPfns[..vqIndex] == old(vqPfns[..vqIndex]) + PfnsOf(old(dev), version, names, atts, |names|)
      ensures version == 2 ==> vqPfn == old(vqPfn)
    {
      FindSucceedsIff(dev, version, names, atts);
      ghost var at;
      rc, at := SetupEntries(names, atts, out);
    }
  }
}
