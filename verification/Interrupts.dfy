/**
 The interrupt service routine against a device that raises status bits at any moment, also between
 the read of the status register and its acknowledgement, with any number of routine calls, while
 queues are set up and torn down. Register accesses are atomic here; module InterruptsOverMailbox
 runs the routine over the mailbox and proves that nothing more can happen there.
 */
module Interrupts {
  import opened Sequences
  import opened Words

  type Tid = nat
  type Bit = b: nat | b < 32  // the status register has 32 bits

  const VRING: Bit := 0   // used ring update
  const CONFIG: Bit := 1  // configuration change

  /** What the routine runs: the configuration handler, or the interrupt handler of one queue. */
  datatype Handler = ConfigChanged | Ring(queue: nat)

  function BitOf(h: Handler): Bit { if h.ConfigChanged? then CONFIG else VRING }

  datatype Event =
    | Raise(bit: Bit)
    | Ack(t: Tid, bits: set<Bit>)
    | Handle(t: Tid, h: Handler)
    | Added(queue: nat)
    | Removed(queue: nat)

  datatype Pc =
    | Idle
    | WantLock
    | ReadStatus
    | WriteAck(status: set<Bit>)
    | TestConfig(status: set<Bit>)
    | TestRing(status: set<Bit>)
    | RingLoop(status: set<Bit>, k: nat)  // list_for_each_entry over the queue list
    | Unlock

  datatype State = State(
    register: set<Bit>,   // INTERRUPT_STATUS
    lock: Option<Tid>,
    pcs: map<Tid, Pc>,
    queues: seq<nat>,     // vm_dev->virtqueues, newest first
    log: seq<Event>)

  ghost function Init(queues: seq<nat>): State { State({}, None, map[], queues, []) }

  ghost function PcOf(s: State, t: Tid): Pc { if t in s.pcs then s.pcs[t] else Idle }

  datatype Step =
    | Irq(t: Tid)
    | Run(t: Tid)
    | DeviceRaises(bit: Bit)
    | AddQueue(q: nat)     // list_add in vm_setup_vq
    | RemoveQueue(q: nat)  // list_del in vm_del_vq

  ghost function HolderPc(s: State): Pc { if s.lock.Some? then PcOf(s, s.lock.value) else Idle }

  /** vm_dev->lock, which the routine holds just while it goes through the list. */
  ghost predicate ListFree(s: State) { !HolderPc(s).RingLoop? }

  ghost predicate Enabled(s: State, step: Step) {
    match step
    case Irq(t) => PcOf(s, t).Idle?
    case Run(t) => !PcOf(s, t).Idle? && (PcOf(s, t).WantLock? ==> s.lock.None?)
    case DeviceRaises(_) => true
    case AddQueue(q) => ListFree(s) && q !in s.queues
    case RemoveQueue(q) => ListFree(s) && q in s.queues && Distinct(s.queues)
  }

  /** The statement after the one at pc. */
  function NextPc(register: set<Bit>, queues: seq<nat>, pc: Pc): Pc {
    match pc
    case Idle => Idle
    case WantLock => ReadStatus
    case ReadStatus => WriteAck(register)
    case WriteAck(st) => TestConfig(st)
    case TestConfig(st) => TestRing(st)
    case TestRing(st) => if VRING in st then RingLoop(st, 0) else Unlock
    case RingLoop(st, k) => if k < |queues| then RingLoop(st, k + 1) else Unlock
    case Unlock => Idle
  }

  /** What the statement at pc does that is seen outside. */
  function Effect(t: Tid, queues: seq<nat>, pc: Pc): Option<Event> {
    match pc
    case WriteAck(st) => Some(Ack(t, st))
    case TestConfig(st) => if CONFIG in st then Some(Handle(t, ConfigChanged)) else None
    case RingLoop(st, k) => if k < |queues| then Some(Handle(t, Ring(queues[k]))) else None
    case _ => None
  }

  function Logged(log: seq<Event>, e: Option<Event>): seq<Event> {
    if e.Some? then log + [e.value] else log
  }

  ghost function RunStep(s: State, t: Tid): State
    requires Enabled(s, Run(t))
  {
    var pc := PcOf(s, t);
    State(if pc.WriteAck? then s.register - pc.status else s.register,
          if pc.WantLock? then Some(t) else if pc.Unlock? then None else s.lock,
          s.pcs[t := NextPc(s.register, s.queues, pc)],
          s.queues,
          Logged(s.log, Effect(t, s.queues, pc)))
  }

  ghost function Apply(s: State, step: Step): State
    requires Enabled(s, step)
  {
    match step
    case Irq(t) => s.(pcs := s.pcs[t := WantLock])
    case Run(t) => RunStep(s, t)
    case DeviceRaises(b) => s.(register := s.register + {b}, log := s.log + [Raise(b)])
    case AddQueue(q) => s.(queues := [q] + s.queues, log := s.log + [Added(q)])
    case RemoveQueue(q) => s.(queues := Without(s.queues, q), log := s.log + [Removed(q)])
  }

  ghost predicate Legal(s: State, run: seq<Step>)
    decreases run
  {
    run == [] || (Enabled(s, run[0]) && Legal(Apply(s, run[0]), run[1..]))
  }

  ghost function After(s: State, run: seq<Step>): State
    requires Legal(s, run)
    decreases run
  {
    if run == [] then s else After(Apply(s, run[0]), run[1..])
  }

  // ---------- What must be conserved ----------

  /** Handler h of the device: the configuration handler, or that of a listed queue. */
  ghost predicate Installed(s: State, h: Handler) { h.Ring? ==> h.queue in s.queues }

  /** Event e runs h. */
  predicate Runs(e: Event, h: Handler) { e.Handle? && e.h == h }

  /** Event e puts h's queue on the list, or takes it off. */
  predicate Relists(e: Event, h: Handler) { h.Ring? && (e == Added(h.queue) || e == Removed(h.queue)) }

  /** The last of the events that concern h is a raise: h still has to run. */
  ghost predicate Owed(log: seq<Event>, h: Handler) {
    log != [] &&
    var e := log[|log| - 1];
    if e == Raise(BitOf(h)) then true
    else if Runs(e, h) || Relists(e, h) then false
    else Owed(log[..|log| - 1], h)
  }

  /** The call at pc has seen h's bit and will still run h. */
  ghost predicate WillHandle(queues: seq<nat>, pc: Pc, h: Handler) {
    match pc
    case WriteAck(st) => BitOf(h) in st
    case TestConfig(st) => BitOf(h) in st
    case TestRing(st) => h.Ring? && VRING in st
    case RingLoop(st, k) => h.Ring? && k < |queues| && h.queue in queues[k..]
    case _ => false
  }

  ghost predicate Critical(pc: Pc) { !pc.Idle? && !pc.WantLock? }

  ghost predicate Exclusive(s: State) {
    forall t: Tid :: Critical(PcOf(s, t)) <==> s.lock == Some(t)
  }

  ghost predicate Kept(s: State, h: Handler) {
    Owed(s.log, h) ==> BitOf(h) in s.register || WillHandle(s.queues, HolderPc(s), h)
  }

  ghost predicate Inv(s: State) {
    Exclusive(s) && Distinct(s.queues) && forall h: Handler :: Installed(s, h) ==> Kept(s, h)
  }

  lemma ExclusiveStep(s: State, step: Step)
    requires Exclusive(s) && Enabled(s, step)
    ensures Exclusive(Apply(s, step))
    ensures HolderPc(Apply(s, step)) ==
            if step.Run? && (Critical(PcOf(s, step.t)) || s.lock.None?)
            then NextPc(s.register, s.queues, PcOf(s, step.t)) else HolderPc(s)
    ensures step.Run? && Critical(PcOf(s, step.t)) ==> HolderPc(s) == PcOf(s, step.t)
    ensures step.Run? && !Critical(PcOf(s, step.t)) ==> PcOf(s, step.t).WantLock? && HolderPc(s) == Idle
  {
    var s' := Apply(s, step);
    match step
    case Irq(t) => assert forall u: Tid :: PcOf(s', u) == if u == t then WantLock else PcOf(s, u);
    case Run(t) =>
      var pc, next := PcOf(s, t), NextPc(s.register, s.queues, PcOf(s, t));
      assert Critical(pc) ==> s.lock == Some(t);
      assert forall u: Tid :: PcOf(s', u) == if u == t then next else PcOf(s, u);
      assert Critical(next) <==> !pc.Unlock?;
    case _ => assert forall u: Tid :: PcOf(s', u) == PcOf(s, u);
  }

  lemma OwedSnoc(log: seq<Event>, e: Event, h: Handler)
    ensures Owed(log + [e], h) <==>
            e == Raise(BitOf(h)) || (!Runs(e, h) && !Relists(e, h) && Owed(log, h))
  {
    assert (log + [e])[..|log|] == log;
  }

  /** A statement that should run h runs it or leaves it to the next one. */
  lemma WillHandleStep(t: Tid, register: set<Bit>, queues: seq<nat>, pc: Pc, h: Handler)
    requires WillHandle(queues, pc, h) && (h.Ring? ==> h.queue in queues)
    ensures WillHandle(queues, NextPc(register, queues, pc), h) || Effect(t, queues, pc) == Some(Handle(t, h))
  {
    if pc.RingLoop? {
      assert queues[pc.k..] == [queues[pc.k]] + queues[pc.k + 1..];
    } else {
      assert queues[0..] == queues;
    }
  }

  lemma KeptStep(s: State, step: Step, h: Handler)
    requires Inv(s) && Enabled(s, step) && Installed(Apply(s, step), h)
    ensures Kept(Apply(s, step), h)
  {
    ExclusiveStep(s, step);
    assert Installed(s, h) ==> Kept(s, h);
    match step
    case Irq(t) =>
    case DeviceRaises(b) => OwedSnoc(s.log, Raise(b), h);
    case AddQueue(q) => OwedSnoc(s.log, Added(q), h);
    case RemoveQueue(q) => OwedSnoc(s.log, Removed(q), h);
    case Run(t) =>
      var pc := PcOf(s, t);
      var e := Effect(t, s.queues, pc);
      if e.Some? { OwedSnoc(s.log, e.value, h); }
      if WillHandle(s.queues, pc, h) { WillHandleStep(t, s.register, s.queues, pc, h); }
  }

  lemma InvStep(s: State, step: Step)
    requires Inv(s) && Enabled(s, step)
    ensures Inv(Apply(s, step))
  {
    ExclusiveStep(s, step);
    forall h: Handler | Installed(Apply(s, step), h) ensures Kept(Apply(s, step), h) {
      KeptStep(s, step, h);
    }
  }

  lemma {:induction false} InvRun(s: State, run: seq<Step>)
    requires Inv(s) && Legal(s, run)
    ensures Inv(After(s, run))
    decreases run
  {
    if run != [] {
      InvStep(s, run[0]);
      InvRun(Apply(s, run[0]), run[1..]);
    }
  }

  // ---------- Main results ----------

  /** After i, h ran, or its queue was put on the list or taken off. */
  ghost predicate SettledAfter(log: seq<Event>, i: nat, h: Handler) {
    exists j :: i < j < |log| && (Runs(log[j], h) || Relists(log[j], h))
  }

  lemma {:induction false} OwedMeansUnsettled(log: seq<Event>, h: Handler)
    ensures Owed(log, h) <==>
            exists i :: 0 <= i < |log| && log[i] == Raise(BitOf(h)) && !SettledAfter(log, i, h)
  {
    if log != [] {
      var n := |log| - 1;
      var front, e := log[..n], log[n];
      OwedMeansUnsettled(front, h);
      if e == Raise(BitOf(h)) {
        assert !SettledAfter(log, n, h);
      } else if Runs(e, h) || Relists(e, h) {
        forall i | 0 <= i < |log| && log[i] == Raise(BitOf(h)) ensures SettledAfter(log, i, h) {
          assert i < n < |log| && (Runs(log[n], h) || Relists(log[n], h));
        }
      } else {
        forall i | 0 <= i < n ensures SettledAfter(log, i, h) <==> SettledAfter(front, i, h) {
          if SettledAfter(front, i, h) {
            var j :| i < j < |front| && (Runs(front[j], h) || Relists(front[j], h));
            assert Runs(log[j], h) || Relists(log[j], h);
          }
          if SettledAfter(log, i, h) {
            var j :| i < j < |log| && (Runs(log[j], h) || Relists(log[j], h));
            assert front[j] == log[j];
          }
        }
        assert forall i | 0 <= i < n :: log[i] == front[i];
      }
    }
  }

  /** What became of the raise at i for handler h: h ran since, or its queue was set up or torn down
      since, or the bit is still set, or the lock holder at pc has read it and is still going to run h. */
  ghost predicate Accounted(
      log: seq<Event>, register: set<Bit>, queues: seq<nat>, holder: Pc, i: nat, h: Handler)
  {
    || (exists j :: i < j < |log| && Runs(log[j], h))
    || (exists j :: i < j < |log| && Relists(log[j], h))
    || BitOf(h) in register
    || WillHandle(queues, holder, h)
  }

  /** No interrupt is lost: in every reachable state, each raise of a configuration or ring bit is
      accounted for, for the configuration handler and the handler of every queue on the list. */
  lemma NoInterruptLost(queues: seq<nat>, run: seq<Step>, i: nat, h: Handler)
    requires Distinct(queues) && Legal(Init(queues), run) && Installed(After(Init(queues), run), h)
    requires i < |After(Init(queues), run).log| && After(Init(queues), run).log[i] == Raise(BitOf(h))
    ensures var s := After(Init(queues), run);
            Accounted(s.log, s.register, s.queues, HolderPc(s), i, h)
  {
    InvRun(Init(queues), run);
    var s := After(Init(queues), run);
    OwedMeansUnsettled(s.log, h);
    assert Kept(s, h);
  }

  /** A bit raised after the status was read, and not in it, survives the acknowledgement. */
  lemma {:induction false} LateBitStaysPending(s: State, t: Tid, b: Bit, run: seq<Step>)
    requires Exclusive(s) && Legal(s, run) && Run(t) !in run
    requires PcOf(s, t).WriteAck? && b !in PcOf(s, t).status && b in s.register
    ensures Exclusive(After(s, run)) && PcOf(After(s, run), t) == PcOf(s, t)
    ensures Enabled(After(s, run), Run(t)) && b in RunStep(After(s, run), t).register
    decreases run
  {
    assert s.lock == Some(t) by { assert Critical(PcOf(s, t)); }
    if run != [] {
      ExclusiveStep(s, run[0]);
      assert run[0] != Run(t);
      assert !run[0].Run?;
      LateBitStaysPending(Apply(s, run[0]), t, b, run[1..]);
    }
  }

  // ---------- What one interrupt call does ----------

  ghost predicate AckedSince(log: seq<Event>, from: nat, t: Tid, b: Bit) {
    exists j :: from <= j < |log| && log[j].Ack? && log[j].t == t && b in log[j].bits
  }

  ghost predicate HandledSince(log: seq<Event>, from: nat, t: Tid, h: Handler) {
    exists j :: from <= j < |log| && log[j] == Handle(t, h)
  }

  ghost predicate KeptListed(log: seq<Event>, from: nat, h: Handler) {
    forall j :: from <= j < |log| ==> !Relists(log[j], h)
  }

  /** The call at pc will still acknowledge b. */
  ghost predicate WillAck(register: set<Bit>, pc: Pc, b: Bit) {
    (pc.ReadStatus? && b in register) || (pc.WriteAck? && b in pc.status)
  }

  lemma {:induction false} LogGrows(s: State, run: seq<Step>)
    requires Legal(s, run)
    ensures s.log <= After(s, run).log
    decreases run
  {
    if run != [] {
      LogGrows(Apply(s, run[0]), run[1..]);
    }
  }

  /** Only the holder's acknowledgement clears bits. */
  lemma BitStays(s: State, t: Tid, step: Step, b: Bit)
    requires Exclusive(s) && s.lock == Some(t) && Enabled(s, step) && step != Run(t)
    ensures PcOf(Apply(s, step), t) == PcOf(s, t) && s.register <= Apply(s, step).register
    ensures !step.Run?
  {
    ExclusiveStep(s, step);
  }

  lemma {:induction false} AckComes(s: State, t: Tid, b: Bit, run: seq<Step>)
    requires Exclusive(s) && s.lock == Some(t) && WillAck(s.register, PcOf(s, t), b)
    requires Legal(s, run) && PcOf(After(s, run), t).Idle?
    ensures AckedSince(After(s, run).log, |s.log|, t, b)
    decreases run
  {
    ExclusiveStep(s, run[0]);
    var s1 := Apply(s, run[0]);
    if run[0] != Run(t) { BitStays(s, t, run[0], b); }
    if run[0] == Run(t) && PcOf(s, t).WriteAck? {
      LogGrows(s1, run[1..]);
      assert s1.log[|s.log|] == After(s, run).log[|s.log|];
    } else {
      AckComes(s1, t, b, run[1..]);
      var j :| |s1.log| <= j < |After(s, run).log| && After(s, run).log[j].Ack?
               && After(s, run).log[j].t == t && b in After(s, run).log[j].bits;
      assert |s.log| <= j;
    }
  }

  /** The call at pc will still run h, if only because it will read h's bit. */
  ghost predicate WillRun(s: State, pc: Pc, h: Handler) {
    (pc.ReadStatus? && BitOf(h) in s.register) || WillHandle(s.queues, pc, h)
  }

  lemma WillRunStep(s: State, t: Tid, step: Step, h: Handler)
    requires Exclusive(s) && s.lock == Some(t) && Enabled(s, step)
    requires WillRun(s, PcOf(s, t), h) && Installed(s, h) && KeptListed(Apply(s, step).log, |s.log|, h)
    ensures Installed(Apply(s, step), h)
    ensures || WillRun(Apply(s, step), PcOf(Apply(s, step), t), h)
            || (step == Run(t) && Apply(s, step).log == s.log + [Handle(t, h)])
  {
    ExclusiveStep(s, step);
    var s1 := Apply(s, step);
    if step == Run(t) {
      if WillHandle(s.queues, PcOf(s, t), h) {
        WillHandleStep(t, s.register, s.queues, PcOf(s, t), h);
      }
    } else {
      BitStays(s, t, step, BitOf(h));
      assert step.AddQueue? || step.RemoveQueue? ==> !Relists(s1.log[|s.log|], h);
    }
  }

  lemma {:induction false} RunComes(s: State, t: Tid, h: Handler, run: seq<Step>)
    requires Exclusive(s) && s.lock == Some(t) && WillRun(s, PcOf(s, t), h) && Installed(s, h)
    requires Legal(s, run) && PcOf(After(s, run), t).Idle? && KeptListed(After(s, run).log, |s.log|, h)
    ensures HandledSince(After(s, run).log, |s.log|, t, h)
    decreases run
  {
    ExclusiveStep(s, run[0]);
    var s1, s' := Apply(s, run[0]), After(s, run);
    LogGrows(s1, run[1..]);
    assert KeptListed(s1.log, |s.log|, h) by {
      assert forall j | |s.log| <= j < |s1.log| :: s1.log[j] == s'.log[j];
    }
    WillRunStep(s, t, run[0], h);
    if WillRun(s1, PcOf(s1, t), h) {
      RunComes(s1, t, h, run[1..]);
      var j :| |s1.log| <= j < |s'.log| && s'.log[j] == Handle(t, h);
      assert |s.log| <= j;
    } else {
      assert s'.log[|s.log|] == s1.log[|s.log|];
    }
  }

  /** A call that takes interrupt_lock while bit b is raised has, when it has returned, acknowledged b
      and run every handler of b whose queue was on the list all the while. */
  lemma CallHandles(s: State, t: Tid, b: Bit, run: seq<Step>)
    requires Exclusive(s) && PcOf(s, t).WantLock? && b in s.register
    requires Legal(s, run) && run != [] && run[0] == Run(t) && PcOf(After(s, run), t).Idle?
    ensures var log := After(s, run).log;
            && AckedSince(log, |s.log|, t, b)
            && forall h: Handler | BitOf(h) == b && Installed(s, h) && KeptListed(log, |s.log|, h) ::
                 HandledSince(log, |s.log|, t, h)
  {
    ExclusiveStep(s, run[0]);
    var s1 := Apply(s, run[0]);
    AckComes(s1, t, b, run[1..]);
    forall h: Handler | BitOf(h) == b && Installed(s, h) && KeptListed(After(s, run).log, |s.log|, h)
      ensures HandledSince(After(s, run).log, |s.log|, t, h)
    {
      RunComes(s1, t, h, run[1..]);
    }
  }

  ghost predicate ReturnedDuring(s: State, run: seq<Step>, t: Tid)
    requires Legal(s, run)
    decreases run
  {
    PcOf(s, t).Idle? || (run != [] && ReturnedDuring(Apply(s, run[0]), run[1..], t))
  }

  ghost function Additions(run: seq<Step>): nat {
    if run == [] then 0 else (if run[0].AddQueue? then 1 else 0) + Additions(run[1..])
  }

  /** How many statements the call at pc still runs, with n queues on the list. */
  ghost function CallRank(n: nat, pc: Pc): nat {
    match pc
    case Idle => 0
    case WantLock => n + 7
    case ReadStatus => n + 6
    case WriteAck(_) => n + 5
    case TestConfig(_) => n + 4
    case TestRing(_) => n + 3
    case RingLoop(_, k) => (if k < n then n - k else 0) + 2
    case Unlock => 1
  }

  lemma RankStep(s: State, t: Tid, step: Step)
    requires Exclusive(s) && s.lock == Some(t) && Enabled(s, step)
    ensures Exclusive(Apply(s, step))
    ensures var s1 := Apply(s, step);
            && CallRank(|s1.queues|, PcOf(s1, t)) + Count([step], Run(t)) <=
               CallRank(|s.queues|, PcOf(s, t)) + Additions([step])
            && (!PcOf(s1, t).Idle? ==> s1.lock == Some(t))
  {
    ExclusiveStep(s, step);
    assert [step][1..] == [];
    if step != Run(t) { BitStays(s, t, step, VRING); }
  }

  /** The call that has the lock can always run, and returns within six of its statements and one for
      each queue that is on the list or added meanwhile, whatever else runs. */
  lemma {:induction false} HolderReturns(s: State, t: Tid, run: seq<Step>)
    requires Exclusive(s) && s.lock == Some(t) && Legal(s, run)
    ensures Enabled(s, Run(t))
    ensures ReturnedDuring(s, run, t) || Count(run, Run(t)) < CallRank(|s.queues|, PcOf(s, t)) + Additions(run)
    ensures CallRank(|s.queues|, PcOf(s, t)) <= |s.queues| + 6
    decreases run
  {
    assert Critical(PcOf(s, t));
    if run != [] {
      RankStep(s, t, run[0]);
      assert [run[0]][1..] == [];
      var s1 := Apply(s, run[0]);
      if !PcOf(s1, t).Idle? {
        HolderReturns(s1, t, run[1..]);
      }
    }
  }

  /** No deadlock: every thread can start a call, run its call, or waits for a call that can run. */
  lemma NobodyStuck(s: State, t: Tid)
    requires Exclusive(s)
    ensures if PcOf(s, t).Idle? then Enabled(s, Irq(t))
            else Enabled(s, Run(t)) || (s.lock.Some? && s.lock.value != t && Enabled(s, Run(s.lock.value)))
  {
    assert s.lock.Some? ==> Critical(PcOf(s, s.lock.value));
  }

  // ---------- Every acknowledgement is honoured ----------

  ghost function AsNat(b: bool): nat { if b then 1 else 0 }

  ghost function Acks(log: seq<Event>, b: Bit): nat {
    if log == [] then 0
    else Acks(log[..|log| - 1], b) + AsNat(log[|log| - 1].Ack? && b in log[|log| - 1].bits)
  }

  ghost function Raises(log: seq<Event>, b: Bit): nat {
    if log == [] then 0 else Raises(log[..|log| - 1], b) + AsNat(log[|log| - 1] == Raise(b))
  }

  ghost function Handled(log: seq<Event>, h: Handler): nat {
    if log == [] then 0
    else Handled(log[..|log| - 1], h) + AsNat(Runs(log[|log| - 1], h))
  }

  lemma CountSnoc(log: seq<Event>, e: Event, b: Bit, h: Handler)
    ensures Acks(log + [e], b) == Acks(log, b) + AsNat(e.Ack? && b in e.bits)
    ensures Raises(log + [e], b) == Raises(log, b) + AsNat(e == Raise(b))
    ensures Handled(log + [e], h) == Handled(log, h) + AsNat(Runs(e, h))
  {
    assert (log + [e])[..|log|] == log;
  }

  ghost function AcksBy(log: seq<Event>, t: Tid): nat {
    if log == [] then 0 else AcksBy(log[..|log| - 1], t) + AsNat(log[|log| - 1].Ack? && log[|log| - 1].t == t)
  }

  ghost predicate BeforeAck(pc: Pc) { pc.WantLock? || pc.ReadStatus? || pc.WriteAck? }

  /** The calls of t that have acknowledged, and the one that has not come that far. */
  ghost function Calls(s: State, t: Tid): nat { AcksBy(s.log, t) + AsNat(BeforeAck(PcOf(s, t))) }

  lemma CallsStep(s: State, step: Step, t: Tid)
    requires Enabled(s, step)
    ensures Calls(Apply(s, step), t) == Calls(s, t) + AsNat(step == Irq(t))
  {
    var s1 := Apply(s, step);
    if s1.log != s.log {
      assert s1.log[..|s.log|] == s.log;
    }
  }

  /** Every interrupt call acknowledges once: over any run the calls of t are its acknowledgements, and
      the call that has not come that far. */
  lemma {:induction false} CallsAcknowledge(s: State, run: seq<Step>, t: Tid)
    requires Legal(s, run)
    ensures Calls(After(s, run), t) == Calls(s, t) + Count(run, Irq(t))
    decreases run
  {
    if run != [] {
      CallsStep(s, run[0], t);
      CallsAcknowledge(Apply(s, run[0]), run[1..], t);
    }
  }

  ghost function RaisesSoFar(s: State, b: Bit): nat { Raises(s.log, b) }

  lemma RaisesStep(s: State, step: Step, b: Bit)
    requires Enabled(s, step)
    ensures RaisesSoFar(Apply(s, step), b) == RaisesSoFar(s, b) + AsNat(step == DeviceRaises(b))
  {
    var s1 := Apply(s, step);
    if s1.log != s.log {
      assert s1.log[..|s.log|] == s.log;
    }
  }

  /** Every raise of the run, and nothing else, is a raise in the log. */
  lemma {:induction false} RaisesAreLogged(s: State, run: seq<Step>, b: Bit)
    requires Legal(s, run)
    ensures RaisesSoFar(After(s, run), b) == RaisesSoFar(s, b) + Count(run, DeviceRaises(b))
    decreases run
  {
    if run != [] {
      RaisesStep(s, run[0], b);
      RaisesAreLogged(Apply(s, run[0]), run[1..], b);
    }
  }

  lemma ListStep(s: State, step: Step, q: nat)
    requires Enabled(s, step)
    ensures AsNat(q in Apply(s, step).queues) + AsNat(step == RemoveQueue(q)) ==
            AsNat(q in s.queues) + AsNat(step == AddQueue(q))
  {
  }

  /** A queue is on the list when it was put there once more than it was taken off. */
  lemma {:induction false} ListFollowsRun(s: State, run: seq<Step>, q: nat)
    requires Legal(s, run)
    ensures AsNat(q in After(s, run).queues) + Count(run, RemoveQueue(q)) ==
            AsNat(q in s.queues) + Count(run, AddQueue(q))
    decreases run
  {
    if run != [] {
      ListStep(s, run[0], q);
      ListFollowsRun(Apply(s, run[0]), run[1..], q);
    }
  }

  /** The call at pc has acknowledged h's bit and will still run h. */
  ghost function Due(queues: seq<nat>, pc: Pc, h: Handler): nat {
    AsNat(!pc.WriteAck? && WillHandle(queues, pc, h))
  }

  /** The queue of h was on the list all the time. */
  ghost predicate Undisturbed(log: seq<Event>, h: Handler) {
    forall k :: 0 <= k < |log| ==> !Relists(log[k], h)
  }

  /** Each acknowledgement of h's bit has one run of h, already done or still to be done by the holder. */
  ghost predicate Honoured(s: State, h: Handler) {
    && (HolderPc(s).RingLoop? ==> VRING in HolderPc(s).status)
    && (Undisturbed(s.log, h) ==>
          Installed(s, h) && Acks(s.log, BitOf(h)) == Handled(s.log, h) + Due(s.queues, HolderPc(s), h))
  }

  /** A statement acknowledges h's bit, runs h, or leaves both alone. */
  lemma DueStep(t: Tid, register: set<Bit>, queues: seq<nat>, pc: Pc, h: Handler)
    requires Distinct(queues) && (h.Ring? ==> h.queue in queues) && (pc.RingLoop? ==> VRING in pc.status)
    ensures var e := Effect(t, queues, pc);
            && var ack := AsNat(e.Some? && e.value.Ack? && BitOf(h) in e.value.bits);
               var ran := AsNat(e.Some? && Runs(e.value, h));
               Due(queues, pc, h) + ack == Due(queues, NextPc(register, queues, pc), h) + ran
  {
    if pc.RingLoop? && pc.k < |queues| {
      assert queues[pc.k..] == [queues[pc.k]] + queues[pc.k + 1..];
      assert queues[pc.k] !in queues[pc.k + 1..];
    } else if pc.TestRing? {
      assert queues[0..] == queues;
    }
  }

  /** The same for the log, from the holder's statement before to the one after. */
  lemma HonouredRunStep(
      log: seq<Event>, t: Tid, register: set<Bit>, queues: seq<nat>, pc: Pc, h: Handler)
    requires Distinct(queues) && (h.Ring? ==> h.queue in queues) && (pc.RingLoop? ==> VRING in pc.status)
    requires Acks(log, BitOf(h)) == Handled(log, h) + Due(queues, pc, h)
    ensures var log' := Logged(log, Effect(t, queues, pc));
            Acks(log', BitOf(h)) == Handled(log', h) + Due(queues, NextPc(register, queues, pc), h)
  {
    var e := Effect(t, queues, pc);
    if e.Some? { CountSnoc(log, e.value, BitOf(h), h); }
    DueStep(t, register, queues, pc, h);
  }

  /** A raise, or a change of the list that does not concern h. */
  lemma OtherEventHonoured(s: State, e: Event, s': State, h: Handler)
    requires Installed(s, h) && HolderPc(s') == HolderPc(s)
    requires Acks(s.log, BitOf(h)) == Handled(s.log, h) + Due(s.queues, HolderPc(s), h)
    requires s'.log == s.log + [e] && !Relists(e, h) && !e.Ack? && !e.Handle?
    requires s'.queues == s.queues || !HolderPc(s).RingLoop?
    requires forall q: nat :: e != Added(q) && e != Removed(q) ==> (q in s.queues <==> q in s'.queues)
    ensures Installed(s', h)
    ensures Acks(s'.log, BitOf(h)) == Handled(s'.log, h) + Due(s'.queues, HolderPc(s'), h)
  {
    CountSnoc(s.log, e, BitOf(h), h);
  }

  lemma HonouredRunCase(s: State, t: Tid, h: Handler)
    requires Exclusive(s) && Enabled(s, Run(t)) && Distinct(s.queues) && Honoured(s, h) && Undisturbed(s.log, h)
    ensures Honoured(RunStep(s, t), h)
  {
    ExclusiveStep(s, Run(t));
    var pc := PcOf(s, t);
    assert Due(s.queues, pc, h) == Due(s.queues, HolderPc(s), h);
    HonouredRunStep(s.log, t, s.register, s.queues, pc, h);
  }

  lemma HonouredStep(s: State, step: Step, h: Handler)
    requires Exclusive(s) && Enabled(s, step) && Distinct(s.queues) && Honoured(s, h)
    ensures Honoured(Apply(s, step), h)
  {
    ExclusiveStep(s, step);
    var s' := Apply(s, step);
    if Undisturbed(s'.log, h) {
      assert Undisturbed(s.log, h) by {
        assert s.log <= s'.log;
      }
      assert |s.log| < |s'.log| ==> !Relists(s'.log[|s.log|], h);
      match step
      case Irq(t) =>
      case DeviceRaises(b) => OtherEventHonoured(s, Raise(b), s', h);
      case AddQueue(q) => OtherEventHonoured(s, Added(q), s', h);
      case RemoveQueue(q) => OtherEventHonoured(s, Removed(q), s', h);
      case Run(t) => HonouredRunCase(s, t, h);
    }
  }

  lemma {:induction false} HonouredRun(s: State, run: seq<Step>, h: Handler)
    requires Inv(s) && Legal(s, run) && Honoured(s, h)
    ensures Honoured(After(s, run), h)
    decreases run
  {
    if run != [] {
      InvStep(s, run[0]);
      HonouredStep(s, run[0], h);
      HonouredRun(Apply(s, run[0]), run[1..], h);
    }
  }

  /** A bit is acknowledged no more often than it was raised. */
  ghost predicate Raised(s: State, b: Bit) {
    && Acks(s.log, b) + AsNat(b in s.register) <= Raises(s.log, b)
    && (HolderPc(s).WriteAck? ==> HolderPc(s).status <= s.register)
  }

  lemma RaisedRunStep(log: seq<Event>, t: Tid, register: set<Bit>, queues: seq<nat>, pc: Pc, b: Bit)
    requires Acks(log, b) + AsNat(b in register) <= Raises(log, b)
    requires pc.WriteAck? ==> pc.status <= register
    ensures var log' := Logged(log, Effect(t, queues, pc));
            var register' := if pc.WriteAck? then register - pc.status else register;
            Acks(log', b) + AsNat(b in register') <= Raises(log', b)
  {
    var e := Effect(t, queues, pc);
    if e.Some? { CountSnoc(log, e.value, b, ConfigChanged); }
  }

  lemma RaisedStep(s: State, step: Step, b: Bit)
    requires Exclusive(s) && Raised(s, b) && Enabled(s, step)
    ensures Raised(Apply(s, step), b)
  {
    ExclusiveStep(s, step);
    match step
    case Irq(t) =>
    case DeviceRaises(c) => CountSnoc(s.log, Raise(c), b, ConfigChanged);
    case AddQueue(q) => CountSnoc(s.log, Added(q), b, ConfigChanged);
    case RemoveQueue(q) => CountSnoc(s.log, Removed(q), b, ConfigChanged);
    case Run(t) => RaisedRunStep(s.log, t, s.register, s.queues, PcOf(s, t), b);
  }

  lemma {:induction false} RaisedRun(s: State, run: seq<Step>, b: Bit)
    requires Exclusive(s) && Raised(s, b) && Legal(s, run)
    ensures Raised(After(s, run), b)
    decreases run
  {
    if run != [] {
      ExclusiveStep(s, run[0]);
      RaisedStep(s, run[0], b);
      RaisedRun(Apply(s, run[0]), run[1..], b);
    }
  }

  /** Whenever interrupt_lock is free, each handler whose queue stayed on the list ran exactly as often as
      its bit was acknowledged; at any time it ran at most once less, and never more often than the
      device raised the bit. */
  lemma AcknowledgedMeansHandled(queues: seq<nat>, run: seq<Step>, h: Handler)
    requires Distinct(queues) && Legal(Init(queues), run) && Installed(Init(queues), h)
    requires Undisturbed(After(Init(queues), run).log, h)
    ensures var s := After(Init(queues), run);
            && (s.lock.None? ==> Handled(s.log, h) == Acks(s.log, BitOf(h)))
            && Handled(s.log, h) <= Acks(s.log, BitOf(h)) <= Handled(s.log, h) + 1
            && Acks(s.log, BitOf(h)) <= Raises(s.log, BitOf(h))
  {
    HonouredRun(Init(queues), run, h);
    RaisedRun(Init(queues), run, BitOf(h));
  }
}
