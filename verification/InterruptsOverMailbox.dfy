/**
 The interrupt service routine running over the mailbox: its two register accesses are calls that fill
 the shared page, wait for the adapter and return, interleaved with all other threads, the adapter and
 the device. The module proves that every such run is, step by step, a run of module Interrupts, whose
 accesses are atomic, and so carries its results over.
 */
module InterruptsOverMailbox {
  import opened Sequences
  import opened Words
  import I = Interrupts
  import M = Mailbox

  type Tid = nat
  type Bits = set<I.Bit>

  const INTERRUPT_STATUS: u64 := 0x060
  const INTERRUPT_ACK: u64 := 0x064

  // ---------- The two interrupt registers ----------

  /** The word that has the given bits, shifted down by b places. */
  ghost function Encode(bits: Bits, b: nat): (w: nat)
    requires b <= 32
    ensures w < Pow(32 - b)
    decreases 32 - b
  {
    if b == 32 then 0 else (if b in bits then 1 else 0) + 2 * Encode(bits, b + 1)
  }

  ghost function Pow(n: nat): nat { if n == 0 then 1 else 2 * Pow(n - 1) }

  lemma PowEight(n: nat)
    ensures Pow(n + 8) == 0x100 * Pow(n)
  {
    assert Pow(n + 2) == 4 * Pow(n) && Pow(n + 4) == 4 * Pow(n + 2);
    assert Pow(n + 6) == 4 * Pow(n + 4);
  }

  lemma PowWord()
    ensures Pow(32) == 0x1_0000_0000
  {
    PowEight(0);
    PowEight(8);
    PowEight(16);
    PowEight(24);
  }

  /** The bits of a word, from bit b on. */
  ghost function Decode(w: nat, b: nat): Bits
    requires b <= 32
    decreases 32 - b
  {
    if b == 32 then {} else (if w % 2 == 1 then {b} else {}) + Decode(w / 2, b + 1)
  }

  lemma {:induction false} DecodeEncode(bits: Bits, b: nat)
    requires b <= 32
    ensures Decode(Encode(bits, b), b) == set x: I.Bit | x in bits && b <= x
    decreases 32 - b
  {
    if b < 32 {
      DecodeEncode(bits, b + 1);
      assert Encode(bits, b) / 2 == Encode(bits, b + 1);
    }
  }

  ghost function Word(bits: Bits): u64 {
    PowWord();
    Encode(bits, 0)
  }

  ghost function BitsOf(w: u64): Bits { Decode(w, 0) }

  lemma WordRoundTrip(bits: Bits)
    ensures BitsOf(Word(bits)) == bits
  {
    DecodeEncode(bits, 0);
    assert bits == set x: I.Bit | x in bits && 0 <= x;
  }

  /** A read of INTERRUPT_STATUS yields the raised bits, a write to INTERRUPT_ACK clears the bits it
      holds, and the device raises a bit whenever it likes. */
  ghost function Registers(): M.Device<Bits, I.Bit> {
    M.Device((d: Bits, fn: u64, size: u64) => (d, if fn == INTERRUPT_STATUS then Word(d) else 0),
             (d: Bits, fn: u64, size: u64, data: u64) => if fn == INTERRUPT_ACK then d - BitsOf(data) else d,
             (d: Bits, b: I.Bit) => d + {b})
  }

  const READ_STATUS := M.Read(INTERRUPT_STATUS, 4)

  function AckOf(status: u64): M.Request { M.Write(INTERRUPT_ACK, 4, status) }

  // ---------- The routine over the mailbox ----------

  /** The next statement of a routine; it is inside a register access in InRead and InAck. */
  datatype Pc =
    | Idle
    | WantLock
    | CallRead
    | InRead
    | CallAck(status: u64)
    | InAck(status: u64)
    | TestConfig(status: u64)
    | TestRing(status: u64)
    | RingLoop(status: u64, k: nat)
    | Unlock

  datatype State = State(
    mail: M.State<Bits, I.Bit>,
    lock: Option<Tid>,   // interrupt_lock
    pcs: map<Tid, Pc>,
    queues: seq<nat>,
    log: seq<I.Event>)

  ghost function Init(queues: seq<nat>): State { State(M.Init({}), None, map[], queues, []) }

  ghost function PcOf(s: State, t: Tid): Pc { if t in s.pcs then s.pcs[t] else Idle }

  ghost function HolderPc(s: State): Pc { if s.lock.Some? then PcOf(s, s.lock.value) else Idle }

  datatype Step =
    | Irq(t: Tid)
    | Run(t: Tid)                      // a statement of the routine itself
    | Mail(step: M.Step<I.Bit>)        // a step of the mailbox, the adapter or the device
    | AddQueue(q: nat)
    | RemoveQueue(q: nat)

  /** Any thread outside the routine may make any access but acknowledge; the file stays open. */
  ghost predicate Enabled(s: State, step: Step) {
    match step
    case Irq(t) => PcOf(s, t).Idle? && M.PcOf(s.mail, t).Idle?
    case Run(t) =>
      var pc := PcOf(s, t);
      !pc.Idle? && !pc.InRead? && !pc.InAck? && (pc.WantLock? ==> s.lock.None?)
    case Mail(Invoke(t, r)) =>
      PcOf(s, t).Idle? && M.PcOf(s.mail, t).Idle? && !(r.Write? && r.fn == INTERRUPT_ACK)
    case Mail(step) => !step.Release? && M.Enabled(s.mail, step)
    case AddQueue(q) => !HolderPc(s).RingLoop? && q !in s.queues
    case RemoveQueue(q) => !HolderPc(s).RingLoop? && q in s.queues && Distinct(s.queues)
  }

  /** The statement after the one at pc, when it is not a register access. */
  ghost function NextPc(queues: seq<nat>, pc: Pc): Pc {
    match pc
    case WantLock => CallRead
    case CallRead => InRead
    case CallAck(v) => InAck(v)
    case TestConfig(v) => TestRing(v)
    case TestRing(v) => if I.VRING in BitsOf(v) then RingLoop(v, 0) else Unlock
    case RingLoop(v, k) => if k < |queues| then RingLoop(v, k + 1) else Unlock
    case _ => Idle
  }

  /** Where a call of t that returns v leaves the routine. */
  ghost function Returning(pc: Pc, v: u64): Pc {
    match pc
    case InRead => CallAck(v)
    case InAck(w) => TestConfig(w)
    case _ => pc
  }

  /** The atomic routine's statement for one that is not inside a register access. */
  ghost function Settled(pc: Pc): I.Pc {
    match pc
    case Idle => I.Idle
    case WantLock => I.WantLock
    case CallRead => I.ReadStatus
    case InRead => I.ReadStatus
    case CallAck(v) => I.WriteAck(BitsOf(v))
    case InAck(v) => I.WriteAck(BitsOf(v))
    case TestConfig(v) => I.TestConfig(BitsOf(v))
    case TestRing(v) => I.TestRing(BitsOf(v))
    case RingLoop(v, k) => I.RingLoop(BitsOf(v), k)
    case Unlock => I.Unlock
  }

  ghost function RunStep(s: State, t: Tid): State
    requires Enabled(s, Run(t))
  {
    var pc := PcOf(s, t);
    var mail :=
      if pc.CallRead? then M.Goto(s.mail, t, M.WantLock(READ_STATUS))
      else if pc.CallAck? then M.Goto(s.mail, t, M.WantLock(AckOf(pc.status)))
      else s.mail;
    State(mail,
          if pc.WantLock? then Some(t) else if pc.Unlock? then None else s.lock,
          s.pcs[t := NextPc(s.queues, pc)],
          s.queues,
          I.Logged(s.log, if pc.CallAck? then None else I.Effect(t, s.queues, Settled(pc))))
  }

  ghost function MailStep(s: State, step: M.Step<I.Bit>): State
    requires M.Enabled(s.mail, step)
  {
    var s' := s.(mail := M.Apply(Registers(), s.mail, step));
    match step
    case DeviceMoves(b) => s'.(log := s.log + [I.Raise(b)])
    case Driver(t) =>
      if M.PcOf(s.mail, t).Unlock? && t in s.pcs
      then s'.(pcs := s.pcs[t := Returning(s.pcs[t], M.PcOf(s.mail, t).result)])
      else s'
    case Adapter =>
      var r := M.Fetch(s.mail.page);
      if s.mail.adapter == M.Fetched && s.mail.lock.Some? && r.Write? && r.fn == INTERRUPT_ACK
      then s'.(log := s.log + [I.Ack(s.mail.lock.value, BitsOf(r.data))]) else s'
    case _ => s'
  }

  ghost function Apply(s: State, step: Step): State
    requires Enabled(s, step)
  {
    match step
    case Irq(t) => s.(pcs := s.pcs[t := WantLock])
    case Run(t) => RunStep(s, t)
    case Mail(m) => MailStep(s, m)
    case AddQueue(q) => s.(queues := [q] + s.queues, log := s.log + [I.Added(q)])
    case RemoveQueue(q) => s.(queues := Without(s.queues, q), log := s.log + [I.Removed(q)])
  }

  ghost predicate Legal(s: State, run: seq<Step>)
    decreases run
  {
    run == [] || (Enabled(s, run[0]) && Legal(Apply(s, run[0]), run[1..]))
  }

  ghost function After(s: State, run: seq<Step>): State
    requires Legal(s, run)
    decreases run
  {
    if run == [] then s else After(Apply(s, run[0]), run[1..])
  }

  // ---------- The atomic run behind it ----------

  ghost function Got(mail: M.State<Bits, I.Bit>): seq<M.Return> { M.Responses(Registers(), {}, mail.trace) }

  /** The reply to the access of t's call, from the moment the adapter performed it. */
  ghost function Answered(mail: M.State<Bits, I.Bit>, t: Tid): Option<u64> {
    if mail.lock == Some(t) then M.Answer(Got(mail), mail.replies) else None
  }

  /** A call takes effect when the adapter performs its access. */
  ghost function AtomicPc(pc: Pc, answer: Option<u64>): I.Pc {
    if pc.InRead? && answer.Some? then I.WriteAck(BitsOf(answer.value))
    else if pc.InAck? && answer.Some? then I.TestConfig(BitsOf(pc.status))
    else Settled(pc)
  }

  ghost function Atomic(s: State): I.State {
    I.State(s.mail.dev, s.lock, map t | t in s.pcs :: AtomicPc(s.pcs[t], Answered(s.mail, t)), s.queues, s.log)
  }

  /** The atomic step that a step amounts to, if any. */
  ghost function AtomicStep(s: State, step: Step): Option<I.Step> {
    match step
    case Irq(t) => Some(I.Irq(t))
    case Run(t) => if PcOf(s, t).CallRead? || PcOf(s, t).CallAck? then None else Some(I.Run(t))
    case Mail(DeviceMoves(b)) => Some(I.DeviceRaises(b))
    case Mail(Adapter) =>
      if s.mail.adapter == M.Fetched && s.mail.lock.Some?
         && (PcOf(s, s.mail.lock.value).InRead? || PcOf(s, s.mail.lock.value).InAck?)
      then Some(I.Run(s.mail.lock.value)) else None
    case Mail(_) => None
    case AddQueue(q) => Some(I.AddQueue(q))
    case RemoveQueue(q) => Some(I.RemoveQueue(q))
  }

  /** The thread's place in the routine and its place in the mailbox fit. */
  ghost predicate Fits(pc: Pc, call: M.Pc) {
    match pc
    case InRead => !call.Idle? && call.req == READ_STATUS
    case InAck(v) => !call.Idle? && call.req == AckOf(v)
    case Idle => call.Idle? || !(call.req.Write? && call.req.fn == INTERRUPT_ACK)
    case _ => call.Idle?
  }

  ghost predicate Inv(s: State) {
    && M.Inv(Registers(), {}, s.mail) && s.mail.valid
    && forall t: Tid :: Fits(PcOf(s, t), M.PcOf(s.mail, t))
  }

  ghost predicate Refines(s: State, step: Step)
    requires Enabled(s, step)
  {
    match AtomicStep(s, step)
    case None => Atomic(Apply(s, step)) == Atomic(s)
    case Some(a) => I.Enabled(Atomic(s), a) && Atomic(Apply(s, step)) == I.Apply(Atomic(s), a)
  }

  lemma AtomicPcOf(s: State, t: Tid)
    ensures I.PcOf(Atomic(s), t) == AtomicPc(PcOf(s, t), Answered(s.mail, t))
  {
  }

  lemma IrqRefines(s: State, t: Tid)
    requires Inv(s) && Enabled(s, Irq(t))
    ensures Inv(Apply(s, Irq(t))) && Refines(s, Irq(t))
  {
    var s' := Apply(s, Irq(t));
    assert forall u: Tid :: PcOf(s', u) == if u == t then WantLock else PcOf(s, u);
    assert Atomic(s').pcs == Atomic(s).pcs[t := I.WantLock];
  }

  lemma ListRefines(s: State, step: Step)
    requires Inv(s) && Enabled(s, step) && (step.AddQueue? || step.RemoveQueue?)
    ensures Inv(Apply(s, step)) && Refines(s, step)
  {
    var s' := Apply(s, step);
    assert forall u: Tid :: PcOf(s', u) == PcOf(s, u);
    assert Atomic(s').pcs == Atomic(s).pcs;
    if s.lock.Some? { AtomicPcOf(s, s.lock.value); }
  }

  /** Whatever changes in the mailbox, the answers stay as long as lock, trace and replies do. */
  lemma SameAnswers(s: State, s': State, t: Tid, pc: Pc)
    requires s'.mail.lock == s.mail.lock && s'.mail.trace == s.mail.trace && s'.mail.replies == s.mail.replies
    requires s'.pcs == s.pcs[t := pc]
    ensures Atomic(s').pcs == Atomic(s).pcs[t := AtomicPc(pc, Answered(s.mail, t))]
  {
  }

  lemma RunKeepsInv(s: State, t: Tid)
    requires Inv(s) && Enabled(s, Run(t))
    ensures Inv(Apply(s, Run(t)))
  {
    var s' := Apply(s, Run(t));
    var pc := PcOf(s, t);
    assert Fits(pc, M.PcOf(s.mail, t));
    if pc.CallRead? {
      M.InvStep(Registers(), {}, s.mail, M.Invoke(t, READ_STATUS));
    } else if pc.CallAck? {
      M.InvStep(Registers(), {}, s.mail, M.Invoke(t, AckOf(pc.status)));
    }
    forall u: Tid ensures Fits(PcOf(s', u), M.PcOf(s'.mail, u)) {
      assert Fits(PcOf(s, u), M.PcOf(s.mail, u));
      assert PcOf(s', u) == if u == t then NextPc(s.queues, pc) else PcOf(s, u);
    }
  }

  lemma SettledNext(register: Bits, queues: seq<nat>, pc: Pc)
    requires pc.WantLock? || pc.TestConfig? || pc.TestRing? || pc.RingLoop? || pc.Unlock?
    ensures I.NextPc(register, queues, Settled(pc)) == AtomicPc(NextPc(queues, pc), None)
    ensures AtomicPc(pc, None) == Settled(pc) && !Settled(pc).WriteAck?
    ensures (Settled(pc).WantLock? <==> pc.WantLock?) && (Settled(pc).Unlock? <==> pc.Unlock?)
  {
  }

  lemma CallIsSilent(s: State, t: Tid)
    requires Enabled(s, Run(t)) && Answered(s.mail, t).None? && (PcOf(s, t).CallRead? || PcOf(s, t).CallAck?)
    ensures Refines(s, Run(t))
  {
    SameAnswers(s, RunStep(s, t), t, NextPc(s.queues, PcOf(s, t)));
    assert Atomic(s).pcs[t] == AtomicPc(NextPc(s.queues, PcOf(s, t)), None);
  }

  lemma RunRefines(s: State, t: Tid)
    requires Enabled(s, Run(t)) && Answered(s.mail, t).None?
    ensures Refines(s, Run(t))
  {
    var pc := PcOf(s, t);
    if pc.CallRead? || pc.CallAck? {
      CallIsSilent(s, t);
    } else {
      AtomicPcOf(s, t);
      SettledNext(s.mail.dev, s.queues, pc);
      SameAnswers(s, RunStep(s, t), t, NextPc(s.queues, pc));
    }
  }

  lemma InvokeRefines(s: State, t: Tid, r: M.Request)
    requires Inv(s) && Enabled(s, Mail(M.Invoke(t, r)))
    ensures Inv(Apply(s, Mail(M.Invoke(t, r)))) && Refines(s, Mail(M.Invoke(t, r)))
  {
    var s' := Apply(s, Mail(M.Invoke(t, r)));
    M.InvStep(Registers(), {}, s.mail, M.Invoke(t, r));
    forall u: Tid ensures Fits(PcOf(s', u), M.PcOf(s'.mail, u)) {
      assert Fits(PcOf(s, u), M.PcOf(s.mail, u));
      assert M.PcOf(s'.mail, u) == if u == t then M.WantLock(r) else M.PcOf(s.mail, u);
    }
    assert Atomic(s').pcs == Atomic(s).pcs;
  }

  lemma MoveKeepsAnswers(mail: M.State<Bits, I.Bit>, b: I.Bit, u: Tid)
    ensures Answered(M.Apply(Registers(), mail, M.DeviceMoves(b)), u) == Answered(mail, u)
  {
    M.TraceSnoc(Registers(), {}, mail.trace, M.Moved(b));
    var mail' := M.Apply(Registers(), mail, M.DeviceMoves(b));
    assert Got(mail') == Got(mail);
  }

  lemma MoveRefines(s: State, b: I.Bit)
    requires Inv(s)
    ensures Inv(Apply(s, Mail(M.DeviceMoves(b)))) && Refines(s, Mail(M.DeviceMoves(b)))
  {
    var s' := Apply(s, Mail(M.DeviceMoves(b)));
    M.InvStep(Registers(), {}, s.mail, M.DeviceMoves(b));
    assert forall u: Tid :: PcOf(s', u) == PcOf(s, u) && M.PcOf(s'.mail, u) == M.PcOf(s.mail, u);
    forall u: Tid | u in s.pcs ensures Atomic(s').pcs[u] == Atomic(s).pcs[u] {
      MoveKeepsAnswers(s.mail, b, u);
    }
    assert Atomic(s').pcs == Atomic(s).pcs;
  }

  /** A statement of a call leaves the answers alone, except that a call returns with its own. */
  lemma DriverAnswers(mail: M.State<Bits, I.Bit>, t: Tid, u: Tid)
    requires M.Inv(Registers(), {}, mail) && mail.valid && M.Enabled(mail, M.Driver(t))
    ensures var returning := M.PcOf(mail, t).Unlock?;
            && (returning ==> Answered(mail, t) == Some(M.PcOf(mail, t).result))
            && Answered(M.DriverStep(mail, t), u) ==
               if returning && u == t then None else Answered(mail, u)
  {
    var pc := M.PcOf(mail, t);
    assert !pc.WantLock? ==> M.Critical(pc);
  }

  lemma AllDriverAnswers(mail: M.State<Bits, I.Bit>, t: Tid)
    requires M.Inv(Registers(), {}, mail) && mail.valid && M.Enabled(mail, M.Driver(t))
    ensures M.PcOf(mail, t).Unlock? ==> Answered(mail, t) == Some(M.PcOf(mail, t).result)
    ensures forall u: Tid :: Answered(M.DriverStep(mail, t), u) ==
              if M.PcOf(mail, t).Unlock? && u == t then None else Answered(mail, u)
  {
    forall u: Tid {
      DriverAnswers(mail, t, u);
    }
  }

  lemma DriverFits(s: State, t: Tid)
    requires Enabled(s, Mail(M.Driver(t)))
    requires forall u: Tid :: Fits(PcOf(s, u), M.PcOf(s.mail, u))
    ensures forall u: Tid :: Fits(PcOf(MailStep(s, M.Driver(t)), u), M.PcOf(M.DriverStep(s.mail, t), u))
  {
    M.DriverKeepsRequest(s.mail, t);
    forall u: Tid ensures Fits(PcOf(MailStep(s, M.Driver(t)), u), M.PcOf(M.DriverStep(s.mail, t), u)) {
      assert Fits(PcOf(s, u), M.PcOf(s.mail, u));
    }
  }

  lemma DriverKeepsInv(s: State, t: Tid)
    requires Inv(s) && Enabled(s, Mail(M.Driver(t)))
    ensures Inv(Apply(s, Mail(M.Driver(t))))
  {
    M.InvStep(Registers(), {}, s.mail, M.Driver(t));
    DriverFits(s, t);
  }

  lemma ReturningSettled(pc: Pc, v: u64)
    ensures AtomicPc(Returning(pc, v), None) == AtomicPc(pc, Some(v))
  {
  }

  /** A call's return takes the routine where its answered access had taken it already. */
  lemma ReturnKeepsPcs(s: State, s': State, t: Tid, result: Option<u64>)
    requires s'.pcs == if result.Some? && t in s.pcs then s.pcs[t := Returning(s.pcs[t], result.value)] else s.pcs
    requires result.Some? ==> Answered(s.mail, t) == result
    requires forall u: Tid :: Answered(s'.mail, u) == if result.Some? && u == t then None else Answered(s.mail, u)
    ensures Atomic(s').pcs == Atomic(s).pcs
  {
    if result.Some? && t in s.pcs { ReturningSettled(s.pcs[t], result.value); }
    forall u: Tid | u in s.pcs
      ensures AtomicPc(s'.pcs[u], Answered(s'.mail, u)) == AtomicPc(s.pcs[u], Answered(s.mail, u))
    {
    }
  }

  lemma ReturnIsSilent(s: State, t: Tid)
    requires M.Enabled(s.mail, M.Driver(t))
    requires M.PcOf(s.mail, t).Unlock? ==> Answered(s.mail, t) == Some(M.PcOf(s.mail, t).result)
    requires forall u: Tid :: Answered(M.DriverStep(s.mail, t), u) ==
               if M.PcOf(s.mail, t).Unlock? && u == t then None else Answered(s.mail, u)
    ensures Refines(s, Mail(M.Driver(t)))
  {
    var pc, s' := M.PcOf(s.mail, t), MailStep(s, M.Driver(t));
    ReturnKeepsPcs(s, s', t, if pc.Unlock? then Some(pc.result) else None);
    assert s'.mail.dev == s.mail.dev;
  }

  /** The access fills in the answer of the call that waits for it; no other adapter step changes one. */
  lemma AdapterAnswers(mail: M.State<Bits, I.Bit>, u: Tid)
    requires M.Inv(Registers(), {}, mail) && mail.valid && M.Enabled(mail, M.Adapter)
    ensures mail.adapter == M.Fetched ==> mail.lock.Some? && Answered(mail, mail.lock.value).None?
    ensures Answered(M.AdapterStep(Registers(), mail), u) ==
            if mail.adapter == M.Fetched && mail.lock == Some(u)
            then Some(M.Access(Registers(), mail.dev, M.PcOf(mail, u).req).1)
            else Answered(mail, u)
  {
    if mail.adapter == M.Fetched {
      M.FetchedIsPosted(Registers(), {}, mail);
      M.TraceSnoc(Registers(), {}, mail.trace, M.Accessed(mail.lock, M.Fetch(mail.page)));
    }
  }

  lemma AdapterKeepsInv(s: State)
    requires Inv(s) && Enabled(s, Mail(M.Adapter))
    ensures Inv(Apply(s, Mail(M.Adapter)))
  {
    var s' := Apply(s, Mail(M.Adapter));
    M.InvStep(Registers(), {}, s.mail, M.Adapter);
    forall u: Tid ensures Fits(PcOf(s', u), M.PcOf(s'.mail, u)) {
      assert Fits(PcOf(s, u), M.PcOf(s.mail, u));
      assert M.PcOf(s'.mail, u) == M.PcOf(s.mail, u) || M.PcOf(s'.mail, u) == M.Kicked(M.PcOf(s.mail, u));
    }
  }

  lemma AccessFillsIn(s: State, s': State, h: Tid, answer: u64)
    requires s'.pcs == s.pcs && Answered(s.mail, h).None?
    requires forall u: Tid :: Answered(s'.mail, u) == if u == h then Some(answer) else Answered(s.mail, u)
    ensures Atomic(s').pcs ==
            if PcOf(s, h).InRead? || PcOf(s, h).InAck?
            then Atomic(s).pcs[h := AtomicPc(PcOf(s, h), Some(answer))] else Atomic(s).pcs
  {
    forall u: Tid | u in s.pcs
      ensures Atomic(s').pcs[u] == AtomicPc(s.pcs[u], if u == h then Some(answer) else Answered(s.mail, u))
    {
    }
  }

  /** The atomic routine's step at the moment of the access. */
  lemma AtomicAccess(s: State, h: Tid, pc: Pc)
    requires pc == PcOf(s, h) && (pc.InRead? || pc.InAck?) && Answered(s.mail, h).None?
    ensures I.Enabled(Atomic(s), I.Run(h))
    ensures I.RunStep(Atomic(s), h) ==
            if pc.InRead? then Atomic(s).(pcs := Atomic(s).pcs[h := I.WriteAck(s.mail.dev)])
            else
              var bits := BitsOf(pc.status);
              Atomic(s).(register := s.mail.dev - bits, pcs := Atomic(s).pcs[h := I.TestConfig(bits)],
                         log := s.log + [I.Ack(h, bits)])
  {
    AtomicPcOf(s, h);
  }

  /** The moment of the access is the moment the atomic routine makes it. */
  lemma AccessIsAtomic(s: State, h: Tid, r: M.Request)
    requires s.mail.adapter == M.Fetched && s.mail.lock == Some(h) && M.Fetch(s.mail.page) == r
    requires Answered(s.mail, h).None?
    requires match PcOf(s, h)
             case InRead => r == READ_STATUS
             case InAck(v) => r == AckOf(v)
             case _ => r.Write? ==> r.fn != INTERRUPT_ACK
    requires forall u: Tid :: Answered(M.AdapterStep(Registers(), s.mail), u) ==
               if u == h then Some(M.Access(Registers(), s.mail.dev, r).1) else Answered(s.mail, u)
    ensures Refines(s, Mail(M.Adapter))
  {
    var pc := PcOf(s, h);
    AccessFillsIn(s, MailStep(s, M.Adapter), h, M.Access(Registers(), s.mail.dev, r).1);
    if pc.InRead? || pc.InAck? {
      AtomicAccess(s, h, pc);
      WordRoundTrip(s.mail.dev);
    }
  }

  lemma AdapterRefines(s: State)
    requires Inv(s) && Enabled(s, Mail(M.Adapter))
    ensures Refines(s, Mail(M.Adapter))
  {
    if s.mail.adapter == M.Fetched {
      M.FetchedIsPosted(Registers(), {}, s.mail);
      var h := s.mail.lock.value;
      var r := M.Fetch(s.mail.page);
      assert Fits(PcOf(s, h), M.PcOf(s.mail, h));
      forall u: Tid
        ensures Answered(M.AdapterStep(Registers(), s.mail), u) ==
                if u == h then Some(M.Access(Registers(), s.mail.dev, r).1) else Answered(s.mail, u)
      {
        AdapterAnswers(s.mail, u);
      }
      AdapterAnswers(s.mail, h);
      AccessIsAtomic(s, h, r);
    } else {
      forall u: Tid | u in s.pcs ensures Answered(M.AdapterStep(Registers(), s.mail), u) == Answered(s.mail, u) {
        AdapterAnswers(s.mail, u);
      }
      assert Atomic(MailStep(s, M.Adapter)).pcs == Atomic(s).pcs;
    }
  }

  // ---------- Main results ----------

  /** Every step of the routine over the mailbox is one step of the atomic routine, or none. */
  lemma StepRefines(s: State, step: Step)
    requires Inv(s) && Enabled(s, step)
    ensures Inv(Apply(s, step)) && Refines(s, step)
  {
    match step
    case Irq(t) => IrqRefines(s, t);
    case Run(t) =>
      assert Fits(PcOf(s, t), M.PcOf(s.mail, t));
      assert !M.Critical(M.PcOf(s.mail, t));
      RunKeepsInv(s, t);
      RunRefines(s, t);
    case Mail(Invoke(t, r)) => InvokeRefines(s, t, r);
    case Mail(Driver(t)) =>
      DriverKeepsInv(s, t);
      AllDriverAnswers(s.mail, t);
      ReturnIsSilent(s, t);
    case Mail(Adapter) =>
      AdapterKeepsInv(s);
      AdapterRefines(s);
    case Mail(DeviceMoves(b)) => MoveRefines(s, b);
    case AddQueue(_) => ListRefines(s, step);
    case RemoveQueue(_) => ListRefines(s, step);
  }

  ghost function AtomicRun(s: State, run: seq<Step>): seq<I.Step>
    requires Legal(s, run)
    decreases run
  {
    if run == [] then []
    else
      var a := AtomicStep(s, run[0]);
      (if a.Some? then [a.value] else []) + AtomicRun(Apply(s, run[0]), run[1..])
  }

  /** Every run over the mailbox is a run of the atomic routine that ends in the same registers, lock,
      queue list and log of handler runs, raises and acknowledgements. */
  lemma {:induction false} RunIsAtomic(s: State, run: seq<Step>)
    requires Inv(s) && Legal(s, run)
    ensures Inv(After(s, run))
    ensures I.Legal(Atomic(s), AtomicRun(s, run))
    ensures I.After(Atomic(s), AtomicRun(s, run)) == Atomic(After(s, run))
    decreases run
  {
    if run != [] {
      StepRefines(s, run[0]);
      var s1 := Apply(s, run[0]);
      RunIsAtomic(s1, run[1..]);
      var rest := AtomicRun(s1, run[1..]);
      var a := AtomicStep(s, run[0]);
      if a.Some? {
        assert ([a.value] + rest)[1..] == rest;
      } else {
        assert [] + rest == rest;
      }
    }
  }

  lemma InitIsAtomic(queues: seq<nat>)
    ensures Inv(Init(queues)) && Atomic(Init(queues)) == I.Init(queues)
  {
  }

  /** No interrupt is lost over the mailbox either: each raise is accounted for in every reachable state,
      where a routine is going to run a handler from the moment the adapter read the status for it. */
  lemma NoInterruptLost(queues: seq<nat>, run: seq<Step>, i: nat, h: I.Handler)
    requires Distinct(queues) && Legal(Init(queues), run)
    requires h.Ring? ==> h.queue in After(Init(queues), run).queues
    requires i < |After(Init(queues), run).log| && After(Init(queues), run).log[i] == I.Raise(I.BitOf(h))
    ensures var s := After(Init(queues), run);
            I.Accounted(s.log, s.mail.dev, s.queues, I.HolderPc(Atomic(s)), i, h)
  {
    InitIsAtomic(queues);
    RunIsAtomic(Init(queues), run);
    I.NoInterruptLost(queues, AtomicRun(Init(queues), run), i, h);
  }

  /** And each handler runs exactly as often as its bit is acknowledged at the device. */
  lemma AcknowledgedMeansHandled(queues: seq<nat>, run: seq<Step>, h: I.Handler)
    requires Distinct(queues) && Legal(Init(queues), run) && (h.Ring? ==> h.queue in queues)
    requires I.Undisturbed(After(Init(queues), run).log, h)
    ensures var s := After(Init(queues), run);
            && (s.lock.None? ==> I.Handled(s.log, h) == I.Acks(s.log, I.BitOf(h)))
            && I.Handled(s.log, h) <= I.Acks(s.log, I.BitOf(h)) <= I.Handled(s.log, h) + 1
            && I.Acks(s.log, I.BitOf(h)) <= I.Raises(s.log, I.BitOf(h))
  {
    InitIsAtomic(queues);
    RunIsAtomic(Init(queues), run);
    I.AcknowledgedMeansHandled(queues, AtomicRun(Init(queues), run), h);
  }

  // ---------- What one interrupt call does ----------

  /** A call that takes interrupt_lock while bit b is raised at the device has, when it has returned,
      acknowledged b and run every handler of b whose queue was on the list all the while. */
  lemma CallHandles(s: State, t: Tid, b: I.Bit, run: seq<Step>)
    requires Inv(s) && I.Exclusive(Atomic(s)) && PcOf(s, t).WantLock? && b in s.mail.dev
    requires Legal(s, run) && run != [] && run[0] == Run(t) && PcOf(After(s, run), t).Idle?
    ensures var log := After(s, run).log;
            && I.AckedSince(log, |s.log|, t, b)
            && forall h: I.Handler | I.BitOf(h) == b && I.Installed(Atomic(s), h) && I.KeptListed(log, |s.log|, h) ::
                 I.HandledSince(log, |s.log|, t, h)
  {
    RunIsAtomic(s, run);
    AtomicPcOf(s, t);
    AtomicPcOf(After(s, run), t);
    assert AtomicStep(s, run[0]) == Some(I.Run(t));
    I.CallHandles(Atomic(s), t, b, AtomicRun(s, run));
  }

  /** A kind of step that is the same in both machines. */
  ghost predicate Same(step: Step, a: I.Step) {
    match step
    case Irq(t) => a == I.Irq(t)
    case Mail(DeviceMoves(b)) => a == I.DeviceRaises(b)
    case AddQueue(q) => a == I.AddQueue(q)
    case RemoveQueue(q) => a == I.RemoveQueue(q)
    case _ => false
  }

  lemma {:induction false} SameCount(s: State, run: seq<Step>, step: Step, a: I.Step)
    requires Legal(s, run) && Same(step, a)
    ensures Count(AtomicRun(s, run), a) == Count(run, step)
    decreases run
  {
    if run != [] {
      var b := AtomicStep(s, run[0]);
      var rest := AtomicRun(Apply(s, run[0]), run[1..]);
      SameCount(Apply(s, run[0]), run[1..], step, a);
      assert b == Some(a) <==> run[0] == step;
      if b.Some? {
        assert ([b.value] + rest)[1..] == rest;
      } else {
        assert [] + rest == rest;
      }
    }
  }

  /** Every interrupt call acknowledges once, every raise of the device and nothing else is a raise in
      the log, and the list follows the queues set up and torn down. */
  lemma LogFollowsRun(queues: seq<nat>, run: seq<Step>, t: Tid, b: I.Bit, q: nat)
    requires Legal(Init(queues), run)
    ensures var s := After(Init(queues), run);
            && I.AcksBy(s.log, t) + I.AsNat(I.BeforeAck(I.PcOf(Atomic(s), t))) == Count(run, Irq(t))
            && I.Raises(s.log, b) == Count(run, Mail(M.DeviceMoves(b)))
            && I.AsNat(q in s.queues) + Count(run, RemoveQueue(q)) == I.AsNat(q in queues) + Count(run, AddQueue(q))
  {
    InitIsAtomic(queues);
    RunIsAtomic(Init(queues), run);
    var a := AtomicRun(Init(queues), run);
    I.CallsAcknowledge(I.Init(queues), a, t);
    I.RaisesAreLogged(I.Init(queues), a, b);
    I.ListFollowsRun(I.Init(queues), a, q);
    SameCount(Init(queues), run, Irq(t), I.Irq(t));
    SameCount(Init(queues), run, Mail(M.DeviceMoves(b)), I.DeviceRaises(b));
    SameCount(Init(queues), run, AddQueue(q), I.AddQueue(q));
    SameCount(Init(queues), run, RemoveQueue(q), I.RemoveQueue(q));
  }

  // ---------- A call returns ----------

  /** The step of the mailbox that a step is, if any. */
  ghost function MailStepOf(s: State, step: Step): Option<M.Step<I.Bit>> {
    match step
    case Run(t) =>
      if PcOf(s, t).CallRead? then Some(M.Invoke(t, READ_STATUS))
      else if PcOf(s, t).CallAck? then Some(M.Invoke(t, AckOf(PcOf(s, t).status)))
      else None
    case Mail(m) => Some(m)
    case _ => None
  }

  ghost function MailRun(s: State, run: seq<Step>): seq<M.Step<I.Bit>>
    requires Legal(s, run)
    decreases run
  {
    if run == [] then []
    else
      var m := MailStepOf(s, run[0]);
      (if m.Some? then [m.value] else []) + MailRun(Apply(s, run[0]), run[1..])
  }

  /** Every run is a run of the mailbox, so that all results of module Mailbox hold of it. */
  lemma {:induction false} RunIsMailbox(s: State, run: seq<Step>)
    requires Inv(s) && Legal(s, run)
    ensures M.Legal(Registers(), s.mail, MailRun(s, run))
    ensures M.After(Registers(), s.mail, MailRun(s, run)) == After(s, run).mail
    decreases run
  {
    if run != [] {
      StepRefines(s, run[0]);
      var s1 := Apply(s, run[0]);
      RunIsMailbox(s1, run[1..]);
      var rest := MailRun(s1, run[1..]);
      var m := MailStepOf(s, run[0]);
      if run[0].Run? { assert Fits(PcOf(s, run[0].t), M.PcOf(s.mail, run[0].t)); }
      if m.Some? {
        assert ([m.value] + rest)[1..] == rest;
      } else {
        assert [] + rest == rest;
      }
    }
  }

  /** Statements of the routine, and returns of its register accesses. */
  ghost predicate Moves(s: State, step: Step, t: Tid) {
    step == Run(t) || (step == Mail(M.Driver(t)) && M.PcOf(s.mail, t).Unlock?)
  }

  ghost function Progress(s: State, run: seq<Step>, t: Tid): nat
    requires Legal(s, run)
    decreases run
  {
    if run == [] then 0
    else (if Moves(s, run[0], t) then 1 else 0) + Progress(Apply(s, run[0]), run[1..], t)
  }

  ghost predicate ReturnedDuring(s: State, run: seq<Step>, t: Tid)
    requires Legal(s, run)
    decreases run
  {
    PcOf(s, t).Idle? || (run != [] && ReturnedDuring(Apply(s, run[0]), run[1..], t))
  }

  ghost function Additions(run: seq<Step>): nat {
    if run == [] then 0 else (if run[0].AddQueue? then 1 else 0) + Additions(run[1..])
  }

  /** How many moves the call at pc still makes, with n queues on the list. */
  ghost function CallRank(n: nat, pc: Pc): nat {
    match pc
    case Idle => 0
    case WantLock => n + 9
    case CallRead => n + 8
    case InRead => n + 7
    case CallAck(_) => n + 6
    case InAck(_) => n + 5
    case TestConfig(_) => n + 4
    case TestRing(_) => n + 3
    case RingLoop(_, k) => (if k < n then n - k else 0) + 2
    case Unlock => 1
  }

  ghost predicate Critical(pc: Pc) { !pc.Idle? && !pc.WantLock? }

  ghost predicate Exclusive(s: State) {
    forall t: Tid :: Critical(PcOf(s, t)) <==> s.lock == Some(t)
  }

  lemma ExclusiveIsAtomic(s: State)
    ensures Exclusive(s) <==> I.Exclusive(Atomic(s))
  {
    forall t: Tid ensures Critical(PcOf(s, t)) <==> I.Critical(I.PcOf(Atomic(s), t)) {
      AtomicPcOf(s, t);
    }
  }

  lemma ExclusiveStep(s: State, step: Step)
    requires Inv(s) && Exclusive(s) && Enabled(s, step)
    ensures Exclusive(Apply(s, step))
  {
    ExclusiveIsAtomic(s);
    StepRefines(s, step);
    var a := AtomicStep(s, step);
    if a.Some? { I.ExclusiveStep(Atomic(s), a.value); }
    ExclusiveIsAtomic(Apply(s, step));
  }

  /** What a step does to the call that has the lock. */
  lemma HolderStep(s: State, t: Tid, step: Step)
    requires Exclusive(s) && s.lock == Some(t) && Enabled(s, step)
    ensures PcOf(Apply(s, step), t) ==
            if step == Run(t) then NextPc(s.queues, PcOf(s, t))
            else if step == Mail(M.Driver(t)) && M.PcOf(s.mail, t).Unlock?
              then Returning(PcOf(s, t), M.PcOf(s.mail, t).result)
            else PcOf(s, t)
    ensures Apply(s, step).lock == if step == Run(t) && PcOf(s, t).Unlock? then None else Some(t)
  {
    assert Critical(PcOf(s, t));
    assert step.Run? ==> step.t == t by {
      if step.Run? { assert Critical(PcOf(s, step.t)) ==> s.lock == Some(step.t); }
    }
  }

  lemma RankStep(s: State, t: Tid, step: Step)
    requires Exclusive(s) && s.lock == Some(t) && Enabled(s, step)
    requires Fits(PcOf(s, t), M.PcOf(s.mail, t))
    ensures var s1 := Apply(s, step);
            && CallRank(|s1.queues|, PcOf(s1, t)) + (if Moves(s, step, t) then 1 else 0) <=
               CallRank(|s.queues|, PcOf(s, t)) + (if step.AddQueue? then 1 else 0)
            && (!PcOf(s1, t).Idle? ==> s1.lock == Some(t))
  {
    HolderStep(s, t, step);
    var pc, n, n' := PcOf(s, t), |s.queues|, |Apply(s, step).queues|;
    assert Critical(pc);
    assert n' <= n + if step.AddQueue? then 1 else 0;
    assert pc.RingLoop? ==> n' == n;
  }

  /** The call that has interrupt_lock returns within eight moves and one for each queue that is on the
      list or added meanwhile; its next move is a statement it can run, or the return of the register
      access it is in, for which some thread or the adapter can run. */
  lemma {:induction false} HolderReturns(s: State, t: Tid, run: seq<Step>)
    requires Inv(s) && Exclusive(s) && s.lock == Some(t) && Legal(s, run)
    ensures || Enabled(s, Run(t))
            || ((PcOf(s, t).InRead? || PcOf(s, t).InAck?) && !M.PcOf(s.mail, t).Idle?
                && (Enabled(s, Mail(M.Driver(t)))
                    || (s.mail.lock.Some? && s.mail.lock.value != t && Enabled(s, Mail(M.Driver(s.mail.lock.value))))))
    ensures ReturnedDuring(s, run, t) || Progress(s, run, t) < CallRank(|s.queues|, PcOf(s, t)) + Additions(run)
    ensures CallRank(|s.queues|, PcOf(s, t)) <= |s.queues| + 8
    decreases run
  {
    assert Critical(PcOf(s, t)) && Fits(PcOf(s, t), M.PcOf(s.mail, t));
    M.NobodyStuck(Registers(), {}, s.mail, t);
    if run != [] {
      RankStep(s, t, run[0]);
      StepRefines(s, run[0]);
      ExclusiveStep(s, run[0]);
      var s1 := Apply(s, run[0]);
      if !PcOf(s1, t).Idle? {
        HolderReturns(s1, t, run[1..]);
      }
    }
  }

  lemma {:induction false} MailCount(s: State, run: seq<Step>, m: M.Step<I.Bit>)
    requires Legal(s, run) && !m.Invoke?
    ensures Count(MailRun(s, run), m) == Count(run, Mail(m))
    decreases run
  {
    if run != [] {
      var a := MailStepOf(s, run[0]);
      var rest := MailRun(Apply(s, run[0]), run[1..]);
      MailCount(Apply(s, run[0]), run[1..], m);
      if a.Some? {
        assert ([a.value] + rest)[1..] == rest;
      } else {
        assert [] + rest == rest;
      }
    }
  }

  /** A register access of the routine that has the mailbox returns: six statements of the thread, five
      steps of the adapter and five more statements are enough. */
  lemma AccessReturns(s: State, t: Tid, fill: seq<Step>, wait: seq<Step>, leave: seq<Step>)
    requires Inv(s) && s.mail.lock == Some(t) && Legal(s, fill)
    requires Legal(After(s, fill), wait) && Legal(After(After(s, fill), wait), leave)
    requires Count(fill, Mail(M.Driver(t))) >= 6 && Count(wait, Mail(M.Adapter)) >= 5
    requires Count(leave, Mail(M.Driver(t))) >= 5
    ensures M.Returned(s.mail, After(After(After(s, fill), wait), leave).mail, t)
  {
    var s1 := After(s, fill);
    var s2 := After(s1, wait);
    RunIsAtomic(s, fill);
    RunIsAtomic(s1, wait);
    RunIsMailbox(s, fill);
    RunIsMailbox(s1, wait);
    RunIsMailbox(s2, leave);
    MailCount(s, fill, M.Driver(t));
    MailCount(s1, wait, M.Adapter);
    MailCount(s2, leave, M.Driver(t));
    M.CallReturns(Registers(), {}, s.mail, t, MailRun(s, fill), MailRun(s1, wait), MailRun(s2, leave));
  }
}
