/**
 Register access through the shared page.

 A driver thread owns the page while it holds read_write_lock: it stores the request field by
 field, clears done, signals the eventfd and waits until done is 1 or the device file was
 released. The user-space adapter answers a signal by performing the access on its device, storing
 the data of a read and issuing the WAKEUP ioctl, which sets done and then kicks the wait queue.
 Between its accesses the device may change on its own at any moment.

 Threads, adapter, device and release are interleaved step by step. The module proves that the calls
 behave like atomic accesses in lock order, taken among the device's own moves, and that no wake-up
 is lost.
 */
module Mailbox {
  import opened Sequences
  import opened Words

  type Tid = nat

  datatype Request = Read(fn: u64, size: u64) | Write(fn: u64, size: u64, data: u64)

  /** What the registers of a device with state D do, and what its own events of type E do to it; any
      device is allowed. */
  datatype Device<!D, !E> = Device(
    load: (D, u64, u64) -> (D, u64),
    store: (D, u64, u64, u64) -> D,
    move: (D, E) -> D)

  /** One atomic register access: the new device state and the value a read returns (0 for a write). */
  ghost function Access<D, E>(m: Device<D, E>, d: D, r: Request): (D, u64) {
    match r
    case Read(fn, size) => m.load(d, fn, size)
    case Write(fn, size, data) => (m.store(d, fn, size, data), 0)
  }

  datatype Page = Page(notification: u64, data: u64, size: u64, read: bool, done: bool)

  datatype Field = Notification | Data | Size | ReadFlag | Done

  /** The next statement of a driver thread; the request is the argument of the call it is in. */
  datatype Pc =
    | Idle
    | WantLock(req: Request)
    | Fill(req: Request, field: Field)
    | Signal(req: Request)
    | Test(req: Request)       // the while condition
    | EnterWait(req: Request)  // wait_event_timeout tests its own condition first
    | Asleep(req: Request)     // left by a kick or by the one-second timeout
    | Collect(req: Request)
    | Unlock(req: Request, result: u64)

  datatype AdapterPc = Listening | Fetched | Storing(v: u64) | Answered | Kicking

  datatype Call = Call(tid: Tid, req: Request)
  datatype Return = Return(tid: Tid, value: u64)

  /** What happens at the device: an access by the adapter, for the thread that holds the lock if one
      does, or a move of the device itself. */
  datatype Event<E> = Accessed(holder: Option<Tid>, req: Request) | Moved(e: E)

  /** calls lists the requests in the order the lock was taken, replies the finished calls, and trace
      what happened at the device. */
  datatype State<D, E> = State(
    page: Page,
    lock: Option<Tid>,
    valid: bool,
    pcs: map<Tid, Pc>,
    efd: nat,
    adapter: AdapterPc,
    dev: D,
    calls: seq<Call>,
    replies: seq<Return>,
    trace: seq<Event<E>>)

  ghost function Init<D, E>(d0: D): State<D, E> {
    State(Page(0, 0, 0, false, false), None, true, map[], 0, Listening, d0, [], [], [])
  }

  ghost function PcOf<D, E>(s: State<D, E>, t: Tid): Pc {
    if t in s.pcs then s.pcs[t] else Idle
  }

  datatype Step<E> = Invoke(t: Tid, req: Request) | Driver(t: Tid) | Adapter | DeviceMoves(e: E) | Release

  ghost predicate Enabled<D, E>(s: State<D, E>, step: Step<E>) {
    match step
    case Invoke(t, _) => PcOf(s, t).Idle?
    case Driver(t) => !PcOf(s, t).Idle? && (PcOf(s, t).WantLock? ==> s.lock.None?)
    case Adapter => s.adapter != Listening || s.efd > 0
    case DeviceMoves(_) => true
    case Release => true
  }

  ghost function Goto<D, E>(s: State<D, E>, t: Tid, pc: Pc): State<D, E> {
    s.(pcs := s.pcs[t := pc])
  }

  ghost function FillField(p: Page, r: Request, f: Field): Page {
    match f
    case Notification => p.(notification := r.fn)
    case Data => p.(data := if r.Read? then 0 else r.data)
    case Size => p.(size := r.size)
    case ReadFlag => p.(read := r.Read?)
    case Done => p.(done := false)
  }

  ghost function AfterField(r: Request, f: Field): Pc {
    match f
    case Notification => Fill(r, Data)
    case Data => Fill(r, Size)
    case Size => Fill(r, ReadFlag)
    case ReadFlag => Fill(r, Done)
    case Done => Signal(r)
  }

  ghost function DriverStep<D, E>(s: State<D, E>, t: Tid): State<D, E>
    requires Enabled(s, Driver(t))
  {
    match PcOf(s, t)
    case WantLock(r) => Goto(s, t, Fill(r, Notification)).(lock := Some(t), calls := s.calls + [Call(t, r)])
    case Fill(r, f) => Goto(s, t, AfterField(r, f)).(page := FillField(s.page, r, f))
    case Signal(r) => Goto(s, t, Test(r)).(efd := s.efd + 1)
    case Test(r) => Goto(s, t, if s.valid && !s.page.done then EnterWait(r) else Collect(r))
    case EnterWait(r) => Goto(s, t, if s.page.done then Test(r) else Asleep(r))
    case Asleep(r) => Goto(s, t, Test(r))
    case Collect(r) => Goto(s, t, Unlock(r, if r.Read? then s.page.data else 0))
    case Unlock(r, v) => Goto(s, t, Idle).(lock := None, replies := s.replies + [Return(t, v)])
  }

  /** The request as the adapter finds it on the page. */
  ghost function Fetch(p: Page): Request {
    if p.read then Read(p.notification, p.size) else Write(p.notification, p.size, p.data)
  }

  ghost function AdapterStep<D, E>(m: Device<D, E>, s: State<D, E>): State<D, E> {
    match s.adapter
    case Listening => s.(efd := 0, adapter := Fetched)
    case Fetched =>
      var (d, v) := Access(m, s.dev, Fetch(s.page));
      s.(dev := d,
         adapter := if s.page.read then Storing(v) else Answered,
         trace := s.trace + [Accessed(s.lock, Fetch(s.page))])
    case Storing(v) => s.(page := s.page.(data := v), adapter := Answered)
    case Answered => s.(page := s.page.(done := true), adapter := Kicking)
    case Kicking =>
      s.(adapter := Listening,
         pcs := map t | t in s.pcs :: if s.pcs[t].Asleep? then Test(s.pcs[t].req) else s.pcs[t])
  }

  ghost function Apply<D, E>(m: Device<D, E>, s: State<D, E>, step: Step<E>): State<D, E>
    requires Enabled(s, step)
  {
    match step
    case Invoke(t, r) => Goto(s, t, WantLock(r))
    case Driver(t) => DriverStep(s, t)
    case Adapter => AdapterStep(m, s)
    case DeviceMoves(e) => s.(dev := m.move(s.dev, e), trace := s.trace + [Moved(e)])
    case Release => s.(valid := false)
  }

  ghost predicate Legal<D, E>(m: Device<D, E>, s: State<D, E>, run: seq<Step<E>>)
    decreases run
  {
    run == [] || (Enabled(s, run[0]) && Legal(m, Apply(m, s, run[0]), run[1..]))
  }

  ghost function After<D, E>(m: Device<D, E>, s: State<D, E>, run: seq<Step<E>>): State<D, E>
    requires Legal(m, s, run)
    decreases run
  {
    if run == [] then s else After(m, Apply(m, s, run[0]), run[1..])
  }

  // ---------- The atomic specification ----------

  ghost function Next<D, E>(m: Device<D, E>, d: D, e: Event<E>): D {
    match e
    case Accessed(_, r) => Access(m, d, r).0
    case Moved(x) => m.move(d, x)
  }

  /** The device after what happened to it, one event after the other. */
  ghost function DevAfter<D, E>(m: Device<D, E>, d0: D, trace: seq<Event<E>>): D {
    if trace == [] then d0
    else Next(m, DevAfter(m, d0, trace[..|trace| - 1]), trace[|trace| - 1])
  }

  /** The accesses of a trace that were made for a call. */
  ghost function CallsOf<E>(trace: seq<Event<E>>): seq<Call> {
    if trace == [] then []
    else
      var e := trace[|trace| - 1];
      CallsOf(trace[..|trace| - 1]) + if e.Accessed? && e.holder.Some? then [Call(e.holder.value, e.req)] else []
  }

  /** What these accesses reply, each from the device as it was at that moment. */
  ghost function Responses<D, E>(m: Device<D, E>, d0: D, trace: seq<Event<E>>): (r: seq<Return>)
    ensures |r| == |CallsOf(trace)|
  {
    if trace == [] then []
    else
      var front, e := trace[..|trace| - 1], trace[|trace| - 1];
      Responses(m, d0, front) +
      if e.Accessed? && e.holder.Some?
      then [Return(e.holder.value, Access(m, DevAfter(m, d0, front), e.req).1)] else []
  }

  lemma TraceSnoc<D, E>(m: Device<D, E>, d0: D, trace: seq<Event<E>>, e: Event<E>)
    ensures DevAfter(m, d0, trace + [e]) == Next(m, DevAfter(m, d0, trace), e)
    ensures CallsOf(trace + [e]) ==
            CallsOf(trace) + if e.Accessed? && e.holder.Some? then [Call(e.holder.value, e.req)] else []
    ensures Responses(m, d0, trace + [e]) ==
            Responses(m, d0, trace) +
            if e.Accessed? && e.holder.Some?
            then [Return(e.holder.value, Access(m, DevAfter(m, d0, trace), e.req).1)] else []
  {
    assert (trace + [e])[..|trace|] == trace;
  }

  lemma {:induction false} ResponseTid<D, E>(m: Device<D, E>, d0: D, trace: seq<Event<E>>, i: nat)
    requires i < |CallsOf(trace)|
    ensures Responses(m, d0, trace)[i].tid == CallsOf(trace)[i].tid
    decreases trace
  {
    var front := trace[..|trace| - 1];
    if i < |CallsOf(front)| { ResponseTid(m, d0, front, i); }
  }

  /** What a trace replied stands, whatever happens afterwards. */
  lemma {:induction false} ResponsesGrow<D, E>(m: Device<D, E>, d0: D, trace: seq<Event<E>>, more: seq<Event<E>>)
    ensures Responses(m, d0, trace) <= Responses(m, d0, trace + more)
    decreases more
  {
    if more == [] {
      assert trace + more == trace;
    } else {
      var front, e := more[..|more| - 1], more[|more| - 1];
      ResponsesGrow(m, d0, trace, front);
      TraceSnoc(m, d0, trace + front, e);
      assert trace + more == trace + front + [e];
    }
  }

  // ---------- Invariants ----------

  ghost predicate Critical(pc: Pc) { !pc.Idle? && !pc.WantLock? }

  ghost predicate Waiting(pc: Pc) { pc.Test? || pc.EnterWait? || pc.Asleep? }

  /** Mutual exclusion, with the bookkeeping of calls; holds in every state, released or not. */
  ghost predicate MutexInv<D, E>(s: State<D, E>) {
    && (forall t: Tid :: Critical(PcOf(s, t)) <==> s.lock == Some(t))
    && (s.lock.None? ==> |s.calls| == |s.replies|)
    && (s.lock.Some? ==>
          && |s.calls| == |s.replies| + 1
          && s.calls[|s.replies|] == Call(s.lock.value, PcOf(s, s.lock.value).req))
    && (forall i | 0 <= i < |s.replies| :: s.replies[i].tid == s.calls[i].tid)
  }

  ghost predicate Quiet<D, E>(s: State<D, E>) { s.efd == 0 && (s.adapter == Listening || s.adapter == Kicking) }

  /** The page holds the request, except that a read's data may already have been answered. */
  ghost predicate Posted(p: Page, r: Request, upTo: Field) {
    && p.notification == r.fn
    && (upTo.Notification? || p.data == if r.Read? then 0 else r.data)
    && (upTo.Notification? || upTo.Data? || p.size == r.size)
    && (upTo.ReadFlag? || upTo.Done? ==> p.read == r.Read?)
    && (upTo.Done? ==> !p.done)
  }

  ghost predicate Pending<D, E>(s: State<D, E>, r: Request) { Posted(s.page, r, Done) }

  /** The lock holder's access was performed, and the page carries a read's value. */
  ghost predicate Served<D, E>(s: State<D, E>, r: Request, answer: Option<u64>) {
    && answer.Some?
    && s.page.notification == r.fn && s.page.size == r.size && s.page.read == r.Read?
    && answer.value == if r.Read? then s.page.data else 0
  }

  ghost predicate WaitInv<D, E>(s: State<D, E>, r: Request, answer: Option<u64>) {
    match s.adapter
    case Fetched => s.efd == 0 && answer.None? && Pending(s, r)
    case Storing(v) => s.efd == 0 && r.Read? && answer == Some(v) && Pending(s, r)
    case Answered => s.efd == 0 && !s.page.done && Served(s, r, answer)
    case _ =>
      if s.efd == 0 then s.page.done && Served(s, r, answer)
      else s.efd == 1 && answer.None? && Pending(s, r)
  }

  /** The transaction of a lock holder at pc; answer is what its access replied, once it was performed. */
  ghost predicate Transaction<D, E>(s: State<D, E>, pc: Pc, answer: Option<u64>) {
    match pc
    case Fill(r, Notification) => Quiet(s) && answer.None?
    case Fill(r, Data) => Quiet(s) && answer.None? && Posted(s.page, r, Notification)
    case Fill(r, Size) => Quiet(s) && answer.None? && Posted(s.page, r, Data)
    case Fill(r, ReadFlag) => Quiet(s) && answer.None? && Posted(s.page, r, Size)
    case Fill(r, Done) => Quiet(s) && answer.None? && Posted(s.page, r, ReadFlag)
    case Signal(r) => Quiet(s) && answer.None? && Pending(s, r)
    case Test(r) => WaitInv(s, r, answer)
    case EnterWait(r) => WaitInv(s, r, answer)
    case Asleep(r) => WaitInv(s, r, answer)
    case Collect(r) => Quiet(s) && Served(s, r, answer)
    case Unlock(r, v) => Quiet(s) && answer == Some(v)
    case _ => false
  }

  /** What the access of the call under way replied, once it was performed. */
  ghost function Answer(got: seq<Return>, replies: seq<Return>): Option<u64> {
    if |got| <= |replies| then None else Some(got[|replies|].value)
  }

  ghost predicate Attributed<E>(trace: seq<Event<E>>) {
    forall k :: 0 <= k < |trace| && trace[k].Accessed? ==> trace[k].holder.Some?
  }

  /** What holds of the protocol while the device file is open: the accesses are those of the calls in
      lock order, the finished calls got their replies, and the call under way is in its transaction. */
  ghost predicate ProtocolInv<D, E>(m: Device<D, E>, d0: D, s: State<D, E>) {
    var got := Responses(m, d0, s.trace);
    && Attributed(s.trace) && CallsOf(s.trace) <= s.calls && s.replies <= got
    && match s.lock
       case None => Quiet(s)
       case Some(t) => Transaction(s, PcOf(s, t), Answer(got, s.replies))
  }

  ghost predicate Inv<D, E>(m: Device<D, E>, d0: D, s: State<D, E>) {
    MutexInv(s) && s.dev == DevAfter(m, d0, s.trace) && (s.valid ==> ProtocolInv(m, d0, s))
  }

  lemma MutexDriverStep<D, E>(s: State<D, E>, t: Tid)
    requires MutexInv(s) && Enabled(s, Driver(t))
    ensures MutexInv(DriverStep(s, t))
  {
    assert forall u: Tid | u != t :: PcOf(DriverStep(s, t), u) == PcOf(s, u);
  }

  lemma MutexStep<D, E>(m: Device<D, E>, s: State<D, E>, step: Step<E>)
    requires MutexInv(s) && Enabled(s, step)
    ensures MutexInv(Apply(m, s, step))
  {
    var s' := Apply(m, s, step);
    match step
    case Invoke(t, r) =>
      assert forall u: Tid :: PcOf(s', u) == if u == t then WantLock(r) else PcOf(s, u);
    case Driver(t) => MutexDriverStep(s, t);
    case Adapter =>
      assert forall u: Tid :: Critical(PcOf(s', u)) <==> Critical(PcOf(s, u));
      assert forall u: Tid | Critical(PcOf(s, u)) :: PcOf(s', u).req == PcOf(s, u).req;
    case _ =>
      assert forall u: Tid :: PcOf(s', u) == PcOf(s, u);
  }

  /** Every statement of the lock holder but the first and the last keeps the transaction. */
  lemma DriverKeepsTransaction<D, E>(s: State<D, E>, t: Tid, answer: Option<u64>)
    requires s.valid && Enabled(s, Driver(t)) && Critical(PcOf(s, t)) && !PcOf(s, t).Unlock?
    requires Transaction(s, PcOf(s, t), answer)
    ensures var s' := DriverStep(s, t);
            PcOf(s', t).req == PcOf(s, t).req && Transaction(s', PcOf(s', t), answer)
  {
  }

  lemma DriverKeepsProtocol<D, E>(m: Device<D, E>, d0: D, s: State<D, E>, t: Tid)
    requires Inv(m, d0, s) && s.valid && Enabled(s, Driver(t))
    ensures ProtocolInv(m, d0, DriverStep(s, t))
  {
    var s' := DriverStep(s, t);
    var got := Responses(m, d0, s.trace);
    var pc := PcOf(s, t);
    if !pc.WantLock? {
      assert s.lock == Some(t) by { assert Critical(pc); }
      if pc.Unlock? {
        ResponseTid(m, d0, s.trace, |s.replies|);
        assert got[|s.replies|] == Return(t, pc.result);
      } else {
        DriverKeepsTransaction(s, t, Answer(got, s.replies));
      }
    }
  }

  ghost function Kicked(pc: Pc): Pc { if pc.Asleep? then Test(pc.req) else pc }

  /** Every adapter step keeps the transaction; the access fills in the answer, a kick may move the
      waiting thread. */
  lemma AdapterKeepsTransaction<D, E>(m: Device<D, E>, s: State<D, E>, pc: Pc, answer: Option<u64>)
    requires Enabled(s, Adapter) && Critical(pc) && Transaction(s, pc, answer)
    ensures s.adapter == Fetched ==> answer.None? && Waiting(pc) && Fetch(s.page) == pc.req
    ensures var answer' := if s.adapter == Fetched then Some(Access(m, s.dev, pc.req).1) else answer;
            && Transaction(AdapterStep(m, s), pc, answer')
            && Transaction(AdapterStep(m, s), Kicked(pc), answer')
  {
  }

  lemma NextReply(calls: seq<Call>, done: seq<Call>, call: Call, got: seq<Return>, replies: seq<Return>, r: Return)
    requires done <= calls && |done| == |got| < |calls| && calls[|done|] == call
    requires replies <= got && Answer(got, replies).None?
    ensures done + [call] <= calls && replies <= got + [r] && Answer(got + [r], replies) == Some(r.value)
  {
  }

  /** The adapter's access of the call under way is the next of the calls, and its reply the answer. */
  lemma AccessExtendsTrace<D, E>(
      m: Device<D, E>, d0: D, trace: seq<Event<E>>, calls: seq<Call>, replies: seq<Return>, t: Tid, r: Request)
    requires Attributed(trace) && CallsOf(trace) <= calls && replies <= Responses(m, d0, trace)
    requires |calls| == |replies| + 1 && calls[|replies|] == Call(t, r)
    requires Answer(Responses(m, d0, trace), replies).None?
    ensures var trace' := trace + [Accessed(Some(t), r)];
            && Attributed(trace') && CallsOf(trace') <= calls && replies <= Responses(m, d0, trace')
            && Answer(Responses(m, d0, trace'), replies) == Some(Access(m, DevAfter(m, d0, trace), r).1)
  {
    TraceSnoc(m, d0, trace, Accessed(Some(t), r));
    NextReply(calls, CallsOf(trace), Call(t, r), Responses(m, d0, trace), replies,
              Return(t, Access(m, DevAfter(m, d0, trace), r).1));
  }

  lemma AdapterKeepsProtocol<D, E>(m: Device<D, E>, d0: D, s: State<D, E>)
    requires Inv(m, d0, s) && s.valid && Enabled(s, Adapter)
    ensures ProtocolInv(m, d0, AdapterStep(m, s))
  {
    var s' := AdapterStep(m, s);
    if s.lock.Some? {
      var t := s.lock.value;
      var pc := PcOf(s, t);
      assert Critical(pc);
      AdapterKeepsTransaction(m, s, pc, Answer(Responses(m, d0, s.trace), s.replies));
      assert PcOf(s', t) == if s.adapter == Kicking then Kicked(pc) else pc;
      if s.adapter == Fetched {
        AccessExtendsTrace(m, d0, s.trace, s.calls, s.replies, t, pc.req);
      }
    }
  }

  lemma InvokeKeepsProtocol<D, E>(m: Device<D, E>, d0: D, s: State<D, E>, t: Tid, r: Request)
    requires Inv(m, d0, s) && s.valid && PcOf(s, t).Idle?
    ensures ProtocolInv(m, d0, Goto(s, t, WantLock(r)))
  {
    var s' := Goto(s, t, WantLock(r));
    if s.lock.Some? {
      assert Critical(PcOf(s, s.lock.value));
      assert PcOf(s', s.lock.value) == PcOf(s, s.lock.value);
    }
  }

  lemma MoveKeepsProtocol<D, E>(m: Device<D, E>, d0: D, s: State<D, E>, e: E)
    requires Inv(m, d0, s) && s.valid
    ensures ProtocolInv(m, d0, Apply(m, s, DeviceMoves(e)))
  {
    var s' := Apply(m, s, DeviceMoves(e));
    TraceSnoc(m, d0, s.trace, Moved(e));
    assert Responses(m, d0, s'.trace) == Responses(m, d0, s.trace);
    if s.lock.Some? {
      assert PcOf(s', s.lock.value) == PcOf(s, s.lock.value);
    }
  }

  lemma TraceStep<D, E>(m: Device<D, E>, d0: D, s: State<D, E>, step: Step<E>)
    requires s.dev == DevAfter(m, d0, s.trace) && Enabled(s, step)
    ensures Apply(m, s, step).dev == DevAfter(m, d0, Apply(m, s, step).trace)
  {
    if step.DeviceMoves? {
      TraceSnoc(m, d0, s.trace, Moved(step.e));
    } else if step.Adapter? && s.adapter == Fetched {
      TraceSnoc(m, d0, s.trace, Accessed(s.lock, Fetch(s.page)));
    }
  }

  lemma ProtocolStep<D, E>(m: Device<D, E>, d0: D, s: State<D, E>, step: Step<E>)
    requires Inv(m, d0, s) && s.valid && Enabled(s, step) && step != Release
    ensures ProtocolInv(m, d0, Apply(m, s, step))
  {
    match step
    case Driver(t) => DriverKeepsProtocol(m, d0, s, t);
    case Adapter => AdapterKeepsProtocol(m, d0, s);
    case Invoke(t, r) => InvokeKeepsProtocol(m, d0, s, t, r);
    case DeviceMoves(e) => MoveKeepsProtocol(m, d0, s, e);
  }

  lemma InvStep<D, E>(m: Device<D, E>, d0: D, s: State<D, E>, step: Step<E>)
    requires Inv(m, d0, s) && Enabled(s, step)
    ensures Inv(m, d0, Apply(m, s, step))
  {
    MutexStep(m, s, step);
    TraceStep(m, d0, s, step);
    if s.valid && step != Release {
      ProtocolStep(m, d0, s, step);
    }
  }

  lemma {:induction false} InvRun<D, E>(m: Device<D, E>, d0: D, s: State<D, E>, run: seq<Step<E>>)
    requires Inv(m, d0, s) && Legal(m, s, run)
    ensures Inv(m, d0, After(m, s, run))
    decreases run
  {
    if run != [] {
      InvStep(m, d0, s, run[0]);
      InvRun(m, d0, Apply(m, s, run[0]), run[1..]);
    }
  }

  /** Within a call the request stays what it was. */
  lemma DriverKeepsRequest<D, E>(s: State<D, E>, t: Tid)
    requires Enabled(s, Driver(t))
    ensures if PcOf(s, t).Unlock? then PcOf(DriverStep(s, t), t).Idle?
            else !PcOf(DriverStep(s, t), t).Idle? && PcOf(DriverStep(s, t), t).req == PcOf(s, t).req
    ensures forall u: Tid | u != t :: PcOf(DriverStep(s, t), u) == PcOf(s, u)
  {
  }

  // ---------- Calls and the requests behind them ----------

  /** What t asked for in a run, in order. */
  ghost function Asked<E>(run: seq<Step<E>>, t: Tid): seq<Request>
    decreases run
  {
    if run == [] then []
    else (if run[0].Invoke? && run[0].t == t then [run[0].req] else []) + Asked(run[1..], t)
  }

  ghost function RequestsOf(calls: seq<Call>, t: Tid): seq<Request> {
    if calls == [] then []
    else
      var c := calls[|calls| - 1];
      RequestsOf(calls[..|calls| - 1], t) + if c.tid == t then [c.req] else []
  }

  function RepliesTo(replies: seq<Return>, t: Tid): seq<Return> {
    if replies == [] then []
    else
      var r := replies[|replies| - 1];
      RepliesTo(replies[..|replies| - 1], t) + if r.tid == t then [r] else []
  }

  /** The requests of t that got the lock, and the one that still waits for it. */
  ghost function Made<D, E>(s: State<D, E>, t: Tid): seq<Request> {
    RequestsOf(s.calls, t) + if PcOf(s, t).WantLock? then [PcOf(s, t).req] else []
  }

  lemma RequestsOfSnoc(calls: seq<Call>, c: Call, t: Tid)
    ensures RequestsOf(calls + [c], t) == RequestsOf(calls, t) + if c.tid == t then [c.req] else []
  {
    assert (calls + [c])[..|calls|] == calls;
  }

  lemma MadeStep<D, E>(m: Device<D, E>, s: State<D, E>, step: Step<E>, t: Tid)
    requires Enabled(s, step)
    ensures Made(Apply(m, s, step), t) == Made(s, t) + Asked([step], t)
  {
    assert Asked([step][1..], t) == [];
    if step.Driver? && PcOf(s, step.t).WantLock? {
      RequestsOfSnoc(s.calls, Call(step.t, PcOf(s, step.t).req), t);
    }
  }

  /** Every request is made once, in order, and nothing else is: the calls of t that got the lock, and
      the one that waits for it, are what t asked for. */
  lemma {:induction false} AskedIsMade<D, E>(m: Device<D, E>, s: State<D, E>, run: seq<Step<E>>, t: Tid)
    requires Legal(m, s, run)
    ensures Made(After(m, s, run), t) == Made(s, t) + Asked(run, t)
    decreases run
  {
    if run != [] {
      MadeStep(m, s, run[0], t);
      AskedIsMade(m, Apply(m, s, run[0]), run[1..], t);
      assert Asked([run[0]][1..], t) == [];
      assert Asked(run, t) == Asked([run[0]], t) + Asked(run[1..], t);
    }
  }

  lemma {:induction false} RequestsOfAt(calls: seq<Call>, t: Tid, i: nat)
    requires i < |calls| && calls[i].tid == t
    ensures |RequestsOf(calls[..i], t)| < |RequestsOf(calls, t)|
    ensures RequestsOf(calls, t)[|RequestsOf(calls[..i], t)|] == calls[i].req
    decreases calls
  {
    var n := |calls| - 1;
    if i < n {
      RequestsOfAt(calls[..n], t, i);
      assert calls[..n][..i] == calls[..i];
    }
  }

  lemma {:induction false} OneReplyACall(calls: seq<Call>, replies: seq<Return>, t: Tid, i: nat)
    requires i <= |replies| <= |calls| && forall j :: 0 <= j < |replies| ==> replies[j].tid == calls[j].tid
    ensures |RepliesTo(replies[..i], t)| == |RequestsOf(calls[..i], t)|
    decreases i
  {
    if i > 0 {
      OneReplyACall(calls, replies, t, i - 1);
      assert replies[..i][..i - 1] == replies[..i - 1] && calls[..i][..i - 1] == calls[..i - 1];
    }
  }

  /** At place p of the trace the device performed request r for t, and replied v. */
  ghost predicate PerformedAt<D, E>(
      m: Device<D, E>, d0: D, trace: seq<Event<E>>, p: nat, t: Tid, r: Request, v: u64)
  {
    && p < |trace| && trace[p] == Accessed(Some(t), r)
    && var d, d' := DevAfter(m, d0, trace[..p]), DevAfter(m, d0, trace[..p + 1]);
       match r
       case Read(fn, size) => m.load(d, fn, size) == (d', v)
       case Write(fn, size, data) => m.store(d, fn, size, data) == d' && v == 0
  }

  lemma {:induction false} ResponsePerformed<D, E>(m: Device<D, E>, d0: D, trace: seq<Event<E>>, i: nat)
    returns (p: nat)
    requires i < |CallsOf(trace)|
    ensures PerformedAt(m, d0, trace, p, CallsOf(trace)[i].tid, CallsOf(trace)[i].req, Responses(m, d0, trace)[i].value)
    decreases trace
  {
    var n := |trace| - 1;
    var front, e := trace[..n], trace[n];
    if i < |CallsOf(front)| {
      p := ResponsePerformed(m, d0, front, i);
      assert front[..p] == trace[..p] && front[..p + 1] == trace[..p + 1];
    } else {
      p := n;
      assert trace[..n + 1] == trace;
    }
  }

  // ---------- Main results ----------

  /** Every interleaving is a sequence of atomic accesses in lock order among the device's own moves: at
      any time the device is where that trace leads, the accesses in it are those of the calls in lock
      order, and each finished call returned what its own access replied at its place in the trace. */
  lemma Linearizable<D, E>(m: Device<D, E>, d0: D, run: seq<Step<E>>)
    requires Legal(m, Init(d0), run)
    requires After(m, Init(d0), run).valid
    ensures var s := After(m, Init(d0), run);
            var got := Responses(m, d0, s.trace);
            && s.dev == DevAfter(m, d0, s.trace)
            && CallsOf(s.trace) <= s.calls && s.replies <= got
            && (s.lock.None? ==> CallsOf(s.trace) == s.calls && s.replies == got)
            && (s.lock.Some? ==> |s.replies| + 1 == |s.calls| && s.calls[|s.replies|].tid == s.lock.value)
            && Attributed(s.trace)
            && forall t: Tid :: Made(s, t) == Asked(run, t)
  {
    InvRun(m, d0, Init(d0), run);
    forall t: Tid ensures Made(After(m, Init(d0), run), t) == Asked(run, t) {
      AskedIsMade(m, Init(d0), run, t);
      assert Made(Init<D, E>(d0), t) == [];
    }
  }

  /** For any threads: the k-th return of a thread is the reply of the device to the k-th request that
      thread made, performed as requested, once, at one moment of the trace. */
  lemma ReturnsAnswerRequests<D, E>(m: Device<D, E>, d0: D, run: seq<Step<E>>, i: nat) returns (p: nat)
    requires Legal(m, Init(d0), run) && After(m, Init(d0), run).valid && i < |After(m, Init(d0), run).replies|
    ensures var s := After(m, Init(d0), run);
            var t := s.replies[i].tid;
            var k := |RepliesTo(s.replies[..i], t)|;
            && k < |Asked(run, t)|
            && PerformedAt(m, d0, s.trace, p, t, Asked(run, t)[k], s.replies[i].value)
  {
    Linearizable(m, d0, run);
    var s := After(m, Init(d0), run);
    var t := s.replies[i].tid;
    forall j | 0 <= j < |s.replies| ensures s.replies[j].tid == s.calls[j].tid {
      ResponseTid(m, d0, s.trace, j);
    }
    OneReplyACall(s.calls, s.replies, t, i);
    RequestsOfAt(s.calls, t, i);
    p := ResponsePerformed(m, d0, s.trace, i);
    assert Made(s, t) == Asked(run, t);
    assert s.calls[i] == CallsOf(s.trace)[i];
  }

  /** When the adapter performs an access, a thread waits for exactly that access. */
  lemma FetchedIsPosted<D, E>(m: Device<D, E>, d0: D, s: State<D, E>)
    requires Inv(m, d0, s) && s.valid && s.adapter == Fetched
    ensures s.lock.Some? && Waiting(PcOf(s, s.lock.value)) && Fetch(s.page) == PcOf(s, s.lock.value).req
    ensures Answer(Responses(m, d0, s.trace), s.replies).None?
  {
    var pc := PcOf(s, s.lock.value);
    assert Critical(pc);
    AdapterKeepsTransaction(m, s, pc, Answer(Responses(m, d0, s.trace), s.replies));
  }

  // ---------- No lost wake-up ----------

  /** The wait of t cannot be renewed: done is 1 or the device file was released. */
  ghost predicate Finishing<D, E>(s: State<D, E>, t: Tid) {
    var pc := PcOf(s, t);
    pc.Collect? || pc.Unlock? || (Waiting(pc) && (s.page.done || !s.valid))
  }

  /** How many statements t still runs at most; a kick or a timeout only shortens the way. */
  ghost function Rank(pc: Pc): nat {
    match pc
    case EnterWait(_) => 5
    case Asleep(_) => 4
    case Test(_) => 3
    case Collect(_) => 2
    case Unlock(_, _) => 1
    case _ => 0
  }

  /** The loop is left exactly when the file was released or the adapter has answered; while the file
      is open, an answered call finds its own reply on the page. */
  lemma LoopExit<D, E>(m: Device<D, E>, d0: D, s: State<D, E>, t: Tid)
    requires Inv(m, d0, s) && PcOf(s, t).Test?
    ensures PcOf(DriverStep(s, t), t).Collect? <==> !s.valid || s.page.done
    ensures s.valid && s.page.done ==>
              && CallsOf(s.trace) == s.calls && s.calls[|s.replies|] == Call(t, PcOf(s, t).req)
              && Responses(m, d0, s.trace) ==
                 s.replies + [Return(t, if PcOf(s, t).req.Read? then s.page.data else 0)]
  {
    assert s.lock == Some(t) by { assert Critical(PcOf(s, t)); }
    if s.valid && s.page.done { ResponseTid(m, d0, s.trace, |s.replies|); }
  }

  lemma FinishingStep<D, E>(m: Device<D, E>, s: State<D, E>, t: Tid, step: Step<E>)
    requires MutexInv(s) && Finishing(s, t) && Enabled(s, step)
    ensures var s' := Apply(m, s, step);
            if step == Driver(t) && PcOf(s, t).Unlock?
            then s'.replies == s.replies + [Return(t, PcOf(s, t).result)]
            else
              && Finishing(s', t) && s'.replies == s.replies
              && Rank(PcOf(s', t)) <= Rank(PcOf(s, t))
              && (step == Driver(t) ==> Rank(PcOf(s', t)) < Rank(PcOf(s, t)))
  {
    assert s.lock == Some(t) by { assert Critical(PcOf(s, t)); }
    match step
    case Driver(u) => assert Critical(PcOf(s, u)) ==> u == t;
    case _ =>
  }

  lemma {:induction false} HistoryGrows<D, E>(m: Device<D, E>, s: State<D, E>, run: seq<Step<E>>)
    requires Legal(m, s, run)
    ensures s.replies <= After(m, s, run).replies && s.trace <= After(m, s, run).trace
    ensures After(m, s, run).valid <==> s.valid && Release !in run
    decreases run
  {
    if run != [] {
      HistoryGrows(m, Apply(m, s, run[0]), run[1..]);
    }
  }

  /** What was answered while the file was open stays answered by its own access, also after release. */
  lemma EarlierAnswersStand<D, E>(m: Device<D, E>, d0: D, before: seq<Step<E>>, later: seq<Step<E>>)
    requires Legal(m, Init(d0), before) && After(m, Init(d0), before).valid
    requires Legal(m, After(m, Init(d0), before), later)
    ensures var s := After(m, Init(d0), before);
            var s' := After(m, s, later);
            s.replies <= s'.replies && s.replies <= Responses(m, d0, s'.trace)
  {
    Linearizable(m, d0, before);
    var s := After(m, Init(d0), before);
    HistoryGrows(m, s, later);
    var s' := After(m, s, later);
    ResponsesGrow(m, d0, s.trace, s'.trace[|s.trace|..]);
    assert s.trace + s'.trace[|s.trace|..] == s'.trace;
  }

  /** Between s and s' the call that t was in has returned; the lock was free at that moment. */
  ghost predicate Returned<D, E>(s: State<D, E>, s': State<D, E>, t: Tid) {
    |s.replies| < |s'.replies| && s'.replies[|s.replies|].tid == t
  }

  /** A wait whose answer has come, or whose file was released, ends within five statements of its
      thread, whatever kicks were missed and whatever else runs; its next statement is always enabled. */
  lemma {:induction false} PendingEnds<D, E>(m: Device<D, E>, s: State<D, E>, t: Tid, run: seq<Step<E>>)
    requires MutexInv(s) && Finishing(s, t) && Legal(m, s, run)
    ensures Enabled(s, Driver(t))
    ensures var s' := After(m, s, run);
            || Returned(s, s', t)
            || (Finishing(s', t) && s'.replies == s.replies && Count(run, Driver(t)) < Rank(PcOf(s, t)))
    decreases run
  {
    if run != [] {
      FinishingStep(m, s, t, run[0]);
      MutexStep(m, s, run[0]);
      var s1 := Apply(m, s, run[0]);
      if run[0] == Driver(t) && PcOf(s, t).Unlock? {
        HistoryGrows(m, s1, run[1..]);
      } else {
        PendingEnds(m, s1, t, run[1..]);
      }
    }
  }

  /** How many adapter steps are missing until done is set. */
  ghost function AnswerRank<D, E>(s: State<D, E>): nat {
    match s.adapter
    case Kicking => 5
    case Listening => 4
    case Fetched => 3
    case Storing(_) => 2
    case Answered => 1
  }

  /** While the answer is outstanding the adapter is at work or has been signalled. */
  lemma AnswerDue<D, E>(m: Device<D, E>, d0: D, s: State<D, E>, t: Tid)
    requires Inv(m, d0, s) && Waiting(PcOf(s, t)) && !Finishing(s, t)
    ensures Enabled(s, Adapter)
  {
    assert s.lock == Some(t) by { assert Critical(PcOf(s, t)); }
  }

  lemma AnswerStep<D, E>(m: Device<D, E>, s: State<D, E>, t: Tid, step: Step<E>)
    requires MutexInv(s) && Waiting(PcOf(s, t)) && !Finishing(s, t)
    requires Enabled(s, step) && Enabled(s, Adapter)
    ensures var s' := Apply(m, s, step);
            && s'.replies == s.replies && Waiting(PcOf(s', t))
            && (Finishing(s', t) || AnswerRank(s') <= AnswerRank(s))
            && (step == Adapter ==> Finishing(s', t) || AnswerRank(s') < AnswerRank(s))
  {
    assert s.lock == Some(t) by { assert Critical(PcOf(s, t)); }
    match step
    case Driver(u) => assert Critical(PcOf(s, u)) ==> u == t;
    case _ =>
  }

  /** While the answer is outstanding the adapter can always move, and five of its steps bring it
      (or the call has ended meanwhile). */
  lemma {:induction false} AnswerArrives<D, E>(m: Device<D, E>, d0: D, s: State<D, E>, t: Tid, run: seq<Step<E>>)
    requires Inv(m, d0, s) && (Waiting(PcOf(s, t)) || Finishing(s, t)) && Legal(m, s, run)
    ensures !Finishing(s, t) ==> Enabled(s, Adapter)
    ensures var s' := After(m, s, run);
            || Returned(s, s', t)
            || (s'.replies == s.replies && Finishing(s', t))
            || (s'.replies == s.replies && Waiting(PcOf(s', t))
                && !Finishing(s, t) && Count(run, Adapter) < AnswerRank(s))
    decreases run
  {
    if Finishing(s, t) {
      PendingEnds(m, s, t, run);
    } else {
      AnswerDue(m, d0, s, t);
      if run != [] {
        AnswerStep(m, s, t, run[0]);
        InvStep(m, d0, s, run[0]);
        AnswerArrives(m, d0, Apply(m, s, run[0]), t, run[1..]);
      }
    }
  }

  /** How many statements a holder still runs before its wait. */
  ghost function FillRank(pc: Pc): nat {
    match pc
    case Fill(_, Notification) => 6
    case Fill(_, Data) => 5
    case Fill(_, Size) => 4
    case Fill(_, ReadFlag) => 3
    case Fill(_, Done) => 2
    case Signal(_) => 1
    case _ => 0
  }

  lemma FillStep<D, E>(m: Device<D, E>, s: State<D, E>, t: Tid, step: Step<E>)
    requires MutexInv(s) && Critical(PcOf(s, t)) && FillRank(PcOf(s, t)) > 0 && Enabled(s, step)
    ensures var s' := Apply(m, s, step);
            && s'.replies == s.replies && Critical(PcOf(s', t))
            && FillRank(PcOf(s', t)) == FillRank(PcOf(s, t)) - if step == Driver(t) then 1 else 0
  {
    match step
    case Driver(u) => assert Critical(PcOf(s, u)) ==> s.lock == Some(u);
    case _ =>
  }

  lemma {:induction false} FillEnds<D, E>(m: Device<D, E>, d0: D, s: State<D, E>, t: Tid, run: seq<Step<E>>)
    requires Inv(m, d0, s) && Critical(PcOf(s, t)) && Legal(m, s, run)
    ensures var s' := After(m, s, run);
            || Returned(s, s', t)
            || (s'.replies == s.replies && (Waiting(PcOf(s', t)) || Finishing(s', t)))
            || Count(run, Driver(t)) < FillRank(PcOf(s, t))
    decreases run
  {
    if FillRank(PcOf(s, t)) == 0 {
      AnswerArrives(m, d0, s, t, run);
    } else if run != [] {
      FillStep(m, s, t, run[0]);
      InvStep(m, d0, s, run[0]);
      FillEnds(m, d0, Apply(m, s, run[0]), t, run[1..]);
    }
  }

  /** From its wait on, five steps of the adapter and five statements are enough. */
  lemma WaitEnds<D, E>(m: Device<D, E>, d0: D, s: State<D, E>, t: Tid, wait: seq<Step<E>>, leave: seq<Step<E>>)
    requires Inv(m, d0, s) && (Waiting(PcOf(s, t)) || Finishing(s, t)) && Legal(m, s, wait)
    requires Legal(m, After(m, s, wait), leave)
    requires (s.valid ==> Count(wait, Adapter) >= 5) && Count(leave, Driver(t)) >= 5
    ensures Returned(s, After(m, After(m, s, wait), leave), t)
  {
    var s1 := After(m, s, wait);
    AnswerArrives(m, d0, s, t, wait);
    if Returned(s, s1, t) {
      HistoryGrows(m, s1, leave);
    } else {
      InvRun(m, d0, s, wait);
      PendingEnds(m, s1, t, leave);
    }
  }

  /** A call that has the lock returns: six statements of its thread, five steps of the adapter and five
      more statements are enough, whatever else runs in between; after release no adapter is needed. */
  lemma CallReturns<D, E>(
      m: Device<D, E>, d0: D, s: State<D, E>, t: Tid, fill: seq<Step<E>>, wait: seq<Step<E>>, leave: seq<Step<E>>)
    requires Inv(m, d0, s) && s.lock == Some(t) && Legal(m, s, fill)
    requires Legal(m, After(m, s, fill), wait) && Legal(m, After(m, After(m, s, fill), wait), leave)
    requires Count(fill, Driver(t)) >= 6 && (s.valid ==> Count(wait, Adapter) >= 5) && Count(leave, Driver(t)) >= 5
    ensures Returned(s, After(m, After(m, After(m, s, fill), wait), leave), t)
  {
    var s1 := After(m, s, fill);
    FillEnds(m, d0, s, t, fill);
    if Returned(s, s1, t) {
      HistoryGrows(m, s1, wait);
      HistoryGrows(m, After(m, s1, wait), leave);
    } else {
      InvRun(m, d0, s, fill);
      HistoryGrows(m, s, fill);
      WaitEnds(m, d0, s1, t, wait, leave);
    }
  }

  /** No deadlock: a thread can call whenever it is in no call; a thread in a call can run its next
      statement, unless it waits for the lock of another thread, which then can run its own; and while
      the holder's answer is outstanding so can the adapter. Which waiting thread gets a free lock is the
      choice of the mutex. */
  lemma NobodyStuck<D, E>(m: Device<D, E>, d0: D, s: State<D, E>, t: Tid)
    requires Inv(m, d0, s)
    ensures PcOf(s, t).Idle? ==> forall r: Request :: Enabled(s, Invoke(t, r))
    ensures || PcOf(s, t).Idle?
            || Enabled(s, Driver(t))
            || (PcOf(s, t).WantLock? && s.lock.Some? && s.lock.value != t && Enabled(s, Driver(s.lock.value)))
    ensures s.lock.Some? && Waiting(PcOf(s, s.lock.value)) && !Finishing(s, s.lock.value) ==> Enabled(s, Adapter)
  {
    if s.lock.Some? {
      var h := s.lock.value;
      assert Critical(PcOf(s, h));
      if Waiting(PcOf(s, h)) && !Finishing(s, h) {
        AnswerDue(m, d0, s, h);
      }
    }
  }

  // ---------- After release ----------

  ghost predicate Unanswered<D, E>(s: State<D, E>) {
    s.lock.Some? ==>
      var pc := PcOf(s, s.lock.value);
      if pc.Unlock? then pc.result == 0
      else if pc.Fill? && (pc.field.Notification? || pc.field.Data?) then true
      else !pc.Idle? && (pc.req.Read? ==> s.page.data == 0)
  }

  lemma UnansweredStep<D, E>(m: Device<D, E>, s: State<D, E>, step: Step<E>)
    requires MutexInv(s) && !s.valid && Unanswered(s) && Enabled(s, step) && step != Adapter
    ensures Unanswered(Apply(m, s, step))
    ensures var replies' := Apply(m, s, step).replies;
            || replies' == s.replies
            || (s.replies <= replies' && |replies'| == |s.replies| + 1 && replies'[|s.replies|].value == 0)
  {
    match step
    case Driver(u) => assert Critical(PcOf(s, u)) ==> s.lock == Some(u);
    case _ =>
  }

  /** Without the adapter only the device's own moves enter the trace. */
  lemma SilentStep<D, E>(m: Device<D, E>, s: State<D, E>, step: Step<E>)
    requires Enabled(s, step) && step != Adapter
    ensures var trace' := Apply(m, s, step).trace;
            && s.trace <= trace' && CallsOf(trace') == CallsOf(s.trace)
            && forall k | |s.trace| <= k < |trace'| :: trace'[k].Moved?
  {
    if step.DeviceMoves? { assert Apply(m, s, step).trace[..|s.trace|] == s.trace; }
  }

  /** Once the file is released and the adapter is gone, calls still end (CallReturns) but
      no access reaches the device and every read returns 0, whatever its register holds. */
  lemma {:induction false} ReleasedCallsReturnZero<D, E>(m: Device<D, E>, s: State<D, E>, run: seq<Step<E>>)
    requires MutexInv(s) && !s.valid && Unanswered(s) && Legal(m, s, run) && Adapter !in run
    ensures var s' := After(m, s, run);
            && !s'.valid && s.trace <= s'.trace && CallsOf(s'.trace) == CallsOf(s.trace)
            && (forall k | |s.trace| <= k < |s'.trace| :: s'.trace[k].Moved?)
            && s.replies <= s'.replies
            && forall i | |s.replies| <= i < |s'.replies| :: s'.replies[i].value == 0
    decreases run
  {
    if run != [] {
      MutexStep(m, s, run[0]);
      var s1 := Apply(m, s, run[0]);
      assert run[0] != Adapter;
      UnansweredStep(m, s, run[0]);
      SilentStep(m, s, run[0]);
      ReleasedCallsReturnZero(m, s1, run[1..]);
    }
  }

  /** While a call has the lock, the only call that can return is that one. */
  lemma HolderReturnsFirst<D, E>(m: Device<D, E>, s: State<D, E>, step: Step<E>)
    requires MutexInv(s) && s.lock.Some? && Enabled(s, step)
    ensures var s' := Apply(m, s, step);
            if s'.lock.Some? then s'.replies == s.replies
            else s.replies <= s'.replies && |s'.replies| == |s.replies| + 1
  {
    if step.Driver? { assert Critical(PcOf(s, step.t)) ==> s.lock == Some(step.t); }
  }

  lemma {:induction false} LaterCallsReturnZero<D, E>(m: Device<D, E>, s: State<D, E>, run: seq<Step<E>>)
    requires MutexInv(s) && !s.valid && Legal(m, s, run) && Adapter !in run
    ensures var s' := After(m, s, run);
            && CallsOf(s'.trace) == CallsOf(s.trace) && s.replies <= s'.replies
            && forall i | |s.replies| < i < |s'.replies| :: s'.replies[i].value == 0
    decreases run
  {
    if s.lock.None? {
      ReleasedCallsReturnZero(m, s, run);
    } else if run != [] {
      assert run[0] != Adapter;
      var s1 := Apply(m, s, run[0]);
      MutexStep(m, s, run[0]);
      SilentStep(m, s, run[0]);
      HolderReturnsFirst(m, s, run[0]);
      LaterCallsReturnZero(m, s1, run[1..]);
      if s1.lock.None? {
        ReleasedCallsReturnZero(m, s1, run[1..]);
      }
    }
  }

  /** Once the file was released and the adapter runs no more: no access is performed, and every call
      returns 0, except that a call that has the lock already may still return the answer it had got. */
  lemma ReleaseSilences<D, E>(m: Device<D, E>, d0: D, before: seq<Step<E>>, later: seq<Step<E>>)
    requires Legal(m, Init(d0), before) && Release in before
    requires Legal(m, After(m, Init(d0), before), later) && Adapter !in later
    ensures var s := After(m, Init(d0), before);
            var s' := After(m, s, later);
            && CallsOf(s'.trace) == CallsOf(s.trace) && s.replies <= s'.replies
            && (forall i | |s.replies| < i < |s'.replies| :: s'.replies[i].value == 0)
            && (s.lock.None? && |s.replies| < |s'.replies| ==> s'.replies[|s.replies|].value == 0)
  {
    HistoryGrows(m, Init(d0), before);
    InvRun(m, d0, Init(d0), before);
    var s := After(m, Init(d0), before);
    LaterCallsReturnZero(m, s, later);
    if s.lock.None? { ReleasedCallsReturnZero(m, s, later); }
  }
}
