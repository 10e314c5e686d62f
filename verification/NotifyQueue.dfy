/**
 The asynchronous notification queue: any number of threads append virtqueue indexes under
 notify_q_lock; one worker takes them off the list, drops the lock and writes each index to the
 QUEUE_NOTIFY register.
 */
module NotifyQueue {
  import opened Sequences
  import opened Words

  type Tid = nat

  datatype Owner = Worker | Producer(t: Tid)

  datatype ProducerPc = Idle | WantLock(index: u32) | Append(index: u32) | Unlock

  /** The worker's next statement. It holds the lock in Check, Pop and TestExit. */
  datatype WorkerPc =
    | Lock
    | Check               // the inner while condition
    | Waiting             // lock dropped, until a kick or the one-second timeout
    | Pop                 // list_first_entry and list_del
    | Deliver(index: u32) // lock dropped, QUEUE_NOTIFY is written
    | Relock
    | TestExit
    | Stopped
    | Faulted             // took the first entry of an empty list

  datatype State = State(
    lock: Option<Owner>,
    valid: bool,
    pending: seq<u32>,
    worker: WorkerPc,
    producers: map<Tid, ProducerPc>,
    delivered: seq<u32>,   // the writes to QUEUE_NOTIFY, in order
    history: seq<u32>)     // all indexes ever appended, in lock order

  const INIT := State(None, true, [], Lock, map[], [], [])

  ghost function PcOf(s: State, t: Tid): ProducerPc {
    if t in s.producers then s.producers[t] else Idle
  }

  datatype Step = Notify(t: Tid, index: u32) | Run(owner: Owner) | Release

  ghost predicate Enabled(s: State, step: Step) {
    match step
    case Notify(t, _) => PcOf(s, t).Idle?
    case Run(Producer(t)) => !PcOf(s, t).Idle? && (PcOf(s, t).WantLock? ==> s.lock.None?)
    case Run(Worker) =>
      && s.worker != Stopped && s.worker != Faulted
      && (s.worker == Lock || s.worker == Relock ==> s.lock.None?)
    case Release => true
  }

  ghost function ProducerStep(s: State, t: Tid): State
    requires Enabled(s, Run(Producer(t)))
  {
    match PcOf(s, t)
    case WantLock(i) => s.(lock := Some(Producer(t)), producers := s.producers[t := Append(i)])
    case Append(i) =>
      s.(pending := s.pending + [i], history := s.history + [i], producers := s.producers[t := Unlock])
    case Unlock => s.(lock := None, producers := s.producers[t := Idle])
  }

  ghost function WorkerStep(s: State): State
    requires Enabled(s, Run(Worker))
  {
    match s.worker
    case Lock => s.(lock := Some(Worker), worker := Check)
    case Check =>
      if s.valid && s.pending == [] then s.(lock := None, worker := Waiting) else s.(worker := Pop)
    case Waiting => s.(worker := Lock)
    case Pop =>
      if s.pending == [] then s.(worker := Faulted)
      else s.(lock := None, pending := s.pending[1..], worker := Deliver(s.pending[0]))
    case Deliver(i) => s.(delivered := s.delivered + [i], worker := Relock)
    case Relock => s.(lock := Some(Worker), worker := TestExit)
    case TestExit => if s.valid then s.(worker := Check) else s.(lock := None, worker := Stopped)
  }

  ghost function Apply(s: State, step: Step): State
    requires Enabled(s, step)
  {
    match step
    case Notify(t, i) => s.(producers := s.producers[t := WantLock(i)])
    case Run(Producer(t)) => ProducerStep(s, t)
    case Run(Worker) => WorkerStep(s)
    case Release => s.(valid := false)
  }

  ghost predicate Legal(s: State, run: seq<Step>)
    decreases run
  {
    run == [] || (Enabled(s, run[0]) && Legal(Apply(s, run[0]), run[1..]))
  }

  ghost function After(s: State, run: seq<Step>): State
    requires Legal(s, run)
    decreases run
  {
    if run == [] then s else After(Apply(s, run[0]), run[1..])
  }

  // ---------- Invariants ----------

  ghost predicate ProducerHolds(pc: ProducerPc) { pc.Append? || pc.Unlock? }

  ghost predicate WorkerHolds(pc: WorkerPc) { pc.Check? || pc.Pop? || pc.TestExit? || pc.Faulted? }

  ghost predicate Exclusive(s: State) {
    && (forall t: Tid :: ProducerHolds(PcOf(s, t)) <==> s.lock == Some(Producer(t)))
    && (WorkerHolds(s.worker) <==> s.lock == Some(Worker))
  }

  ghost function InFlight(s: State): seq<u32> {
    if s.worker.Deliver? then [s.worker.index] else []
  }

  /** Delivered, in flight and pending make up the history, in order. */
  ghost predicate Conserved(s: State) {
    s.delivered + InFlight(s) + s.pending == s.history
  }

  /** An empty list is only popped after release. */
  ghost predicate PopGuarded(s: State) {
    (s.worker.Pop? || s.worker.Faulted?) && s.pending == [] ==> !s.valid
  }

  ghost predicate Inv(s: State) {
    && Exclusive(s) && Conserved(s) && PopGuarded(s)
    && (s.worker.Faulted? ==> s.pending == [])
    && (s.worker.Stopped? ==> !s.valid)
  }

  lemma ExclusiveStep(s: State, step: Step)
    requires Exclusive(s) && Enabled(s, step)
    ensures Exclusive(Apply(s, step))
  {
    var s' := Apply(s, step);
    match step
    case Notify(t, i) =>
      assert forall u: Tid :: PcOf(s', u) == if u == t then WantLock(i) else PcOf(s, u);
    case Run(Producer(t)) =>
      assert forall u: Tid | u != t :: PcOf(s', u) == PcOf(s, u);
    case _ =>
      assert forall u: Tid :: PcOf(s', u) == PcOf(s, u);
  }

  lemma ConservedStep(s: State, step: Step)
    requires Conserved(s) && Enabled(s, step)
    ensures Conserved(Apply(s, step))
  {
    var taken := s.delivered + InFlight(s);
    match step
    case Run(Producer(t)) =>
      if PcOf(s, t).Append? {
        assert taken + (s.pending + [PcOf(s, t).index]) == taken + s.pending + [PcOf(s, t).index];
      }
    case Run(Worker) =>
      if s.worker.Pop? && s.pending != [] {
        assert s.pending == [s.pending[0]] + s.pending[1..];
        assert taken == s.delivered;
        assert s.delivered + s.pending == s.delivered + [s.pending[0]] + s.pending[1..];
      }
    case _ =>
  }

  lemma PopGuardedStep(s: State, step: Step)
    requires Inv(s) && Enabled(s, step)
    ensures PopGuarded(Apply(s, step))
  {
    assert step.Run? && step.owner.Producer? ==>
             s.lock == Some(step.owner) || PcOf(s, step.owner.t).WantLock?;
  }

  lemma InvStep(s: State, step: Step)
    requires Inv(s) && Enabled(s, step)
    ensures Inv(Apply(s, step))
  {
    ExclusiveStep(s, step);
    ConservedStep(s, step);
    PopGuardedStep(s, step);
  }

  lemma {:induction false} InvRun(s: State, run: seq<Step>)
    requires Inv(s) && Legal(s, run)
    ensures Inv(After(s, run))
    decreases run
  {
    if run != [] {
      InvStep(s, run[0]);
      InvRun(Apply(s, run[0]), run[1..]);
    }
  }

  // ---------- Notifications and what becomes of them ----------

  /** How often index i was notified in a run. */
  ghost function Notified(run: seq<Step>, i: u32): nat
    decreases run
  {
    if run == [] then 0 else (if run[0].Notify? && run[0].index == i then 1 else 0) + Notified(run[1..], i)
  }

  /** The producers that are to append i. */
  ghost function Underway(s: State, i: u32): set<Tid> {
    set t | t in s.producers && (s.producers[t] == WantLock(i) || s.producers[t] == Append(i))
  }

  /** The notifications of i so far: appended, or underway. */
  ghost function Known(s: State, i: u32): nat { Count(s.history, i) + |Underway(s, i)| }

  lemma AppendKnown(s: State, t: Tid, i: u32)
    requires PcOf(s, t).Append? && Enabled(s, Run(Producer(t)))
    ensures Known(ProducerStep(s, t), i) == Known(s, i)
  {
    var j := PcOf(s, t).index;
    CountAppend(s.history, [j], i);
    assert Count([j], i) == (if j == i then 1 else 0) + Count([j][1..], i);
    assert Underway(ProducerStep(s, t), i) == Underway(s, i) - if j == i then {t} else {};
  }

  lemma KnownStep(s: State, step: Step, i: u32)
    requires Enabled(s, step)
    ensures Known(Apply(s, step), i) == Known(s, i) + if step.Notify? && step.index == i then 1 else 0
  {
    if step.Notify? {
      assert step.t !in Underway(s, i);
      assert Underway(Apply(s, step), i) == Underway(s, i) + if step.index == i then {step.t} else {};
    } else if step.Run? && step.owner.Producer? && PcOf(s, step.owner.t).Append? {
      AppendKnown(s, step.owner.t, i);
    } else {
      assert Underway(Apply(s, step), i) == Underway(s, i);
    }
  }

  lemma {:induction false} KnownRun(s: State, run: seq<Step>, i: u32)
    requires Legal(s, run)
    ensures Known(After(s, run), i) == Known(s, i) + Notified(run, i)
    decreases run
  {
    if run != [] {
      KnownStep(s, run[0], i);
      KnownRun(Apply(s, run[0]), run[1..], i);
    }
  }

  // ---------- Main results ----------

  /** In every reachable state nothing is lost, duplicated or reordered, before release and after: the
      notifications of an index are written, in flight, pending or still to be appended by their
      producers; and the worker meets an empty list only when the file was released. */
  lemma ConservedFifo(run: seq<Step>)
    requires Legal(INIT, run)
    ensures var s := After(INIT, run);
            && s.delivered + InFlight(s) + s.pending == s.history
            && s.delivered <= s.history
            && (s.valid ==> !s.worker.Faulted?)
            && forall i: u32 ::
                 Notified(run, i) ==
                 Count(s.delivered, i) + Count(InFlight(s), i) + Count(s.pending, i) + |Underway(s, i)|
  {
    InvRun(INIT, run);
    var s := After(INIT, run);
    forall i: u32
      ensures Notified(run, i) ==
              Count(s.delivered, i) + Count(InFlight(s), i) + Count(s.pending, i) + |Underway(s, i)|
    {
      KnownRun(INIT, run, i);
      assert Underway(INIT, i) == {};
      CountAppend(s.delivered + InFlight(s), s.pending, i);
      CountAppend(s.delivered, InFlight(s), i);
    }
    assert s.delivered + InFlight(s) + s.pending == s.delivered + (InFlight(s) + s.pending);
  }

  ghost function PcRank(pc: WorkerPc): nat {
    match pc
    case Waiting => 5
    case Relock => 5
    case Lock => 4
    case TestExit => 4
    case Check => 3
    case Pop => 2
    case Deliver(_) => 1
    case _ => 0
  }

  /** Worker steps until the first n appended indexes are delivered, while the file is open. */
  ghost function DeliveryRank(s: State, n: nat): nat {
    if |s.delivered| >= n then 0 else 6 * (n - |s.delivered|) + PcRank(s.worker)
  }

  lemma DeliveryStep(s: State, step: Step, n: nat)
    requires Inv(s) && Enabled(s, step) && n <= |s.history| && |s.delivered| < n
    requires Apply(s, step).valid
    ensures DeliveryRank(Apply(s, step), n) <= DeliveryRank(s, n)
    ensures step == Run(Worker) ==> DeliveryRank(Apply(s, step), n) < DeliveryRank(s, n)
  {
    assert |s.delivered + InFlight(s) + s.pending| == |s.history|;
  }

  lemma {:induction false} Monotone(s: State, run: seq<Step>)
    requires Legal(s, run)
    ensures s.delivered <= After(s, run).delivered && s.history <= After(s, run).history
    ensures After(s, run).valid <==> s.valid && Release !in run
    decreases run
  {
    if run != [] {
      Monotone(Apply(s, run[0]), run[1..]);
    }
  }

  /** Everything appended so far is delivered within six worker steps an entry and five more, however
      producers interleave and whether or not their kicks are missed. */
  lemma {:induction false} DeliveredInTime(s: State, n: nat, run: seq<Step>)
    requires Inv(s) && Legal(s, run) && After(s, run).valid && n <= |s.history|
    ensures |After(s, run).delivered| >= n || Count(run, Run(Worker)) < DeliveryRank(s, n)
    decreases run
  {
    if |s.delivered| >= n {
      Monotone(s, run);
    } else if run != [] {
      var s1 := Apply(s, run[0]);
      Monotone(s1, run[1..]);
      DeliveryStep(s, run[0], n);
      InvStep(s, run[0]);
      DeliveredInTime(s1, n, run[1..]);
    }
  }

  /** Once the worker has run long enough, every notification whose producer had appended it has been
      written to the device, each index as often as it was notified and in the order of the lock. */
  lemma EveryNotificationArrives(before: seq<Step>, run: seq<Step>)
    requires Legal(INIT, before) && Legal(After(INIT, before), run)
    requires After(After(INIT, before), run).valid
    requires Count(run, Run(Worker)) >= 6 * |After(INIT, before).history| + 5
    ensures var s, delivered := After(INIT, before), After(After(INIT, before), run).delivered;
            && s.history <= delivered
            && forall i: u32 :: Notified(before, i) <= Count(delivered, i) + |Underway(s, i)|
  {
    InvRun(INIT, before);
    var s := After(INIT, before);
    InvRun(s, run);
    Monotone(s, run);
    var s' := After(s, run);
    DeliveredInTime(s, |s.history|, run);
    assert s'.delivered <= s'.history by {
      assert s'.delivered + InFlight(s') + s'.pending == s'.delivered + (InFlight(s') + s'.pending);
    }
    forall i: u32 ensures Notified(before, i) <= Count(s'.delivered, i) + |Underway(s, i)| {
      KnownRun(INIT, before, i);
      assert Underway(INIT, i) == {};
      CountAppend(s.history, s'.delivered[|s.history|..], i);
      assert s.history + s'.delivered[|s.history|..] == s'.delivered;
    }
  }

  ghost predicate FreedDuring(s: State, run: seq<Step>)
    requires Legal(s, run)
    decreases run
  {
    s.lock.None? || (run != [] && FreedDuring(Apply(s, run[0]), run[1..]))
  }

  ghost function HoldRank(pc: ProducerPc): nat { if pc.Append? then 2 else if pc.Unlock? then 1 else 0 }

  /** A producer that holds the lock can run its next statement, and frees the lock with its second at
      the latest, whatever else runs. */
  lemma {:induction false} ProducerFrees(s: State, t: Tid, run: seq<Step>)
    requires Exclusive(s) && s.lock == Some(Producer(t)) && Legal(s, run)
    ensures Enabled(s, Run(Producer(t)))
    ensures FreedDuring(s, run) || Count(run, Run(Producer(t))) < HoldRank(PcOf(s, t))
    decreases run
  {
    assert ProducerHolds(PcOf(s, t));
    if run != [] {
      ExclusiveStep(s, run[0]);
      var s1 := Apply(s, run[0]);
      if s1.lock == Some(Producer(t)) {
        ProducerFrees(s1, t, run[1..]);
      } else {
        assert run[0] == Run(Producer(t));
      }
    }
  }

  /** While the file is open the worker is never stuck: it can run, or a producer holds the lock, which
      that producer frees within two of its statements. */
  lemma WorkerNeverStuck(s: State, run: seq<Step>)
    requires Inv(s) && s.valid && Legal(s, run)
    ensures || Enabled(s, Run(Worker))
            || (s.lock.Some? && s.lock.value.Producer? && Enabled(s, Run(s.lock.value))
                && (Count(run, Run(s.lock.value)) >= 2 ==> FreedDuring(s, run)))
  {
    if !Enabled(s, Run(Worker)) {
      ProducerFrees(s, s.lock.value.t, run);
    }
  }

  /** While the file is open: a thread can notify whenever it is in no notification, and a producer can
      run or waits for the lock of a thread that can. */
  lemma NobodyStuck(s: State, t: Tid)
    requires Inv(s) && s.valid
    ensures if PcOf(s, t).Idle? then forall i: u32 :: Enabled(s, Notify(t, i))
            else || Enabled(s, Run(Producer(t)))
                 || (s.lock.Some? && s.lock.value != Producer(t) && Enabled(s, Run(s.lock.value)))
  {
    if s.lock.Some? && s.lock.value.Producer? {
      assert ProducerHolds(PcOf(s, s.lock.value.t));
    }
  }

  // ---------- After release ----------

  /** Other threads cannot touch the list while the worker holds the lock. */
  lemma {:induction false} ListHeld(s: State, others: seq<Step>)
    requires Inv(s) && WorkerHolds(s.worker) && Legal(s, others) && Run(Worker) !in others
    ensures Inv(After(s, others))
    ensures After(s, others).pending == s.pending && After(s, others).worker == s.worker
    decreases others
  {
    if others != [] {
      var step := others[0];
      InvStep(s, step);
      assert step != Run(Worker);
      assert step.Run? ==> !ProducerHolds(PcOf(s, step.owner.t));
      ListHeld(Apply(s, step), others[1..]);
    }
  }

  /** From its test, the worker takes an entry off an empty list exactly when the file was released
      and the list is empty, whatever happens between the test and the removal. */
  lemma FaultExactly(s: State, others: seq<Step>)
    requires Inv(s) && s.worker == Check
    requires Legal(WorkerStep(s), others) && Run(Worker) !in others
    ensures var s1 := After(WorkerStep(s), others);
            Enabled(s1, Run(Worker)) && (WorkerStep(s1).worker == Faulted <==> !s.valid && s.pending == [])
  {
    InvStep(s, Run(Worker));
    var s1 := WorkerStep(s);
    if s1.worker == Pop {
      ListHeld(s1, others);
    } else {
      WaitingHeld(s1, others);
    }
  }

  lemma {:induction false} WaitingHeld(s: State, others: seq<Step>)
    requires Legal(s, others) && Run(Worker) !in others
    ensures After(s, others).worker == s.worker
    decreases others
  {
    if others != [] {
      assert others[0] != Run(Worker);
      WaitingHeld(Apply(s, others[0]), others[1..]);
    }
  }

  /** The fault is reachable: release while the worker is about to test an empty list. */
  lemma FaultReachable()
    ensures var run := [Run(Worker), Release, Run(Worker), Run(Worker)];
            Legal(INIT, run) && After(INIT, run).worker == Faulted
  {
    var s1 := Apply(INIT, Run(Worker));
    var s2 := Apply(s1, Release);
    var s3 := Apply(s2, Run(Worker));
    var s4 := Apply(s3, Run(Worker));
    assert Legal(s4, []);
    assert [Run(Worker), Release, Run(Worker), Run(Worker)][1..] == [Release, Run(Worker), Run(Worker)];
    assert [Release, Run(Worker), Run(Worker)][1..] == [Run(Worker), Run(Worker)];
    assert [Run(Worker), Run(Worker)][1..] == [Run(Worker)];
    assert [Run(Worker)][1..] == [];
    assert Legal(s3, [Run(Worker)]) && After(s3, [Run(Worker)]) == s4;
    assert Legal(s2, [Run(Worker), Run(Worker)]);
  }

  ghost function LastOnes(pc: WorkerPc): nat {
    match pc
    case Relock => 0
    case TestExit => 0
    case Stopped => 0
    case Faulted => 0
    case _ => 1
  }

  /** After release at most one more index is written; what is still pending then stays undelivered. */
  lemma {:induction false} AtMostOneAfterRelease(s: State, run: seq<Step>)
    requires !s.valid && Legal(s, run)
    ensures |After(s, run).delivered| <= |s.delivered| + LastOnes(s.worker) <= |s.delivered| + 1
    decreases run
  {
    if run != [] {
      AtMostOneAfterRelease(Apply(s, run[0]), run[1..]);
    }
  }
}
