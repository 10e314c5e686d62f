/**
 Queue setup selects a queue in one register access and works on it in later ones, with the lock of
 the mailbox dropped in between. Other threads meanwhile send notifications and acknowledge
 interrupts. This module proves that the setting-up thread still sees the device as if it were alone,
 which is what module VirtQueues relies on.
 */
module SetupAlone {
  import opened Words
  import opened Mailbox
  import V = VirtQueues

  /** The queue registers as a device behind the mailbox; the device never writes them itself. */
  ghost function Registers<E>(): Device<V.Device, E> {
    Device((d: V.Device, fn: u64, size: u64) => (d, V.Load(d, fn)),
           (d: V.Device, fn: u64, size: u64, data: u64) => V.Store(d, fn, data),
           (d: V.Device, e: E) => d)
  }

  /** The registers that queue setup and teardown write. */
  predicate QueueRegister(fn: u64) {
    || fn == V.QUEUE_SEL || fn == V.QUEUE_NUM || fn == V.QUEUE_ALIGN || fn == V.QUEUE_PFN || fn == V.QUEUE_READY
    || fn == V.QUEUE_DESC_LOW || fn == V.QUEUE_DESC_HIGH || fn == V.QUEUE_AVAIL_LOW || fn == V.QUEUE_AVAIL_HIGH
    || fn == V.QUEUE_USED_LOW || fn == V.QUEUE_USED_HIGH
  }

  /** Thread t alone writes queue registers; the others may read any and write all the rest. */
  predicate OnlySetter(calls: seq<Call>, t: Tid) {
    forall i :: 0 <= i < |calls| ==> calls[i].tid == t || calls[i].req.Read? || !QueueRegister(calls[i].req.fn)
  }

  /** The accesses of a trace that were made for t. */
  ghost function Own<E>(trace: seq<Event<E>>, t: Tid): seq<Event<E>> {
    if trace == [] then []
    else
      var e := trace[|trace| - 1];
      Own(trace[..|trace| - 1], t) + if e.Accessed? && e.holder == Some(t) then [e] else []
  }

  lemma RepliesToSnoc(replies: seq<Return>, r: Return, t: Tid)
    ensures RepliesTo(replies + [r], t) == RepliesTo(replies, t) + if r.tid == t then [r] else []
  {
    assert (replies + [r])[..|replies|] == replies;
  }

  lemma {:induction false} RepliesToGrow(replies: seq<Return>, more: seq<Return>, t: Tid)
    requires replies <= more
    ensures RepliesTo(replies, t) <= RepliesTo(more, t)
    decreases |more|
  {
    if |replies| < |more| {
      RepliesToGrow(replies, more[..|more| - 1], t);
    } else {
      assert replies == more;
    }
  }

  lemma ForeignWrite(d: V.Device, fn: u64, data: u64)
    requires !QueueRegister(fn)
    ensures V.Store(d, fn, data) == d
  {
    if d.sel in d.queues {
      assert d.queues[d.sel := d.queues[d.sel]] == d.queues;
    }
  }

  lemma ForeignEvent<E>(d: V.Device, e: Event<E>)
    requires e.Accessed? && e.req.Write? ==> !QueueRegister(e.req.fn)
    ensures Next(Registers(), d, e) == d
  {
    if e.Accessed? && e.req.Write? {
      ForeignWrite(d, e.req.fn, e.req.data);
    }
  }

  lemma OwnSnoc<E>(trace: seq<Event<E>>, e: Event<E>, t: Tid)
    ensures Own(trace + [e], t) == Own(trace, t) + if e.Accessed? && e.holder == Some(t) then [e] else []
  {
    assert (trace + [e])[..|trace|] == trace;
  }

  /** Leaving out what others do changes neither the registers nor what t is replied. */
  lemma {:induction false} OwnSuffices<E>(m: Device<V.Device, E>, d0: V.Device, trace: seq<Event<E>>, t: Tid)
    requires m == Registers() && Attributed(trace) && OnlySetter(CallsOf(trace), t)
    ensures DevAfter(m, d0, trace) == DevAfter(m, d0, Own(trace, t))
    ensures RepliesTo(Responses(m, d0, trace), t) == Responses(m, d0, Own(trace, t))
    decreases trace
  {
    if trace != [] {
      var front, e := trace[..|trace| - 1], trace[|trace| - 1];
      assert trace == front + [e];
      TraceSnoc(m, d0, front, e);
      OwnSnoc(front, e, t);
      assert CallsOf(front) <= CallsOf(trace);
      assert OnlySetter(CallsOf(front), t) by {
        assert forall i | 0 <= i < |CallsOf(front)| :: CallsOf(front)[i] == CallsOf(trace)[i];
      }
      OwnSuffices(m, d0, front, t);
      var d := DevAfter(m, d0, front);
      if e.Accessed? {
        assert CallsOf(trace)[|CallsOf(front)|] == Call(e.holder.value, e.req);
        RepliesToSnoc(Responses(m, d0, front), Return(e.holder.value, Access(m, d, e.req).1), t);
      }
      if e.Accessed? && e.holder == Some(t) {
        TraceSnoc(m, d0, Own(front, t), e);
      } else {
        ForeignEvent(d, e);
        assert Own(front, t) + [] == Own(front, t);
        assert RepliesTo(Responses(m, d0, trace), t) == RepliesTo(Responses(m, d0, front), t) by {
          if e.Moved? { assert Responses(m, d0, trace) == Responses(m, d0, front); }
        }
      }
    }
  }

  /** For every interleaving of the mailbox protocol in which only t writes queue registers: the queue
      registers are always where t's own accesses lead, and t's calls return what they would return
      had t been alone. */
  lemma SetterSeesItselfAlone<E>(d0: V.Device, run: seq<Step<E>>, t: Tid)
    requires Legal(Registers(), Init(d0), run) && After(Registers(), Init(d0), run).valid
    requires OnlySetter(After(Registers(), Init(d0), run).calls, t)
    ensures var s := After(Registers(), Init(d0), run);
            var alone := Responses(Registers(), d0, Own(s.trace, t));
            && s.dev == DevAfter(Registers(), d0, Own(s.trace, t))
            && RepliesTo(s.replies, t) <= alone
            && (s.lock.None? ==> RepliesTo(s.replies, t) == alone)
  {
    Linearizable(Registers(), d0, run);
    var s := After(Registers(), Init(d0), run);
    OwnSuffices(Registers(), d0, s.trace, t);
    RepliesToGrow(s.replies, Responses(Registers(), d0, s.trace), t);
  }
}
