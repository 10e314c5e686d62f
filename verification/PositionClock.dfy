/** The position of the current song: set from the server's status, advanced by a periodic timer. */
module PositionClock {
  import opened Words

  const PERIOD_MS: int := 250

  datatype Action = Set(ms: int) | Play | Pause | Tick

  /** The position in milliseconds, and whether a timer is live. */
  datatype Clock = Clock(position: int, ticking: bool)

  predicate Enabled(c: Clock, a: Action) { a.Tick? ==> c.ticking }

  function Step(c: Clock, a: Action): Clock {
    match a
    case Set(ms) => c.(position := ms)
    case Play => c.(ticking := true)
    case Pause => c.(ticking := false)
    case Tick => c.(position := c.position + PERIOD_MS)
  }

  /** The state after the actions, the last one last. */
  function Run(c: Clock, acts: seq<Action>): Clock {
    if acts == [] then c else Step(Run(c, acts[..|acts| - 1]), acts[|acts| - 1])
  }

  class PositionNotifier {
    var state: int
    var positionTimer: Option<nat>
    var liveTimers: set<nat>   // the runtime's periodic timers that were not cancelled
    var nextTimer: nat

    /** The timer the notifier knows is the only one that is live. */
    ghost predicate Valid()
      reads this
    {
      && liveTimers == (if positionTimer.Some? then {positionTimer.value} else {})
      && (positionTimer.Some? ==> positionTimer.value < nextTimer)
    }

    ghost function View(): Clock
      reads this
    {
      Clock(state, liveTimers != {})
    }

    constructor ()
      ensures Valid() && View() == Clock(0, false)
    {
      state, positionTimer, liveTimers, nextTimer := 0, None, {}, 0;
    }

    method SetPosition(ms: int)
      requires Valid()
      modifies this`state
      ensures Valid() && View() == Step(old(View()), Set(ms))
    {
      state := ms;
    }

    /** A second play starts no second timer. */
    method Play()
      requires Valid()
      modifies this`positionTimer, this`liveTimers, this`nextTimer
      ensures Valid() && View() == Step(old(View()), Action.Play)
      ensures |liveTimers| == 1 && (old(liveTimers) != {} ==> liveTimers == old(liveTimers))
    {
      if positionTimer.None? {
        positionTimer := Some(nextTimer);
        liveTimers := liveTimers + {nextTimer};
        nextTimer := nextTimer + 1;
      }
    }

    method Pause()
      requires Valid()
      modifies this`positionTimer, this`liveTimers
      ensures Valid() && View() == Step(old(View()), Action.Pause) && liveTimers == {}
    {
      if positionTimer.Some? {
        liveTimers := liveTimers - {positionTimer.value};
        positionTimer := None;
      }
    }

    /** A live timer fires. */
    method Fire(timer: nat)
      requires Valid() && timer in liveTimers
      modifies this`state
      ensures Valid() && Enabled(old(View()), Tick) && View() == Step(old(View()), Tick)
    {
      state := state + PERIOD_MS;
    }
  }

  predicate Legal(c: Clock, acts: seq<Action>) {
    acts == [] || (Legal(c, acts[..|acts| - 1]) && Enabled(Run(c, acts[..|acts| - 1]), acts[|acts| - 1]))
  }

  /** The position set last, or the initial one. */
  function LastSet(initial: int, acts: seq<Action>): int {
    if acts == [] then initial
    else if acts[|acts| - 1].Set? then acts[|acts| - 1].ms
    else LastSet(initial, acts[..|acts| - 1])
  }

  function TicksSince(acts: seq<Action>): nat {
    if acts == [] || acts[|acts| - 1].Set? then 0
    else TicksSince(acts[..|acts| - 1]) + if acts[|acts| - 1].Tick? then 1 else 0
  }

  /** A timer is live when play came after the last pause. */
  function Started(initial: bool, acts: seq<Action>): bool {
    if acts == [] then initial
    else if acts[|acts| - 1].Play? then true
    else if acts[|acts| - 1].Pause? then false
    else Started(initial, acts[..|acts| - 1])
  }

  /** The position is the value set last and 250 ms for each tick since, in every run; ticks come only
      between a play and the next pause. */
  lemma {:induction false} ClockAccounting(c: Clock, acts: seq<Action>)
    requires Legal(c, acts)
    ensures Run(c, acts).position == LastSet(c.position, acts) + 250 * TicksSince(acts)
    ensures Run(c, acts).ticking == Started(c.ticking, acts)
    ensures forall k :: 0 <= k < |acts| && acts[k].Tick? ==> Started(c.ticking, acts[..k])
    decreases acts
  {
    if acts != [] {
      var front := acts[..|acts| - 1];
      ClockAccounting(c, front);
      forall k | 0 <= k < |acts| && acts[k].Tick? ensures Started(c.ticking, acts[..k]) {
        if k < |front| { assert front[..k] == acts[..k]; }
      }
    }
  }
}
