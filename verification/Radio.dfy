/** The radio tuner: frequency requests on a band, and the state folded from the service's status events. */
module Radio {
  import opened Words

  datatype RadioState = RadioState(
    freqMin: int, freqMax: int, freqStep: int, freqCurrent: int, playing: bool, scanning: bool)

  /** Until the band parameters arrive the upper limit lies below the lower one. */
  const INITIAL := RadioState(8790000, 1083000, 20000, 8790000, false, false)

  datatype StatusEvent =
    | Band(min: int, max: int, step: int)  // the answer to the request for band parameters
    | Frequency(frequency: int)
    | Play(playing: bool)
    | Scan(stationFound: bool)
    | Unhandled

  function Receive(s: RadioState, e: StatusEvent): RadioState {
    match e
    case Band(min, max, step) => s.(freqMin := min, freqMax := max, freqStep := step)
    case Frequency(f) => s.(freqCurrent := f)
    case Play(p) => s.(playing := p)
    case Scan(found) => if found then s.(scanning := false) else s
    case Unhandled => s
  }

  datatype Action = SetTo(frequency: int) | Forward | Backward

  /** What setFrequency does: it sends, it refuses, or the remainder by a zero step throws. */
  datatype Verdict = Sent | Refused | Threw

  function Judge(s: RadioState, f: int): Verdict {
    if f < s.freqMin || f > s.freqMax then Refused
    else if s.freqStep == 0 then Threw
    else if (f - s.freqMin) % s.freqStep != 0 then Refused
    else Sent
  }

  function Min(a: int, b: int): int { if a < b then a else b }

  function Max(a: int, b: int): int { if a < b then b else a }

  /** The frequency the action asks the service for, if any. */
  function Request(s: RadioState, a: Action): Option<int> {
    match a
    case SetTo(f) => if Judge(s, f) == Sent then Some(f) else None
    case Forward => if s.freqCurrent < s.freqMax then Some(Min(s.freqCurrent + s.freqStep, s.freqMax)) else None
    case Backward => if s.freqCurrent > s.freqMin then Some(Max(s.freqCurrent - s.freqStep, s.freqMin)) else None
  }

  class RadioClient {
    var state: RadioState
    var requests: seq<int>  // the frequencies asked for, in order

    constructor ()
      ensures state == INITIAL && requests == []
    {
      state, requests := INITIAL, [];
    }

    method SetFrequency(frequency: int) returns (threw: bool)
      modifies this`requests
      ensures threw <==> state.freqMin <= frequency <= state.freqMax && state.freqStep == 0
      ensures requests == old(requests) + if Request(state, SetTo(frequency)).Some? then [frequency] else []
    {
      if frequency < state.freqMin || frequency > state.freqMax {
        return false;
      }
      if state.freqStep == 0 {
        return true;
      }
      if (frequency - state.freqMin) % state.freqStep != 0 {
        return false;
      }
      requests := requests + [frequency];
      return false;
    }

    method TuneForward()
      modifies this`requests
      ensures var r := Request(state, Forward);
              requests == old(requests) + if r.Some? then [r.value] else []
    {
      if state.freqCurrent < state.freqMax {
        var frequency := state.freqCurrent + state.freqStep;
        if frequency > state.freqMax {
          frequency := state.freqMax;
        }
        requests := requests + [frequency];
      }
    }

    method TuneBackward()
      modifies this`requests
      ensures var r := Request(state, Backward);
              requests == old(requests) + if r.Some? then [r.value] else []
    {
      if state.freqCurrent > state.freqMin {
        var frequency := state.freqCurrent - state.freqStep;
        if frequency < state.freqMin {
          frequency := state.freqMin;
        }
        requests := requests + [frequency];
      }
    }

    method HandleStatusEvent(e: StatusEvent)
      modifies this`state
      ensures state == Receive(old(state), e)
    {
      match e
      case Frequency(f) => state := state.(freqCurrent := f);
      case Play(p) => state := state.(playing := p);
      case Scan(found) => if found { state := state.(scanning := false); }
      case Band(min, max, step) => state := state.(freqMin := min, freqMax := max, freqStep := step);
      case Unhandled =>
    }
  }

  // ---------- Runs against a service that echoes each request ----------

  function Act(s: RadioState, a: Action): RadioState {
    var r := Request(s, a);
    if r.Some? then Receive(s, Frequency(r.value)) else s
  }

  function Run(s: RadioState, acts: seq<Action>): RadioState {
    if acts == [] then s else Act(Run(s, acts[..|acts| - 1]), acts[|acts| - 1])
  }

  predicate HasBand(s: RadioState) { s.freqStep > 0 && s.freqMin <= s.freqMax }

  predicate InBand(s: RadioState, f: int) { s.freqMin <= f <= s.freqMax }

  predicate OnGrid(s: RadioState, f: int)
    requires HasBand(s)
  {
    InBand(s, f) && (f - s.freqMin) % s.freqStep == 0
  }

  predicate SameBand(s: RadioState, t: RadioState) {
    s.freqMin == t.freqMin && s.freqMax == t.freqMax && s.freqStep == t.freqStep
  }

  lemma {:induction false} Multiple(m: int, d: nat)
    requires m > 0
    ensures m * d >= 0 && (d >= 1 ==> m * d >= m)
    decreases d
  {
    if d > 0 {
      Multiple(m, d - 1);
      assert m * d == m * (d - 1) + m;
    }
  }

  lemma ProductOrder(m: int, a: int, b: int)
    requires m > 0
    ensures a <= b <==> m * a <= m * b
    ensures a < b ==> m * a + m <= m * b
  {
    if a < b {
      Multiple(m, b - a);
      assert m * b - m * a == m * (b - a);
    } else {
      Multiple(m, a - b);
      assert m * a - m * b == m * (a - b);
    }
  }

  lemma Division(x: int, m: int)
    requires m > 0 && x >= 0
    ensures x == m * (x / m) + x % m && 0 <= x % m < m && x / m >= 0
  {
  }

  lemma DivisionUnique(x: int, m: int, q: int, r: int)
    requires m > 0 && x >= 0 && 0 <= r < m && x == m * q + r
    ensures x / m == q && x % m == r
  {
    Division(x, m);
    ProductOrder(m, x / m, q);
    ProductOrder(m, q, x / m);
  }

  lemma MultipleMod(k: int, m: int)
    requires m > 0 && k >= 0
    ensures (m * k) % m == 0 && (m * k) / m == k
  {
    Multiple(m, k);
    DivisionUnique(m * k, m, k, 0);
  }

  /** Grid point k of the band. */
  function Grid(s: RadioState, k: int): int { s.freqMin + s.freqStep * k }

  lemma GridIndex(s: RadioState, f: int) returns (k: nat)
    requires HasBand(s) && OnGrid(s, f)
    ensures k <= (s.freqMax - s.freqMin) / s.freqStep && f == Grid(s, k)
  {
    var m := s.freqStep;
    k := (f - s.freqMin) / m;
    Division(f - s.freqMin, m);
    Division(s.freqMax - s.freqMin, m);
    ProductOrder(m, (s.freqMax - s.freqMin) / m + 1, k);
  }

  lemma GridInBand(s: RadioState, k: nat)
    requires HasBand(s) && k <= (s.freqMax - s.freqMin) / s.freqStep
    ensures OnGrid(s, Grid(s, k))
  {
    Division(s.freqMax - s.freqMin, s.freqStep);
    MultipleMod(k, s.freqStep);
    ProductOrder(s.freqStep, k, (s.freqMax - s.freqMin) / s.freqStep);
    Multiple(s.freqStep, k);
  }

  lemma GridPoint(s: RadioState, f: int)
    requires HasBand(s)
    ensures OnGrid(s, f) <==> exists k :: 0 <= k <= (s.freqMax - s.freqMin) / s.freqStep && f == Grid(s, k)
  {
    if OnGrid(s, f) {
      var k := GridIndex(s, f);
    } else if k :| 0 <= k <= (s.freqMax - s.freqMin) / s.freqStep && f == Grid(s, k) {
      GridInBand(s, k);
    }
  }

  /** setFrequency sends exactly the grid points of the band. */
  lemma SetAcceptsGrid(s: RadioState, f: int)
    requires HasBand(s)
    ensures Request(s, SetTo(f)) == Some(f) <==>
            exists k :: 0 <= k <= (s.freqMax - s.freqMin) / s.freqStep && f == Grid(s, k)
  {
    GridPoint(s, f);
  }

  lemma GridStep(s: RadioState, k: int)
    requires HasBand(s) && k >= 0
    ensures Grid(s, k + 1) == Grid(s, k) + s.freqStep
    ensures Grid(s, k) <= s.freqMax ==> OnGrid(s, Grid(s, k))
  {
    MultipleMod(k, s.freqStep);
    assert s.freqStep * (k + 1) == s.freqStep * k + s.freqStep;
  }

  // ---------- The bounded walk ----------

  /** One step on 0..n, stopping at both ends; a jump goes where it is told if that is a point. */
  function Walk(n: nat, i: int, a: Action, s: RadioState): int
    requires HasBand(s)
  {
    match a
    case Forward => if i < n then i + 1 else n
    case Backward => if i > 0 then i - 1 else 0
    case SetTo(f) => if OnGrid(s, f) then (f - s.freqMin) / s.freqStep else i
  }

  function WalkAll(n: nat, i: int, acts: seq<Action>, s: RadioState): int
    requires HasBand(s)
  {
    if acts == [] then i else Walk(n, WalkAll(n, i, acts[..|acts| - 1], s), acts[|acts| - 1], s)
  }

  lemma WalkStep(s: RadioState, n: nat, i: nat, a: Action)
    requires HasBand(s) && s.freqMax == Grid(s, n) && i <= n && s.freqCurrent == Grid(s, i)
    ensures var j := Walk(n, i, a, s);
            0 <= j <= n && Act(s, a) == s.(freqCurrent := Grid(s, j))
    ensures Request(s, a).Some? ==> OnGrid(s, Request(s, a).value)
  {
    ProductOrder(s.freqStep, i, n);
    ProductOrder(s.freqStep, 0, i);
    GridStep(s, i);
    match a
    case Forward =>
      ProductOrder(s.freqStep, i + 1, n);
      ProductOrder(s.freqStep, n, i);
      GridStep(s, i + 1);
    case Backward =>
      if i > 0 { GridStep(s, i - 1); ProductOrder(s.freqStep, 0, i - 1); ProductOrder(s.freqStep, i - 1, n); }
    case SetTo(f) =>
      if OnGrid(s, f) {
        Division(f - s.freqMin, s.freqStep);
        ProductOrder(s.freqStep, (f - s.freqMin) / s.freqStep, n);
      }
  }

  /** With the upper limit on the grid, every mix of settings and tunings from a grid point is the walk
      on 0..n. */
  lemma {:induction false} TuningIsWalk(s: RadioState, n: nat, i: nat, acts: seq<Action>)
    requires HasBand(s) && s.freqMax == Grid(s, n) && i <= n && s.freqCurrent == Grid(s, i)
    ensures 0 <= WalkAll(n, i, acts, s) <= n
    ensures Run(s, acts) == s.(freqCurrent := Grid(s, WalkAll(n, i, acts, s)))
    decreases acts
  {
    if acts != [] {
      var front, a := acts[..|acts| - 1], acts[|acts| - 1];
      TuningIsWalk(s, n, i, front);
      var j := WalkAll(n, i, front, s);
      WalkStep(Run(s, front), n, j, a);
      WalkSameBand(n, j, a, s, Run(s, front));
    }
  }

  lemma WalkSameBand(n: nat, i: int, a: Action, s: RadioState, t: RadioState)
    requires HasBand(s) && SameBand(s, t)
    ensures Walk(n, i, a, s) == Walk(n, i, a, t)
  {
  }

  /** Tuning forward and then backward changes nothing exactly away from the upper edge, or on a band
      narrower than a step when starting at its lower end. */
  lemma ForwardBackwardIdentityIff(s: RadioState)
    requires HasBand(s) && InBand(s, s.freqCurrent)
    ensures Act(Act(s, Forward), Backward) == s <==>
            || s.freqCurrent + s.freqStep <= s.freqMax
            || (s.freqCurrent == s.freqMin && s.freqMax - s.freqStep < s.freqMin)
  {
  }

  // ---------- Closed form, on or off the grid ----------

  function Repeat(a: Action, n: nat): (acts: seq<Action>)
    ensures |acts| == n && forall i :: 0 <= i < n ==> acts[i] == a
  {
    seq(n, i => a)
  }

  lemma RepeatSnoc(a: Action, n: nat)
    requires n > 0
    ensures Repeat(a, n)[..n - 1] == Repeat(a, n - 1)
  {
  }

  /** n calls of tuneForward from any frequency of the band reach f + n * step or the upper limit. */
  lemma {:induction false} ForwardSaturates(s: RadioState, n: nat)
    requires HasBand(s) && InBand(s, s.freqCurrent)
    ensures Run(s, Repeat(Forward, n)) == s.(freqCurrent := Min(s.freqCurrent + s.freqStep * n, s.freqMax))
    decreases n
  {
    if n > 0 {
      RepeatSnoc(Forward, n);
      ForwardSaturates(s, n - 1);
      assert s.freqStep * n == s.freqStep * (n - 1) + s.freqStep;
    }
  }

  lemma {:induction false} BackwardSaturates(s: RadioState, n: nat)
    requires HasBand(s) && InBand(s, s.freqCurrent)
    ensures Run(s, Repeat(Backward, n)) == s.(freqCurrent := Max(s.freqCurrent - s.freqStep * n, s.freqMin))
    decreases n
  {
    if n > 0 {
      RepeatSnoc(Backward, n);
      BackwardSaturates(s, n - 1);
      assert s.freqStep * n == s.freqStep * (n - 1) + s.freqStep;
    }
  }

  function CeilDiv(x: nat, m: int): nat
    requires m > 0
  {
    (x + m - 1) / m
  }

  /** The upper limit is reached after exactly the rounded-up number of steps; from then on nothing is sent. */
  lemma EdgeReachedAfter(s: RadioState, n: nat)
    requires HasBand(s) && InBand(s, s.freqCurrent)
    ensures var t := Run(s, Repeat(Forward, n));
            var edge := CeilDiv(s.freqMax - s.freqCurrent, s.freqStep);
            && (t.freqCurrent == s.freqMax <==> n >= edge)
            && (Request(t, Forward).None? <==> n >= edge)
  {
    ForwardSaturates(s, n);
    var m, x := s.freqStep, s.freqMax - s.freqCurrent;
    Division(x + m - 1, m);
    var edge := CeilDiv(x, m);
    assert m * edge + (x + m - 1) % m == x + m - 1;
    if n >= edge {
      ProductOrder(m, edge, n);
    } else {
      ProductOrder(m, n, edge);
    }
  }

  /** With the upper limit on the grid, an action after any run from a grid point asks for a grid point. */
  lemma OnlyGridPointsAskedFor(s: RadioState, acts: seq<Action>, a: Action)
    requires HasBand(s) && OnGrid(s, s.freqCurrent) && OnGrid(s, s.freqMax)
    ensures var r := Request(Run(s, acts), a); r.Some? ==> OnGrid(s, r.value)
  {
    var n := GridIndex(s, s.freqMax);
    var i := GridIndex(s, s.freqCurrent);
    ProductOrder(s.freqStep, i, n);
    TuningIsWalk(s, n, i, acts);
    WalkStep(Run(s, acts), n, WalkAll(n, i, acts, s), a);
  }

  ghost predicate AsksOnGrid(s: RadioState, acts: seq<Action>, a: Action)
    requires HasBand(s)
  {
    var r := Request(Run(s, acts), a);
    r.Some? ==> OnGrid(s, r.value)
  }

  /** Every request of every run from a grid point is on the grid if and only if the upper limit is:
      otherwise tuning forward to the edge asks for the limit itself. */
  lemma RequestsOnGridIff(s: RadioState)
    requires HasBand(s) && OnGrid(s, s.freqCurrent)
    ensures OnGrid(s, s.freqMax) <==> forall acts: seq<Action>, a: Action :: AsksOnGrid(s, acts, a)
  {
    if OnGrid(s, s.freqMax) {
      forall acts: seq<Action>, a: Action ensures AsksOnGrid(s, acts, a) {
        OnlyGridPointsAskedFor(s, acts, a);
      }
    } else {
      var acts := OffGridLimitIsAskedFor(s);
      assert !AsksOnGrid(s, acts, Forward);
    }
  }

  lemma OffGridLimitIsAskedFor(s: RadioState) returns (acts: seq<Action>)
    requires HasBand(s) && OnGrid(s, s.freqCurrent) && !OnGrid(s, s.freqMax)
    ensures Request(Run(s, acts), Forward) == Some(s.freqMax)
  {
    var m, x := s.freqStep, s.freqMax - s.freqCurrent;
    Division(x, m);
    var n := x / m;
    ForwardSaturates(s, n);
    acts := Repeat(Forward, n);
    if x % m == 0 {
      var i := (s.freqCurrent - s.freqMin) / m;
      Division(s.freqCurrent - s.freqMin, m);
      assert m * i + m * n == m * (i + n);
      GridStep(s, i + n);
      assert false;
    }
  }

  // ---------- Before the first events ----------

  /** Before any event arrives no action asks for anything. */
  lemma {:induction false} SilentBeforeBand(acts: seq<Action>, a: Action)
    ensures Run(INITIAL, acts) == INITIAL && Request(Run(INITIAL, acts), a).None?
    decreases acts
  {
    if acts != [] {
      SilentBeforeBand(acts[..|acts| - 1], acts[|acts| - 1]);
    }
  }

  /** Between the band parameters and the first frequency it may: on the FM band tuneForward asks for a
      frequency far below it. */
  lemma BandBeforeFrequency()
    ensures var s := Receive(INITIAL, Band(87900000, 108300000, 100000));
            HasBand(s) && Request(s, Forward) == Some(8890000) && !InBand(s, 8890000)
  {
  }

  ghost predicate AsksInBand(s: RadioState, acts: seq<Action>, a: Action) {
    var r := Request(Run(s, acts), a);
    r.Some? ==> InBand(s, r.value)
  }

  /** The current frequency is at most one step outside the band. */
  predicate NearBand(s: RadioState) { s.freqMin - s.freqStep <= s.freqCurrent <= s.freqMax + s.freqStep }

  lemma {:induction false} NearBandRun(s: RadioState, acts: seq<Action>)
    requires HasBand(s) && NearBand(s)
    ensures SameBand(s, Run(s, acts)) && NearBand(Run(s, acts))
    decreases acts
  {
    if acts != [] {
      NearBandRun(s, acts[..|acts| - 1]);
    }
  }

  /** Every request of every run is in the band if and only if the current frequency is at most one step
      outside it when the band is known. */
  lemma RequestsInBandIff(s: RadioState)
    requires HasBand(s)
    ensures NearBand(s) <==> forall acts: seq<Action>, a: Action :: AsksInBand(s, acts, a)
  {
    if NearBand(s) {
      forall acts: seq<Action>, a: Action ensures AsksInBand(s, acts, a) {
        NearBandRun(s, acts);
      }
    } else {
      assert !AsksInBand(s, [], if s.freqCurrent > s.freqMax then Backward else Forward);
    }
  }

  // ---------- The status stream ----------

  function ReceiveAll(s: RadioState, events: seq<StatusEvent>): RadioState {
    if events == [] then s else Receive(ReceiveAll(s, events[..|events| - 1]), events[|events| - 1])
  }

  datatype Kind = BandKind | FrequencyKind | PlayKind | FoundKind | NoKind

  function KindOf(e: StatusEvent): Kind {
    match e
    case Band(_, _, _) => BandKind
    case Frequency(_) => FrequencyKind
    case Play(_) => PlayKind
    case Scan(found) => if found then FoundKind else NoKind
    case Unhandled => NoKind
  }

  /** e is the last event of its kind. */
  ghost predicate IsLast(events: seq<StatusEvent>, e: StatusEvent) {
    exists k :: 0 <= k < |events| && events[k] == e
                && forall j :: k < j < |events| ==> KindOf(events[j]) != KindOf(e)
  }

  ghost predicate NoneOf(events: seq<StatusEvent>, kind: Kind) {
    forall k :: 0 <= k < |events| ==> KindOf(events[k]) != kind
  }

  lemma LastSnoc(front: seq<StatusEvent>, last: StatusEvent, e: StatusEvent)
    ensures KindOf(last) != KindOf(e) && IsLast(front, e) ==> IsLast(front + [last], e)
    ensures IsLast(front + [last], last)
  {
    var events := front + [last];
    assert events[|front|] == last;
    if KindOf(last) != KindOf(e) && IsLast(front, e) {
      var k :| 0 <= k < |front| && front[k] == e && forall j :: k < j < |front| ==> KindOf(front[j]) != KindOf(e);
      assert events[k] == e;
      assert forall j :: k < j < |events| ==> KindOf(events[j]) != KindOf(e);
    }
  }

  /** The value a field has: that of the last event of its kind, or the starting one if there is none. */
  ghost predicate Follows(events: seq<StatusEvent>, kind: Kind, same: bool, e: StatusEvent) {
    (NoneOf(events, kind) && same) || (KindOf(e) == kind && IsLast(events, e))
  }

  lemma FollowsSnoc(front: seq<StatusEvent>, last: StatusEvent, kind: Kind, same: bool, e: StatusEvent)
    requires KindOf(last) != kind && Follows(front, kind, same, e)
    ensures Follows(front + [last], kind, same, e)
  {
    LastSnoc(front, last, e);
  }

  ghost predicate FrequencyFollows(s: RadioState, events: seq<StatusEvent>, t: RadioState) {
    Follows(events, FrequencyKind, t.freqCurrent == s.freqCurrent, Frequency(t.freqCurrent))
  }

  ghost predicate PlayFollows(s: RadioState, events: seq<StatusEvent>, t: RadioState) {
    Follows(events, PlayKind, t.playing == s.playing, Play(t.playing))
  }

  ghost predicate BandFollows(s: RadioState, events: seq<StatusEvent>, t: RadioState) {
    Follows(events, BandKind, SameBand(s, t), Band(t.freqMin, t.freqMax, t.freqStep))
  }

  ghost predicate ScanningFollows(s: RadioState, events: seq<StatusEvent>, t: RadioState) {
    t.scanning <==> s.scanning && NoneOf(events, FoundKind)
  }

  lemma FrequencyStep(s: RadioState, front: seq<StatusEvent>, e: StatusEvent, t: RadioState)
    requires FrequencyFollows(s, front, t)
    ensures FrequencyFollows(s, front + [e], Receive(t, e))
  {
    LastSnoc(front, e, e);
    if !e.Frequency? {
      FollowsSnoc(front, e, FrequencyKind, t.freqCurrent == s.freqCurrent, Frequency(t.freqCurrent));
    }
  }

  lemma PlayStep(s: RadioState, front: seq<StatusEvent>, e: StatusEvent, t: RadioState)
    requires PlayFollows(s, front, t)
    ensures PlayFollows(s, front + [e], Receive(t, e))
  {
    LastSnoc(front, e, e);
    if !e.Play? {
      FollowsSnoc(front, e, PlayKind, t.playing == s.playing, Play(t.playing));
    }
  }

  lemma BandStep(s: RadioState, front: seq<StatusEvent>, e: StatusEvent, t: RadioState)
    requires BandFollows(s, front, t)
    ensures BandFollows(s, front + [e], Receive(t, e))
  {
    LastSnoc(front, e, e);
    if !e.Band? {
      FollowsSnoc(front, e, BandKind, SameBand(s, t), Band(t.freqMin, t.freqMax, t.freqStep));
    }
  }

  lemma ScanningStep(s: RadioState, front: seq<StatusEvent>, e: StatusEvent, t: RadioState)
    requires ScanningFollows(s, front, t)
    ensures ScanningFollows(s, front + [e], Receive(t, e))
  {
    var events := front + [e];
    assert events[|front|] == e;
    assert forall k :: 0 <= k < |front| ==> events[k] == front[k];
    assert NoneOf(events, FoundKind) <==> NoneOf(front, FoundKind) && KindOf(e) != FoundKind;
  }

  /** After any stream each field has the value of the last event of its own kind, or its starting
      value; scanning is only ever cleared, exactly when some event found a station. */
  lemma {:induction false} FieldsFollowLastEvent(s: RadioState, events: seq<StatusEvent>)
    ensures FrequencyFollows(s, events, ReceiveAll(s, events))
    ensures PlayFollows(s, events, ReceiveAll(s, events))
    ensures BandFollows(s, events, ReceiveAll(s, events))
    ensures ScanningFollows(s, events, ReceiveAll(s, events))
    decreases events
  {
    if events != [] {
      var front, e := events[..|events| - 1], events[|events| - 1];
      FieldsFollowLastEvent(s, front);
      var t := ReceiveAll(s, front);
      FrequencyStep(s, front, e, t);
      PlayStep(s, front, e, t);
      BandStep(s, front, e, t);
      ScanningStep(s, front, e, t);
      assert front + [e] == events;
    }
  }
}
