/**
 The hand-over between media player and radio: navigation presses on the media page, and the play
 and pause of the volume bar. The client decides on its mirror of the server's play state; a status
 event settles the mirror.
 */
module PlayControl {
  import opened MediaPlayer

  datatype Source = NoSource | MediaSource | RadioSource

  datatype Nav = MediaNav | FmNav | AmNav | XmNav

  datatype State = State(
    source: Source,        // PlayController.source
    nav: Nav,
    mediaPlaying: bool,    // MPD was playing when FM was pressed last
    position: int,         // the mirrored playlist position
    mirror: PlayState,     // the mirrored play state
    mpd: PlayState,        // the server's own state
    radio: bool)           // the radio is playing

  datatype Action = InitPage | Press(nav: Nav) | PlayButton | PauseButton

  function SourceOf(nav: Nav): Source { if nav.FmNav? then RadioSource else MediaSource }

  /** MpdClient.play: start a stopped server at the position, resume a paused one. */
  function MpdPlay(s: State): State {
    if s.mirror == Stopped && s.position >= 0 then s.(mpd := Playing)
    else if s.mirror == Paused && s.mpd == Paused then s.(mpd := Playing)
    else s
  }

  /** MpdClient.pause, sent only when the mirror says the server is playing. */
  function MpdPause(s: State): State {
    if s.mirror == Playing && s.mpd == Playing then s.(mpd := Paused) else s
  }

  function Step(s: State, a: Action): State {
    match a
    case InitPage => s.(source := SourceOf(s.nav))
    case Press(FmNav) =>
      MpdPause(s).(nav := FmNav, source := RadioSource, mediaPlaying := s.mirror == Playing, radio := true)
    case Press(MediaNav) =>
      var t := s.(nav := MediaNav, source := MediaSource, radio := false);
      if s.mediaPlaying then MpdPlay(t) else t
    case Press(_) => s
    case PlayButton =>
      if s.source == MediaSource then MpdPlay(s) else if s.source == RadioSource then s.(radio := true) else s
    case PauseButton =>
      if s.source == MediaSource then MpdPause(s) else if s.source == RadioSource then s.(radio := false) else s
  }

  function Settle(s: State): State { s.(mirror := s.mpd) }

  /** An action whose status event arrives before the next one. */
  function Act(s: State, a: Action): State { Settle(Step(s, a)) }

  function Run(s: State, acts: seq<Action>): State {
    if acts == [] then s else Act(Run(s, acts[..|acts| - 1]), acts[|acts| - 1])
  }

  class MediaPage {
    var source: Source
    var nav: Nav
    var mediaPlaying: bool
    var position: int
    var mirror: PlayState
    var mpd: PlayState
    var radio: bool

    ghost function View(): State
      reads this
    {
      State(source, nav, mediaPlaying, position, mirror, mpd, radio)
    }

    constructor ()
      ensures View() == State(NoSource, MediaNav, false, -1, Stopped, Stopped, false)
    {
      source, nav, mediaPlaying, position := NoSource, MediaNav, false, -1;
      mirror, mpd, radio := Stopped, Stopped, false;
    }

    method InitState()
      modifies this
      ensures View() == Step(old(View()), InitPage)
    {
      source := if nav == FmNav then RadioSource else MediaSource;
    }

    method ClientPlay()
      modifies this
      ensures View() == MpdPlay(old(View()))
    {
      if mirror == Stopped {
        if position >= 0 {
          mpd := Playing;
        }
      } else if mirror == Paused {
        mpd := if mpd == Paused then Playing else mpd;
      }
    }

    method ClientPause()
      modifies this
      ensures View() == MpdPause(old(View()))
    {
      if mirror == Playing {
        mpd := if mpd == Playing then Paused else mpd;
      }
    }

    method OnPressed(t: Nav)
      modifies this
      ensures View() == Step(old(View()), Press(t))
    {
      if t == FmNav {
        nav := FmNav;
        source := RadioSource;
        var playing := false;
        if mirror == Playing {
          ClientPause();
          playing := true;
        }
        mediaPlaying := playing;
        radio := true;
      } else if t == MediaNav {
        nav := MediaNav;
        source := MediaSource;
        radio := false;
        if mediaPlaying {
          ClientPlay();
        }
      }
    }

    method ControllerPlay()
      modifies this
      ensures View() == Step(old(View()), PlayButton)
    {
      match source
      case MediaSource => ClientPlay();
      case RadioSource => radio := true;
      case NoSource =>
    }

    method ControllerPause()
      modifies this
      ensures View() == Step(old(View()), PauseButton)
    {
      match source
      case MediaSource => ClientPause();
      case RadioSource => radio := false;
      case NoSource =>
    }
  }

  /** Whatever plays is what is selected. */
  ghost predicate Exclusive(s: State) {
    && (s.mpd == Playing ==> s.source == MediaSource)
    && (s.radio ==> s.source == RadioSource)
  }

  /** The same, and the source is that of the page. */
  ghost predicate Selected(s: State) {
    Exclusive(s) && (s.source != NoSource ==> s.source == SourceOf(s.nav))
  }

  ghost predicate Sane(s: State) { Selected(s) && s.mirror == s.mpd }

  /** Over any sequence of presses, page openings, plays and pauses with settled status, MPD plays only
      when media is selected and the radio only when the radio is, so never both. */
  lemma {:induction false} NeverTogether(s: State, acts: seq<Action>)
    requires Sane(s)
    ensures Sane(Run(s, acts)) && !(Run(s, acts).mpd == Playing && Run(s, acts).radio)
    decreases acts
  {
    if acts != [] {
      NeverTogether(s, acts[..|acts| - 1]);
    }
  }

  lemma RunSnoc(s: State, acts: seq<Action>, a: Action)
    ensures Run(s, acts + [a]) == Act(Run(s, acts), a)
  {
    assert (acts + [a])[..|acts|] == acts;
  }

  lemma ActDecides(t: State)
    requires Sane(t)
    ensures var u := Act(t, Press(FmNav)); u.radio && u.mpd != Playing
    ensures var u := Act(t, Press(MediaNav)); !u.radio && u.source == MediaSource
    ensures Act(t, Press(AmNav)) == t && Act(t, Press(XmNav)) == t
    ensures var u := Act(t, InitPage);
            (u.source == if t.nav == FmNav then RadioSource else MediaSource) && u.mpd == t.mpd && u.radio == t.radio
    ensures var u := Act(t, PauseButton); !u.radio && u.mpd != Playing
    ensures var u := Act(t, PlayButton);
            && (u.radio <==> t.source == RadioSource)
            && (u.mpd == Playing <==> t.source == MediaSource && (t.mpd != Stopped || t.position >= 0))
  {
  }

  /** What plays after any settled run and one more action: FM plays the radio alone; a pause of the volume
      bar silences whatever is selected; a play starts what is selected, MPD unless it is stopped
      without a position; media silences the radio; opening the page selects what its tab says; AM and XM
      change nothing. */
  lemma LastActionDecides(s: State, acts: seq<Action>)
    requires Sane(s)
    ensures var t := Run(s, acts);
            && (var u := Run(s, acts + [Press(FmNav)]); u.radio && u.mpd != Playing)
            && (var u := Run(s, acts + [Press(MediaNav)]); !u.radio && u.source == MediaSource)
            && Run(s, acts + [Press(AmNav)]) == t && Run(s, acts + [Press(XmNav)]) == t
            && (var u := Run(s, acts + [InitPage]);
                && u.source == (if t.nav == FmNav then RadioSource else MediaSource)
                && u.mpd == t.mpd && u.radio == t.radio)
            && (var u := Run(s, acts + [PauseButton]); !u.radio && u.mpd != Playing)
            && (var u := Run(s, acts + [PlayButton]);
                && (u.radio <==> t.source == RadioSource)
                && (u.mpd == Playing <==> t.source == MediaSource && (t.mpd != Stopped || t.position >= 0)))
  {
    NeverTogether(s, acts);
    ActDecides(Run(s, acts));
    RunSnoc(s, acts, Press(FmNav));
    RunSnoc(s, acts, Press(MediaNav));
    RunSnoc(s, acts, Press(AmNav));
    RunSnoc(s, acts, Press(XmNav));
    RunSnoc(s, acts, InitPage);
    RunSnoc(s, acts, PauseButton);
    RunSnoc(s, acts, PlayButton);
  }

  // ---------- Status that arrives late ----------

  /** An action, or the arrival of a status event, whenever it comes. */
  datatype Event = Do(a: Action) | StatusArrives

  function RawStep(s: State, e: Event): State {
    match e
    case Do(a) => Step(s, a)
    case StatusArrives => Settle(s)
  }

  function RawRun(s: State, es: seq<Event>): State {
    if es == [] then s else RawStep(RawRun(s, es[..|es| - 1]), es[|es| - 1])
  }

  predicate BothPlay(s: State) { s.mpd == Playing && s.radio }

  /** FM is pressed while the server is playing and the mirror does not know it. */
  predicate PressedStale(s: State, e: Event) { e == Do(Press(FmNav)) && s.mpd == Playing && s.mirror != Playing }

  lemma SelectedStep(s: State, e: Event)
    requires Selected(s)
    ensures if PressedStale(s, e) then BothPlay(RawStep(s, e)) else Selected(RawStep(s, e))
  {
  }

  lemma {:induction false} SelectedRun(s: State, es: seq<Event>)
    requires Selected(s)
    requires forall k | 0 <= k < |es| :: !PressedStale(RawRun(s, es[..k]), es[k])
    ensures Selected(RawRun(s, es))
    decreases es
  {
    if es != [] {
      var n := |es| - 1;
      forall k | 0 <= k < n ensures !PressedStale(RawRun(s, es[..n][..k]), es[..n][k]) {
        assert es[..n][..k] == es[..k];
      }
      SelectedRun(s, es[..n]);
      SelectedStep(RawRun(s, es[..n]), es[n]);
    }
  }

  /** Over any run of actions and status events, however late these come, MPD and radio never play
      together if and only if FM is never pressed while the server plays and the mirror says otherwise. */
  lemma NeverTogetherIff(s: State, es: seq<Event>)
    requires Selected(s)
    ensures (forall n | 0 <= n <= |es| :: !BothPlay(RawRun(s, es[..n]))) <==>
            (forall k | 0 <= k < |es| :: !PressedStale(RawRun(s, es[..k]), es[k]))
  {
    if forall k | 0 <= k < |es| :: !PressedStale(RawRun(s, es[..k]), es[k]) {
      forall n | 0 <= n <= |es| ensures !BothPlay(RawRun(s, es[..n])) {
        forall k | 0 <= k < n ensures !PressedStale(RawRun(s, es[..n][..k]), es[..n][k]) {
          assert es[..n][..k] == es[..k];
          assert !PressedStale(RawRun(s, es[..k]), es[k]);
        }
        SelectedRun(s, es[..n]);
      }
    } else {
      var k :| 0 <= k < |es| && PressedStale(RawRun(s, es[..k]), es[k]);
      assert es[..k + 1][..k] == es[..k];
      assert BothPlay(RawRun(s, es[..k + 1]));
    }
  }

  lemma RawSnoc(s: State, es: seq<Event>, e: Event)
    ensures RawRun(s, es + [e]) == RawStep(RawRun(s, es), e)
  {
    assert (es + [e])[..|es|] == es;
  }

  /** Such a run: play and FM before the status event. Once both have played they do so again after a
      pause and a play, each with its status settled and without another press of FM. */
  lemma StaleMirrorPlaysBoth(s: State)
    requires Sane(s) && s.source == MediaSource && s.mpd == Paused
    ensures var stale := [Do(PlayButton), Do(Press(FmNav))];
            var paused := stale + [StatusArrives] + [Do(PauseButton)] + [StatusArrives];
            var again := paused + [Do(PlayButton)] + [StatusArrives];
            && BothPlay(RawRun(s, stale)) && !BothPlay(RawRun(s, paused))
            && BothPlay(RawRun(s, again)) && RawRun(s, again).mirror == RawRun(s, again).mpd
  {
    RawSnoc(s, [], Do(PlayButton));
    RawSnoc(s, [Do(PlayButton)], Do(Press(FmNav)));
    var stale := [Do(PlayButton), Do(Press(FmNav))];
    assert [] + [Do(PlayButton)] == [Do(PlayButton)] && [Do(PlayButton)] + [Do(Press(FmNav))] == stale;
    RawSnoc(s, stale, StatusArrives);
    var settled := stale + [StatusArrives];
    RawSnoc(s, settled, Do(PauseButton));
    RawSnoc(s, settled + [Do(PauseButton)], StatusArrives);
    var paused := settled + [Do(PauseButton)] + [StatusArrives];
    RawSnoc(s, paused, Do(PlayButton));
    RawSnoc(s, paused + [Do(PlayButton)], StatusArrives);
  }

  // ---------- A trip to FM and back ----------

  function FmPresses(acts: seq<Action>): nat {
    if acts == [] then 0
    else FmPresses(acts[..|acts| - 1]) + if acts[|acts| - 1] == Press(FmNav) then 1 else 0
  }

  lemma {:induction false} OnFm(s: State, acts: seq<Action>)
    requires Sane(s) && s.source == MediaSource && |acts| > 0 && acts[0] == Press(FmNav)
    requires Press(MediaNav) !in acts
    ensures var t := Run(s, acts);
            && Sane(t) && t.source == RadioSource && t.position == s.position
            && t.mpd == (if s.mpd == Playing then Paused else s.mpd)
            && FmPresses(acts) >= 1
            && (t.mediaPlaying <==> s.mpd == Playing && FmPresses(acts) == 1)
    decreases acts
  {
    NeverTogether(s, acts);
    var front := acts[..|acts| - 1];
    if front == [] {
      assert Run(s, front) == s;
    } else {
      OnFm(s, front);
    }
  }

  /** From media to FM and back, with any buttons pressed on the way, MPD plays afterwards exactly when
      it was playing before and FM was pressed once; pressing FM again forgets that it was playing. */
  lemma TripResumesIff(s: State, acts: seq<Action>)
    requires Sane(s) && s.source == MediaSource && |acts| > 0 && acts[0] == Press(FmNav)
    requires Press(MediaNav) !in acts
    ensures var t := Run(s, acts + [Press(MediaNav)]);
            && (t.mpd == Playing <==> s.mpd == Playing && FmPresses(acts) == 1)
            && t.source == MediaSource && !t.radio
  {
    OnFm(s, acts);
    assert (acts + [Press(MediaNav)])[..|acts|] == acts;
  }

  /** Whether MPD was playing when FM was pressed last; at the start the flag says so. */
  function PlayingAtLastFm(s: State, acts: seq<Action>): bool {
    if acts == [] then s.mediaPlaying
    else
      var front := acts[..|acts| - 1];
      if acts[|acts| - 1] == Press(FmNav) then Run(s, front).mpd == Playing else PlayingAtLastFm(s, front)
  }

  lemma {:induction false} FlagRemembers(s: State, acts: seq<Action>)
    requires Sane(s)
    ensures Run(s, acts).mediaPlaying == PlayingAtLastFm(s, acts)
    decreases acts
  {
    if acts != [] {
      NeverTogether(s, acts[..|acts| - 1]);
      FlagRemembers(s, acts[..|acts| - 1]);
    }
  }

  /** The flag is never cleared on the way back: after any run that ends with media selected and silent, a
      further press of media starts the player exactly when MPD was playing at the last press of FM,
      however long ago, and the player can start. */
  lemma MediaPressRestartsIff(s: State, acts: seq<Action>)
    requires Sane(s) && Run(s, acts).source == MediaSource && Run(s, acts).mpd != Playing
    ensures var t := Run(s, acts);
            Run(s, acts + [Press(MediaNav)]).mpd == Playing <==>
            PlayingAtLastFm(s, acts) && (t.mpd == Paused || t.position >= 0)
  {
    NeverTogether(s, acts);
    FlagRemembers(s, acts);
    assert (acts + [Press(MediaNav)])[..|acts|] == acts;
  }
}
