/**
 The event handlers of the MPD client: queue events rebuild the playlist, player events update the
 current song, the play state, the position clock and the album art bookkeeping.
 */
module MediaPlayer {
  import opened Words
  import opened PositionClock
  import opened SongArt

  datatype PlayState = Stopped | Playing | Paused

  datatype PlaylistEntry = PlaylistEntry(
    title: string, album: string, artist: string, file: string, duration: int, position: int)

  datatype MediaPlayerState = MediaPlayerState(
    playlistPosition: int, playState: PlayState, song: Option<PlaylistEntry>)

  const INITIAL := MediaPlayerState(-1, Stopped, None)

  /** A song as the server describes it; tags may be missing or have several values. */
  datatype Song = Song(
    file: string, title: Option<seq<string>>, album: Option<seq<string>>, artist: Option<seq<string>>,
    duration: Option<int>, pos: Option<int>)

  datatype MpdState = Stop | Play | Pause

  datatype Status = Status(elapsed: Option<real>, state: Option<MpdState>)

  /** updateCurrent: the song and its position change together. */
  function UpdateCurrent(p: MediaPlayerState, e: PlaylistEntry): MediaPlayerState {
    p.(song := Some(e), playlistPosition := e.position)
  }

  function Mirrored(s: MpdState): PlayState {
    match s
    case Stop => Stopped
    case Play => Playing
    case Pause => Paused
  }

  // ---------- Queue events ----------

  function Join(words: seq<string>): string {
    if words == [] then "" else if |words| == 1 then words[0] else words[0] + " " + Join(words[1..])
  }

  /** The values of a tag are set one after the other, with a space in between. */
  lemma {:induction false} JoinSnoc(words: seq<string>, w: string)
    ensures Join(words + [w]) == if words == [] then w else Join(words) + " " + w
    decreases words
  {
    if words == [] {
      assert words + [w] == [w];
    } else {
      assert (words + [w])[1..] == words[1..] + [w];
      JoinSnoc(words[1..], w);
      if |words| == 1 {
        assert words[1..] == [];
      } else {
        assert words[0] + " " + (Join(words[1..]) + " " + w) == words[0] + " " + Join(words[1..]) + " " + w;
      }
    }
  }

  function JoinOr(words: Option<seq<string>>, default: string): string {
    if words.Some? then Join(words.value) else default
  }

  function QueueEntry(s: Song): PlaylistEntry
    requires s.pos.Some?
  {
    PlaylistEntry(JoinOr(s.title, s.file), JoinOr(s.album, ""), JoinOr(s.artist, ""), s.file,
                  if s.duration.Some? then s.duration.value else 0, s.pos.value)
  }

  /** The songs that have a position, in the server's order. */
  function Playlist(songs: seq<Song>): seq<PlaylistEntry> {
    if songs == [] then []
    else
      var s := songs[|songs| - 1];
      Playlist(songs[..|songs| - 1]) + if s.pos.Some? then [QueueEntry(s)] else []
  }

  /** The last song at position 0. */
  function First(songs: seq<Song>): Option<PlaylistEntry> {
    if songs == [] then None
    else if songs[|songs| - 1].pos == Some(0) then Some(QueueEntry(songs[|songs| - 1]))
    else First(songs[..|songs| - 1])
  }

  function Rebuilt(songs: seq<Song>): MediaPlayerState {
    if First(songs).Some? then UpdateCurrent(INITIAL, First(songs).value) else INITIAL
  }

  ghost predicate HasArtFile(songs: seq<Song>) {
    exists i :: 0 <= i < |songs| && songs[i].pos == Some(0) && songs[i].file != ""
  }

  /** The entry shows the song: a missing title is the file, other missing tags are empty, a missing
      duration is zero; the values of a tag are joined. */
  predicate ShowsJoined(e: PlaylistEntry, s: Song) {
    && e.title == (match s.title case Some(words) => Join(words) case None => s.file)
    && e.album == (match s.album case Some(words) => Join(words) case None => "")
    && e.artist == (match s.artist case Some(words) => Join(words) case None => "")
    && e.file == s.file && s.pos == Some(e.position)
    && e.duration == (match s.duration case Some(d) => d case None => 0)
  }

  function Positioned(songs: seq<Song>, n: nat): nat
    requires n <= |songs|
  {
    if n == 0 then 0 else Positioned(songs, n - 1) + if songs[n - 1].pos.Some? then 1 else 0
  }

  /** The i-th song, if it has a position, is the playlist entry after those of the positioned songs
      before it; there are no other entries. */
  lemma {:induction false} PlaylistInOrder(songs: seq<Song>)
    ensures |Playlist(songs)| == Positioned(songs, |songs|)
    ensures forall i :: 0 <= i < |songs| && songs[i].pos.Some? ==>
              Positioned(songs, i) < |Playlist(songs)|
              && ShowsJoined(Playlist(songs)[Positioned(songs, i)], songs[i])
    decreases songs
  {
    if songs != [] {
      var front := songs[..|songs| - 1];
      PlaylistInOrder(front);
      forall i | 0 <= i <= |front| ensures Positioned(front, i) == Positioned(songs, i) {
        PositionedPrefix(songs, |front|, i);
      }
    }
  }

  /** The song a queue event makes current is an entry of the new playlist, at position 0. */
  lemma {:induction false} CurrentIsListed(songs: seq<Song>)
    ensures First(songs).Some? ==> First(songs).value in Playlist(songs) && First(songs).value.position == 0
    ensures First(songs).None? <==> forall i :: 0 <= i < |songs| ==> songs[i].pos != Some(0)
    decreases songs
  {
    if songs != [] {
      var front := songs[..|songs| - 1];
      CurrentIsListed(front);
      assert forall i :: 0 <= i < |front| ==> front[i] == songs[i];
    }
  }

  lemma {:induction false} PositionedPrefix(songs: seq<Song>, n: nat, i: nat)
    requires i <= n <= |songs|
    ensures Positioned(songs[..n], i) == Positioned(songs, i)
    decreases i
  {
    if i > 0 { PositionedPrefix(songs, n, i - 1); }
  }

  // ---------- Player events ----------

  /** The first value of a tag; an empty list of values throws. */
  function FirstOr(words: Option<seq<string>>, default: string): Option<string> {
    if words.None? then Some(default) else if words.value == [] then None else Some(words.value[0])
  }

  function PlayerEntry(s: Song): Option<PlaylistEntry>
    requires s.pos.Some?
  {
    var title, album, artist := FirstOr(s.title, s.file), FirstOr(s.album, ""), FirstOr(s.artist, "");
    if title.None? || album.None? || artist.None? then None
    else Some(PlaylistEntry(title.value, album.value, artist.value, s.file,
                            if s.duration.Some? then s.duration.value else 0, s.pos.value))
  }

  ghost predicate OneValue(words: Option<seq<string>>) { words.Some? ==> |words.value| == 1 }

  lemma JoinIsFirst(words: seq<string>)
    requires words != []
    ensures Join(words) == words[0] <==> |words| == 1
  {
    if |words| > 1 {
      assert |Join(words)| > |words[0]|;
    }
  }

  /** The two handlers describe a song alike exactly when no tag has several values or none: a queue
      event joins the values of a tag, a player event takes the first. */
  lemma HandlersAgreeIff(s: Song)
    requires s.pos.Some?
    ensures PlayerEntry(s) == Some(QueueEntry(s)) <==> OneValue(s.title) && OneValue(s.album) && OneValue(s.artist)
  {
    if s.title.Some? && s.title.value != [] { JoinIsFirst(s.title.value); }
    if s.album.Some? && s.album.value != [] { JoinIsFirst(s.album.value); }
    if s.artist.Some? && s.artist.value != [] { JoinIsFirst(s.artist.value); }
  }

  /** The same with the first value of each tag. */
  predicate ShowsFirst(e: PlaylistEntry, s: Song) {
    && (match s.title case Some(words) => words != [] && e.title == words[0] case None => e.title == s.file)
    && (match s.album case Some(words) => words != [] && e.album == words[0] case None => e.album == "")
    && (match s.artist case Some(words) => words != [] && e.artist == words[0] case None => e.artist == "")
    && e.file == s.file && s.pos == Some(e.position)
    && e.duration == (match s.duration case Some(d) => d case None => 0)
  }

  datatype Outcome = Handled | Ignored | Threw

  function SongOutcome(song: Option<Song>): Outcome {
    if song.None? then Handled
    else if song.value.pos.None? || song.value.pos.value < 0 then Ignored
    else if PlayerEntry(song.value).None? then Threw
    else Handled
  }

  function AfterPlayerEvent(p: MediaPlayerState, song: Option<Song>, status: Status): MediaPlayerState {
    if SongOutcome(song) != Handled then p
    else
      var q := if song.Some? then UpdateCurrent(p, PlayerEntry(song.value).value) else p;
      if status.state.Some? then q.(playState := Mirrored(status.state.value)) else q
  }

  function Truncate(r: real): int { if r >= 0.0 then r.Floor else -((-r).Floor) }

  function ClockAfter(c: Clock, song: Option<Song>, status: Status): Clock {
    if SongOutcome(song) != Handled then c
    else
      Clock(if status.elapsed.Some? then Truncate(status.elapsed.value * 1000.0) else c.position,
            if status.state.Some? then status.state.value.Play? else c.ticking)
  }

  /** The current song is absent exactly when the position is -1, and else has that position. */
  ghost predicate Consistent(p: MediaPlayerState) {
    && (p.song.None? <==> p.playlistPosition == -1)
    && (p.song.Some? ==> p.song.value.position == p.playlistPosition)
  }

  function SongPosition(song: Option<Song>): int {
    if song.Some? && song.value.pos.Some? then song.value.pos.value else -1
  }

  /** The art of that position was neither read nor is being read. */
  predicate WantsArt(artState: map<int, ArtEntry>, position: int) {
    !(position in artState && (artState[position].read || artState[position].reading))
  }

  datatype Event = QueueEvent(songs: seq<Song>) | PlayerEvent(song: Option<Song>, status: Status)

  /** What concerns the art: an event, or the end of the read of a position. */
  datatype ArtEvent = Happened(e: Event) | ReadEnded(position: int)

  ghost function ArtAfter(artState: map<int, ArtEntry>, e: ArtEvent): map<int, ArtEntry> {
    match e
    case Happened(QueueEvent(songs)) => if HasArtFile(songs) then map[0 := ArtEntry(true, false)] else map[]
    case Happened(PlayerEvent(song, status)) =>
      var position, file := SongPosition(song), if song.Some? then song.value.file else "";
      if SongOutcome(song) == Handled && status.state == Some(MpdState.Play) && WantsArt(artState, position)
      then artState[position := ArtEntry(file != "", file == "")] else artState
    case ReadEnded(position) =>
      if position in artState then artState[position := ArtEntry(false, true)] else artState
  }

  class MpdClient {
    const notifier: PositionNotifier
    const artReader: ArtReader
    var playlist: seq<PlaylistEntry>
    var player: MediaPlayerState

    ghost predicate Valid()
      reads this, notifier
    {
      notifier.Valid() && Consistent(player)
    }

    constructor ()
      ensures Valid() && playlist == [] && player == INITIAL && !notifier.View().ticking
      ensures fresh(notifier) && fresh(artReader)
    {
      notifier := new PositionNotifier();
      artReader := new ArtReader();
      playlist, player := [], INITIAL;
    }

    /** The playlist is rebuilt, the song at position 0 becomes current and its art is asked for; the
        position clock is left as it is. */
    method HandleQueueEvent(songs: seq<Song>)
      requires Valid()
      modifies this, artReader
      ensures Valid() && playlist == Playlist(songs) && player == Rebuilt(songs)
      ensures artReader.art == map[]
      ensures artReader.artState == ArtAfter(old(artReader.artState), Happened(QueueEvent(songs)))
    {
      playlist := [];
      artReader.Clear();
      player := INITIAL;
      for i := 0 to |songs|
        invariant playlist == Playlist(songs[..i]) && player == Rebuilt(songs[..i])
        invariant artReader.art == map[]
        invariant artReader.artState == if HasArtFile(songs[..i]) then map[0 := ArtEntry(true, false)] else map[]
      {
        var s := songs[i];
        assert songs[..i + 1][..i] == songs[..i];
        assert forall k | 0 <= k < i :: songs[..i][k] == songs[..i + 1][k];
        assert s.pos == Some(0) && s.file != "" ==> HasArtFile(songs[..i + 1]) by { assert songs[..i + 1][i] == s; }
        if s.pos.None? {
          continue;
        }
        var entry := QueueEntry(s);
        if entry.position == 0 {
          player := UpdateCurrent(player, entry);
          if s.file != "" {
            var started := artReader.Begin(0);
          }
        }
        playlist := playlist + [entry];
      }
      assert songs[..|songs|] == songs;
      CurrentIsListed(songs);
    }

    /** The part of the handler that follows the server's status. */
    method FollowStatus(status: Status)
      requires Valid()
      modifies this`player, notifier
      ensures notifier.Valid() && notifier.View() == ClockAfter(old(notifier.View()), None, status)
      ensures player == AfterPlayerEvent(old(player), None, status)
    {
      if status.elapsed.Some? {
        notifier.SetPosition(Truncate(status.elapsed.value * 1000.0));
      }
      if status.state.Some? {
        match status.state.value {
          case Play => notifier.Play();
          case _ => notifier.Pause();
        }
        player := player.(playState := Mirrored(status.state.value));
      }
    }

    /** The part of the handler that asks for the art of a playing song. */
    method AskForArt(position: int, file: string)
      modifies artReader
      ensures var wanted := WantsArt(old(artReader.artState), position);
              && artReader.artState == (if !wanted then old(artReader.artState)
                                        else old(artReader.artState)[position := ArtEntry(file != "", file == "")])
              && artReader.art == (if wanted && file == "" then old(artReader.art)[position := []]
                                   else old(artReader.art))
    {
      if WantsArt(artReader.artState, position) {
        if file != "" {
          var started := artReader.Begin(position);
        } else {
          artReader.artState := artReader.artState[position := ArtEntry(false, true)];
          artReader.art := artReader.art[position := []];
        }
      }
    }

    /** A song without a usable position leaves everything alone, as does one with an empty tag. Else
        song, play state and clock follow the server, and art is asked for when it is wanted. */
    method HandlePlayerEvent(song: Option<Song>, status: Status) returns (r: Outcome)
      requires Valid()
      modifies this`player, notifier, artReader
      ensures Valid() && r == SongOutcome(song)
      ensures player == AfterPlayerEvent(old(player), song, status)
      ensures notifier.View() == ClockAfter(old(notifier.View()), song, status)
      ensures r == Handled && status.state.Some? ==> (notifier.View().ticking <==> player.playState == Playing)
      ensures var position, file := SongPosition(song), if song.Some? then song.value.file else "";
              var wanted := r == Handled && status.state == Some(MpdState.Play)
                            && WantsArt(old(artReader.artState), position);
              && artReader.artState == ArtAfter(old(artReader.artState), Happened(PlayerEvent(song, status)))
              && artReader.art == (if wanted && file == "" then old(artReader.art)[position := []]
                                   else old(artReader.art))
    {
      var songFile, songPosition := "", -1;
      if song.Some? {
        if song.value.pos.Some? {
          songPosition := song.value.pos.value;
        }
        if songPosition < 0 {
          return Ignored;
        }
        var entry := PlayerEntry(song.value);
        if entry.None? {
          return Threw;
        }
        songFile := song.value.file;
        player := UpdateCurrent(player, entry.value);
      }
      FollowStatus(status);
      r := Handled;
      if status.state == Some(MpdState.Play) {
        AskForArt(songPosition, songFile);
      }
    }
  }

  // ---------- Runs of events ----------

  function PlayerAfter(p: MediaPlayerState, events: seq<Event>): MediaPlayerState {
    if events == [] then p
    else
      var q := PlayerAfter(p, events[..|events| - 1]);
      match events[|events| - 1]
      case QueueEvent(songs) => Rebuilt(songs)
      case PlayerEvent(song, status) => AfterPlayerEvent(q, song, status)
  }

  function ClockRun(c: Clock, events: seq<Event>): Clock {
    if events == [] then c
    else
      var d := ClockRun(c, events[..|events| - 1]);
      match events[|events| - 1]
      case QueueEvent(songs) => d
      case PlayerEvent(song, status) => ClockAfter(d, song, status)
  }

  /** Over every run of queue and player events, whatever the server sends. */
  lemma {:induction false} SongAndPositionConsistent(events: seq<Event>)
    ensures Consistent(PlayerAfter(INITIAL, events)) && PlayerAfter(INITIAL, events).playlistPosition >= -1
    decreases events
  {
    if events != [] {
      SongAndPositionConsistent(events[..|events| - 1]);
      var e := events[|events| - 1];
      if e.QueueEvent? { CurrentIsListed(e.songs); }
    }
  }

  // ---------- What is shown ----------

  /** A song that a player event can show: it has a position, and no tag is without a value. */
  predicate Showable(s: Song) {
    && s.pos.Some? && s.pos.value >= 0
    && s.title != Some([]) && s.album != Some([]) && s.artist != Some([])
  }

  /** The handler acts on the event at all. */
  predicate Accepted(e: Event) { e.PlayerEvent? && (e.song.Some? ==> Showable(e.song.value)) }

  /** The event decides what the current song is. */
  predicate Names(e: Event) { e.QueueEvent? || (e.song.Some? && Showable(e.song.value)) }

  /** i is the last song at position 0. */
  ghost predicate LastAtZero(songs: seq<Song>, i: nat) {
    i < |songs| && songs[i].pos == Some(0) && forall j :: i < j < |songs| ==> songs[j].pos != Some(0)
  }

  /** What the event says the current song is: that of a player event; the song of a queue event at
      position 0, or none. */
  ghost predicate NamedBy(e: Event, song: Option<PlaylistEntry>)
    requires Names(e)
  {
    match e
    case PlayerEvent(sg, _) => song.Some? && ShowsFirst(song.value, sg.value)
    case QueueEvent(songs) =>
      if song.None? then forall i :: 0 <= i < |songs| ==> songs[i].pos != Some(0)
      else exists i: nat :: LastAtZero(songs, i) && ShowsJoined(song.value, songs[i])
  }

  lemma LastAtZeroSnoc(front: seq<Song>, s: Song, i: nat)
    requires s.pos != Some(0) && LastAtZero(front, i)
    ensures LastAtZero(front + [s], i) && (front + [s])[i] == front[i]
  {
  }

  lemma {:induction false} FirstIsLast(songs: seq<Song>)
    ensures NamedBy(QueueEvent(songs), First(songs))
    decreases songs
  {
    if songs != [] {
      var n := |songs| - 1;
      var front := songs[..n];
      FirstIsLast(front);
      assert front + [songs[n]] == songs;
      if songs[n].pos == Some(0) {
        assert LastAtZero(songs, n) && ShowsJoined(First(songs).value, songs[n]);
      } else if First(front).Some? {
        var i: nat :| LastAtZero(front, i) && ShowsJoined(First(front).value, front[i]);
        LastAtZeroSnoc(front, songs[n], i);
        assert LastAtZero(songs, i) && ShowsJoined(First(songs).value, songs[i]);
      } else {
        assert forall j | 0 <= j < n :: songs[j] == front[j];
      }
    }
  }

  /** k is the last event that names a song. */
  ghost predicate LastName(events: seq<Event>, k: nat) {
    k < |events| && Names(events[k]) && forall j :: k < j < |events| ==> !Names(events[j])
  }

  lemma NameStep(p: MediaPlayerState, e: Event)
    ensures var q := match e
                     case QueueEvent(songs) => Rebuilt(songs)
                     case PlayerEvent(song, status) => AfterPlayerEvent(p, song, status);
            if Names(e) then NamedBy(e, q.song) else q.song == p.song
  {
    if e.QueueEvent? { FirstIsLast(e.songs); }
  }

  /** The current song is the one that the last event naming a song named; none before any. */
  lemma {:induction false} SongFollowsEvents(events: seq<Event>)
    ensures var song := PlayerAfter(INITIAL, events).song;
            || (song.None? && forall k :: 0 <= k < |events| ==> !Names(events[k]))
            || exists k: nat :: LastName(events, k) && NamedBy(events[k], song)
    decreases events
  {
    if events != [] {
      var n := |events| - 1;
      var front := events[..n];
      SongFollowsEvents(front);
      NameStep(PlayerAfter(INITIAL, front), events[n]);
      if Names(events[n]) {
        assert LastName(events, n);
      } else if k: nat :| LastName(front, k) && NamedBy(front[k], PlayerAfter(INITIAL, front).song) {
        assert LastName(events, k) && events[k] == front[k];
      } else {
        assert forall j | 0 <= j < n :: events[j] == front[j];
      }
    }
  }

  predicate Timed(e: Event) { Accepted(e) && e.status.elapsed.Some? }

  ghost predicate LastTimed(events: seq<Event>, k: nat) {
    k < |events| && Timed(events[k]) && forall j :: k < j < |events| ==> !Timed(events[j])
  }

  /** ms are the whole milliseconds of that many seconds, without the fraction. */
  predicate Milliseconds(ms: int, seconds: real) {
    if seconds >= 0.0 then ms as real <= seconds * 1000.0 < (ms + 1) as real
    else (ms - 1) as real < seconds * 1000.0 <= ms as real
  }

  lemma TruncateIsMilliseconds(seconds: real)
    ensures Milliseconds(Truncate(seconds * 1000.0), seconds)
  {
  }

  /** Between ticks the position is the elapsed time reported last, in milliseconds. */
  lemma {:induction false} PositionFollowsReports(events: seq<Event>)
    ensures var ms := ClockRun(Clock(0, false), events).position;
            || (ms == 0 && forall k :: 0 <= k < |events| ==> !Timed(events[k]))
            || exists k: nat :: LastTimed(events, k) && Milliseconds(ms, events[k].status.elapsed.value)
    decreases events
  {
    if events != [] {
      var n := |events| - 1;
      var front := events[..n];
      PositionFollowsReports(front);
      var ms := ClockRun(Clock(0, false), front).position;
      if Timed(events[n]) {
        TruncateIsMilliseconds(events[n].status.elapsed.value);
        assert LastTimed(events, n);
      } else if k: nat :| LastTimed(front, k) && Milliseconds(ms, front[k].status.elapsed.value) {
        assert LastTimed(events, k) && events[k] == front[k];
      } else {
        assert forall j | 0 <= j < n :: events[j] == front[j];
      }
    }
  }

  // ---------- Art is asked for once ----------

  ghost function ArtRun(events: seq<ArtEvent>): map<int, ArtEntry> {
    if events == [] then map[] else ArtAfter(ArtRun(events[..|events| - 1]), events[|events| - 1])
  }

  /** The event wants the art of position p: a queue with a file there, or a song that is playing. */
  ghost predicate WantedBy(e: ArtEvent, p: int) {
    e.Happened? &&
    match e.e
    case QueueEvent(songs) => p == 0 && exists i :: 0 <= i < |songs| && songs[i].pos == Some(0) && songs[i].file != ""
    case PlayerEvent(song, status) =>
      && Accepted(e.e) && status.state == Some(MpdState.Play)
      && p == if song.Some? then song.value.pos.value else -1
  }

  /** The art of p was wanted since the queue changed last. */
  ghost predicate WantedSince(events: seq<ArtEvent>, p: int) {
    exists k :: 0 <= k < |events| && WantedBy(events[k], p)
                && forall j :: k < j < |events| ==> !(events[j].Happened? && events[j].e.QueueEvent?)
  }

  lemma WantedSnoc(events: seq<ArtEvent>, e: ArtEvent, p: int)
    ensures WantedSince(events + [e], p) <==>
            WantedBy(e, p) || (!(e.Happened? && e.e.QueueEvent?) && WantedSince(events, p))
  {
    var all, n := events + [e], |events|;
    assert all[n] == e;
    if WantedSince(events, p) && !(e.Happened? && e.e.QueueEvent?) {
      var k :| 0 <= k < n && WantedBy(events[k], p)
               && forall j :: k < j < n ==> !(events[j].Happened? && events[j].e.QueueEvent?);
      assert WantedBy(all[k], p);
    }
    if WantedSince(all, p) && !WantedBy(e, p) {
      var k :| 0 <= k < |all| && WantedBy(all[k], p)
               && forall j :: k < j < |all| ==> !(all[j].Happened? && all[j].e.QueueEvent?);
      assert k < n && events[k] == all[k];
      assert forall j | k < j < n :: events[j] == all[j];
      assert !(all[n].Happened? && all[n].e.QueueEvent?);
    }
  }

  /** A position has an entry, read or being read, exactly when its art was wanted since the queue
      changed last, however the reads end. */
  lemma {:induction false} ArtKnownIff(events: seq<ArtEvent>, p: int)
    ensures p in ArtRun(events) <==> WantedSince(events, p)
    ensures p in ArtRun(events) ==> ArtRun(events)[p].reading || ArtRun(events)[p].read
    decreases events
  {
    if events != [] {
      var front, e := events[..|events| - 1], events[|events| - 1];
      ArtKnownIff(front, p);
      WantedSnoc(front, e, p);
      assert front + [e] == events;
    }
  }

  /** So the art of a playing song is asked for exactly when it was not since the queue changed; a song
      without a file gets empty art at once. */
  lemma ArtAskedOnce(events: seq<ArtEvent>, song: Option<Song>, status: Status)
    ensures var e := Happened(PlayerEvent(song, status));
            var p := SongPosition(song);
            var file := if song.Some? then song.value.file else "";
            ArtRun(events + [e]) ==
            if WantedBy(e, p) && !WantedSince(events, p)
            then ArtRun(events)[p := ArtEntry(file != "", file == "")] else ArtRun(events)
  {
    var e := Happened(PlayerEvent(song, status));
    ArtKnownIff(events, SongPosition(song));
    assert (events + [e])[..|events|] == events;
  }

  /** The player event reported a state. */
  predicate Stateful(e: Event) { e.PlayerEvent? && SongOutcome(e.song) == Handled && e.status.state.Some? }

  /** The state reported last, over queue events. */
  function LastState(events: seq<Event>): MpdState {
    if events == [] then Stop
    else if Stateful(events[|events| - 1]) then events[|events| - 1].status.state.value
    else LastState(events[..|events| - 1])
  }

  /** A queue event came after the last report of a state. */
  predicate QueuedSince(events: seq<Event>) {
    events != [] && !Stateful(events[|events| - 1])
    && (events[|events| - 1].QueueEvent? || QueuedSince(events[..|events| - 1]))
  }

  /** A queue event resets the play state but not the timer: over every run the timer is live exactly
      when the last reported state is play, so it agrees with the play state unless the queue changed
      since a reported play. */
  lemma {:induction false} TimerFollowsReports(events: seq<Event>)
    ensures var p, c := PlayerAfter(INITIAL, events), ClockRun(Clock(0, false), events);
            && (c.ticking <==> LastState(events) == MpdState.Play)
            && (p.playState == Playing <==> !QueuedSince(events) && LastState(events) == MpdState.Play)
            && (p.playState == Paused <==> !QueuedSince(events) && LastState(events) == MpdState.Pause)
            && ((c.ticking <==> p.playState == Playing) <==>
                !(QueuedSince(events) && LastState(events) == MpdState.Play))
    decreases events
  {
    if events != [] {
      TimerFollowsReports(events[..|events| - 1]);
    }
  }
}
