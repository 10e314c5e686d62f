/**
 Reading the album art of a song from the MPD server in chunks. The server's replies are given as the
 sequence in which they arrive; a missing reply, a missing size and a changing size are all allowed.
 */
module SongArt {
  import opened Words

  /** One readpicture reply: the size of the whole picture, if reported, and a piece of it. */
  datatype Chunk = Chunk(size: Option<nat>, bytes: seq<byte>)

  /** The read is still waiting for replies, or it ended with the art to store. */
  datatype Progress = Reading(offset: nat, size: nat, bytes: seq<byte>) | Ended(art: seq<byte>)

  const START := Reading(0, 0, [])

  /** Art is kept only when exactly the reported size was read. */
  function Conclude(offset: nat, size: nat, bytes: seq<byte>): Progress {
    Ended(if offset == size then bytes else [])
  }

  function Receive(p: Progress, reply: Option<Chunk>): Progress
    requires p.Reading?
  {
    if reply.Some? && reply.value.size == Some(0) then Conclude(p.offset, p.size, p.bytes)
    else
      var size := if reply.Some? && reply.value.size.Some? then reply.value.size.value else p.size;
      if reply.Some? && reply.value.bytes == [] then Conclude(p.offset, size, p.bytes)
      else
        var more := if reply.Some? then reply.value.bytes else [];
        var offset, bytes := p.offset + |more|, p.bytes + more;
        if offset < size then Reading(offset, size, bytes) else Conclude(offset, size, bytes)
  }

  /** The replies in order; those after the end are not asked for. */
  function ReceiveAll(p: Progress, replies: seq<Option<Chunk>>): Progress
    decreases replies
  {
    if p.Ended? || replies == [] then p else ReceiveAll(Receive(p, replies[0]), replies[1..])
  }

  lemma {:induction false} ReceiveMore(p: Progress, front: seq<Option<Chunk>>, back: seq<Option<Chunk>>)
    ensures ReceiveAll(p, front + back) == ReceiveAll(ReceiveAll(p, front), back)
    decreases front
  {
    if front == [] {
      assert front + back == back;
    } else if p.Reading? {
      assert (front + back)[1..] == front[1..] + back;
      ReceiveMore(Receive(p, front[0]), front[1..], back);
    }
  }

  datatype ArtEntry = ArtEntry(reading: bool, read: bool)

  class ArtReader {
    var artState: map<int, ArtEntry>
    var art: map<int, seq<byte>>

    constructor ()
      ensures artState == map[] && art == map[]
    {
      artState, art := map[], map[];
    }

    method Clear()
      modifies this
      ensures artState == map[] && art == map[]
    {
      artState, art := map[], map[];
    }

    /** The part of readSongArt before its first await: refuses when a read of the position runs. */
    method Begin(position: int) returns (started: bool)
      modifies this
      ensures started <==> !(position in old(artState) && old(artState)[position].reading)
      ensures art == old(art)
      ensures artState == if !started then old(artState)
                          else if position in old(artState)
                            then old(artState)[position := old(artState)[position].(reading := true)]
                          else old(artState)[position := ArtEntry(true, false)]
    {
      if position in artState {
        if artState[position].reading {
          return false;
        }
        artState := artState[position := artState[position].(reading := true)];
      } else {
        artState := artState[position := ArtEntry(true, false)];
      }
      return true;
    }

    /** The do-while loop: one reply for each turn. */
    method ReadChunks(replies: seq<Option<Chunk>>) returns (p: Progress)
      ensures p == ReceiveAll(START, replies)
    {
      var offset: nat, size: nat, bytes: seq<byte> := 0, 0, [];
      var i, ended := 0, false;
      while !ended && i < |replies|
        invariant i <= |replies|
        invariant ReceiveAll(START, replies) ==
                  if ended then Conclude(offset, size, bytes)
                  else ReceiveAll(Reading(offset, size, bytes), replies[i..])
        decreases |replies| - i
      {
        assert replies[i..][1..] == replies[i + 1..];
        var chunk := replies[i];
        i := i + 1;
        if chunk.Some? {
          if chunk.value.size == Some(0) {
            ended := true;
            break;
          }
          if chunk.value.size.Some? {
            size := chunk.value.size.value;
          }
          if chunk.value.bytes == [] {
            ended := true;
            break;
          }
          bytes := bytes + chunk.value.bytes;
          offset := offset + |chunk.value.bytes|;
        } else {
          assert bytes + [] == bytes;
        }
        ended := !(offset < size);
      }
      p := if ended then Conclude(offset, size, bytes) else Reading(offset, size, bytes);
    }

    /** The part after the loop; its null check fails when the entry was cleared meanwhile. */
    method Store(position: int, bytes: seq<byte>) returns (threw: bool)
      modifies this
      ensures threw <==> position !in old(artState)
      ensures artState == if threw then old(artState) else old(artState)[position := ArtEntry(false, true)]
      ensures art == if threw then old(art) else old(art)[position := bytes]
    {
      if position !in artState {
        return true;
      }
      artState := artState[position := ArtEntry(false, true)];
      art := art[position := bytes];
      return false;
    }

    /** The whole read, with no queue event in between: nothing happens while another read of the
        position runs; else the art is stored, empty or whole, once the replies end the loop. */
    method ReadSongArt(position: int, replies: seq<Option<Chunk>>)
      modifies this
      ensures if position in old(artState) && old(artState)[position].reading
              then artState == old(artState) && art == old(art)
              else
                match ReceiveAll(START, replies)
                case Reading(_, _, _) => position in artState && artState[position].reading && art == old(art)
                case Ended(a) =>
                  && artState == old(artState)[position := ArtEntry(false, true)]
                  && art == old(art)[position := a] && (a == [] || Whole(replies, a))
    {
      var started := Begin(position);
      if started {
        var p := ReadChunks(replies);
        NeverPartial(replies);
        if p.Ended? {
          var threw := Store(position, p.art);
        }
      }
    }
  }

  // ---------- What the replies amount to ----------

  function BytesOf(replies: seq<Option<Chunk>>): seq<byte> {
    if replies == [] then []
    else
      var r := replies[|replies| - 1];
      BytesOf(replies[..|replies| - 1]) + if r.Some? then r.value.bytes else []
  }

  /** The size reported last; 0 before any report. */
  function LastSize(replies: seq<Option<Chunk>>): nat {
    if replies == [] then 0
    else
      var r := replies[|replies| - 1];
      if r.Some? && r.value.size.Some? then r.value.size.value else LastSize(replies[..|replies| - 1])
  }

  lemma {:induction false} BytesOfAppend(a: seq<Option<Chunk>>, b: seq<Option<Chunk>>)
    ensures BytesOf(a + b) == BytesOf(a) + BytesOf(b)
    decreases b
  {
    if b == [] {
      assert a + b == a;
    } else {
      BytesOfAppend(a, b[..|b| - 1]);
      assert (a + b)[..|a + b| - 1] == a + b[..|b| - 1];
    }
  }

  /** Art is all the bytes of a run of replies, exactly as many as the size reported last. */
  ghost predicate Whole(replies: seq<Option<Chunk>>, art: seq<byte>) {
    exists k :: 0 <= k <= |replies| && art == BytesOf(replies[..k]) && |art| == LastSize(replies[..k])
  }

  /** Where a read stands after the given replies. */
  ghost predicate Accounted(replies: seq<Option<Chunk>>, p: Progress) {
    match p
    case Reading(offset, size, bytes) =>
      && bytes == BytesOf(replies) && offset == |bytes| && size == LastSize(replies)
      && (replies != [] ==> offset < size)
    case Ended(art) => art == [] || Whole(replies, art)
  }

  lemma AccountedStep(front: seq<Option<Chunk>>, p: Progress, r: Option<Chunk>)
    requires p.Reading? && Accounted(front, p)
    ensures Accounted(front + [r], Receive(p, r))
  {
    var replies := front + [r];
    assert replies[..|front|] == front && replies[..|replies|] == replies;
    assert p.bytes + [] == p.bytes;
    var q := Receive(p, r);
    if q.Ended? && q.art != [] {
      assert q.art == BytesOf(replies[..|replies|]) && |q.art| == LastSize(replies[..|replies|]);
    }
  }

  /** Whatever the server replies, the stored art is empty or whole, never a partial picture. */
  lemma {:induction false} NeverPartial(replies: seq<Option<Chunk>>)
    ensures Accounted(replies, ReceiveAll(START, replies))
    decreases replies
  {
    if replies != [] {
      var n := |replies| - 1;
      var front, r := replies[..n], replies[n];
      NeverPartial(front);
      assert front + [r] == replies;
      ReceiveMore(START, front, [r]);
      var p := ReceiveAll(START, front);
      if p.Reading? {
        AccountedStep(front, p, r);
        assert [r][1..] == [];
        assert ReceiveAll(p, [r]) == ReceiveAll(Receive(p, r), []) == Receive(p, r);
      } else if p.art != [] {
        var k :| 0 <= k <= n && p.art == BytesOf(front[..k]) && |p.art| == LastSize(front[..k]);
        assert replies[..k] == front[..k];
      }
    }
  }

  /** A reported size of 0 ends the read without art, whatever was read before. */
  lemma ZeroSizeIsEmpty(front: seq<Option<Chunk>>, bytes: seq<byte>)
    requires ReceiveAll(START, front).Reading?
    ensures ReceiveAll(START, front + [Some(Chunk(Some(0), bytes))]) == Ended([])
  {
    var zero := Some(Chunk(Some(0), bytes));
    NeverPartial(front);
    ReceiveMore(START, front, [zero]);
    var p := ReceiveAll(START, front);
    assert ReceiveAll(p, [zero]) == ReceiveAll(Receive(p, zero), [zero][1..]);
  }

  /** A server that always reports the same non-zero size and sends something, or does not answer. */
  ghost predicate Steady(replies: seq<Option<Chunk>>, size: nat) {
    size > 0 && forall i :: 0 <= i < |replies| ==>
      replies[i].None? || (replies[i].value.size == Some(size) && replies[i].value.bytes != [])
  }

  lemma BytesOfFirst(replies: seq<Option<Chunk>>)
    requires replies != []
    ensures BytesOf(replies) == (if replies[0].Some? then replies[0].value.bytes else []) + BytesOf(replies[1..])
  {
    assert replies == [replies[0]] + replies[1..];
    assert [replies[0]][..0] == [];
    assert BytesOf([replies[0]]) == [] + if replies[0].Some? then replies[0].value.bytes else [];
    BytesOfAppend([replies[0]], replies[1..]);
  }

  /** Past its first chunk a read ends exactly when the picture's bytes have come: each answer shortens
      size - offset. */
  lemma {:induction false} ReadingEndsIff(p: Progress, replies: seq<Option<Chunk>>)
    requires p.Reading? && p.offset < p.size && Steady(replies, p.size)
    ensures ReceiveAll(p, replies).Ended? <==> p.offset + |BytesOf(replies)| >= p.size
    decreases replies
  {
    if replies != [] {
      BytesOfFirst(replies);
      var q := Receive(p, replies[0]);
      if q.Reading? {
        ReadingEndsIff(q, replies[1..]);
      }
    }
  }

  /** With such a server a read ends exactly when its first reply is missing, which leaves no art, or when
      the picture's bytes have come; a server that stops answering after the first chunk stalls it for
      ever. */
  lemma EndsExactlyWhenComplete(replies: seq<Option<Chunk>>, size: nat)
    requires Steady(replies, size)
    ensures ReceiveAll(START, replies).Ended? <==>
            replies != [] && (replies[0].None? || |BytesOf(replies)| >= size)
    ensures replies != [] && replies[0].None? ==> ReceiveAll(START, replies) == Ended([])
  {
    if replies != [] {
      BytesOfFirst(replies);
      var p := Receive(START, replies[0]);
      if p.Reading? {
        ReadingEndsIff(p, replies[1..]);
      }
    }
  }

  function Concat(cuts: seq<seq<byte>>): seq<byte> {
    if cuts == [] then [] else Concat(cuts[..|cuts| - 1]) + cuts[|cuts| - 1]
  }

  /** The replies of a server that answers every request and always reports size n. */
  function Replies(cuts: seq<seq<byte>>, n: nat): (r: seq<Option<Chunk>>)
    ensures |r| == |cuts|
  {
    seq(|cuts|, i requires 0 <= i < |cuts| => Some(Chunk(Some(n), cuts[i])))
  }

  lemma {:induction false} PiecesRead(cuts: seq<seq<byte>>, n: nat)
    requires forall i :: 0 <= i < |cuts| ==> cuts[i] != []
    requires |Concat(cuts)| < n
    ensures cuts != [] ==>
              ReceiveAll(START, Replies(cuts, n)) == Reading(|Concat(cuts)|, n, Concat(cuts))
    decreases cuts
  {
    if cuts != [] {
      var front, last := cuts[..|cuts| - 1], cuts[|cuts| - 1];
      PiecesRead(front, n);
      LastPiece(front, last, n);
      assert front + [last] == cuts;
    }
  }

  lemma LastPiece(front: seq<seq<byte>>, last: seq<byte>, n: nat)
    requires |Concat(front)| < n && last != []
    requires front != [] ==> ReceiveAll(START, Replies(front, n)) == Reading(|Concat(front)|, n, Concat(front))
    ensures var c := Concat(front) + last;
            ReceiveAll(START, Replies(front + [last], n)) ==
            if |c| < n then Reading(|c|, n, c) else Conclude(|c|, n, c)
  {
    var r := Some(Chunk(Some(n), last));
    assert Replies(front + [last], n) == Replies(front, n) + [r];
    ReceiveMore(START, Replies(front, n), [r]);
    var p := ReceiveAll(START, Replies(front, n));
    assert [r][1..] == [];
    assert ReceiveAll(p, [r]) == ReceiveAll(Receive(p, r), []) == Receive(p, r);
  }

  /** Any split of a picture into non-empty pieces is put together again, and the read then ends. */
  lemma PictureIsWhole(picture: seq<byte>, cuts: seq<seq<byte>>)
    requires picture != [] && Concat(cuts) == picture
    requires forall i :: 0 <= i < |cuts| ==> cuts[i] != []
    ensures ReceiveAll(START, Replies(cuts, |picture|)) == Ended(picture)
  {
    var front, last := cuts[..|cuts| - 1], cuts[|cuts| - 1];
    PiecesRead(front, |picture|);
    LastPiece(front, last, |picture|);
    assert front + [last] == cuts;
  }

  /** A server that stops early, with an empty piece, or sends past the size it reports, leaves no art. */
  lemma EarlyStopOrOverrunIsEmpty(cuts: seq<seq<byte>>, last: seq<byte>, n: nat)
    requires forall i :: 0 <= i < |cuts| ==> cuts[i] != []
    requires |Concat(cuts)| < n && (last == [] || |Concat(cuts)| + |last| > n)
    ensures ReceiveAll(START, Replies(cuts + [last], n)) == Ended([])
  {
    PiecesRead(cuts, n);
    if last != [] {
      LastPiece(cuts, last, n);
    } else {
      var r := Some(Chunk(Some(n), last));
      assert Replies(cuts + [last], n) == Replies(cuts, n) + [r];
      ReceiveMore(START, Replies(cuts, n), [r]);
      assert ReceiveAll(ReceiveAll(START, Replies(cuts, n)), [r]) == Receive(ReceiveAll(START, Replies(cuts, n)), r);
    }
  }
}
