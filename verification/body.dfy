/** Bodies: a source streamed as chunk frames and ended by an eof chunk. */
module Body {
  import opened Lists
  import opened Entries
  import opened Transport
  import opened Wire

  datatype Frame = Chunk(data: Bytes, eof: bool) | Other

  const EOF_CHUNK: Frame := Chunk([], true)

  datatype SourceStatus = More | AtEnd | Broken

  /** One read of the source: the bytes it gave and the state it reported with them. */
  datatype SourceRead = SourceRead(data: Bytes, status: SourceStatus)

  datatype WriteOutcome = Written | SourceTooLarge | SourceFailed

  datatype ReadOutcome = Complete | BodyTooLarge | NotAChunk | StreamEnded

  /** The bytes a source gives before it ends or breaks; a source that stops answering has ended. */
  function Content(src: seq<SourceRead>): Bytes {
    if src == [] then []
    else src[0].data + if src[0].status.More? then Content(src[1..]) else []
  }

  predicate Breaks(src: seq<SourceRead>) {
    src != [] && (src[0].status.Broken? || (src[0].status.More? && Breaks(src[1..])))
  }

  /** A piece of content as chunk frames: one, or none if it is empty. */
  function Head(data: Bytes): (r: seq<Frame>)
    ensures DataOf(r) == data && forall f | f in r :: IsData(f)
  {
    if data == [] then []
    else
      assert [Chunk(data, false)][1..] == [];
      [Chunk(data, false)]
  }

  /** The frames a body is written as, `written` bytes of it having gone already. */
  function Sent(src: seq<SourceRead>, limit: int, written: nat): (seq<Frame>, WriteOutcome) {
    if src == [] then ([EOF_CHUNK], Written)
    else
      var r := src[0];
      if r.data != [] && limit >= 0 && written + |r.data| > limit then ([], SourceTooLarge)
      else
        var head := Head(r.data);
        match r.status
        case AtEnd => (head + [EOF_CHUNK], Written)
        case Broken => (head, SourceFailed)
        case More => var (frames, outcome) := Sent(src[1..], limit, written + |r.data|); (head + frames, outcome)
  }

  /** What a receiver takes from a stream of frames: the bytes, how it ended, and the frames left. */
  function Received(frames: seq<Frame>, limit: int, read: nat): (Bytes, ReadOutcome, seq<Frame>) {
    if frames == [] then ([], StreamEnded, [])
    else if frames[0].Other? then ([], NotAChunk, frames[1..])
    else if frames[0].eof then ([], Complete, frames[1..])
    else
      var data := frames[0].data;
      if limit >= 0 && read + |data| > limit then ([], BodyTooLarge, frames[1..])
      else
        var (bytes, outcome, rest) := Received(frames[1..], limit, read + |data|);
        (data + bytes, outcome, rest)
  }

  /** One turn of the writing loop, against what all of it comes to. */
  lemma SentStep(src: seq<SourceRead>, i: nat, limit: int, written: nat, frames: seq<Frame>, total: (seq<Frame>, WriteOutcome))
    requires i < |src| && total == (frames + Sent(src[i..], limit, written).0, Sent(src[i..], limit, written).1)
    ensures var r, rest := src[i], Sent(src[i + 1..], limit, written + |src[i].data|);
            total ==
            if r.data != [] && limit >= 0 && written + |r.data| > limit then (frames, SourceTooLarge)
            else match r.status
                 case AtEnd => (frames + Head(r.data) + [EOF_CHUNK], Written)
                 case Broken => (frames + Head(r.data), SourceFailed)
                 case More => (frames + Head(r.data) + rest.0, rest.1)
  {
    assert src[i..][0] == src[i] && src[i..][1..] == src[i + 1..];
    assert frames + [] == frames;
    AppendAssoc(frames, Head(src[i].data), [EOF_CHUNK]);
    AppendAssoc(frames, Head(src[i].data), Sent(src[i + 1..], limit, written + |src[i].data|).0);
  }

  method WriteBody(src: seq<SourceRead>, limit: int) returns (frames: seq<Frame>, outcome: WriteOutcome)
    ensures frames == Sent(src, limit, 0).0 && outcome == Sent(src, limit, 0).1
  {
    frames := [];
    var written: nat := 0;
    ghost var total := Sent(src, limit, 0);
    assert src[0..] == src && [] + total.0 == total.0;
    for i := 0 to |src|
      invariant total == (frames + Sent(src[i..], limit, written).0, Sent(src[i..], limit, written).1)
    {
      SentStep(src, i, limit, written, frames, total);
      var r := src[i];
      if r.data != [] {
        if limit >= 0 && written + |r.data| > limit { return frames, SourceTooLarge; }
        written := written + |r.data|;
      }
      frames := frames + Head(r.data);
      if r.status.AtEnd? { return frames + [EOF_CHUNK], Written; }
      if r.status.Broken? { return frames, SourceFailed; }
    }
    frames, outcome := frames + [EOF_CHUNK], Written;
  }

  method ReadBody(frames: seq<Frame>, limit: int) returns (bytes: Bytes, outcome: ReadOutcome, rest: seq<Frame>)
    ensures bytes == Received(frames, limit, 0).0 && outcome == Received(frames, limit, 0).1 && rest == Received(frames, limit, 0).2
  {
    bytes := [];
    var read: nat := 0;
    assert frames[0..] == frames;
    for i := 0 to |frames|
      invariant Received(frames, limit, 0).0 == bytes + Received(frames[i..], limit, read).0
      invariant Received(frames, limit, 0).1 == Received(frames[i..], limit, read).1
      invariant Received(frames, limit, 0).2 == Received(frames[i..], limit, read).2
    {
      assert frames[i..][0] == frames[i] && frames[i..][1..] == frames[i + 1..];
      var f := frames[i];
      if f.Other? { return bytes, NotAChunk, frames[i + 1..]; }
      if f.eof { return bytes, Complete, frames[i + 1..]; }
      read := read + |f.data|;
      if limit >= 0 && read > limit { return bytes, BodyTooLarge, frames[i + 1..]; }
      bytes := bytes + f.data;
    }
    outcome, rest := StreamEnded, [];
  }

  /** The content of a run of chunks. */
  function DataOf(frames: seq<Frame>): Bytes {
    if frames == [] then [] else (if frames[0].Chunk? then frames[0].data else []) + DataOf(frames[1..])
  }

  lemma {:induction false} DataOfConcat(a: seq<Frame>, b: seq<Frame>)
    ensures DataOf(a + b) == DataOf(a) + DataOf(b)
  {
    if a == [] {
      assert a + b == b;
    } else {
      assert (a + b)[1..] == a[1..] + b;
      DataOfConcat(a[1..], b);
    }
  }

  predicate IsData(f: Frame) {
    f.Chunk? && !f.eof
  }

  /** Writing succeeds exactly when the source ends, and within the limit. */
  lemma {:induction false} SentOutcome(src: seq<SourceRead>, limit: int, written: nat)
    requires limit >= 0 ==> written <= limit
    ensures Sent(src, limit, written).1.Written? <==> !Breaks(src) && (limit < 0 || written + |Content(src)| <= limit)
  {
    if src != [] {
      var r := src[0];
      if (r.data == [] || limit < 0 || written + |r.data| <= limit) && r.status.More? {
        SentOutcome(src[1..], limit, written + |r.data|);
      }
    }
  }

  lemma {:induction false} SentData(src: seq<SourceRead>, limit: int, written: nat)
    requires limit >= 0 ==> written <= limit
    ensures var (frames, outcome) := Sent(src, limit, written);
            && DataOf(frames) <= Content(src)
            && (outcome.Written? ==> DataOf(frames) == Content(src))
            && (limit >= 0 ==> written + |DataOf(frames)| <= limit)
  {
    DataOfEof();
    if src != [] {
      var r := src[0];
      if r.data == [] || limit < 0 || written + |r.data| <= limit {
        DataOfConcat(Head(r.data), [EOF_CHUNK]);
        if r.status.More? {
          SentData(src[1..], limit, written + |r.data|);
          DataOfConcat(Head(r.data), Sent(src[1..], limit, written + |r.data|).0);
        }
      }
    }
  }

  lemma DataOfEof()
    ensures DataOf([EOF_CHUNK]) == []
  {}

  /** Data chunks only, and one eof chunk at the end exactly when writing succeeded. */
  ghost predicate WellShaped(frames: seq<Frame>, outcome: WriteOutcome) {
    if outcome.Written? then
      frames != [] && frames[|frames| - 1] == EOF_CHUNK && forall f | f in frames[..|frames| - 1] :: IsData(f)
    else forall f | f in frames :: IsData(f)
  }

  lemma ShapeGrows(head: seq<Frame>, frames: seq<Frame>, outcome: WriteOutcome)
    requires WellShaped(frames, outcome) && forall f | f in head :: IsData(f)
    ensures WellShaped(head + frames, outcome)
  {
    if outcome.Written? {
      assert (head + frames)[..|head + frames| - 1] == head + frames[..|frames| - 1];
    }
  }

  lemma {:induction false} SentShape(src: seq<SourceRead>, limit: int, written: nat)
    ensures WellShaped(Sent(src, limit, written).0, Sent(src, limit, written).1)
  {
    if src != [] {
      var r := src[0];
      if r.data == [] || limit < 0 || written + |r.data| <= limit {
        if r.status.AtEnd? {
          ShapeGrows(Head(r.data), [EOF_CHUNK], Written);
        } else if r.status.More? {
          SentShape(src[1..], limit, written + |r.data|);
          ShapeGrows(Head(r.data), Sent(src[1..], limit, written + |r.data|).0, Sent(src[1..], limit, written + |r.data|).1);
        }
      }
    }
  }

  /**
   * Writing succeeds exactly when the source ends within the limit; then the frames are data chunks carrying
   * exactly the content, and one eof chunk. Otherwise no eof chunk is sent, and never more than the limit.
   */
  lemma SentExactly(src: seq<SourceRead>, limit: int)
    ensures var (frames, outcome) := Sent(src, limit, 0);
            && (outcome.Written? <==> !Breaks(src) && (limit < 0 || |Content(src)| <= limit))
            && WellShaped(frames, outcome) && DataOf(frames) <= Content(src)
            && (outcome.Written? ==> DataOf(frames) == Content(src))
            && (limit >= 0 ==> |DataOf(frames)| <= limit)
  {
    SentOutcome(src, limit, 0);
    SentData(src, limit, 0);
    SentShape(src, limit, 0);
  }

  /** A receiver never passes on more than its limit, whatever the other end sends. */
  lemma {:induction false} ReceivedBounded(frames: seq<Frame>, limit: int, read: nat)
    requires limit >= 0 && read <= limit
    ensures read + |Received(frames, limit, read).0| <= limit
  {
    if frames != [] && IsData(frames[0]) && read + |frames[0].data| <= limit {
      ReceivedBounded(frames[1..], limit, read + |frames[0].data|);
    }
  }

  /** Data chunks and an eof chunk are received whole exactly when they are within the limit. */
  lemma {:induction false} ReceivedExactly(chunks: seq<Frame>, rest: seq<Frame>, limit: int, read: nat)
    requires forall f | f in chunks :: IsData(f)
    ensures var r := Received(chunks + [EOF_CHUNK] + rest, limit, read);
            && (r.1.Complete? <==> chunks == [] || limit < 0 || forall k | 0 < k <= |chunks| :: read + |DataOf(chunks[..k])| <= limit)
            && (r.1.Complete? ==> r.0 == DataOf(chunks) && r.2 == rest)
            && (!r.1.Complete? ==> r.1.BodyTooLarge?)
  {
    var all := chunks + [EOF_CHUNK] + rest;
    if chunks == [] {
      assert all[0] == EOF_CHUNK && all[1..] == rest;
    } else {
      assert chunks[0] in chunks;
      var d := chunks[0].data;
      assert all[0] == chunks[0] && all[1..] == chunks[1..] + [EOF_CHUNK] + rest;
      forall k | 0 < k <= |chunks| ensures DataOf(chunks[..k]) == d + DataOf(chunks[1..][..k - 1]) {
        assert chunks[..k][1..] == chunks[1..][..k - 1];
      }
      ReceivedExactly(chunks[1..], rest, limit, read + |d|);
      assert DataOf(chunks[..1]) == d;
      if limit >= 0 && read + |d| <= limit {
        forall k | 0 < k <= |chunks[1..]|
          ensures read + |d| + |DataOf(chunks[1..][..k])| == read + |DataOf(chunks[..k + 1])|
        {
        }
      }
    }
  }

  lemma {:induction false} DataGrows(chunks: seq<Frame>, k: nat)
    requires k <= |chunks|
    ensures |DataOf(chunks[..k])| <= |DataOf(chunks)|
  {
    assert chunks == chunks[..k] + chunks[k..];
    DataOfConcat(chunks[..k], chunks[k..]);
  }

  /** So a body is received whole exactly when all of it is within the limit. */
  lemma ReceivedWhole(chunks: seq<Frame>, rest: seq<Frame>, limit: int)
    requires forall f | f in chunks :: IsData(f)
    ensures var r := Received(chunks + [EOF_CHUNK] + rest, limit, 0);
            if limit < 0 || |DataOf(chunks)| <= limit then r == (DataOf(chunks), Complete, rest)
            else r.1.BodyTooLarge? && |r.0| <= limit
  {
    ReceivedExactly(chunks, rest, limit, 0);
    if limit >= 0 { ReceivedBounded(chunks + [EOF_CHUNK] + rest, limit, 0); }
    forall k | 0 < k <= |chunks| ensures |DataOf(chunks[..k])| <= |DataOf(chunks)| { DataGrows(chunks, k); }
    assert chunks[..|chunks|] == chunks;
  }

  lemma EofSplits(frames: seq<Frame>, rest: seq<Frame>) returns (chunks: seq<Frame>)
    requires WellShaped(frames, Written)
    ensures frames + rest == chunks + [EOF_CHUNK] + rest && DataOf(chunks) == DataOf(frames) && forall f | f in chunks :: IsData(f)
  {
    chunks := frames[..|frames| - 1];
    assert frames == chunks + [EOF_CHUNK];
    DataOfConcat(chunks, [EOF_CHUNK]);
    DataOfEof();
    assert DataOf(chunks) + [] == DataOf(chunks);
  }

  /**
   * The body round trip: written within its limit and read within its own, a body arrives whole, and what
   * follows the eof chunk is left for the next reader.
   */
  lemma BodyRoundTrip(src: seq<SourceRead>, writeLimit: int, readLimit: int, rest: seq<Frame>)
    requires Sent(src, writeLimit, 0).1.Written?
    ensures var r := Received(Sent(src, writeLimit, 0).0 + rest, readLimit, 0);
            if readLimit < 0 || |Content(src)| <= readLimit then r == (Content(src), Complete, rest)
            else r.1.BodyTooLarge? && |r.0| <= readLimit
  {
    SentExactly(src, writeLimit);
    var chunks := EofSplits(Sent(src, writeLimit, 0).0, rest);
    ReceivedWhole(chunks, rest, readLimit);
  }

  // ---- a body on the wire --------------------------------------------------------------------------------------

  /** How reading a body off a stream ends: as its frames have it, or where a frame cannot be read. */
  datatype BodyEnd = Done(outcome: ReadOutcome) | NoFrame(why: FrameError)

  /** What one frame read off the stream ends the body with, if it does, `read` bytes of it having come already. */
  function Closing(parsed: Parsed<Frame>, limit: int, read: nat): Option<BodyEnd> {
    if parsed.Unread? then Some(NoFrame(parsed.why))
    else if parsed.frame.Other? then Some(Done(NotAChunk))
    else if parsed.frame.eof then Some(Done(Complete))
    else if limit >= 0 && read + |parsed.frame.data| > limit then Some(Done(BodyTooLarge))
    else None
  }

  /** Reading a body frame by frame off a stream of bytes, `got` having come already. */
  function StreamRead(codec: Codec<Frame>, s: Bytes, ending: ReadError, limit: int, got: Bytes): (Bytes, BodyEnd, Bytes)
    decreases |s|
  {
    var (parsed, rest) := Parse(codec, s, ending);
    var over := Closing(parsed, limit, |got|);
    if over.Some? then (got, over.value, rest) else StreamRead(codec, rest, ending, limit, got + parsed.frame.data)
  }

  /** Reads one body through the buffered reader and the transport under it. */
  method ReadBodyFrom(codec: Codec<Frame>, reader: FrameReader, limit: int) returns (bytes: Bytes, end: BodyEnd)
    requires reader.size > 0
    modifies reader, reader.conn
    ensures (bytes, end, reader.Rest()) == StreamRead(codec, old(reader.Rest()), old(reader.conn.Ending()), limit, [])
    ensures reader.conn.AllDiagnostics() == old(reader.conn.AllDiagnostics()) && reader.conn.Ending() == old(reader.conn.Ending())
  {
    bytes := [];
    ghost var ending := reader.conn.Ending();
    while true
      invariant StreamRead(codec, reader.Rest(), ending, limit, bytes) == StreamRead(codec, old(reader.Rest()), ending, limit, [])
      invariant reader.conn.AllDiagnostics() == old(reader.conn.AllDiagnostics()) && reader.conn.Ending() == ending
      decreases |reader.Rest()|
    {
      ParseShrinks(codec, reader.Rest(), ending);
      var parsed := reader.ReadFrame(codec);
      var over := Closing(parsed, limit, |bytes|);
      if over.Some? { return bytes, over.value; }
      bytes := bytes + parsed.frame.data;
    }
  }

  lemma ParseShrinks(codec: Codec<Frame>, s: Bytes, ending: ReadError)
    ensures Parse(codec, s, ending).0.Frame? ==> |Parse(codec, s, ending).1| < |s|
  {}

  lemma {:induction false} LeftAreSome(frames: seq<Frame>, limit: int, read: nat)
    ensures forall f | f in Received(frames, limit, read).2 :: f in frames
  {
    if frames != [] && IsData(frames[0]) { LeftAreSome(frames[1..], limit, read + |frames[0].data|); }
  }

  /** One frame of a body, read off the stream. */
  lemma StreamReadOne(codec: Codec<Frame>, frames: seq<Frame>, tail: Bytes, ending: ReadError, limit: int, got: Bytes)
    requires Lawful(codec) && frames != [] && forall f | f in frames :: Fits(codec, f)
    ensures var over, rest := Closing(Parsed.Frame(frames[0]), limit, |got|), StreamOf(codec, frames[1..]) + tail;
            StreamRead(codec, StreamOf(codec, frames) + tail, ending, limit, got) ==
            if over.Some? then (got, over.value, rest) else StreamRead(codec, rest, ending, limit, got + frames[0].data)
  {
    FirstFrame(codec, frames, tail, ending);
  }

  /** And the same frame, received. */
  lemma ReceivedOne(frames: seq<Frame>, limit: int, read: nat)
    requires frames != []
    ensures var over := Closing(Parsed.Frame(frames[0]), limit, read);
            if over.Some? then over.value.Done? && Received(frames, limit, read) == ([], over.value.outcome, frames[1..])
            else
              var d, r := frames[0].data, Received(frames[1..], limit, read + |frames[0].data|);
              IsData(frames[0]) && Received(frames, limit, read) == (d + r.0, r.1, r.2)
  {}

  /** Reading a body off the bytes of its frames is receiving the frames, as long as they end it. */
  lemma {:induction false} StreamReads(codec: Codec<Frame>, frames: seq<Frame>, tail: Bytes, ending: ReadError, limit: int, got: Bytes)
    requires Lawful(codec) && (forall f | f in frames :: Fits(codec, f)) && !Received(frames, limit, |got|).1.StreamEnded?
    ensures forall f | f in Received(frames, limit, |got|).2 :: Fits(codec, f)
    ensures var r := Received(frames, limit, |got|);
            StreamRead(codec, StreamOf(codec, frames) + tail, ending, limit, got) == (got + r.0, Done(r.1), StreamOf(codec, r.2) + tail)
    decreases |frames|
  {
    LeftAreSome(frames, limit, |got|);
    StreamReadOne(codec, frames, tail, ending, limit, got);
    ReceivedOne(frames, limit, |got|);
    if Closing(Parsed.Frame(frames[0]), limit, |got|).None? {
      StreamReads(codec, frames[1..], tail, ending, limit, got + frames[0].data);
      AppendAssoc(got, frames[0].data, Received(frames[1..], limit, |got| + |frames[0].data|).0);
    } else {
      assert got + [] == got;
    }
  }

  /**
   * One end reading the body the other wrote, over the tagged channel: whatever messages its bytes were split into,
   * whatever diagnostics came between and however the reads fell, a body written within its limit and read within its
   * own arrives whole, what follows it is left, and no diagnostics are lost; one over the reader's limit is refused with
   * no more than that passed on.
   */
  method Transfer(codec: Codec<Frame>, ghost src: seq<SourceRead>, ghost writeLimit: int, readLimit: int, ghost after: seq<Frame>,
                  reader: FrameReader)
    returns (bytes: Bytes, end: BodyEnd)
    requires Lawful(codec) && reader.size > 0 && Sent(src, writeLimit, 0).1.Written?
    requires (forall f | f in Sent(src, writeLimit, 0).0 :: Fits(codec, f)) && forall f | f in after :: Fits(codec, f)
    requires reader.Rest() == StreamOf(codec, Sent(src, writeLimit, 0).0 + after)
    modifies reader, reader.conn
    ensures if readLimit < 0 || |Content(src)| <= readLimit
            then bytes == Content(src) && end == Done(Complete) && reader.Rest() == StreamOf(codec, after)
            else |bytes| <= readLimit && end == Done(BodyTooLarge)
    ensures reader.conn.AllDiagnostics() == old(reader.conn.AllDiagnostics())
  {
    ghost var frames := Sent(src, writeLimit, 0).0 + after;
    BodyRoundTrip(src, writeLimit, readLimit, after);
    StreamReads(codec, frames, [], reader.conn.Ending(), readLimit, []);
    assert reader.Rest() + [] == reader.Rest();
    assert StreamOf(codec, after) + [] == StreamOf(codec, after) && [] + Content(src) == Content(src);
    assert [] + Received(frames, readLimit, 0).0 == Received(frames, readLimit, 0).0;
    bytes, end := ReadBodyFrom(codec, reader, readLimit);
  }
}
