/** Length-prefixed frames over a byte stream, and bodies as chunk frames. */
module Wire {
  import opened Lists
  import opened Entries
  import opened Transport

  const MAX_FRAME_SIZE := 0x100_0000

  // ---- frames ----------------------------------------------------------------------------------------

  /** The message encoding: whatever it is, decoding undoes encoding. */
  datatype Codec<!F> = Codec(encode: F -> Bytes, decode: Bytes -> Option<F>)

  ghost predicate Lawful<F(!new)>(codec: Codec<F>) {
    forall f :: codec.decode(codec.encode(f)) == Some(f)
  }

  /** A frame length as four bytes, most significant first. */
  function Header(n: nat): (h: Bytes)
    requires n < 0x1_0000_0000
    ensures |h| == 4
  {
    [(n / 0x100_0000) as byte, (n / 0x1_0000 % 256) as byte, (n / 0x100 % 256) as byte, (n % 256) as byte]
  }

  function Size(h: Bytes): nat
    requires |h| == 4
  {
    h[0] as nat * 0x100_0000 + h[1] as nat * 0x1_0000 + h[2] as nat * 0x100 + h[3] as nat
  }

  lemma HeaderRoundTrip(n: nat)
    requires n < 0x1_0000_0000
    ensures Size(Header(n)) == n
  {
    assert n == n / 0x100 * 0x100 + n % 0x100;
    assert n / 0x100 == n / 0x1_0000 * 0x100 + n / 0x100 % 0x100;
    assert n / 0x1_0000 == n / 0x100_0000 * 0x100 + n / 0x1_0000 % 0x100;
  }

  /** The most significant byte comes first: a length below 256 is the last byte, and 256 times it is one place on. */
  lemma HeaderIsBigEndian(n: nat)
    ensures n < 0x100 ==> Header(n) == [0, 0, 0, n as byte]
    ensures n < 0x100_0000 ==> Header(n * 0x100) == Header(n)[1..] + [0]
  {
    if n < 0x100_0000 {
      assert n * 0x100 / 0x100_0000 == n / 0x1_0000 && n * 0x100 / 0x1_0000 == n / 0x100;
      assert n / 0x1_0000 % 256 == n / 0x1_0000;
    }
  }

  /** The bytes of one frame; None when it is over the limit and nothing is written. */
  function FrameBytes<F>(codec: Codec<F>, f: F): Option<Bytes> {
    var payload := codec.encode(f);
    if |payload| > MAX_FRAME_SIZE then None else Some(Header(|payload|) + payload)
  }

  predicate Fits<F>(codec: Codec<F>, f: F) {
    |codec.encode(f)| <= MAX_FRAME_SIZE
  }

  function StreamOf<F>(codec: Codec<F>, fs: seq<F>): Bytes
    requires forall f | f in fs :: Fits(codec, f)
  {
    if fs == [] then []
    else
      assert fs[0] in fs && Fits(codec, fs[0]);
      FrameBytes(codec, fs[0]).value + StreamOf(codec, fs[1..])
  }

  /** The stream may end between frames, or within one, or be lost by the transport. */
  datatype FrameError = Ended | CutShort | Lost(why: ReadError) | TooBig | Malformed

  datatype Parsed<F> = Frame(frame: F) | Unread(why: FrameError)

  /** What a read that wanted more says when the stream ends: the transport's own error, unless that is a plain end. */
  function Short(got: Bytes, ending: ReadError): FrameError {
    if !ending.Eof? then Lost(ending) else if got == [] then Ended else CutShort
  }

  /** What one frame read yields from a stream that ends in a given way, and what it leaves of it. */
  function Parse<F>(codec: Codec<F>, s: Bytes, ending: ReadError): (Parsed<F>, Bytes) {
    if |s| < 4 then (Unread(Short(s, ending)), [])
    else
      var size := Size(s[..4]);
      if size > MAX_FRAME_SIZE then (Unread(TooBig), s[4..])
      else if |s| < 4 + size then (Unread(Short(s[4..], ending)), [])
      else
        var f := codec.decode(s[4..4 + size]);
        (if f.None? then Unread(Malformed) else Frame(f.value), s[4 + size..])
  }

  lemma FrameRoundTrip<F(!new)>(codec: Codec<F>, f: F, rest: Bytes, ending: ReadError)
    requires Lawful(codec) && Fits(codec, f)
    ensures Parse(codec, FrameBytes(codec, f).value + rest, ending) == (Frame(f), rest)
  {
    var payload := codec.encode(f);
    var s := Header(|payload|) + payload + rest;
    HeaderRoundTrip(|payload|);
    assert s[..4] == Header(|payload|);
    assert s[4..4 + |payload|] == payload && s[4 + |payload|..] == rest;
  }

  // ---- reading frames ----------------------------------------------------------------------------------

  /** A buffered reader over the transport, the buffer holding up to `size` bytes. */
  class FrameReader {
    const conn: Conn
    const size: nat
    var buffer: Bytes

    constructor (conn: Conn, size: nat)
      requires size > 0
      ensures this.conn == conn && this.size == size && buffer == []
    {
      this.conn, this.size := conn, size;
      buffer := [];
    }

    /** Protocol bytes not yet handed out. */
    ghost function Rest(): Bytes
      reads this, conn
    {
      buffer + conn.Stream()
    }

    /** One buffered read of at most `n` bytes. */
    method ReadSome(n: nat) returns (bytes: Bytes, err: Option<ReadError>)
      requires n > 0 && size > 0
      modifies this, conn
      ensures err.None? ==> 0 < |bytes| <= n && bytes + Rest() == old(Rest())
      ensures err.Some? ==> old(Rest()) == [] && Rest() == [] && bytes == [] && conn.diagnostics == conn.AllDiagnostics()
      ensures err.Some? ==> err.value == conn.Ending()
      ensures conn.AllDiagnostics() == old(conn.AllDiagnostics()) && conn.Ending() == old(conn.Ending())
    {
      err := None;
      if buffer == [] {
        if n >= size {
          bytes, err := conn.Read(n);
          return;
        }
        buffer, err := conn.Read(size);
        if err.Some? { return [], err; }
      }
      var k := if n < |buffer| then n else |buffer|;
      bytes := buffer[..k];
      assert buffer == bytes + buffer[k..];
      buffer := buffer[k..];
      AppendAssoc(bytes, buffer, conn.Stream());
    }

    /** Reads exactly `n` bytes, however they arrive; what was read of fewer is lost. */
    method ReadFull(n: nat) returns (bytes: Bytes, err: Option<FrameError>)
      requires size > 0
      modifies this, conn
      ensures err.None? <==> |old(Rest())| >= n
      ensures err.None? ==> bytes == old(Rest())[..n] && Rest() == old(Rest())[n..]
      ensures err.Some? ==> err.value == Short(old(Rest()), old(conn.Ending())) && Rest() == [] && conn.diagnostics == conn.AllDiagnostics()
      ensures conn.AllDiagnostics() == old(conn.AllDiagnostics()) && conn.Ending() == old(conn.Ending())
    {
      bytes := [];
      while |bytes| < n
        invariant |bytes| <= n && bytes + Rest() == old(Rest())
        invariant conn.AllDiagnostics() == old(conn.AllDiagnostics()) && conn.Ending() == old(conn.Ending())
        decreases n - |bytes|
      {
        var more, failed := ReadSome(n - |bytes|);
        if failed.Some? {
          return bytes, Some(if !failed.value.Eof? then Lost(failed.value) else if bytes == [] then Ended else CutShort);
        }
        AppendAssoc(bytes, more, Rest());
        bytes := bytes + more;
      }
      assert old(Rest())[..n] == bytes && old(Rest())[n..] == Rest();
      err := None;
    }

    method ReadFrame<F>(codec: Codec<F>) returns (parsed: Parsed<F>)
      requires size > 0
      modifies this, conn
      ensures var (p, rest) := Parse(codec, old(Rest()), old(conn.Ending())); parsed == p && Rest() == rest
      ensures conn.AllDiagnostics() == old(conn.AllDiagnostics()) && conn.Ending() == old(conn.Ending())
      ensures parsed.Unread? && (parsed.why.Ended? || parsed.why.Lost?) ==> conn.diagnostics == conn.AllDiagnostics()
    {
      ghost var s := Rest();
      var header, cut := ReadFull(4);
      if cut.Some? { return Unread(cut.value); }
      var n := Size(header);
      if n > MAX_FRAME_SIZE { return Unread(TooBig); }
      var payload, short := ReadFull(n);
      if short.Some? { return Unread(short.value); }
      assert s[4..][..n] == s[4..4 + n] && s[4..][n..] == s[4 + n..];
      var f := codec.decode(payload);
      parsed := if f.None? then Unread(Malformed) else Frame(f.value);
    }

    /** Reads `count` frames, or as many as there are. */
    method ReadFrames<F>(codec: Codec<F>, count: nat) returns (frames: seq<F>, failed: Option<FrameError>)
      requires size > 0
      modifies this, conn
      ensures var (fs, why, rest) := ParseAll(codec, old(Rest()), old(conn.Ending()), count); frames == fs && failed == why && Rest() == rest
      ensures conn.AllDiagnostics() == old(conn.AllDiagnostics()) && conn.Ending() == old(conn.Ending())
      ensures failed.Some? && (failed.value.Ended? || failed.value.Lost?) ==> conn.diagnostics == conn.AllDiagnostics()
    {
      frames, failed := [], None;
      ghost var ending := conn.Ending();
      ghost var all := ParseAll(codec, Rest(), ending, count);
      for i := 0 to count
        invariant all.0 == frames + ParseAll(codec, Rest(), ending, count - i).0
        invariant all.1 == ParseAll(codec, Rest(), ending, count - i).1 && all.2 == ParseAll(codec, Rest(), ending, count - i).2
        invariant conn.AllDiagnostics() == old(conn.AllDiagnostics()) && conn.Ending() == ending
      {
        ghost var s := Rest();
        var parsed := ReadFrame(codec);
        ParseMore(codec, s, ending, count - i);
        if parsed.Unread? {
          assert all.0 == frames;
          return frames, Some(parsed.why);
        }
        frames := frames + [parsed.frame];
      }
    }
  }

  function ParseAll<F>(codec: Codec<F>, s: Bytes, ending: ReadError, count: nat): (seq<F>, Option<FrameError>, Bytes) {
    if count == 0 then ([], None, s)
    else
      var (parsed, rest) := Parse(codec, s, ending);
      if parsed.Unread? then ([], Some(parsed.why), rest)
      else
        var (fs, why, left) := ParseAll(codec, rest, ending, count - 1);
        ([parsed.frame] + fs, why, left)
  }

  lemma ParseMore<F>(codec: Codec<F>, s: Bytes, ending: ReadError, count: nat)
    requires count > 0
    ensures var (parsed, rest) := Parse(codec, s, ending);
            if parsed.Unread? then ParseAll(codec, s, ending, count) == ([], Some(parsed.why), rest)
            else var more := ParseAll(codec, rest, ending, count - 1);
                 ParseAll(codec, s, ending, count) == ([parsed.frame] + more.0, more.1, more.2)
  {}

  /** The first frame of a stream of frames, and what comes after it. */
  lemma FirstFrame<F(!new)>(codec: Codec<F>, fs: seq<F>, rest: Bytes, ending: ReadError)
    requires Lawful(codec) && fs != [] && forall f | f in fs :: Fits(codec, f)
    ensures Parse(codec, StreamOf(codec, fs) + rest, ending) == (Frame(fs[0]), StreamOf(codec, fs[1..]) + rest)
  {
    assert fs[0] in fs;
    FrameRoundTrip(codec, fs[0], StreamOf(codec, fs[1..]) + rest, ending);
    AppendAssoc(FrameBytes(codec, fs[0]).value, StreamOf(codec, fs[1..]), rest);
  }

  lemma OneMoreFrame<F>(codec: Codec<F>, s: Bytes, ending: ReadError, f: F, after: Bytes, count: nat)
    requires count > 0 && Parse(codec, s, ending) == (Frame(f), after)
    ensures var more := ParseAll(codec, after, ending, count - 1); ParseAll(codec, s, ending, count) == ([f] + more.0, more.1, more.2)
  {
    ParseMore(codec, s, ending, count);
  }

  lemma TakeStep<T>(s: seq<T>, count: nat)
    requires 0 < count <= |s|
    ensures s[..count] == [s[0]] + s[1..][..count - 1] && s[1..][count - 1..] == s[count..]
  {}

  /** Framing over the tagged channel: reading the stream of any frames gives exactly those frames, in order. */
  lemma {:induction false} FramesRoundTrip<F(!new)>(codec: Codec<F>, fs: seq<F>, rest: Bytes, ending: ReadError, count: nat)
    requires Lawful(codec) && (forall f | f in fs :: Fits(codec, f)) && count <= |fs|
    ensures ParseAll(codec, StreamOf(codec, fs) + rest, ending, count) == (fs[..count], None, StreamOf(codec, fs[count..]) + rest)
    decreases |fs|
  {
    if count == 0 {
      assert fs[0..] == fs && fs[..0] == [];
    } else {
      FirstFrame(codec, fs, rest, ending);
      OneMoreFrame(codec, StreamOf(codec, fs) + rest, ending, fs[0], StreamOf(codec, fs[1..]) + rest, count);
      FramesRoundTrip(codec, fs[1..], rest, ending, count - 1);
      TakeStep(fs, count);
    }
  }

  /** Reading on finds the end of the stream. */
  lemma FramesThenEnd<F(!new)>(codec: Codec<F>, fs: seq<F>, ending: ReadError, count: nat)
    requires Lawful(codec) && (forall f | f in fs :: Fits(codec, f)) && count > |fs|
    ensures var r := ParseAll(codec, StreamOf(codec, fs), ending, count); r.0 == fs && r.1 == Some(Short([], ending))
  {
    FramesRoundTrip(codec, fs, [], ending, |fs|);
    ReadOn(codec, StreamOf(codec, fs) + [], ending, |fs|, count - |fs|);
    NothingAfter(StreamOf(codec, fs), fs);
    NothingLeft(codec, ending, count - |fs|);
  }

  /** Reading so many frames and then so many more is reading them all. */
  lemma {:induction false} ReadOn<F>(codec: Codec<F>, s: Bytes, ending: ReadError, a: nat, b: nat)
    ensures var first := ParseAll(codec, s, ending, a);
            first.1.None? ==> var more := ParseAll(codec, first.2, ending, b); ParseAll(codec, s, ending, a + b) == (first.0 + more.0, more.1, more.2)
  {
    if a == 0 {
      NothingBefore(ParseAll(codec, s, ending, b).0);
    } else {
      var (parsed, rest) := Parse(codec, s, ending);
      ParseMore(codec, s, ending, a);
      ParseMore(codec, s, ending, a + b);
      if parsed.Frame? {
        ReadOn(codec, rest, ending, a - 1, b);
        AppendAssoc([parsed.frame], ParseAll(codec, rest, ending, a - 1).0, ParseAll(codec, ParseAll(codec, rest, ending, a - 1).2, ending, b).0);
      }
    }
  }

  lemma NothingAfter<T>(a: Bytes, b: seq<T>)
    ensures a + [] == a && b + [] == b && b[..|b|] == b && b[|b|..] == []
  {}

  lemma NothingLeft<F>(codec: Codec<F>, ending: ReadError, count: nat)
    requires count > 0
    ensures ParseAll(codec, [], ending, count) == ([], Some(Short([], ending)), [])
  {}

  /**
   * One end reading what the other wrote: whatever messages the bytes were split into, whatever diagnostics came
   * between, and however the reads fell, exactly the written frames arrive, then the end the transport gave the stream;
   * the diagnostics are whole.
   */
  method Receive<F(!new)>(codec: Codec<F>, ghost sent: seq<F>, inbound: seq<Message>, closing: ReadError, size: nat, count: nat)
    returns (frames: seq<F>, failed: Option<FrameError>, diagnostics: Bytes)
    requires Lawful(codec) && (forall f | f in sent :: Fits(codec, f)) && size > 0 && count > |sent|
    requires StdoutOf(inbound) == StreamOf(codec, sent)
    ensures frames == sent && failed == Some(Short([], EndOf(inbound, closing))) && diagnostics == StderrOf(inbound)
  {
    var conn := new Conn(inbound, closing);
    var reader := new FrameReader(conn, size);
    assert [] + StdoutOf(inbound) == StdoutOf(inbound) && [] + StderrOf(inbound) == StderrOf(inbound);
    assert reader.Rest() == StreamOf(codec, sent);
    FramesThenEnd(codec, sent, EndOf(inbound, closing), count);
    frames, failed := reader.ReadFrames(codec, count);
    diagnostics := conn.diagnostics;
  }
}
