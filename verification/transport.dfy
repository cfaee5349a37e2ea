/** The tagged websocket presented as a plain byte stream, diagnostics set aside. */
module Transport {
  import opened Lists
  import opened Entries

  const STREAM_STDOUT: byte := 0
  const STREAM_STDERR: byte := 1

  datatype Message = Binary(data: Bytes) | Text

  datatype ReadError = Eof | Broken | UnknownTag

  /** Protocol bytes the messages carry, up to whatever ends the stream. */
  function StdoutOf(ms: seq<Message>): Bytes {
    if ms == [] || Ends(ms[0]) then []
    else StdoutPart(ms[0]) + StdoutOf(ms[1..])
  }

  /** Diagnostic bytes the messages carry, up to whatever ends the stream. */
  function StderrOf(ms: seq<Message>): Bytes {
    if ms == [] || Ends(ms[0]) then []
    else StderrPart(ms[0]) + StderrOf(ms[1..])
  }

  predicate Carries(m: Message, tag: byte) {
    m.Binary? && m.data != [] && m.data[0] == tag
  }

  function StdoutPart(m: Message): Bytes {
    if Carries(m, STREAM_STDOUT) then m.data[1..] else []
  }

  function StderrPart(m: Message): Bytes {
    if Carries(m, STREAM_STDERR) then m.data[1..] else []
  }

  /** An exit control frame, or a frame without a known tag. */
  predicate Ends(m: Message) {
    m.Text? || (m.data != [] && m.data[0] != STREAM_STDOUT && m.data[0] != STREAM_STDERR)
  }

  /** How the stream ends. */
  function EndOf(ms: seq<Message>, closing: ReadError): ReadError {
    if ms == [] then closing
    else if Ends(ms[0]) then (if ms[0].Text? then Eof else UnknownTag)
    else EndOf(ms[1..], closing)
  }

  class Conn {
    /** What the websocket will still deliver, and how it closes after that. */
    var inbound: seq<Message>
    const closing: ReadError

    var pending: Bytes
    var readErr: Option<ReadError>
    var diagnostics: Bytes

    constructor (inbound: seq<Message>, closing: ReadError)
      ensures this.inbound == inbound && this.closing == closing
      ensures pending == [] && readErr == None && diagnostics == []
    {
      this.inbound, this.closing := inbound, closing;
      pending, readErr, diagnostics := [], None, [];
    }

    /** Protocol bytes not yet read. */
    ghost function Stream(): Bytes
      reads this
    {
      pending + if readErr.Some? then [] else StdoutOf(inbound)
    }

    /** All diagnostics the stream ever brings. */
    ghost function AllDiagnostics(): Bytes
      reads this
    {
      diagnostics + if readErr.Some? then [] else StderrOf(inbound)
    }

    /** How reading will end. */
    ghost function Ending(): ReadError
      reads this
    {
      if readErr.Some? then readErr.value else EndOf(inbound, closing)
    }

    /** Reads one message and routes it by its tag. */
    method Fill() returns (err: Option<ReadError>)
      requires readErr.None?
      modifies this`inbound, this`pending, this`diagnostics
      ensures err.None? ==> Stream() == old(Stream()) && AllDiagnostics() == old(AllDiagnostics()) && Ending() == old(Ending())
      ensures err.None? ==> |inbound| < |old(inbound)|
      ensures err.Some? ==> pending == old(pending) == old(Stream()) && diagnostics == old(AllDiagnostics())
      ensures err.Some? ==> err.value == old(Ending())
    {
      if inbound == [] { return Some(closing); }
      var m := inbound[0];
      ghost var rest := inbound[1..];
      inbound := inbound[1..];
      err := Route(m);
      AppendAssoc(old(pending), StdoutPart(m), StdoutOf(rest));
      AppendAssoc(old(diagnostics), StderrPart(m), StderrOf(rest));
    }

    /** Puts one message's bytes where its tag says. */
    method Route(m: Message) returns (err: Option<ReadError>)
      modifies this`pending, this`diagnostics
      ensures err == if m.Text? then Some(Eof) else if Ends(m) then Some(UnknownTag) else None
      ensures pending == old(pending) + StdoutPart(m) && diagnostics == old(diagnostics) + StderrPart(m)
    {
      if m.Text? { return Some(Eof); }
      if m.data == [] { return None; }
      if m.data[0] == STREAM_STDOUT {
        pending := pending + m.data[1..];
      } else if m.data[0] == STREAM_STDERR {
        diagnostics := diagnostics + m.data[1..];
      } else {
        return Some(UnknownTag);
      }
      err := None;
    }

    /** Yields protocol bytes only: at least one, at most `n`, or the error the stream ended with. */
    method Read(n: nat) returns (bytes: Bytes, err: Option<ReadError>)
      requires n > 0
      modifies this
      ensures err.None? ==> 0 < |bytes| <= n && bytes + Stream() == old(Stream())
      ensures err.Some? ==> bytes == [] && old(Stream()) == [] && Stream() == [] && diagnostics == AllDiagnostics()
      ensures err.Some? ==> err.value == Ending()
      ensures AllDiagnostics() == old(AllDiagnostics()) && Ending() == old(Ending())
    {
      while pending == []
        invariant Stream() == old(Stream()) && AllDiagnostics() == old(AllDiagnostics()) && Ending() == old(Ending())
        decreases |inbound|
      {
        if readErr.Some? { return [], readErr; }
        var failed := Fill();
        if failed.Some? {
          readErr := failed;
          return [], failed;
        }
      }
      bytes := TakePending(n);
      err := None;
    }

    method TakePending(n: nat) returns (bytes: Bytes)
      requires n > 0 && pending != []
      modifies this`pending
      ensures 0 < |bytes| <= n && bytes + pending == old(pending) && bytes + Stream() == old(Stream())
    {
      var k := if n < |pending| then n else |pending|;
      bytes := pending[..k];
      assert pending == bytes + pending[k..];
      pending := pending[k..];
      ghost var rest := if readErr.Some? then [] else StdoutOf(inbound);
      AppendAssoc(bytes, pending, rest);
    }
  }

  /** A further message extends the stream it is tagged for and leaves the other alone. */
  lemma {:induction false} OneMore(ms: seq<Message>, m: Message)
    requires forall x | x in ms :: !Ends(x)
    ensures StdoutOf(ms + [m]) == StdoutOf(ms) + if Ends(m) then [] else StdoutPart(m)
    ensures StderrOf(ms + [m]) == StderrOf(ms) + if Ends(m) then [] else StderrPart(m)
  {
    if ms == [] {
      assert ms + [m] == [m] && [m][1..] == [];
    } else {
      assert (ms + [m])[1..] == ms[1..] + [m];
      assert ms[0] in ms;
      OneMore(ms[1..], m);
      AppendAssoc(StdoutPart(ms[0]), StdoutOf(ms[1..]), if Ends(m) then [] else StdoutPart(m));
      AppendAssoc(StderrPart(ms[0]), StderrOf(ms[1..]), if Ends(m) then [] else StderrPart(m));
    }
  }

  // ---- the streams as they are tagged ----------------------------------------------------------------------

  /** Bytes of one stream or the other, as the far end hands them to the websocket. */
  datatype Piece = Out(bytes: Bytes) | Err(bytes: Bytes) | Nothing

  function Tagged(p: Piece): Message {
    match p
    case Out(bytes) => Binary([0] + bytes)
    case Err(bytes) => Binary([1] + bytes)
    case Nothing => Binary([])
  }

  function AllTagged(ps: seq<Piece>): seq<Message> {
    if ps == [] then [] else [Tagged(ps[0])] + AllTagged(ps[1..])
  }

  function OutsOf(ps: seq<Piece>): Bytes {
    if ps == [] then [] else (if ps[0].Out? then ps[0].bytes else []) + OutsOf(ps[1..])
  }

  function ErrsOf(ps: seq<Piece>): Bytes {
    if ps == [] then [] else (if ps[0].Err? then ps[0].bytes else []) + ErrsOf(ps[1..])
  }

  /** What may close the stream: an exit frame, or a message with a tag that neither stream has. */
  predicate Strange(m: Message) {
    m.Binary? ==> m.data != [] && m.data[0] > 1
  }

  /**
   * Whatever pieces of both streams come interleaved, each stream is exactly its own, in order; after an exit frame or a
   * strange tag nothing more comes of either.
   */
  lemma {:induction false} StreamsSeparate(ps: seq<Piece>, last: seq<Message>, after: seq<Message>, closing: ReadError)
    requires last == [] || (|last| == 1 && Strange(last[0]))
    requires last == [] ==> after == []
    ensures var ms := AllTagged(ps) + last + after;
            && StdoutOf(ms) == OutsOf(ps) && StderrOf(ms) == ErrsOf(ps)
            && EndOf(ms, closing) == if last == [] then closing else if last[0].Text? then Eof else UnknownTag
  {
    var ms := AllTagged(ps) + last + after;
    if ps == [] {
      assert ms == last + after;
    } else {
      var m, rest := Tagged(ps[0]), AllTagged(ps[1..]) + last + after;
      assert ms[0] == m && ms[1..] == rest;
      StreamsSeparate(ps[1..], last, after, closing);
      TagIsRead(ps[0]);
    }
  }

  lemma TagIsRead(p: Piece)
    ensures var m := Tagged(p);
            !Ends(m) && StdoutPart(m) == (if p.Out? then p.bytes else []) && StderrPart(m) == (if p.Err? then p.bytes else [])
  {}
}
