/**
 * The endpoint protocol as a state machine: a controller and an endpoint, two byte-ordered streams of frames
 * between them, every step of either side separate, so that all interleavings are covered.
 */
module Protocol {

  datatype Request =
    | HandshakeRequest
    | ScanRequest
    | StageQueryRequest(some: bool)
    | StagePutRequest(size: nat)
    | TransitionRequest
    | SupplyRequest

  datatype Response =
    | HandshakeResponse
    | ScanResponse
    | StageQueryResponse
    | StagePutResponse(asPromised: bool)
    | TransitionResponse
    | SupplyResponse(size: nat)
    | ErrorResponse

  datatype Frame = Req(request: Request) | Resp(response: Response) | Data(size: nat) | Eof

  /** Whether a response is one the caller of `q` accepts. */
  predicate Answers(r: Response, q: Request) {
    match q
    case HandshakeRequest => r.HandshakeResponse? || r.ErrorResponse?
    case ScanRequest => r.ScanResponse? || r.ErrorResponse?
    case StageQueryRequest(_) => r.StageQueryResponse? || r.ErrorResponse?
    case StagePutRequest(_) => r.StagePutResponse? || r.ErrorResponse?
    case TransitionRequest => r.TransitionResponse? || r.ErrorResponse?
    case SupplyRequest => r.SupplyResponse? || r.ErrorResponse?
  }

  /** How the last call ended. Only `Failed` leaves the connection to be dropped. */
  datatype Ended = NoCallYet | Success | EndpointError | WrongDigest

  datatype Failure = SourceGrew | SourceBroke | BodyGrew | SinkBroke | Unexpected

  datatype Client =
    | Idle(last: Ended)
    | Sending(source: seq<nat>, written: nat, size: nat)
    | Waiting(request: Request)
    | Receiving(limit: nat, read: nat)
    | Failed(why: Failure)

  /** `stopped`: the staging area has given up on the upload, whose rest is only drained. */
  datatype Server =
    | Listening
    | Draining(size: nat, received: nat, stopped: bool)
    | Supplying(chunks: seq<nat>)
    | Confused

  /** A dead endpoint takes no more steps; what it wrote can still be read. */
  datatype State = State(client: Client, server: Server, ready: bool, dead: bool, toServer: seq<Frame>, toClient: seq<Frame>)

  datatype Call = Simple(request: Request) | Put(size: nat, source: seq<nat>)

  datatype Step =
    | Start(call: Call)
    | SendBody(broken: bool)
    | ReadReply(sinkBroken: bool)
    | Serve(fine: bool, size: nat, chunks: seq<nat>)
    | ServeBody
    | Die

  const INITIAL := State(Idle(NoCallYet), Listening, false, false, [], [])

  // ---- the controller ----------------------------------------------------------------------------------

  function StartCall(st: State, call: Call): State
    requires st.client.Idle?
  {
    match call
    case Simple(q) => st.(toServer := st.toServer + [Req(q)], client := Waiting(q))
    case Put(size, source) => st.(toServer := st.toServer + [Req(StagePutRequest(size))], client := Sending(source, 0, size))
  }

  /** One turn of writing a body, never past the declared size. */
  function SendSome(st: State, broken: bool): State
    requires st.client.Sending?
  {
    var c := st.client;
    if broken then st.(client := Failed(SourceBroke))
    else if c.source == [] then st.(toServer := st.toServer + [Eof], client := Waiting(StagePutRequest(c.size)))
    else if c.source[0] == 0 then st.(client := c.(source := c.source[1..]))
    else if c.written + c.source[0] > c.size then st.(client := Failed(SourceGrew))
    else st.(toServer := st.toServer + [Data(c.source[0])],
             client := Sending(c.source[1..], c.written + c.source[0], c.size))
  }

  function AfterReply(q: Request, f: Frame): Client {
    if !f.Resp? then Failed(Unexpected)
    else if f.response.ErrorResponse? then Idle(EndpointError)
    else if !Answers(f.response, q) then Failed(Unexpected)
    else if f.response.SupplyResponse? then Receiving(f.response.size, 0)
    else if f.response.StagePutResponse? && !f.response.asPromised then Idle(WrongDigest)
    else Idle(Success)
  }

  function AfterBody(c: Client, f: Frame, sinkBroken: bool): Client
    requires c.Receiving?
  {
    if f.Eof? then Idle(Success)
    else if !f.Data? then Failed(Unexpected)
    else if c.read + f.size > c.limit then Failed(BodyGrew)
    else if sinkBroken then Failed(SinkBroke)
    else c.(read := c.read + f.size)
  }

  function TakeReply(st: State, sinkBroken: bool): State
    requires (st.client.Waiting? || st.client.Receiving?) && st.toClient != []
  {
    var f := st.toClient[0];
    st.(toClient := st.toClient[1..],
        client := if st.client.Waiting? then AfterReply(st.client.request, f) else AfterBody(st.client, f, sinkBroken))
  }

  // ---- the endpoint --------------------------------------------------------------------------------------

  function Say(st: State, r: Response): State {
    st.(toClient := st.toClient + [Resp(r)])
  }

  /** A missing handshake is answered with an error, and then the request is served all the same. */
  function RequireReady(st: State): State {
    if st.ready then st else Say(st, ErrorResponse)
  }

  /** Serves one request; `fine`, `size` and `chunks` are what the endpoint's filesystem makes of it. */
  function Dispatch(st: State, q: Request, fine: bool, size: nat, chunks: seq<nat>): State {
    match q
    case HandshakeRequest =>
      if fine then Say(st, HandshakeResponse).(ready := true) else Say(st, ErrorResponse)
    case ScanRequest => Say(RequireReady(st), if fine then ScanResponse else ErrorResponse)
    case StageQueryRequest(some) =>
      if !st.ready && some then RequireReady(st).(dead := true) else Say(RequireReady(st), StageQueryResponse)
    case StagePutRequest(declared) => st.(server := Draining(declared, 0, !st.ready))
    case TransitionRequest => Say(RequireReady(st), TransitionResponse)
    case SupplyRequest =>
      if fine then Say(RequireReady(st), SupplyResponse(size)).(server := Supplying(chunks))
      else Say(RequireReady(st), ErrorResponse)
  }

  /** One frame off the request stream: a request when listening, a chunk when a body is due. */
  function TakeRequest(st: State, fine: bool, size: nat, chunks: seq<nat>): State
    requires st.toServer != []
  {
    var f, rest := st.toServer[0], st.(toServer := st.toServer[1..]);
    match st.server
    case Listening => if f.Req? then Dispatch(rest, f.request, fine, size, chunks) else rest.(server := Confused)
    case Draining(declared, received, stopped) =>
      if f.Eof? then Say(rest, if stopped then ErrorResponse else StagePutResponse(fine)).(server := Listening)
      else if f.Data? then rest.(server := Draining(declared, received + f.size, stopped || received + f.size > declared || !fine))
      else rest.(server := Confused)
    case _ => st
  }

  /** One turn of streaming a file out. */
  function SupplySome(st: State): State
    requires st.server.Supplying?
  {
    var chunks := st.server.chunks;
    if chunks == [] then st.(toClient := st.toClient + [Eof], server := Listening)
    else if chunks[0] == 0 then st.(server := Supplying(chunks[1..]))
    else st.(toClient := st.toClient + [Data(chunks[0])], server := Supplying(chunks[1..]))
  }

  predicate Enabled(st: State, s: Step) {
    match s
    case Start(call) => st.client.Idle? && (call.Simple? ==> !call.request.StagePutRequest?)
    case SendBody(_) => st.client.Sending?
    case ReadReply(_) => (st.client.Waiting? || st.client.Receiving?) && st.toClient != []
    case Serve(_, _, _) => !st.dead && (st.server.Listening? || st.server.Draining?) && st.toServer != []
    case ServeBody => !st.dead && st.server.Supplying?
    case Die => true
  }

  function Next(st: State, s: Step): State
    requires Enabled(st, s)
  {
    match s
    case Start(call) => StartCall(st, call)
    case SendBody(broken) => SendSome(st, broken)
    case ReadReply(sinkBroken) => TakeReply(st, sinkBroken)
    case Serve(fine, size, chunks) => TakeRequest(st, fine, size, chunks)
    case ServeBody => SupplySome(st)
    case Die => st.(dead := true)
  }

  // ---- alignment --------------------------------------------------------------------------------------------

  predicate AllData(fs: seq<Frame>) {
    forall f | f in fs :: f.Data?
  }

  /** Data frames ended by one eof. */
  predicate WholeBody(fs: seq<Frame>) {
    fs != [] && fs[|fs| - 1].Eof? && AllData(fs[..|fs| - 1])
  }

  /** Calls that an endpoint answers once even before a handshake. */
  predicate SafeUnready(call: Call) {
    call.Put? || call.request.HandshakeRequest?
  }

  predicate IsPut(fs: seq<Frame>) {
    fs != [] && fs[0].Req? && fs[0].request.StagePutRequest?
  }

  /** A put whose body is on its way, complete or not: waiting to be served, or being drained. */
  predicate PutUnderway(st: State, complete: bool) {
    && st.toClient == []
    && (var body := if st.server.Listening? then (if IsPut(st.toServer) then st.toServer[1..] else []) else st.toServer;
        (st.server.Listening? ==> IsPut(st.toServer)) && (st.server.Listening? || st.server.Draining?) &&
        if complete then WholeBody(body) else AllData(body))
  }

  /** The rest of a supplied body: all there, or still being written. */
  predicate BodyComing(st: State, fs: seq<Frame>) {
    (st.server.Listening? && WholeBody(fs)) || (st.server.Supplying? && AllData(fs))
  }

  predicate RequestPending(st: State, q: Request) {
    && st.toServer == [Req(q)] && st.toClient == [] && st.server.Listening?
    && (st.ready || q.HandshakeRequest?)
  }

  predicate Answered(st: State, q: Request) {
    && st.toServer == [] && st.toClient != [] && st.toClient[0].Resp? && Answers(st.toClient[0].response, q)
    && if st.toClient[0].response.SupplyResponse? then BodyComing(st, st.toClient[1..])
       else |st.toClient| == 1 && st.server.Listening?
  }

  /** Where both streams and the endpoint must be, given where the controller is. */
  predicate Aligned(st: State) {
    match st.client
    case Idle(_) => st.toServer == [] && st.toClient == [] && st.server.Listening?
    case Sending(_, _, _) => PutUnderway(st, false)
    case Waiting(q) => (if q.StagePutRequest? then PutUnderway(st, true) else RequestPending(st, q)) || Answered(st, q)
    case Receiving(_, _) => st.toServer == [] && BodyComing(st, st.toClient)
    case Failed(why) => why != Unexpected && (PutUnderway(st, false) || (st.toServer == [] && (st.server.Listening? || st.server.Supplying?)))
  }

  /** A run may call anything that is safe at the time. */
  predicate Permitted(st: State, s: Step) {
    Enabled(st, s) && (s.Start? ==> st.ready || SafeUnready(s.call))
  }

  lemma AllDataAppend(fs: seq<Frame>, f: Frame)
    requires AllData(fs)
    ensures f.Data? ==> AllData(fs + [f])
    ensures f.Eof? ==> WholeBody(fs + [f])
  {
    assert (fs + [f])[..|fs + [f]| - 1] == fs;
  }

  lemma BodyTail(fs: seq<Frame>)
    requires fs != []
    ensures AllData(fs) ==> fs[0].Data? && AllData(fs[1..])
    ensures WholeBody(fs) ==> (fs[0].Eof? && fs[1..] == []) || (fs[0].Data? && WholeBody(fs[1..]))
  {
    assert fs[0] in fs;
    if WholeBody(fs) && |fs| > 1 {
      assert fs[0] == fs[..|fs| - 1][0];
      assert fs[1..][..|fs[1..]| - 1] == fs[..|fs| - 1][1..];
    }
  }

  lemma StartAligned(st: State, call: Call)
    requires Aligned(st) && Permitted(st, Start(call))
    ensures Aligned(StartCall(st, call))
  {
    assert forall f: Frame :: [] + [f] == [f];
    if call.Put? { assert StartCall(st, call).toServer[1..] == []; }
  }

  /** One more frame of a body under way. */
  lemma PutGrows(st: State, f: Frame, client: Client)
    requires PutUnderway(st, false)
    ensures f.Data? ==> PutUnderway(st.(toServer := st.toServer + [f], client := client), false)
    ensures f.Eof? ==> PutUnderway(st.(toServer := st.toServer + [f], client := client), true)
  {
    if st.server.Listening? {
      AllDataAppend(st.toServer[1..], f);
      assert (st.toServer + [f])[1..] == st.toServer[1..] + [f];
    } else {
      AllDataAppend(st.toServer, f);
    }
  }

  lemma SendAligned(st: State, broken: bool)
    requires Aligned(st) && st.client.Sending?
    ensures Aligned(SendSome(st, broken))
  {
    var next := SendSome(st, broken);
    if next.toServer == st.toServer {
      assert PutUnderway(next, false);
    } else {
      PutGrows(st, if st.client.source == [] then Eof else Data(st.client.source[0]), next.client);
    }
  }

  lemma ReplyAligned(st: State, sinkBroken: bool)
    requires Aligned(st) && (st.client.Waiting? || st.client.Receiving?) && st.toClient != []
    ensures Aligned(TakeReply(st, sinkBroken))
  {
    BodyTail(st.toClient);
  }

  lemma ServeAligned(st: State, fine: bool, size: nat, chunks: seq<nat>)
    requires Aligned(st) && st.toServer != [] && (st.server.Listening? || st.server.Draining?)
    ensures Aligned(TakeRequest(st, fine, size, chunks))
  {
    if st.server.Draining? {
      BodyTail(st.toServer);
    } else if IsPut(st.toServer) {
      assert PutUnderway(st, st.client.Waiting?);
    } else {
      assert forall f: Frame :: [] + [f] == [f];
    }
  }

  lemma SupplyAligned(st: State)
    requires Aligned(st) && st.server.Supplying?
    ensures Aligned(SupplySome(st))
  {
    var f := if st.server.chunks == [] then Eof else Data(st.server.chunks[0]);
    if st.client.Receiving? {
      AllDataAppend(st.toClient, f);
    } else if st.client.Waiting? {
      AllDataAppend(st.toClient[1..], f);
      assert (st.toClient + [f])[1..] == st.toClient[1..] + [f];
    }
  }

  /** Every step of either side keeps the streams aligned. */
  lemma StepAligned(st: State, s: Step)
    requires Aligned(st) && Permitted(st, s)
    ensures Aligned(Next(st, s))
  {
    match s {
      case Start(call) => StartAligned(st, call);
      case SendBody(broken) => SendAligned(st, broken);
      case ReadReply(sinkBroken) => ReplyAligned(st, sinkBroken);
      case Serve(fine, size, chunks) => ServeAligned(st, fine, size, chunks);
      case ServeBody => SupplyAligned(st);
      case Die =>
    }
  }

  ghost predicate IsRun(states: seq<State>, steps: seq<Step>) {
    && |states| == |steps| + 1 && states[0] == INITIAL
    && forall i | 0 <= i < |steps| :: Permitted(states[i], steps[i]) && states[i + 1] == Next(states[i], steps[i])
  }

  lemma {:induction false} RunAligned(states: seq<State>, steps: seq<Step>, k: nat)
    requires IsRun(states, steps) && k <= |steps|
    ensures Aligned(states[k])
  {
    if k > 0 {
      RunAligned(states, steps, k - 1);
      StepAligned(states[k - 1], steps[k - 1]);
    }
  }

  /**
   * Over whole runs: when the controller is between calls, both streams are empty and the endpoint is listening; the
   * first frame a waiting controller can read answers its request; no side ever meets a frame it does not expect.
   */
  lemma AlwaysInStep(states: seq<State>, steps: seq<Step>, k: nat)
    requires IsRun(states, steps) && k <= |steps|
    ensures var st := states[k];
            && (st.client.Idle? ==> st.toServer == [] && st.toClient == [] && st.server.Listening?)
            && (st.client.Waiting? && st.toClient != [] ==> st.toClient[0].Resp? && Answers(st.toClient[0].response, st.client.request))
            && (st.client.Failed? ==> st.client.why != Unexpected)
            && !st.server.Confused?
  {
    RunAligned(states, steps, k);
  }

  // ---- how calls end -----------------------------------------------------------------------------------------------

  datatype Option<T> = None | Some(value: T)

  /**
   * What has happened since the last call was made, seen from outside: the request the endpoint took and whether it had
   * had its handshake by then; the bytes of a body it took, whether it could not keep some of it, and whether the whole
   * was as promised; what it made of any other request, and the size it told and the bytes it had of a file it was asked
   * for; and whether the controller's own end of the body broke.
   */
  datatype Seen = Seen(call: Option<Call>, request: Option<Request>, wasReady: bool, fine: bool, taken: nat, spoiled: bool,
                       promised: Option<bool>, size: nat, supplied: nat, broke: bool)

  const UNSEEN := Seen(None, None, false, false, 0, false, None, 0, 0, false)

  function Sum(chunks: seq<nat>): nat {
    if chunks == [] then 0 else chunks[0] + Sum(chunks[1..])
  }

  /** What one step adds to that. */
  function Observe(seen: Seen, st: State, s: Step): Seen {
    match s
    case Start(call) => UNSEEN.(call := Some(call))
    case SendBody(broken) => seen.(broke := seen.broke || broken)
    case ReadReply(sinkBroken) =>
      if st.client.Receiving? && st.toClient != [] && st.toClient[0].Data? then seen.(broke := seen.broke || sinkBroken) else seen
    case Serve(fine, size, chunks) =>
      if st.toServer == [] then seen
      else if st.toServer[0].Req? then
        seen.(request := Some(st.toServer[0].request), wasReady := st.ready, fine := fine, size := size, supplied := Sum(chunks))
      else if st.toServer[0].Data? then seen.(taken := seen.taken + st.toServer[0].size, spoiled := seen.spoiled || !fine)
      else if st.toServer[0].Eof? then seen.(promised := Some(fine))
      else seen
    case _ => seen
  }

  ghost function SeenBy(states: seq<State>, steps: seq<Step>, k: nat): Seen
    requires k <= |steps| == |states| - 1
  {
    if k == 0 then UNSEEN else Observe(SeenBy(states, steps, k - 1), states[k - 1], steps[k - 1])
  }

  /** A put that got its answer was taken whole, within its size. */
  predicate TakenWhole(seen: Seen, size: nat, source: seq<nat>) {
    && seen.request == Some(StagePutRequest(size)) && seen.taken == Sum(source) <= size && seen.promised.Some? && !seen.broke
  }

  /** The endpoint gave up on a put: it had had no handshake, or could not keep some of it. */
  predicate GaveUp(seen: Seen) {
    !seen.wasReady || seen.spoiled
  }

  /** The endpoint did what it was asked; for a digest query or a transition it always does. */
  predicate ServedFinely(q: Request, seen: Seen) {
    seen.fine || q.StageQueryRequest? || q.TransitionRequest?
  }

  /** How a call ends, by what the endpoint did. */
  predicate EndedAs(call: Call, last: Ended, seen: Seen) {
    match call
    case Put(size, source) =>
      && TakenWhole(seen, size, source)
      && (last == Success <==> !GaveUp(seen) && seen.promised == Some(true))
      && (last == WrongDigest <==> !GaveUp(seen) && seen.promised == Some(false))
      && (last == EndpointError <==> GaveUp(seen))
    case Simple(q) =>
      && seen.request == Some(q)
      && (last == Success <==> ServedFinely(q, seen))
      && (last == EndpointError <==> !ServedFinely(q, seen))
      && (last == Success && q.SupplyRequest? ==> seen.supplied <= seen.size && !seen.broke)
  }

  /** Why a call failed that broke the connection. */
  predicate FailedAs(call: Call, why: Failure, seen: Seen) {
    match why
    case SourceGrew => call.Put? && Sum(call.source) > call.size && !seen.broke
    case SourceBroke => call.Put? && seen.broke
    case BodyGrew => call == Simple(SupplyRequest) && seen.fine && seen.supplied > seen.size
    case SinkBroke => call == Simple(SupplyRequest) && seen.fine && seen.broke
    case Unexpected => false
  }

  // ---- what is kept of it -------------------------------------------------------------------------------------------

  function Bytes(fs: seq<Frame>): nat {
    if fs == [] then 0 else (if fs[0].Data? then fs[0].size else 0) + Bytes(fs[1..])
  }

  lemma {:induction false} BytesAppend(fs: seq<Frame>, f: Frame)
    ensures Bytes(fs + [f]) == Bytes(fs) + if f.Data? then f.size else 0
  {
    if fs == [] {
      assert fs + [f] == [f] && [f][1..] == [];
    } else {
      assert (fs + [f])[1..] == fs[1..] + [f];
      BytesAppend(fs[1..], f);
    }
  }

  /** So many bytes of a put have been sent: taken by the endpoint, or on their way. */
  predicate PutKept(st: State, seen: Seen, size: nat, sent: nat) {
    && sent <= size && !seen.broke && seen.promised == None
    && if st.server.Listening? then
         && st.toServer != [] && st.toServer[0] == Req(StagePutRequest(size))
         && seen.request == None && seen.taken == 0 && !seen.spoiled && sent == Bytes(st.toServer[1..])
       else
         && st.server.Draining? && st.server.size == size && st.server.received == seen.taken
         && seen.request == Some(StagePutRequest(size)) && (st.server.stopped <==> GaveUp(seen)) && sent == seen.taken + Bytes(st.toServer)
  }

  predicate PutAnswered(st: State, seen: Seen, size: nat, source: seq<nat>) {
    && TakenWhole(seen, size, source) && st.toClient != [] && st.toClient[0].Resp?
    && var r := st.toClient[0].response;
       if GaveUp(seen) then r == ErrorResponse else r == StagePutResponse(seen.promised.value)
  }

  /** So much of a supplied file is still to come. */
  function Coming(st: State, fs: seq<Frame>): nat {
    Bytes(fs) + if st.server.Supplying? then Sum(st.server.chunks) else 0
  }

  predicate SimpleAnswered(st: State, seen: Seen, q: Request) {
    && seen.request == Some(q) && !seen.broke && st.toClient != [] && st.toClient[0].Resp?
    && var r := st.toClient[0].response;
       && (r == ErrorResponse <==> !ServedFinely(q, seen))
       && (q.SupplyRequest? && r != ErrorResponse ==> r == SupplyResponse(seen.size) && seen.supplied == Coming(st, st.toClient[1..]))
  }

  /** Where the controller is, by what has been seen. */
  predicate Kept(st: State, seen: Seen) {
    match st.client
    case Idle(last) => if seen.call.None? then last == NoCallYet else EndedAs(seen.call.value, last, seen)
    case Sending(source, written, size) =>
      && seen.call.Some? && seen.call.value.Put? && seen.call.value.size == size
      && Sum(seen.call.value.source) == written + Sum(source) && PutKept(st, seen, size, written)
    case Waiting(q) =>
      && seen.call.Some?
      && if q.StagePutRequest? then
           && seen.call.value.Put? && seen.call.value.size == q.size
           && if st.toClient == [] then PutKept(st, seen, q.size, Sum(seen.call.value.source))
              else PutAnswered(st, seen, q.size, seen.call.value.source)
         else
           && seen.call.value == Simple(q)
           && if st.toClient == [] then seen == UNSEEN.(call := seen.call) else SimpleAnswered(st, seen, q)
    case Receiving(limit, read) =>
      && seen.call == Some(Simple(SupplyRequest)) && seen.request == Some(SupplyRequest) && seen.fine && !seen.broke
      && limit == seen.size && read <= limit && seen.supplied == read + Coming(st, st.toClient)
    case Failed(why) => seen.call.Some? && FailedAs(seen.call.value, why, seen) && (seen.call.value.Simple? ==> st.toServer == [])
  }

  lemma StartKept(st: State, seen: Seen, call: Call)
    requires st.client.Idle? && Aligned(st) && Permitted(st, Start(call))
    ensures Kept(StartCall(st, call), Observe(seen, st, Start(call)))
  {
    var next := StartCall(st, call);
    assert forall f: Frame :: [] + [f] == [f];
    if call.Put? { assert next.toServer[1..] == []; }
  }

  lemma SendKept(st: State, seen: Seen, broken: bool)
    requires st.client.Sending? && Aligned(st) && Kept(st, seen)
    ensures Kept(SendSome(st, broken), Observe(seen, st, SendBody(broken)))
  {
    var c := st.client;
    if !broken && (c.source == [] || (c.source[0] != 0 && c.written + c.source[0] <= c.size)) {
      SentKept(st, seen, if c.source == [] then Eof else Data(c.source[0]));
    }
  }

  lemma SentKept(st: State, seen: Seen, f: Frame)
    requires st.client.Sending? && PutUnderway(st, false) && Kept(st, seen)
    requires var c := st.client;
             if c.source == [] then f == Eof else c.source[0] != 0 && c.written + c.source[0] <= c.size && f == Data(c.source[0])
    ensures SendSome(st, false).toServer == st.toServer + [f] && Kept(SendSome(st, false), seen)
  {
    MorePutKept(st, seen, st.client.size, st.client.written, f, SendSome(st, false).client);
  }

  lemma MorePutKept(st: State, seen: Seen, size: nat, sent: nat, f: Frame, client: Client)
    requires PutKept(st, seen, size, sent) && (f == Eof || (f.Data? && sent + f.size <= size))
    ensures PutKept(st.(toServer := st.toServer + [f], client := client), seen, size, sent + if f.Data? then f.size else 0)
  {
    if st.server.Listening? {
      assert (st.toServer + [f])[1..] == st.toServer[1..] + [f];
      BytesAppend(st.toServer[1..], f);
    } else {
      BytesAppend(st.toServer, f);
    }
  }

  lemma ReplyKept(st: State, seen: Seen, sinkBroken: bool)
    requires (st.client.Waiting? || st.client.Receiving?) && st.toClient != [] && Aligned(st) && Kept(st, seen)
    ensures Kept(TakeReply(st, sinkBroken), Observe(seen, st, ReadReply(sinkBroken)))
  {
    if st.client.Receiving? {
      BodyTail(st.toClient);
      assert Bytes(st.toClient) == (if st.toClient[0].Data? then st.toClient[0].size else 0) + Bytes(st.toClient[1..]);
    }
  }

  lemma ServeKept(st: State, seen: Seen, fine: bool, size: nat, chunks: seq<nat>)
    requires st.toServer != [] && (st.server.Listening? || st.server.Draining?) && Aligned(st) && Kept(st, seen)
    ensures Kept(TakeRequest(st, fine, size, chunks), Observe(seen, st, Serve(fine, size, chunks)))
  {
    if st.client.Failed? {
      ServeKeepsFailed(st, seen, fine, size, chunks);
    } else if st.server.Draining? {
      DrainKept(st, seen, fine, size, chunks);
    } else if st.toServer[0].Req? && st.toServer[0].request.StagePutRequest? {
      assert PutUnderway(st, st.client.Waiting?);
    } else {
      SimpleServedKept(st, seen, fine, size, chunks);
    }
  }

  lemma ServeKeepsFailed(st: State, seen: Seen, fine: bool, size: nat, chunks: seq<nat>)
    requires st.toServer != [] && (st.server.Listening? || st.server.Draining?) && Aligned(st) && Kept(st, seen) && st.client.Failed?
    ensures Kept(TakeRequest(st, fine, size, chunks), Observe(seen, st, Serve(fine, size, chunks)))
  {
    assert PutUnderway(st, false);
  }

  lemma DrainKept(st: State, seen: Seen, fine: bool, size: nat, chunks: seq<nat>)
    requires st.toServer != [] && st.server.Draining? && Aligned(st) && Kept(st, seen) && !st.client.Failed?
    ensures Kept(TakeRequest(st, fine, size, chunks), Observe(seen, st, Serve(fine, size, chunks)))
  {
    BodyTail(st.toServer);
    assert PutUnderway(st, st.client.Waiting?);
    assert Bytes(st.toServer) == (if st.toServer[0].Data? then st.toServer[0].size else 0) + Bytes(st.toServer[1..]);
    if st.toServer[0].Data? {
      ChunkKept(st, seen, st.server.size, if st.client.Sending? then st.client.written else Sum(seen.call.value.source), fine, size, chunks);
    }
  }

  lemma ChunkKept(st: State, seen: Seen, declared: nat, sent: nat, fine: bool, size: nat, chunks: seq<nat>)
    requires st.server.Draining? && st.toServer != [] && st.toServer[0].Data? && PutKept(st, seen, declared, sent)
    ensures PutKept(TakeRequest(st, fine, size, chunks), Observe(seen, st, Serve(fine, size, chunks)), declared, sent)
  {
    assert Bytes(st.toServer) == st.toServer[0].size + Bytes(st.toServer[1..]);
  }

  lemma SimpleServedKept(st: State, seen: Seen, fine: bool, size: nat, chunks: seq<nat>)
    requires st.toServer != [] && st.server.Listening? && Aligned(st) && Kept(st, seen) && !st.client.Failed? && !IsPut(st.toServer)
    ensures Kept(TakeRequest(st, fine, size, chunks), Observe(seen, st, Serve(fine, size, chunks)))
  {
    assert forall f: Frame :: [] + [f] == [f];
  }

  lemma SupplyKept(st: State, seen: Seen)
    requires st.server.Supplying? && Aligned(st) && Kept(st, seen)
    ensures Kept(SupplySome(st), seen)
  {
    if st.client.Receiving? {
      ComingStays(st, st.toClient);
    } else if st.client.Waiting? && !st.client.request.StagePutRequest? {
      AnsweredStays(st, seen, st.client.request);
    }
  }

  lemma AnsweredStays(st: State, seen: Seen, q: Request)
    requires st.server.Supplying? && SimpleAnswered(st, seen, q)
    ensures SimpleAnswered(SupplySome(st), seen, q)
  {
    var next := SupplySome(st);
    ComingStays(st, st.toClient[1..]);
    assert next.toClient[1..] == st.toClient[1..] + next.toClient[|st.toClient|..];
  }

  /** What is still to come of a file moves from the endpoint into the stream. */
  lemma ComingStays(st: State, fs: seq<Frame>)
    requires st.server.Supplying?
    ensures var next := SupplySome(st);
            && |st.toClient| <= |next.toClient| <= |st.toClient| + 1 && next.toClient[..|st.toClient|] == st.toClient
            && Coming(next, fs + next.toClient[|st.toClient|..]) == Coming(st, fs)
  {
    var chunks := st.server.chunks;
    var f := if chunks == [] then Eof else Data(chunks[0]);
    assert (st.toClient + [f])[|st.toClient|..] == [f];
    BytesAppend(fs, f);
    assert fs + [] == fs;
  }

  lemma StepKept(st: State, seen: Seen, s: Step)
    requires Aligned(st) && Kept(st, seen) && Permitted(st, s)
    ensures Kept(Next(st, s), Observe(seen, st, s))
  {
    match s {
      case Start(call) => StartKept(st, seen, call);
      case SendBody(broken) => SendKept(st, seen, broken);
      case ReadReply(sinkBroken) => ReplyKept(st, seen, sinkBroken);
      case Serve(fine, size, chunks) => ServeKept(st, seen, fine, size, chunks);
      case ServeBody => SupplyKept(st, seen);
      case Die =>
    }
  }

  lemma {:induction false} RunKept(states: seq<State>, steps: seq<Step>, k: nat)
    requires IsRun(states, steps) && k <= |steps|
    ensures Kept(states[k], SeenBy(states, steps, k))
  {
    if k > 0 {
      RunKept(states, steps, k - 1);
      RunAligned(states, steps, k - 1);
      StepKept(states[k - 1], SeenBy(states, steps, k - 1), steps[k - 1]);
    }
  }

  /**
   * Over whole runs, how every call ends: a put succeeds exactly when the endpoint had had its handshake, kept every byte
   * of it and found it as promised, ends with the wrong digest exactly when it was not, and with an error exactly when the
   * endpoint gave up; and whichever, it had taken all the source gave, within the size declared. Any other call succeeds
   * exactly when the endpoint did what it was asked, a supply only with all its bytes, within the size told. The connection
   * is given up only for a body that outgrew its size or that one end of broke.
   */
  lemma CallsEnd(states: seq<State>, steps: seq<Step>, k: nat)
    requires IsRun(states, steps) && k <= |steps| && SeenBy(states, steps, k).call.Some?
    ensures var st, seen := states[k], SeenBy(states, steps, k);
            && (st.client.Idle? ==> EndedAs(seen.call.value, st.client.last, seen))
            && (st.client.Failed? ==> FailedAs(seen.call.value, st.client.why, seen))
  {
    RunKept(states, steps, k);
  }

  /** The endpoint is ready exactly when it has served a handshake finely. */
  lemma {:induction false} ReadyExactly(states: seq<State>, steps: seq<Step>, k: nat)
    requires IsRun(states, steps) && k <= |steps|
    ensures states[k].ready <==> exists j :: 0 <= j < k && Welcomes(states[j], steps[j])
  {
    if k > 0 {
      ReadyExactly(states, steps, k - 1);
      ReadyStep(states[k - 1], steps[k - 1]);
      if states[k].ready && !states[k - 1].ready { assert Welcomes(states[k - 1], steps[k - 1]); }
    }
  }

  predicate Welcomes(st: State, s: Step) {
    s.Serve? && s.fine && st.server.Listening? && st.toServer != [] && st.toServer[0] == Req(HandshakeRequest)
  }

  lemma ReadyStep(st: State, s: Step)
    requires Enabled(st, s)
    ensures Next(st, s).ready <==> st.ready || Welcomes(st, s)
  {}

  // ---- before the handshake ------------------------------------------------------------------------------------

  /** What is in the stream after one simple call is served on an aligned connection, body aside. */
  function Served(st: State, q: Request, fine: bool, size: nat, chunks: seq<nat>): State
    requires st.client.Idle? && !q.StagePutRequest?
  {
    TakeRequest(StartCall(st, Simple(q)).(toServer := [Req(q)]), fine, size, chunks)
  }

  /**
   * A simple call gets exactly one response, whatever the endpoint's filesystem makes of it, if and only if the
   * endpoint has had its handshake or this is one.
   */
  lemma OneResponseExactly(st: State, q: Request)
    requires Aligned(st) && st.client.Idle? && !st.dead && !q.StagePutRequest?
    ensures (forall fine, size, chunks :: |Served(st, q, fine, size, chunks).toClient| == 1 && !Served(st, q, fine, size, chunks).dead)
            <==> st.ready || q.HandshakeRequest?
  {
    forall fine, size, chunks | st.ready || q.HandshakeRequest?
      ensures |Served(st, q, fine, size, chunks).toClient| == 1 && !Served(st, q, fine, size, chunks).dead
    {
      assert [Req(q)][0] == Req(q) && [Req(q)][1..] == [];
    }
    if !st.ready && !q.HandshakeRequest? {
      var s := Served(st, q, false, 0, []);
      assert [Req(q)][0] == Req(q) && [Req(q)][1..] == [];
      assert |s.toClient| != 1 || s.dead;
    }
  }

  /**
   * What an endpoint without a handshake sends for any other simple call: an error and then its answer as well, save that
   * a query for digests is the end of it after the error.
   */
  lemma UnreadyAnswers(st: State, q: Request, fine: bool, size: nat, chunks: seq<nat>)
    requires Aligned(st) && st.client.Idle? && !st.dead && !st.ready && !q.StagePutRequest? && !q.HandshakeRequest?
    ensures var after := Served(st, q, fine, size, chunks);
            && after.dead == (q == StageQueryRequest(true)) && !after.ready
            && after.toClient[0] == Resp(ErrorResponse) && |after.toClient| == (if after.dead then 1 else 2)
            && (!after.dead ==> after.toClient[1].Resp? && Answers(after.toClient[1].response, q)
                                && (after.toClient[1].response == ErrorResponse <==> !fine && (q.ScanRequest? || q.SupplyRequest?)))
  {
    assert [Req(q)][0] == Req(q) && [Req(q)][1..] == [];
  }

  /** A scan before any handshake, refused and then failing too, leaves a response behind that the next call would take for its own. */
  lemma UnreadyScanMisaligns()
    ensures var st := TakeReply(Served(INITIAL, ScanRequest, false, 0, []), false);
            st.client == Idle(EndpointError) && st.toClient == [Resp(ErrorResponse)]
  {
    assert [Req(ScanRequest)][0] == Req(ScanRequest) && [Req(ScanRequest)][1..] == [];
    assert ([Resp(ErrorResponse)] + [Resp(ErrorResponse)])[1..] == [Resp(ErrorResponse)];
  }
}
