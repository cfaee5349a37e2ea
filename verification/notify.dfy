/**
 * Waiting for a message: the waiting command, the goroutine that feeds it notifications, and the server,
 * interleaved in every order. The stream itself is taken not to fail.
 */
module Notify {

  type MessageId = nat

  const BUFFER_SIZE := 32

  /** What travels on the subscription. */
  datatype Event = Created(id: MessageId, onTarget: bool) | Unrelated

  datatype Waiter =
    | Subscribing
    | FirstFetch
    | Draining(drained: nat)
    | SecondFetch
    | Selecting
    | LoopFetch
    | Done(found: set<MessageId>)

  /**
   * `unread` are the target messages a fetch would return, `unannounced` the stored ones the server has yet to
   * notify of; then the stream, the notification the goroutine holds, and the channel it feeds.
   */
  datatype State = State(
    unread: set<MessageId>,
    unannounced: set<MessageId>,
    subscribed: bool,
    stream: seq<Event>,
    held: seq<MessageId>,
    channel: seq<MessageId>,
    waiter: Waiter)

  datatype Step =
    | Store(id: MessageId)
    | Announce(id: MessageId)
    | Bystander(event: Event)
    | ReadElsewhere(id: MessageId)
    | Receive
    | Push
    | Subscribe
    | Fetch
    | DrainOne
    | DrainEnd
    | Select

  predicate Enabled(st: State, s: Step) {
    match s
    case Store(id) => id !in st.unread && id !in st.unannounced
    case Announce(id) => id in st.unannounced
    case Bystander(event) => st.subscribed && !(event.Created? && event.onTarget)
    case ReadElsewhere(id) => id in st.unread
    case Receive => st.stream != [] && st.held == []
    case Push => st.held != [] && |st.channel| < BUFFER_SIZE
    case Subscribe => st.waiter.Subscribing?
    case Fetch => st.waiter.FirstFetch? || st.waiter.SecondFetch? || st.waiter.LoopFetch?
    case DrainOne => st.waiter.Draining? && st.channel != []
    case DrainEnd => st.waiter.Draining? && st.channel == []
    case Select => st.waiter.Selecting? && st.channel != []
  }

  function Next(st: State, s: Step): State
    requires Enabled(st, s)
  {
    match s
    // The server stores a message before it notifies of it, and notifies only whom it has a subscription for.
    case Store(id) => st.(unread := st.unread + {id}, unannounced := st.unannounced + {id})
    case Announce(id) =>
      st.(unannounced := st.unannounced - {id},
          stream := if st.subscribed then st.stream + [Created(id, true)] else st.stream)
    case Bystander(event) => st.(stream := st.stream + [event])
    case ReadElsewhere(id) => st.(unread := st.unread - {id})
    // The goroutine keeps what is about a target thread and drops the rest.
    case Receive =>
      var e := st.stream[0];
      st.(stream := st.stream[1..], held := if e.Created? && e.onTarget then [e.id] else [])
    case Push => st.(channel := st.channel + [st.held[0]], held := st.held[1..])
    case Subscribe => st.(subscribed := true, waiter := FirstFetch)
    case Fetch =>
      st.(waiter := if st.unread != {} then Done(st.unread) else if st.waiter.FirstFetch? then Draining(0) else Selecting)
    case DrainOne => st.(channel := st.channel[1..], waiter := Draining(st.waiter.drained + 1))
    case DrainEnd => st.(waiter := if st.waiter.drained > 0 then SecondFetch else Selecting)
    case Select => st.(channel := st.channel[1..], waiter := LoopFetch)
  }

  predicate Initial(st: State) {
    st.waiter.Subscribing? && !st.subscribed && st.stream == [] && st.held == [] && st.channel == []
  }

  /** A notification of `m` is still to come: unsent, in flight, held, or buffered. */
  predicate OnItsWay(st: State, m: MessageId) {
    m in st.unannounced || Created(m, true) in st.stream || m in st.held || m in st.channel
  }

  predicate WillFetch(w: Waiter) {
    w.Subscribing? || w.FirstFetch? || w.SecondFetch? || w.LoopFetch? || (w.Draining? && w.drained > 0)
  }

  /** No message is lost: every unread one is on its way, or a fetch is, or the wait is over. */
  ghost predicate Safe(st: State) {
    && |st.held| <= 1
    && (st.subscribed <==> !st.waiter.Subscribing?)
    && (WillFetch(st.waiter) || st.waiter.Done? || forall m | m in st.unread :: OnItsWay(st, m))
    && (st.waiter.Done? ==> st.waiter.found != {})
  }

  lemma StepSafe(st: State, s: Step)
    requires Safe(st) && Enabled(st, s)
    ensures Safe(Next(st, s))
  {
    var next := Next(st, s);
    if !WillFetch(next.waiter) && !next.waiter.Done? {
      forall m | m in next.unread ensures OnItsWay(next, m) {
        if m in st.unread && OnItsWay(st, m) {
          StillOnItsWay(st, s, m);
        }
      }
    }
  }

  /** A notification moves along; it disappears only into a waiter that is about to fetch. */
  lemma StillOnItsWay(st: State, s: Step, m: MessageId)
    requires Enabled(st, s) && |st.held| <= 1 && OnItsWay(st, m) && st.subscribed
    ensures OnItsWay(Next(st, s), m) || s.DrainOne? || s.Select?
  {
    var next := Next(st, s);
    match s {
      case Announce(id) => assert next.stream[|st.stream|] == Created(id, true);
      case Bystander(e) =>
        if Created(m, true) in st.stream {
          var k :| 0 <= k < |st.stream| && st.stream[k] == Created(m, true);
          assert next.stream[k] == Created(m, true);
        }
      case Receive =>
        if Created(m, true) in st.stream { assert st.stream[0] == Created(m, true) || Created(m, true) in st.stream[1..]; }
      case Push =>
        if m in st.held { assert next.channel[|st.channel|] == m; }
      case _ =>
    }
  }

  ghost predicate IsRun(states: seq<State>, steps: seq<Step>) {
    && |states| == |steps| + 1 && Initial(states[0])
    && forall i | 0 <= i < |steps| :: Enabled(states[i], steps[i]) && states[i + 1] == Next(states[i], steps[i])
  }

  lemma {:induction false} RunSafe(states: seq<State>, steps: seq<Step>, k: nat)
    requires IsRun(states, steps) && k <= |steps|
    ensures Safe(states[k])
  {
    if k > 0 {
      RunSafe(states, steps, k - 1);
      StepSafe(states[k - 1], steps[k - 1]);
    }
  }

  /**
   * No lost wakeup: in every reachable state in which the waiter blocks in select, each unread message has its own
   * notification still to come: not yet sent, in the stream, held by the goroutine, or in the channel.
   */
  lemma NoLostWakeup(states: seq<State>, steps: seq<Step>, k: nat)
    requires IsRun(states, steps) && k <= |steps|
    requires states[k].waiter.Selecting?
    ensures forall m | m in states[k].unread :: OnItsWay(states[k], m)
  {
    RunSafe(states, steps, k);
  }

  // ---- what it returns -----------------------------------------------------------------------------------------

  /** The message was unread at the start or stored later, and not read elsewhere since. */
  ghost predicate Outstanding(states: seq<State>, steps: seq<Step>, k: nat, m: MessageId)
    requires k <= |steps| == |states| - 1
  {
    || (m in states[0].unread && ReadElsewhere(m) !in steps[..k])
    || exists i :: 0 <= i < k && steps[i] == Store(m) && ReadElsewhere(m) !in steps[i..k]
  }

  /** What is unread is what is outstanding, and nothing else. */
  lemma {:induction false} UnreadExactly(states: seq<State>, steps: seq<Step>, k: nat, m: MessageId)
    requires IsRun(states, steps) && k <= |steps|
    ensures m in states[k].unread <==> Outstanding(states, steps, k, m)
  {
    if k > 0 {
      UnreadExactly(states, steps, k - 1, m);
      OutstandingStep(states, steps, k, m);
    }
  }

  lemma OutstandingStep(states: seq<State>, steps: seq<Step>, k: nat, m: MessageId)
    requires 0 < k <= |steps| == |states| - 1
    ensures Outstanding(states, steps, k, m) <==>
            steps[k - 1] == Store(m) || (steps[k - 1] != ReadElsewhere(m) && Outstanding(states, steps, k - 1, m))
  {
    var s := steps[k - 1];
    SinceStep(steps, 0, k, m);
    assert steps[0..k] == steps[..k] && steps[0..k - 1] == steps[..k - 1];
    if s == Store(m) {
      assert steps[k - 1..k] == [s];
    } else {
      forall i | 0 <= i < k - 1 ensures ReadElsewhere(m) in steps[i..k] <==> s == ReadElsewhere(m) || ReadElsewhere(m) in steps[i..k - 1] {
        SinceStep(steps, i, k, m);
      }
    }
  }

  lemma SinceStep(steps: seq<Step>, i: nat, k: nat, m: MessageId)
    requires i < k <= |steps|
    ensures ReadElsewhere(m) in steps[i..k] <==> steps[k - 1] == ReadElsewhere(m) || ReadElsewhere(m) in steps[i..k - 1]
  {
    assert steps[i..k] == steps[i..k - 1] + [steps[k - 1]];
  }

  /**
   * The wait ends with exactly what was unread when it ended, nothing more, nothing less and never nothing: each message
   * it returns was unread at the start or stored since, and not read elsewhere in between.
   */
  lemma WaitReturnsUnread(states: seq<State>, steps: seq<Step>, k: nat)
    requires IsRun(states, steps) && k < |steps| && states[k + 1].waiter.Done? && !states[k].waiter.Done?
    ensures states[k + 1].waiter.found == states[k].unread != {}
    ensures forall m :: m in states[k + 1].waiter.found <==> Outstanding(states, steps, k, m)
  {
    RunSafe(states, steps, k + 1);
    forall m ensures m in states[k].unread <==> Outstanding(states, steps, k, m) { UnreadExactly(states, steps, k, m); }
  }

  /** And what it has returned stays returned. */
  lemma {:induction false} ReturnedStays(states: seq<State>, steps: seq<Step>, j: nat, k: nat)
    requires IsRun(states, steps) && j <= k <= |steps| && states[j].waiter.Done?
    ensures states[k].waiter == states[j].waiter
    decreases k
  {
    if j < k { ReturnedStays(states, steps, j, k - 1); }
  }

  /** A waiter that has taken a notification and not fetched since. */
  predicate Owing(w: Waiter) {
    (w.Draining? && w.drained > 0) || w.SecondFetch? || w.LoopFetch?
  }

  lemma {:induction false} OwesFetch(states: seq<State>, steps: seq<Step>, j: nat, k: nat)
    requires IsRun(states, steps) && j < k <= |steps| && (steps[j].DrainOne? || steps[j].Select?)
    requires forall i | j < i < k :: !steps[i].Fetch?
    ensures Owing(states[k].waiter)
    decreases k
  {
    if j < k - 1 { OwesFetch(states, steps, j, k - 1); }
  }

  /** After taking a notification the waiter fetches before it blocks or ends. */
  lemma TakingIsFetched(states: seq<State>, steps: seq<Step>, j: nat, k: nat)
    requires IsRun(states, steps) && j < k <= |steps| && (steps[j].DrainOne? || steps[j].Select?)
    requires states[k].waiter.Selecting? || states[k].waiter.Done?
    ensures exists i :: j < i < k && steps[i].Fetch?
  {
    if forall i | j < i < k :: !steps[i].Fetch? { OwesFetch(states, steps, j, k); }
  }

  /** And it blocks only after it has fetched once and then drained the channel until it found it empty. */
  lemma {:induction false} BlocksHavingDrained(states: seq<State>, steps: seq<Step>, k: nat)
    requires IsRun(states, steps) && k <= |steps|
    requires states[k].waiter.Selecting? || states[k].waiter.SecondFetch? || states[k].waiter.LoopFetch?
    ensures exists i, j :: 0 <= i < j < k && steps[i].Fetch? && steps[j].DrainEnd? && states[j].channel == []
  {
    if states[k - 1].waiter.Draining? {
      if steps[k - 1].DrainEnd? {
        var i := FetchedBefore(states, steps, k - 1);
        assert steps[i].Fetch? && steps[k - 1].DrainEnd?;
      }
    } else {
      BlocksHavingDrained(states, steps, k - 1);
    }
  }

  lemma {:induction false} FetchedBefore(states: seq<State>, steps: seq<Step>, k: nat) returns (i: nat)
    requires IsRun(states, steps) && k <= |steps| && states[k].waiter.Draining?
    ensures i < k && steps[i].Fetch?
  {
    if states[k - 1].waiter.Draining? { i := FetchedBefore(states, steps, k - 1); } else { i := k - 1; }
  }

  // ---- what notifications it takes --------------------------------------------------------------------------

  /** The ids of the notifications about a target thread, in order. */
  function Targets(events: seq<Event>): seq<MessageId> {
    if events == [] then []
    else (if events[0].Created? && events[0].onTarget then [events[0].id] else []) + Targets(events[1..])
  }

  lemma {:induction false} TargetsConcat(a: seq<Event>, b: seq<Event>)
    ensures Targets(a + b) == Targets(a) + Targets(b)
  {
    if a == [] { assert a + b == b; } else { assert (a + b)[1..] == a[1..] + b; TargetsConcat(a[1..], b); }
  }

  /** What the server has notified the subscriber of, about its threads, by a step. */
  ghost function Notified(states: seq<State>, steps: seq<Step>, k: nat): seq<MessageId>
    requires k <= |steps| == |states| - 1
  {
    if k == 0 then []
    else Notified(states, steps, k - 1) + if steps[k - 1].Announce? && states[k - 1].subscribed then [steps[k - 1].id] else []
  }

  /** What the waiter has taken from the channel. */
  ghost function Taken(states: seq<State>, steps: seq<Step>, k: nat): seq<MessageId>
    requires k <= |steps| == |states| - 1
  {
    if k == 0 then []
    else Taken(states, steps, k - 1)
         + if (steps[k - 1].DrainOne? || steps[k - 1].Select?) && states[k - 1].channel != [] then states[k - 1].channel[..1] else []
  }

  /** Between server and waiter: taken, in the channel, in hand, in the stream. */
  function Line(taken: seq<MessageId>, channel: seq<MessageId>, held: seq<MessageId>, stream: seq<Event>): seq<MessageId> {
    taken + channel + held + Targets(stream)
  }

  lemma LineGrows(taken: seq<MessageId>, channel: seq<MessageId>, held: seq<MessageId>, stream: seq<Event>, e: Event)
    ensures Line(taken, channel, held, stream + [e]) == Line(taken, channel, held, stream) + Targets([e])
    ensures Targets([e]) == if e.Created? && e.onTarget then [e.id] else []
  {
    TargetsConcat(stream, [e]);
    assert [e][1..] == [] && Targets([]) == [];
  }

  lemma LineMoves(taken: seq<MessageId>, channel: seq<MessageId>, held: seq<MessageId>, stream: seq<Event>)
    ensures held == [] && stream != [] ==>
              Line(taken, channel, Targets(stream[..1]), stream[1..]) == Line(taken, channel, held, stream)
    ensures held != [] ==> Line(taken, channel + [held[0]], held[1..], stream) == Line(taken, channel, held, stream)
    ensures channel != [] ==> Line(taken + channel[..1], channel[1..], held, stream) == Line(taken, channel, held, stream)
  {
    if stream != [] {
      TargetsConcat(stream[..1], stream[1..]);
      assert stream[..1] + stream[1..] == stream;
    }
    if held != [] { assert [held[0]] + held[1..] == held; }
    if channel != [] { assert channel[..1] + channel[1..] == channel; }
  }

  ghost function LineIn(taken: seq<MessageId>, st: State): seq<MessageId> {
    Line(taken, st.channel, st.held, st.stream)
  }

  lemma LineGoesOn(st: State, s: Step, taken: seq<MessageId>)
    requires Enabled(st, s) && |st.held| <= 1
    ensures var more := if s.DrainOne? || s.Select? then st.channel[..1] else [];
            LineIn(taken + more, Next(st, s)) == LineIn(taken, st) + if s.Announce? && st.subscribed then [s.id] else []
  {
    LineMoves(taken, st.channel, st.held, st.stream);
    assert taken + [] == taken && LineIn(taken, st) + [] == LineIn(taken, st);
    if s.Announce? { LineGrows(taken, st.channel, st.held, st.stream, Created(s.id, true)); }
    if s.Bystander? { LineGrows(taken, st.channel, st.held, st.stream, s.event); }
    if s.Receive? { assert Targets(st.stream[..1]) == Next(st, s).held by { FirstTarget(st.stream); } }
  }

  lemma FirstTarget(stream: seq<Event>)
    requires stream != []
    ensures Targets(stream[..1]) == if stream[0].Created? && stream[0].onTarget then [stream[0].id] else []
  {
    assert stream[..1][1..] == [] && Targets([]) == [];
  }

  /**
   * In every run the waiter takes exactly the notifications about its own threads, in the order they were sent, none lost,
   * none twice and none of anybody else's; those it has not taken are on their way, and the goroutine holds one back only
   * while the channel is full.
   */
  lemma {:induction false} TakenInOrder(states: seq<State>, steps: seq<Step>, k: nat)
    requires IsRun(states, steps) && k <= |steps|
    ensures Notified(states, steps, k) == LineIn(Taken(states, steps, k), states[k]) && |states[k].channel| <= 32
    ensures states[k].held != [] && !Enabled(states[k], Push) ==> |states[k].channel| == 32
  {
    if k > 0 {
      TakenInOrder(states, steps, k - 1);
      RunSafe(states, steps, k - 1);
      LineGoesOn(states[k - 1], steps[k - 1], Taken(states, steps, k - 1));
    }
  }

  ghost function Fetches(steps: seq<Step>, k: nat): nat
    requires k <= |steps|
  {
    if k == 0 then 0 else Fetches(steps, k - 1) + if steps[k - 1].Fetch? then 1 else 0
  }

  /** It fetches once, and after that only for what it has taken. */
  lemma {:induction false} FetchesForCause(states: seq<State>, steps: seq<Step>, k: nat)
    requires IsRun(states, steps) && k <= |steps|
    ensures Fetches(steps, k) <= 1 + |Taken(states, steps, k)|
    ensures Owing(states[k].waiter) ==> Fetches(steps, k) < 1 + |Taken(states, steps, k)|
    ensures states[k].waiter.Subscribing? || states[k].waiter.FirstFetch? ==> Fetches(steps, k) == 0 && Taken(states, steps, k) == []
  {
    if k > 0 { FetchesForCause(states, steps, k - 1); }
  }

  // ---- and it ends --------------------------------------------------------------------------------------------

  /** Steps of the machinery itself, not of senders, readers or other traffic. */
  predicate Internal(s: Step) {
    !s.Store? && !s.Bystander? && !s.ReadElsewhere?
  }

  function Pending(w: Waiter): nat {
    match w
    case Subscribing => 6
    case FirstFetch => 5
    case Draining(_) => 4
    case SecondFetch => 3
    case LoopFetch => 2
    case Selecting => 1
    case Done(_) => 0
  }

  /** The work left in the machinery. */
  function Work(st: State): nat {
    5 * |st.unannounced| + 4 * |st.stream| + 3 * |st.held| + 2 * |st.channel| + Pending(st.waiter)
  }

  lemma InternalStepsFinish(st: State, s: Step)
    requires Safe(st) && Enabled(st, s) && Internal(s)
    ensures Work(Next(st, s)) < Work(st)
  {}

  /** When the machinery can do no more, the wait is over or there is nothing to wait for. */
  lemma StuckMeansOver(st: State)
    requires Safe(st) && forall s | Internal(s) :: !Enabled(st, s)
    ensures st.waiter.Done? || (st.waiter.Selecting? && st.unread == {})
  {
    assert !Enabled(st, Subscribe) && !Enabled(st, Fetch) && !Enabled(st, DrainOne) && !Enabled(st, DrainEnd) && !Enabled(st, Select);
    assert !Enabled(st, Receive) && !Enabled(st, Push);
    forall id ensures id !in st.unannounced { assert !Enabled(st, Announce(id)); }
    if st.waiter.Selecting? {
      assert st.channel == [] && st.held == [] && st.stream == [];
      forall m ensures m !in st.unread { assert !OnItsWay(st, m); }
    }
  }

  /** A run of the machinery alone. */
  ghost predicate InternalRun(states: seq<State>, steps: seq<Step>) {
    && |states| == |steps| + 1
    && forall i | 0 <= i < |steps| :: Internal(steps[i]) && Enabled(states[i], steps[i]) && states[i + 1] == Next(states[i], steps[i])
  }

  lemma {:induction false} InternalRunShrinks(states: seq<State>, steps: seq<Step>, k: nat)
    requires InternalRun(states, steps) && Safe(states[0]) && k <= |steps|
    ensures Safe(states[k]) && states[k].unread == states[0].unread && Work(states[k]) + k <= Work(states[0])
  {
    if k > 0 {
      InternalRunShrinks(states, steps, k - 1);
      StepSafe(states[k - 1], steps[k - 1]);
      InternalStepsFinish(states[k - 1], steps[k - 1]);
    }
  }

  /** The wait, over a run of the machinery alone, ends with what was unread all along. */
  lemma {:induction false} InternalRunReturns(states: seq<State>, steps: seq<Step>, k: nat)
    requires InternalRun(states, steps) && Safe(states[0]) && !states[0].waiter.Done? && k <= |steps|
    ensures states[k].waiter.Done? ==> states[k].waiter.found == states[0].unread
  {
    if k > 0 {
      InternalRunReturns(states, steps, k - 1);
      InternalRunShrinks(states, steps, k - 1);
    }
  }

  /**
   * Left to itself from any safe state with a message unread, the machinery delivers, in whatever order its steps
   * come: every run of them is bounded, and one that can go no further has returned exactly the unread messages.
   */
  lemma MaximalRunDelivers(states: seq<State>, steps: seq<Step>)
    requires InternalRun(states, steps) && Safe(states[0]) && states[0].unread != {}
    ensures |steps| <= Work(states[0])
    ensures var last := states[|steps|];
            (forall s | Internal(s) :: !Enabled(last, s)) ==>
              last.waiter.Done? && (!states[0].waiter.Done? ==> last.waiter.found == states[0].unread)
  {
    InternalRunShrinks(states, steps, |steps|);
    var last := states[|steps|];
    if forall s | Internal(s) :: !Enabled(last, s) {
      StuckMeansOver(last);
      if !states[0].waiter.Done? { InternalRunReturns(states, steps, |steps|); }
    }
  }
}
