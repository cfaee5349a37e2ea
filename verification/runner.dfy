/** What drives a session: dial, cycle until something breaks, then halt, pause or back off. */
module Runner {
  import opened Lists
  import opened Entries
  import opened Cycle
  import opened Guard
  import opened HaltNote
  import Snapshot

  // ---- times, in nanoseconds ----------------------------------------------------------------------------

  const SECOND := 1_000_000_000
  const MIN_BACKOFF := SECOND
  const MAX_BACKOFF := 60 * SECOND
  const PAUSED_POLL := 30 * SECOND

  // ---- what the world answers -----------------------------------------------------------------------------

  datatype SandboxState = Running | StoppedState | Hibernated | Terminated

  datatype Halting = Halting(reason: HaltReason, detail: string)

  datatype CycleAnswer = Good(conflicts: nat) | Bad | Stop(halting: Halting)

  datatype DialAnswer = Connected(cycles: seq<CycleAnswer>, diagnostics: string) | NoConnection

  /**
   * One turn of the outer loop: what dialling and the cycles on the connection came to, what the platform then said
   * of the sandbox, and the random number drawn. A connection whose cycles all went well was cancelled.
   */
  datatype Round = Round(dial: DialAnswer, sandbox: Option<SandboxState>, random: nat)

  datatype Status = Idle | Paused | Halted

  datatype Event =
    | Dialed(connected: bool)
    | Cycled
    | Waited(delay: nat)
    | Polled(delay: nat)
    | Marked(status: Status, note: string)

  /** `note` is what the stored state says of the halt. */
  datatype End = Cancelled | HaltedFor(halting: Halting, note: string)

  function ReasonText(r: HaltReason): string {
    match r
    case RootReplaced => "root-replaced"
    case ContentLost => CONTENT_LOSS
    case SandboxGone => "sandbox-terminated"
    case VersionGap => "version-gap"
  }

  // ---- what a run comes to ------------------------------------------------------------------------------------

  /** How an attachment ends: cancelled, or with an error that may be a halt. */
  datatype Attached = Over | Broken | Ended(halting: Halting)

  /**
   * The first cycle that does not go well ends it. If that is the connection's very first, and the endpoint has written
   * anything at all, it is taken to have refused to start, whatever the cycle failed with and however far it came.
   */
  function Attachment(cycles: seq<CycleAnswer>, diagnostics: string, first: bool): Attached {
    if cycles == [] then Over
    else if cycles[0].Good? then Attachment(cycles[1..], diagnostics, false)
    else if first && diagnostics != "" then
      Ended(RefusedToStart(diagnostics))
    else if cycles[0].Stop? then Ended(cycles[0].halting)
    else Broken
  }

  lemma AttachmentStep(cycles: seq<CycleAnswer>, diagnostics: string, first: bool, i: nat)
    requires i < |cycles|
    ensures Attachment(cycles[i..], diagnostics, first) ==
            if cycles[i].Good? then Attachment(cycles[i + 1..], diagnostics, false)
            else if first && diagnostics != "" then Ended(RefusedToStart(diagnostics))
            else if cycles[i].Stop? then Ended(cycles[i].halting)
            else Broken
  {
    assert cycles[i..][0] == cycles[i] && cycles[i..][1..] == cycles[i + 1..];
  }

  function AttachmentOf(dial: DialAnswer): Attached {
    match dial
    case NoConnection => Broken
    case Connected(cycles, diagnostics) => Attachment(cycles, diagnostics, true)
  }

  function RefusedToStart(diagnostics: string): Halting {
    Halting(VersionGap, "the in-sandbox endpoint refused to start: " + diagnostics)
  }

  const GONE := Halting(SandboxGone, "the sandbox was terminated")

  /** Whether a turn ends the run, and how. */
  function Ending(r: Round): Option<End> {
    match AttachmentOf(r.dial)
    case Over => Some(Cancelled)
    case Ended(halting) => Some(HaltedFor(halting, Note(ReasonText(halting.reason), halting.detail)))
    case Broken => if r.sandbox == Some(Terminated) then Some(HaltedFor(GONE, GONE.detail)) else None
  }

  function EndOf(rounds: seq<Round>): End {
    if rounds == [] then Cancelled
    else if Ending(rounds[0]).Some? then Ending(rounds[0]).value
    else EndOf(rounds[1..])
  }

  // ---- pacing, read off the log ---------------------------------------------------------------------------------

  function Power(n: nat): nat {
    if n == 0 then 1 else 2 * Power(n - 1)
  }

  function Min(a: nat, b: nat): nat {
    if a <= b then a else b
  }

  /** Waits in a row: those since the last connection or pause. */
  function Streak(log: seq<Event>): nat {
    if log == [] then 0
    else
      var last, rest := log[|log| - 1], log[..|log| - 1];
      if last == Dialed(true) || last.Polled? then 0
      else if last.Waited? then Streak(rest) + 1
      else Streak(rest)
  }

  /** The backoff behind the n-th wait in a row. */
  function Backoff(n: nat): nat {
    if n == 0 then 0 else Min(Power(n - 1) * SECOND, MAX_BACKOFF)
  }

  /** Every wait lies between half its backoff and the whole, and every paused poll is as long as polls are. */
  ghost predicate Paced(log: seq<Event>) {
    forall i | 0 <= i < |log| :: InPace(log[i], log[..i])
  }

  /** A wait fits its backoff, and a paused poll is half a minute off. */
  predicate InPace(e: Event, log: seq<Event>) {
    (e.Waited? ==> FitsBackoff(e.delay, log)) && (e.Polled? ==> e.delay == PAUSED_POLL)
  }

  predicate FitsBackoff(delay: nat, log: seq<Event>) {
    var b := Backoff(Streak(log) + 1);
    b / 2 <= delay < b
  }

  /** Every dial but the first comes right after a wait or a paused poll. */
  ghost predicate Spaced(log: seq<Event>) {
    forall i | 0 < i < |log| && log[i].Dialed? :: log[i - 1].Waited? || log[i - 1].Polled?
  }

  predicate IsHalt(e: Event) {
    e.Marked? && e.status.Halted?
  }

  ghost predicate HasHalt(log: seq<Event>) {
    exists e :: e in log && IsHalt(e)
  }

  lemma HaltIsIn(log: seq<Event>, e: Event)
    requires IsHalt(e)
    ensures HasHalt(log + [e])
  {
    assert (log + [e])[|log|] == e;
  }

  lemma NoHaltMore(log: seq<Event>, e: Event)
    requires !HasHalt(log) && !IsHalt(e)
    ensures !HasHalt(log + [e])
  {
    forall x | x in log + [e] ensures !IsHalt(x) { assert x in log || x == e; }
  }

  /** Nothing follows a halt. */
  ghost predicate HaltIsLast(log: seq<Event>) {
    forall i | 0 <= i < |log| && IsHalt(log[i]) :: i == |log| - 1
  }

  lemma {:induction false} PowerGrows(n: nat)
    ensures Power(n) >= 1 && (n >= 6 ==> Power(n) >= 64)
  {
    if n > 6 { PowerGrows(n - 1); } else if n > 0 { PowerGrows(n - 1); }
  }

  /** Doubling and capping, from nothing, gives the capped powers. */
  lemma BackoffDoubles(n: nat)
    ensures var b := Backoff(n);
            Backoff(n + 1) == if b == 0 then MIN_BACKOFF else Min(2 * b, MAX_BACKOFF)
    ensures n > 0 ==> MIN_BACKOFF <= Backoff(n) <= MAX_BACKOFF
  {
    PowerGrows(n);
    if n > 0 { PowerGrows(n - 1); }
  }

  lemma PacedMore(log: seq<Event>, e: Event)
    requires Paced(log) && InPace(e, log)
    ensures Paced(log + [e])
  {
    var all := log + [e];
    assert all[..|log|] == log;
    forall i | 0 <= i < |all| ensures InPace(all[i], all[..i]) {
      if i < |log| { assert all[..i] == log[..i]; }
    }
  }

  lemma StreakMore(log: seq<Event>, e: Event)
    ensures Streak(log + [e]) == if e == Dialed(true) || e.Polled? then 0 else if e.Waited? then Streak(log) + 1 else Streak(log)
  {
    assert (log + [e])[..|log|] == log;
  }

  /** Ready to dial: at the start, or right after a wait or a poll. */
  predicate Rested(log: seq<Event>) {
    log == [] || log[|log| - 1].Waited? || log[|log| - 1].Polled?
  }

  /** A log that has not come to a halt. */
  ghost predicate Going(log: seq<Event>) {
    Paced(log) && Spaced(log) && !HasHalt(log)
  }

  lemma GoesOn(log: seq<Event>, e: Event)
    requires Going(log) && !IsHalt(e) && (e.Dialed? ==> Rested(log))
    requires InPace(e, log)
    ensures Going(log + [e])
    ensures Streak(log + [e]) == if e == Dialed(true) || e.Polled? then 0 else if e.Waited? then Streak(log) + 1 else Streak(log)
  {
    PacedMore(log, e);
    StreakMore(log, e);
    NoHaltMore(log, e);
    var all := log + [e];
    forall i | 0 < i < |all| && all[i].Dialed? ensures all[i - 1].Waited? || all[i - 1].Polled? {
      if i < |log| { assert log[i].Dialed?; }
    }
  }

  lemma HaltEnds(log: seq<Event>, e: Event)
    requires Going(log) && IsHalt(e)
    ensures Paced(log + [e]) && Spaced(log + [e]) && HaltIsLast(log + [e])
  {
    var all := log + [e];
    PacedMore(log, e);
    forall i | 0 < i < |all| && all[i].Dialed? ensures all[i - 1].Waited? || all[i - 1].Polled? {
      assert log[i].Dialed?;
    }
    assert forall i | 0 <= i < |log| :: log[i] in log;
  }

  // ---- what a run records ---------------------------------------------------------------------------------------------

  /** The log, lengths of waits left out. */
  function Erase(log: seq<Event>): (r: seq<Event>)
    ensures |r| == |log|
  {
    seq(|log|, i requires 0 <= i < |log| => Erased(log[i]))
  }

  function Erased(e: Event): Event {
    if e.Waited? then Waited(0) else e
  }

  /** What was recorded since. */
  predicate Traced(before: seq<Event>, events: seq<Event>, log: seq<Event>) {
    Erase(log) == Erase(before) + events
  }

  lemma TracedNothing(log: seq<Event>)
    ensures Traced(log, [], log)
  {}

  lemma TracedMore(before: seq<Event>, events: seq<Event>, log: seq<Event>, e: Event)
    requires Traced(before, events, log)
    ensures Traced(before, events + [Erased(e)], log + [e])
  {
    assert Erase(log + [e]) == Erase(log) + [Erased(e)];
  }

  lemma TracedOn(before: seq<Event>, a: seq<Event>, mid: seq<Event>, b: seq<Event>, log: seq<Event>)
    requires Traced(before, a, mid) && Traced(mid, b, log)
    ensures Traced(before, a + b, log)
  {}

  const CONFLICTS_NOTE := "conflicts need resolving"

  /** Every cycle, up to and with the first that does not go well; each that goes well says whether conflicts are left. */
  function CycleEvents(cycles: seq<CycleAnswer>): seq<Event> {
    if cycles == [] then []
    else OneCycleEvents(cycles[0]) + if cycles[0].Good? then CycleEvents(cycles[1..]) else []
  }

  function OneCycleEvents(cycle: CycleAnswer): seq<Event> {
    if !cycle.Good? then [Cycled]
    else [Cycled, Marked(Idle, if cycle.conflicts == 0 then "" else CONFLICTS_NOTE)]
  }

  function AttachEvents(dial: DialAnswer): seq<Event> {
    match dial
    case NoConnection => [Dialed(false)]
    case Connected(cycles, _) => [Dialed(true), Marked(Idle, "")] + CycleEvents(cycles)
  }

  /** A turn that broke with the sandbox there but not running. */
  predicate PausesFor(r: Round) {
    AttachmentOf(r.dial).Broken? && (r.sandbox == Some(StoppedState) || r.sandbox == Some(Hibernated))
  }

  function PauseNote(r: Round): string {
    if r.sandbox == Some(Hibernated) then "the sandbox is hibernated" else "the sandbox is stopped"
  }

  /** The note tells a stopped sandbox from a hibernated one. */
  lemma PausesAreTold(a: Round, b: Round)
    requires PausesFor(a) && PausesFor(b)
    ensures PauseNote(a) == PauseNote(b) <==> a.sandbox == b.sandbox
  {
    assert "the sandbox is hibernated"[15] != "the sandbox is stopped"[15];
  }

  /** A turn that broke and neither halts nor pauses. */
  predicate WaitsAfter(r: Round) {
    AttachmentOf(r.dial).Broken? && !PausesFor(r) && r.sandbox != Some(Terminated)
  }

  function SettleEvents(r: Round): seq<Event> {
    if WaitsAfter(r) then [Waited(0)]
    else if PausesFor(r) then [Marked(Paused, PauseNote(r)), Polled(PAUSED_POLL)]
    else if Ending(r).Some? && Ending(r).value.HaltedFor? then [Marked(Halted, Ending(r).value.note)]
    else []
  }

  /** Everything a run records: of each turn its dial, its cycles, and what came of it, until one ends the run. */
  function RunEvents(rounds: seq<Round>): seq<Event> {
    if rounds == [] then []
    else
      AttachEvents(rounds[0].dial) + SettleEvents(rounds[0]) + (if Ending(rounds[0]).Some? then [] else RunEvents(rounds[1..]))
  }

  /** The turns a run comes to. */
  function Reached(rounds: seq<Round>): seq<Round> {
    if rounds == [] then []
    else [rounds[0]] + if Ending(rounds[0]).Some? then [] else Reached(rounds[1..])
  }

  function Counted<T(!new)>(s: seq<T>, which: T -> bool): nat {
    if s == [] then 0 else (if which(s[0]) then 1 else 0) + Counted(s[1..], which)
  }

  lemma {:induction false} CountedConcat<T(!new)>(a: seq<T>, b: seq<T>, which: T -> bool)
    ensures Counted(a + b, which) == Counted(a, which) + Counted(b, which)
  {
    if a == [] {
      assert a + b == b;
    } else {
      assert (a + b)[1..] == a[1..] + b;
      CountedConcat(a[1..], b, which);
    }
  }

  predicate IsPoll(e: Event) { e.Polled? }

  predicate IsWait(e: Event) { e.Waited? }

  lemma {:induction false} CyclesNeitherPollNorWait(cycles: seq<CycleAnswer>)
    ensures Counted(CycleEvents(cycles), IsPoll) == 0 && Counted(CycleEvents(cycles), IsWait) == 0
  {
    if cycles != [] {
      var head, rest := OneCycleEvents(cycles[0]), if cycles[0].Good? then CycleEvents(cycles[1..]) else [];
      CyclesNeitherPollNorWait(cycles[1..]);
      CountedConcat(head, rest, IsPoll);
      CountedConcat(head, rest, IsWait);
      if cycles[0].Good? { TwoEvents(head[0], head[1]); } else { assert [Cycled][1..] == []; }
    }
  }

  lemma TwoEvents(a: Event, b: Event)
    ensures Counted([a, b], IsPoll) == (if a.Polled? then 1 else 0) + (if b.Polled? then 1 else 0)
    ensures Counted([a, b], IsWait) == (if a.Waited? then 1 else 0) + (if b.Waited? then 1 else 0)
  {
    var s := [a, b];
    assert s[0] == a && s[1..] == [b] && [b][1..] == [];
    assert Counted(s, IsPoll) == (if IsPoll(a) then 1 else 0) + Counted([b], IsPoll);
    assert Counted(s, IsWait) == (if IsWait(a) then 1 else 0) + Counted([b], IsWait);
  }

  lemma TurnPollsAndWaits(r: Round)
    ensures Counted(AttachEvents(r.dial), IsPoll) == 0 && Counted(AttachEvents(r.dial), IsWait) == 0
    ensures Counted(SettleEvents(r), IsPoll) == if PausesFor(r) then 1 else 0
    ensures Counted(SettleEvents(r), IsWait) == if WaitsAfter(r) then 1 else 0
  {
    assert [Dialed(false)][1..] == [] && [Waited(0)][1..] == [];
    TwoEvents(Dialed(true), Marked(Idle, ""));
    TwoEvents(Marked(Paused, PauseNote(r)), Polled(PAUSED_POLL));
    if r.dial.Connected? {
      CyclesNeitherPollNorWait(r.dial.cycles);
      CountedConcat([Dialed(true), Marked(Idle, "")], CycleEvents(r.dial.cycles), IsPoll);
      CountedConcat([Dialed(true), Marked(Idle, "")], CycleEvents(r.dial.cycles), IsWait);
    }
    if Ending(r).Some? && Ending(r).value.HaltedFor? { assert [Marked(Halted, Ending(r).value.note)][1..] == []; }
  }

  /** A run polls once for each turn that broke with the sandbox stopped or hibernated, and waits once for each other that broke. */
  lemma {:induction false} PollsAndWaits(rounds: seq<Round>)
    ensures Counted(RunEvents(rounds), IsPoll) == Counted(Reached(rounds), PausesFor)
    ensures Counted(RunEvents(rounds), IsWait) == Counted(Reached(rounds), WaitsAfter)
  {
    if rounds != [] {
      var r, later := rounds[0], if Ending(rounds[0]).Some? then [] else rounds[1..];
      var a, b, c := AttachEvents(r.dial), SettleEvents(r), RunEvents(later);
      if later != [] { PollsAndWaits(later); }
      TurnPollsAndWaits(r);
      assert RunEvents(rounds) == a + b + c && Reached(rounds) == [r] + Reached(later);
      CountedConcat(a + b, c, IsPoll);
      CountedConcat(a, b, IsPoll);
      CountedConcat(a + b, c, IsWait);
      CountedConcat(a, b, IsWait);
      assert Reached(rounds)[1..] == Reached(later);
    }
  }

  /** A turn in which dialling fails and the sandbox is neither terminated nor paused. */
  predicate FailedDial(r: Round) {
    r.dial.NoConnection? && r.sandbox != Some(Terminated) && r.sandbox != Some(StoppedState) && r.sandbox != Some(Hibernated)
  }

  // ---- the runner ---------------------------------------------------------------------------------------------------

  /** Half the backoff and a random part of the other half. */
  function Jittered(backoff: nat, random: nat): (delay: nat)
    requires backoff >= 2
    ensures backoff / 2 <= delay < backoff && (random < backoff / 2 ==> delay == backoff / 2 + random)
  {
    var half := backoff / 2;
    assert random < half ==> random % half == random by { if random < half { SmallRemainder(random, half); } }
    half + random % half
  }

  lemma SmallRemainder(n: nat, m: nat)
    requires n < m
    ensures n % m == n
  {}

  class SessionRunner {
    var backoff: nat
    var status: Status
    var note: string
    var log: seq<Event>

    /** The backoff is always the one the log's waits in a row call for. */
    ghost predicate Valid()
      reads this
    {
      Going(log) && backoff == Backoff(Streak(log))
    }

    constructor ()
      ensures Valid() && log == []
    {
      backoff, status, note, log := 0, Idle, "", [];
    }

    method SetStatus(status: Status, note: string)
      requires Valid()
      modifies this
      ensures this.status == status && this.note == note && log == old(log) + [Marked(status, note)] && backoff == old(backoff)
      ensures status != Halted ==> Valid()
      ensures status == Halted ==> Paced(log) && Spaced(log) && HaltIsLast(log)
    {
      if status == Halted { HaltEnds(log, Marked(status, note)); } else { GoesOn(log, Marked(status, note)); }
      this.status, this.note := status, note;
      log := log + [Marked(status, note)];
    }

    method Record(e: Event)
      requires Going(log) && !IsHalt(e) && (e.Dialed? ==> Rested(log)) && InPace(e, log)
      modifies this`log
      ensures Going(log) && log == old(log) + [e]
      ensures Streak(log) == if e == Dialed(true) || e.Polled? then 0
                             else if e.Waited? then Streak(old(log)) + 1 else Streak(old(log))
    {
      GoesOn(log, e);
      log := log + [e];
    }

    method NextBackoff(random: nat) returns (delay: nat)
      requires Valid()
      modifies this`backoff
      ensures backoff == Backoff(Streak(log) + 1) && MIN_BACKOFF <= backoff <= MAX_BACKOFF
      ensures backoff / 2 <= delay < backoff && (random < backoff / 2 ==> delay == backoff / 2 + random)
    {
      BackoffDoubles(Streak(log));
      BackoffDoubles(Streak(log) + 1);
      if backoff == 0 {
        backoff := MIN_BACKOFF;
      } else {
        backoff := backoff * 2;
        if backoff > MAX_BACKOFF { backoff := MAX_BACKOFF; }
      }
      delay := Jittered(backoff, random);
    }

    /** Holds one connection and cycles on it until something breaks. */
    method AttachAndSync(dial: DialAnswer) returns (attached: Attached)
      requires Valid() && Rested(log)
      modifies this
      ensures Valid() && attached == AttachmentOf(dial) && Traced(old(log), AttachEvents(dial), log)
      ensures dial.NoConnection? ==> Streak(log) == old(Streak(log)) && status == old(status) && note == old(note)
    {
      TracedNothing(log);
      TracedMore(log, [], log, Dialed(dial.Connected?));
      Record(Dialed(dial.Connected?));
      if dial.NoConnection? { return Broken; }
      backoff := 0;
      TracedMore(old(log), [Dialed(true)], log, Marked(Idle, ""));
      SetStatus(Idle, "");
      ghost var connected := log;
      attached := CycleOn(dial.cycles, dial.diagnostics);
      TracedOn(old(log), [Dialed(true), Marked(Idle, "")], connected, CycleEvents(dial.cycles), log);
    }

    method CycleOn(cycles: seq<CycleAnswer>, diagnostics: string) returns (attached: Attached)
      requires Valid()
      modifies this
      ensures Valid() && attached == Attachment(cycles, diagnostics, true) && Traced(old(log), CycleEvents(cycles), log)
    {
      var first := true;
      ghost var done: seq<Event> := [];
      TracedNothing(log);
      assert cycles[0..] == cycles;
      for i := 0 to |cycles|
        invariant Valid() && first == (i == 0)
        invariant Attachment(cycles, diagnostics, true) == Attachment(cycles[i..], diagnostics, first)
        invariant Traced(old(log), done, log) && CycleEvents(cycles) == done + CycleEvents(cycles[i..])
      {
        AttachmentStep(cycles, diagnostics, first, i);
        CycleStep(done, cycles, i);
        ghost var before := log;
        OneCycle(cycles[i]);
        TracedOn(old(log), done, before, OneCycleEvents(cycles[i]), log);
        done := done + OneCycleEvents(cycles[i]);
        if !cycles[i].Good? {
          if first && diagnostics != "" {
            return Ended(RefusedToStart(diagnostics));
          }
          return if cycles[i].Stop? then Ended(cycles[i].halting) else Broken;
        }
        first := false;
      }
      attached := Over;
    }

    /** One cycle; one that goes well leaves the session idle, with a note if conflicts are left. */
    method OneCycle(cycle: CycleAnswer)
      requires Valid()
      modifies this
      ensures Valid() && Traced(old(log), OneCycleEvents(cycle), log)
    {
      TracedNothing(log);
      TracedMore(log, [], log, Cycled);
      Record(Cycled);
      if cycle.Good? {
        var left := if cycle.conflicts > 0 then "conflicts need resolving" else "";
        TracedMore(old(log), [Cycled], log, Marked(Idle, left));
        SetStatus(Idle, left);
      }
    }

    /** What an attachment that broke leads to: a halt, a pause, or a wait before the next dial. */
    method Settle(attached: Attached, round: Round) returns (end: Option<End>)
      requires Valid() && !attached.Over? && attached == AttachmentOf(round.dial)
      modifies this
      ensures end == Ending(round)
      ensures end.Some? ==> end.value.HaltedFor? && status == Halted && note == end.value.note && log == old(log) + [Marked(Halted, note)]
                            && Paced(log) && Spaced(log) && HaltIsLast(log)
      ensures end.None? ==> Valid() && Rested(log)
      ensures PausesFor(round) ==> log == old(log) + [Marked(Paused, PauseNote(round))] + [Polled(PAUSED_POLL)]
                                   && status == Paused && note == PauseNote(round) && backoff == 0
      ensures WaitsAfter(round) ==> (exists delay: nat :: log == old(log) + [Waited(delay)]) && status == old(status) && note == old(note)
      ensures FailedDial(round) ==> end.None? && Streak(log) == old(Streak(log)) + 1
    {
      if attached.Ended? {
        SetStatus(Halted, Note(ReasonText(attached.halting.reason), attached.halting.detail));
        return Some(HaltedFor(attached.halting, note));
      }
      if round.sandbox == Some(Terminated) {
        SetStatus(Halted, GONE.detail);
        return Some(HaltedFor(GONE, note));
      }
      if round.sandbox == Some(StoppedState) || round.sandbox == Some(Hibernated) {
        Pause(if round.sandbox == Some(Hibernated) then "the sandbox is hibernated" else "the sandbox is stopped");
        return None;
      }
      WaitBeforeDial(round.random);
      end := None;
    }

    /** Sleeps for as long as the next backoff has it. */
    method WaitBeforeDial(random: nat)
      requires Valid()
      modifies this
      ensures Valid() && Rested(log) && (exists delay: nat :: log == old(log) + [Waited(delay)]) && Streak(log) == old(Streak(log)) + 1
      ensures status == old(status) && note == old(note)
    {
      var delay := NextBackoff(random);
      Record(Waited(delay));
    }

    /** Marks the session paused and sleeps for the length of a poll; the backoff starts anew. */
    method Pause(note: string)
      requires Valid()
      modifies this
      ensures Valid() && Rested(log) && log == old(log) + [Marked(Paused, note)] + [Polled(PAUSED_POLL)]
      ensures status == Paused && this.note == note && backoff == 0
    {
      SetStatus(Paused, note);
      Record(Polled(PAUSED_POLL));
      backoff := 0;
    }

    /**
     * Drives the session until it is cancelled or halts. Every wait keeps to the capped doubling backoff, no dial
     * follows another without a wait or a poll between, and nothing at all follows a halt.
     */
    method Run(rounds: seq<Round>) returns (end: End)
      requires Valid() && Rested(log)
      modifies this
      ensures end == EndOf(rounds)
      ensures Traced(old(log), RunEvents(rounds), log)
      ensures Paced(log) && Spaced(log) && HaltIsLast(log)
      ensures end.HaltedFor? <==> HasHalt(log)
      ensures end.HaltedFor? ==> status == Halted && note == end.note
      ensures end.Cancelled? ==> Valid()
      ensures AllFail(rounds) ==> end.Cancelled? && Streak(log) == old(Streak(log)) + |rounds|
    {
      ghost var done: seq<Event> := [];
      FollowedFrom(rounds, log);
      for i := 0 to |rounds|
        invariant Valid() && Rested(log)
        invariant Followed(rounds, i, old(log), done, log)
      {
        ghost var before := log;
        var over := Turn(rounds[i]);
        FollowedOn(rounds, i, old(log), done, before, log);
        done := done + TurnEvents(rounds[i]);
        if over.Some? { return over.value; }
      }
      FollowedToEnd(rounds, old(log), done, log);
      end := Cancelled;
    }

    /** One turn: a connection held until it breaks, and what comes of that. */
    method Turn(round: Round) returns (over: Option<End>)
      requires Valid() && Rested(log)
      modifies this
      ensures over == Ending(round) && Traced(old(log), TurnEvents(round), log)
      ensures over.None? || over.value.Cancelled? ==> Valid()
      ensures over.None? ==> Rested(log)
      ensures over.Some? && over.value.HaltedFor? ==> status == Halted && note == over.value.note
                                                       && Paced(log) && Spaced(log) && HaltIsLast(log) && HasHalt(log)
      ensures FailedDial(round) ==> over.None? && Streak(log) == old(Streak(log)) + 1
    {
      var attached := AttachAndSync(round.dial);
      if attached.Over? {
        assert AttachEvents(round.dial) + [] == AttachEvents(round.dial);
        return Some(Cancelled);
      }
      ghost var before := log;
      over := Settle(attached, round);
      Settled(before, round, log);
      TracedOn(old(log), AttachEvents(round.dial), before, SettleEvents(round), log);
      if over.Some? { HaltIsIn(before, Marked(Halted, note)); }
    }
  }

  /** What settling records. */
  lemma Settled(before: seq<Event>, r: Round, log: seq<Event>)
    requires !AttachmentOf(r.dial).Over?
    requires Ending(r).Some? ==> Ending(r).value.HaltedFor? && log == before + [Marked(Halted, Ending(r).value.note)]
    requires PausesFor(r) ==> log == before + [Marked(Paused, PauseNote(r))] + [Polled(PAUSED_POLL)]
    requires WaitsAfter(r) ==> exists delay: nat :: log == before + [Waited(delay)]
    ensures Traced(before, SettleEvents(r), log)
  {
    TracedNothing(before);
    if PausesFor(r) {
      TracedMore(before, [], before, Marked(Paused, PauseNote(r)));
      TracedMore(before, [Marked(Paused, PauseNote(r))], before + [Marked(Paused, PauseNote(r))], Polled(PAUSED_POLL));
    } else {
      TracedMore(before, [], before, log[|log| - 1]);
    }
  }

  function TurnEvents(r: Round): seq<Event> {
    AttachEvents(r.dial) + SettleEvents(r)
  }

  lemma CycleStep(done: seq<Event>, cycles: seq<CycleAnswer>, i: nat)
    requires i < |cycles|
    ensures var more := done + OneCycleEvents(cycles[i]);
            done + CycleEvents(cycles[i..]) == if cycles[i].Good? then more + CycleEvents(cycles[i + 1..]) else more
  {
    assert cycles[i..][0] == cycles[i] && cycles[i..][1..] == cycles[i + 1..];
    AppendAssoc(done, OneCycleEvents(cycles[i]), CycleEvents(cycles[i + 1..]));
    assert OneCycleEvents(cycles[i]) + [] == OneCycleEvents(cycles[i]);
  }

  lemma TurnStep(done: seq<Event>, rounds: seq<Round>, i: nat)
    requires i < |rounds|
    ensures done + RunEvents(rounds[i..]) ==
            if Ending(rounds[i]).Some? then done + TurnEvents(rounds[i]) else done + TurnEvents(rounds[i]) + RunEvents(rounds[i + 1..])
  {
    assert rounds[i..][0] == rounds[i] && rounds[i..][1..] == rounds[i + 1..];
  }

  predicate AllFail(rounds: seq<Round>) {
    forall r | r in rounds :: FailedDial(r)
  }

  /** So many turns have been driven from one log to another, and the rest decide how it ends and what else is recorded. */
  ghost predicate Followed(rounds: seq<Round>, i: nat, start: seq<Event>, done: seq<Event>, log: seq<Event>)
    requires i <= |rounds|
  {
    && EndOf(rounds) == EndOf(rounds[i..])
    && Traced(start, done, log) && RunEvents(rounds) == done + RunEvents(rounds[i..])
    && (AllFail(rounds) ==> Streak(log) == Streak(start) + i)
  }

  lemma FollowedFrom(rounds: seq<Round>, log: seq<Event>)
    ensures Followed(rounds, 0, log, [], log)
  {
    TracedNothing(log);
    assert rounds[0..] == rounds;
  }

  lemma FollowedOn(rounds: seq<Round>, i: nat, start: seq<Event>, done: seq<Event>, before: seq<Event>, log: seq<Event>)
    requires i < |rounds| && Followed(rounds, i, start, done, before) && Traced(before, TurnEvents(rounds[i]), log)
    requires FailedDial(rounds[i]) ==> Ending(rounds[i]).None? && Streak(log) == Streak(before) + 1
    ensures Ending(rounds[i]).None? ==> Followed(rounds, i + 1, start, done + TurnEvents(rounds[i]), log)
    ensures Ending(rounds[i]).Some? ==>
              EndOf(rounds) == Ending(rounds[i]).value && Traced(start, RunEvents(rounds), log) && !AllFail(rounds)
  {
    assert rounds[i..][0] == rounds[i] && rounds[i..][1..] == rounds[i + 1..];
    assert rounds[i] in rounds;
    TurnStep(done, rounds, i);
    TracedOn(start, done, before, TurnEvents(rounds[i]), log);
  }

  lemma FollowedToEnd(rounds: seq<Round>, start: seq<Event>, done: seq<Event>, log: seq<Event>)
    requires Followed(rounds, |rounds|, start, done, log)
    ensures EndOf(rounds) == Cancelled && Traced(start, RunEvents(rounds), log)
    ensures AllFail(rounds) ==> Streak(log) == Streak(start) + |rounds|
  {
    assert done + [] == done;
  }

  // ---- waits after a connection ------------------------------------------------------------------------------------

  /** Anything but a wait, a poll or a connection. */
  predicate Quiet(e: Event) {
    e.Cycled? || e.Marked? || e == Dialed(false)
  }

  lemma {:induction false} QuietKeepsStreak(log: seq<Event>, quiet: seq<Event>)
    requires forall e | e in quiet :: Quiet(e)
    ensures Streak(log + quiet) == Streak(log)
    decreases |quiet|
  {
    if quiet == [] {
      assert log + quiet == log;
    } else {
      var k := |quiet| - 1;
      assert log + quiet == (log + quiet[..k]) + [quiet[k]];
      assert quiet[k] in quiet;
      StreakMore(log + quiet[..k], quiet[k]);
      QuietKeepsStreak(log, quiet[..k]);
    }
  }

  lemma WaitFits(log: seq<Event>, delay: nat, rest: seq<Event>)
    requires Paced(log + [Waited(delay)] + rest)
    ensures FitsBackoff(delay, log)
  {
    var all := log + [Waited(delay)] + rest;
    assert all[|log|] == Waited(delay) && all[..|log|] == log;
    assert InPace(all[|log|], all[..|log|]);
  }

  /**
   * After a connection that broke, the wait for the next dial is the first and lasts under a second; if that dial
   * fails, it is the first to fail, and the wait after it is already on the doubled backoff.
   */
  lemma FirstFailureWaitsDoubled(log: seq<Event>, cycling: seq<Event>, a: nat, b: nat)
    requires forall e | e in cycling :: Quiet(e)
    requires Paced(log + [Dialed(true)] + cycling + [Waited(a)] + [Dialed(false)] + [Waited(b)])
    ensures SECOND / 2 <= a < SECOND && SECOND <= b < 2 * SECOND
  {
    var connected := log + [Dialed(true)];
    var broken := connected + cycling;
    var failed := broken + [Waited(a)] + [Dialed(false)];
    StreakMore(log, Dialed(true));
    QuietKeepsStreak(connected, cycling);
    StreakMore(broken, Waited(a));
    StreakMore(broken + [Waited(a)], Dialed(false));
    assert failed + [Waited(b)] == broken + [Waited(a)] + ([Dialed(false)] + [Waited(b)]);
    WaitFits(broken, a, [Dialed(false)] + [Waited(b)]);
    assert failed + [Waited(b)] + [] == failed + [Waited(b)];
    WaitFits(failed, b, []);
    assert Power(0) == 1 && Power(1) == 2;
  }

  /** With nothing connected before, the first failed dial waits under a second. */
  lemma FirstFailureWaits(b: nat)
    requires Paced([Dialed(false)] + [Waited(b)])
    ensures SECOND / 2 <= b < SECOND
  {
    assert [Dialed(false)] + [Waited(b)] + [] == [Dialed(false)] + [Waited(b)];
    WaitFits([Dialed(false)], b, []);
    assert Streak([Dialed(false)][..0]) == 0;
    assert Power(0) == 1;
  }

  // ---- how a halt is told --------------------------------------------------------------------------------------------

  /** Reasons are told apart. */
  lemma ReasonsDiffer(a: HaltReason, b: HaltReason)
    ensures ReasonText(a) == ReasonText(b) <==> a == b
  {
    assert ReasonText(RootReplaced)[0] == 'r' && ReasonText(ContentLost)[0] == 'c' && ReasonText(SandboxGone)[0] == 's';
    assert ReasonText(VersionGap)[0] == 'v';
  }

  /** A turn that broke ends the run exactly when the sandbox is terminated, and then for that. */
  lemma BrokenTurnEnds(r: Round)
    requires AttachmentOf(r.dial).Broken?
    ensures Ending(r).Some? <==> r.sandbox == Some(Terminated)
    ensures Ending(r).Some? ==> Ending(r).value.HaltedFor? && Ending(r).value.halting.reason == SandboxGone
                                && Ending(r).value.note == "the sandbox was terminated" == Ending(r).value.halting.detail
  {}

  // ---- what is stored of a halt ----------------------------------------------------------------------------------------

  /** A content-loss halt of the guard, stored, gives back its count of pending deletions. */
  lemma StoredNoteCounts(anc: Option<Entry>, local: nat, remote: nat, rounds: seq<Round>)
    requires GuardContentLoss(anc, local, remote).Some? && Snapshot.CountOf(anc) <= MAX_INT
    requires var loss := GuardContentLoss(anc, local, remote).value;
             EndOf(rounds).HaltedFor? && EndOf(rounds).halting == Halting(ContentLost, Detail(loss))
    ensures var loss := GuardContentLoss(anc, local, remote).value;
            PendingDeletionCount(EndOf(rounds).note) == loss.tracked - (if loss.side == LocalRoot then local else remote)
  {
    var loss := GuardContentLoss(anc, local, remote).value;
    NoteRoundTrip(anc, local, remote);
    HaltNotes(rounds);
  }

  lemma {:induction false} HaltNotes(rounds: seq<Round>)
    requires EndOf(rounds).HaltedFor?
    ensures var end := EndOf(rounds);
            end.note == Note(ReasonText(end.halting.reason), end.halting.detail) || (end.halting == GONE && end.note == GONE.detail)
    decreases |rounds|
  {
    if Ending(rounds[0]).None? { HaltNotes(rounds[1..]); }
  }

  /** The first cycle that does not go well is the k-th, and it halts so. */
  predicate StopsAt(cycles: seq<CycleAnswer>, k: nat, halting: Halting) {
    k < |cycles| && (forall i | 0 <= i < k :: cycles[i].Good?) && cycles[k] == Stop(halting)
  }

  lemma {:induction false} AttachmentStops(cycles: seq<CycleAnswer>, diagnostics: string, first: bool, k: nat, halting: Halting)
    requires StopsAt(cycles, k, halting)
    ensures Attachment(cycles, diagnostics, first) ==
            if first && k == 0 && diagnostics != "" then Ended(RefusedToStart(diagnostics)) else Ended(halting)
    decreases k
  {
    if k > 0 { AttachmentStops(cycles[1..], diagnostics, false, k - 1, halting); }
  }

  lemma {:induction false} EndsAtRound(rounds: seq<Round>, i: nat)
    requires i < |rounds| && (forall j | 0 <= j < i :: Ending(rounds[j]).None?) && Ending(rounds[i]).Some?
    ensures EndOf(rounds) == Ending(rounds[i]).value
    decreases i
  {
    if i > 0 {
      assert Ending(rounds[0]).None?;
      EndsAtRound(rounds[1..], i - 1);
    }
  }

  /** The note of an endpoint taken to have refused to start. */
  lemma RefusalCountsNothing(diagnostics: string)
    ensures PendingDeletionCount(Note(ReasonText(VersionGap), RefusedToStart(diagnostics).detail)) == 0
  {
    var note := Note(ReasonText(VersionGap), RefusedToStart(diagnostics).detail);
    assert note[0] == 'v' && (CONTENT_LOSS + ":")[0] == 'c';
    OtherNotesCountNothing(note);
  }

  /**
   * Whatever came before on other connections, a run the guard brings to a halt stores a note that gives back its
   * count of pending deletions if and only if a cycle had gone well on that connection or the endpoint had written
   * nothing; otherwise the note gives nothing, although something is pending.
   */
  lemma StoredHaltCounts(anc: Option<Entry>, local: nat, remote: nat, rounds: seq<Round>, i: nat, k: nat)
    requires GuardContentLoss(anc, local, remote).Some? && Snapshot.CountOf(anc) <= MAX_INT
    requires i < |rounds| && (forall j | 0 <= j < i :: Ending(rounds[j]).None?) && rounds[i].dial.Connected?
    requires StopsAt(rounds[i].dial.cycles, k, Halting(ContentLost, Detail(GuardContentLoss(anc, local, remote).value)))
    ensures var loss := GuardContentLoss(anc, local, remote).value;
            var pending, end := loss.tracked - (if loss.side == LocalRoot then local else remote), EndOf(rounds);
            && end.HaltedFor? && pending > 0
            && (PendingDeletionCount(end.note) == pending <==> k > 0 || rounds[i].dial.diagnostics == "")
            && (PendingDeletionCount(end.note) != pending ==> PendingDeletionCount(end.note) == 0 && end.halting.reason == VersionGap)
  {
    GuardHaltStored(rounds, i, k, Detail(GuardContentLoss(anc, local, remote).value));
    LossIsReal(anc, local, remote);
    if k > 0 || rounds[i].dial.diagnostics == "" {
      StoredNoteCounts(anc, local, remote, rounds);
    } else {
      RefusalCountsNothing(rounds[i].dial.diagnostics);
    }
  }

  lemma GuardHaltStored(rounds: seq<Round>, i: nat, k: nat, detail: string)
    requires i < |rounds| && (forall j | 0 <= j < i :: Ending(rounds[j]).None?) && rounds[i].dial.Connected?
    requires StopsAt(rounds[i].dial.cycles, k, Halting(ContentLost, detail))
    ensures var dial := rounds[i].dial;
            var halting := if k == 0 && dial.diagnostics != "" then RefusedToStart(dial.diagnostics) else Halting(ContentLost, detail);
            EndOf(rounds) == HaltedFor(halting, Note(ReasonText(halting.reason), halting.detail))
  {
    AttachmentStops(rounds[i].dial.cycles, rounds[i].dial.diagnostics, true, k, Halting(ContentLost, detail));
    EndsAtRound(rounds, i);
  }

  /** The guard halts only over entries that are gone. */
  lemma LossIsReal(anc: Option<Entry>, local: nat, remote: nat)
    requires GuardContentLoss(anc, local, remote).Some?
    ensures var loss := GuardContentLoss(anc, local, remote).value;
            loss.lost == loss.tracked - (if loss.side == LocalRoot then local else remote) && loss.lost > 0
  {
    GuardPassesExactly(anc, local, remote);
  }

  /** It takes one cycle and one word. */
  lemma GuardHaltIsMisread(anc: Option<Entry>, local: nat, remote: nat, said: string)
    requires GuardContentLoss(anc, local, remote).Some? && Snapshot.CountOf(anc) <= MAX_INT && said != ""
    ensures var loss := GuardContentLoss(anc, local, remote).value;
            var end := EndOf([Round(Connected([Stop(Halting(ContentLost, Detail(loss)))], said), None, 0)]);
            && end.HaltedFor? && end.halting == RefusedToStart(said) && PendingDeletionCount(end.note) == 0 && loss.lost > 0
  {
    var loss := GuardContentLoss(anc, local, remote).value;
    LossIsReal(anc, local, remote);
    RefusalCountsNothing(said);
    assert [Stop(Halting(ContentLost, Detail(loss)))][0].Stop?;
  }
}
