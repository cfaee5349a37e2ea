/**
 * The sync cycle as a step machine that can be cut short anywhere: one filesystem or protocol action a step,
 * with crashes, lost connections, refusals and the users' own edits in between, cycle after cycle; what fails the
 * runner judges, and what it does not halt for it starts anew.
 */
module Crash {
  import opened Lists
  import opened Entries
  import opened Changes
  import opened Splice
  import opened Reconcile
  import opened Tree
  import opened Execution
  import opened Snapshot
  import opened Agreement
  import opened Ancestor
  import opened Pass
  import opened Trash
  import opened Guard
  import opened Cycle
  import Merge

  /** What a cycle past the guard works from. */
  datatype Job = Job(local: seq<Scanned>, remote: seq<Scanned>, plan: PassPlan)

  /** How far a cycle came, with how many changes done where that says more; before any cycle there is only the dial. */
  datatype Stage =
    | AtDial | AtIdentity | AtHandshake | AtMarker | AtScan | AtGuard | AtStaging
    | AtTransition(done: nat) | AtSupply | AtTrash(moved: nat) | AtLocal(done: nat) | AtSave

  /**
   * Where the session is: between cycles, within one, or past one that came to nothing. A cycle that failed has yet to
   * be judged by the runner; a broken one leaves it without a connection.
   */
  datatype Pc =
    | Resting
    | Known
    | Greeted
    | HalfScanned(local: seq<Scanned>)
    | BothScanned(local: seq<Scanned>, remote: seq<Scanned>)
    | Staging(job: Job)
    | ChangingRemote(job: Job)
    | Supplying(job: Job)
    | Trashing(job: Job, trashed: nat)
    | ChangingLocal(job: Job)
    | Saving(job: Job, written: bool)
    | Faulted(verdict: Verdict, at: Stage, from: Option<Job>)
    | Broken(at: Stage, from: Option<Job>)
    | Halted(reason: HaltReason, at: Stage, from: Option<Job>)

  /** A cycle that recorded its ancestor: its scans, and the changes it had executed by then. */
  datatype Commit = Commit(local: seq<Scanned>, remote: seq<Scanned>, ranRemote: seq<Change>, ranLocal: seq<Change>)

  /**
   * `ranRemote` and `ranLocal` are what the last cycle begun has executed, until it is committed; `commits` is history.
   * `first` says that no cycle has gone well on the present connection.
   */
  datatype State = State(id: string, local: Disk, remote: Disk, trash: Nodes, marker: string, stored: Option<Entry>, pc: Pc,
                         ranRemote: seq<Change>, ranLocal: seq<Change>, commits: seq<Commit>, first: bool)

  datatype Step =
    | EditLocal(nodes: Nodes)
    | EditRemote(nodes: Nodes, marker: string)
    | CutShort
    | Refuse(code: ErrorCode)
    | Break
    | Attend(diagnosed: bool, terminated: bool)
    | DialFails(terminated: bool)
    | Identify(sameRoot: bool)
    | Greet
    | ScanLocal(entries: seq<Scanned>)
    | ScanRemote(entries: seq<Scanned>)
    | Check
    | Send(digest: Digest, content: Bytes)
    | SentAll
    | ChangeRemote
    | RemoteDone
    | Fetch(digest: Digest, content: Bytes)
    | FetchedAll
    | TrashNext(stamp: Name, sameDevice: bool)
    | TrashedAll
    | ChangeLocal
    | LocalDone
    | WriteTemp
    | RenameTemp

  /** Where an endpoint's refusal is heard; a transition is refused before anything is executed. */
  predicate Refusable(s: State) {
    s.pc.Known? || s.pc.HalfScanned? || s.pc.Staging? || (s.pc.ChangingRemote? && s.ranRemote == []) || s.pc.Supplying?
  }

  /** Where a cycle can fail for any other reason: a lost connection, a local file or directory that cannot be used. */
  predicate Breakable(pc: Pc) {
    || pc.Known? || pc.Greeted? || pc.HalfScanned? || pc.Staging? || pc.ChangingRemote? || pc.Supplying? || pc.Trashing? || pc.Saving?
  }

  /** No cycle is under way or to be judged. */
  predicate Rests(pc: Pc) {
    pc.Resting? || pc.Broken?
  }

  predicate Over(pc: Pc) {
    pc.Faulted? || pc.Broken? || pc.Halted?
  }

  function StageOf(s: State): Stage {
    match s.pc
    case Resting => AtDial
    case Known => AtHandshake
    case Greeted => AtScan
    case HalfScanned(_) => AtScan
    case BothScanned(_, _) => AtGuard
    case Staging(_) => AtStaging
    case ChangingRemote(_) => AtTransition(|s.ranRemote|)
    case Supplying(_) => AtSupply
    case Trashing(_, k) => AtTrash(k)
    case ChangingLocal(_) => AtLocal(|s.ranLocal|)
    case Saving(_, _) => AtSave
    case Faulted(_, at, _) => at
    case Broken(at, _) => at
    case Halted(_, at, _) => at
  }

  /** What the cycle is or was working from, if it came that far. */
  function JobOf(pc: Pc): Option<Job> {
    if HasJob(pc) then Some(pc.job) else if Over(pc) then pc.from else None
  }

  predicate HasJob(pc: Pc) {
    pc.Staging? || pc.ChangingRemote? || pc.Supplying? || pc.Trashing? || pc.ChangingLocal? || pc.Saving?
  }

  /** A file the local side still has to fetch. */
  predicate Fetching(s: State, c: Change) {
    s.pc.Supplying? && c in s.pc.job.plan.toLocal && c.kind.CreateFile? && c.kind.digest !in s.local.staged
  }

  /** Whether the cycle has come to where it can take the step. */
  predicate Due(s: State, step: Step) {
    match step
    case EditLocal(_) => true
    case EditRemote(_, _) => true
    case CutShort => !s.pc.Halted?
    case Refuse(_) => Refusable(s)
    case Break => Breakable(s.pc)
    case Attend(_, _) => s.pc.Faulted?
    case DialFails(_) => Rests(s.pc)
    case Identify(_) => Rests(s.pc)
    case Greet => s.pc.Known?
    case ScanLocal(_) => s.pc.Greeted?
    case ScanRemote(_) => s.pc.HalfScanned?
    case Check => s.pc.BothScanned?
    case Send(_, _) => s.pc.Staging?
    case SentAll => s.pc.Staging?
    case ChangeRemote => s.pc.ChangingRemote? && |s.ranRemote| < |s.pc.job.plan.toRemote|
    case RemoteDone => s.pc.ChangingRemote? && |s.ranRemote| == |s.pc.job.plan.toRemote|
    case Fetch(_, _) => s.pc.Supplying?
    case FetchedAll => s.pc.Supplying?
    case TrashNext(_, _) => s.pc.Trashing? && s.pc.trashed < |s.pc.job.plan.toLocal|
    case TrashedAll => s.pc.Trashing? && s.pc.trashed == |s.pc.job.plan.toLocal|
    case ChangeLocal => s.pc.ChangingLocal? && |s.ranLocal| < |s.pc.job.plan.toLocal|
    case LocalDone => s.pc.ChangingLocal? && |s.ranLocal| == |s.pc.job.plan.toLocal|
    case WriteTemp => s.pc.Saving? && !s.pc.written
    case RenameTemp => s.pc.Saving? && s.pc.written
  }

  /** And whether what the step brings with it is what the world would answer. */
  ghost predicate Enabled(hash: Hash, s: State, step: Step) {
    && Due(s, step)
    && match step
       case ScanLocal(entries) => Workable(s.local.nodes) && IsScan(hash, s.local.nodes, entries)
       case ScanRemote(entries) => Workable(s.remote.nodes) && IsScan(hash, s.remote.nodes, entries)
       case Send(digest, content) => hash(content) == digest
       case Fetch(digest, content) => hash(content) == digest
       case Refuse(code) =>
         s.pc.Supplying? ==> exists c :: Fetching(s, c) && Refusal(hash, s.remote.nodes, c.path, c.kind.digest) == Some(code)
       case _ => true
  }

  /** How two scans and the stored ancestor become two lists and the next ancestor; `PlanPass` in a real cycle. */
  type Planner = (Option<Entry>, seq<Scanned>, seq<Scanned>) -> PassPlan

  /** The cycle has failed; the runner is to judge it. */
  function Fail(s: State, verdict: Verdict): State {
    s.(pc := Faulted(verdict, StageOf(s), JobOf(s.pc)))
  }

  /** Nothing more comes of the cycle, and the next one is the first on its connection. */
  function Drop(s: State): State {
    s.(pc := Broken(StageOf(s), JobOf(s.pc)), first := true)
  }

  function HaltFor(s: State, reason: HaltReason): State {
    s.(pc := Halted(reason, StageOf(s), JobOf(s.pc)))
  }

  /**
   * What the runner makes of a failed cycle: a version gap if it was the first on its connection and the endpoint had
   * written diagnostics, else the halt it failed with, else the end of a terminated sandbox.
   */
  function Attended(s: State, diagnosed: bool, terminated: bool): State
    requires s.pc.Faulted?
  {
    if s.first && diagnosed then HaltFor(s, VersionGap)
    else match s.pc.verdict
         case Halt(reason) => HaltFor(s, reason)
         case Retry => if terminated then HaltFor(s, SandboxGone) else Drop(s)
  }

  function Take(plan: Planner, s: State, step: Step): State
    requires Due(s, step)
  {
    match step
    case EditLocal(nodes) => s.(local := s.local.(nodes := nodes))
    case EditRemote(nodes, marker) => s.(remote := s.remote.(nodes := nodes), marker := marker)
    case CutShort => Drop(s)
    case Refuse(code) => Fail(s, Classify(code))
    case Break => Fail(s, Retry)
    case Attend(diagnosed, terminated) => Attended(s, diagnosed, terminated)
    case DialFails(terminated) => if terminated then HaltFor(s, SandboxGone) else Drop(s)
    case Identify(sameRoot) =>
      s.(pc := if sameRoot then Known else Faulted(Halt(RootReplaced), AtIdentity, None), ranRemote := [], ranLocal := [])
    case Greet =>
      if s.marker == "" then s.(marker := s.id, pc := Greeted)
      else s.(pc := if s.marker == s.id then Greeted else Faulted(Halt(RootReplaced), AtMarker, None))
    case ScanLocal(entries) => s.(pc := HalfScanned(entries))
    case ScanRemote(entries) => s.(pc := BothScanned(s.pc.local, entries))
    case Check => s.(pc := Checked(plan, s.stored, s.pc.local, s.pc.remote))
    case Send(digest, content) => s.(remote := s.remote.(staged := s.remote.staged[digest := content]))
    case SentAll => s.(pc := ChangingRemote(s.pc.job))
    case ChangeRemote =>
      var c := s.pc.job.plan.toRemote[|s.ranRemote|];
      s.(remote := Apply(s.remote, c).0, ranRemote := s.ranRemote + [c])
    case RemoteDone => s.(pc := Supplying(s.pc.job))
    case Fetch(digest, content) => s.(local := s.local.(staged := s.local.staged[digest := content]))
    case FetchedAll => s.(pc := Trashing(s.pc.job, 0))
    case TrashNext(stamp, sameDevice) => MoveAside(s, s.pc.job.plan.toLocal[s.pc.trashed], stamp, sameDevice)
    case TrashedAll => s.(pc := ChangingLocal(s.pc.job))
    case ChangeLocal =>
      var c := s.pc.job.plan.toLocal[|s.ranLocal|];
      s.(local := Apply(s.local, c).0, ranLocal := s.ranLocal + [c])
    case LocalDone => s.(pc := Saving(s.pc.job, false))
    case WriteTemp => s.(pc := s.pc.(written := true))
    case RenameTemp =>
      s.(pc := Resting, stored := s.pc.job.plan.ancestor, ranRemote := [], ranLocal := [], first := false,
         commits := s.commits + [Commit(s.pc.job.local, s.pc.job.remote, s.ranRemote, s.ranLocal)])
  }

  function Checked(plan: Planner, stored: Option<Entry>, local: seq<Scanned>, remote: seq<Scanned>): Pc {
    if GuardContentLoss(stored, |local|, |remote|).Some? then Faulted(Halt(ContentLost), AtGuard, None)
    else Staging(Job(local, remote, plan(stored, local, remote)))
  }

  function MoveAside(s: State, c: Change, stamp: Name, sameDevice: bool): State
    requires s.pc.Trashing?
  {
    var next := if c.kind.Remove? then TrashPath(Local(s.local.nodes, s.trash), c.path, stamp, sameDevice)
                else Some(Local(s.local.nodes, s.trash));
    if next.None? then Fail(s, Retry)
    else s.(local := s.local.(nodes := next.value.nodes), trash := next.value.trash, pc := s.pc.(trashed := s.pc.trashed + 1))
  }

  // ---- the ancestor over whole runs -------------------------------------------------------------------

  /** The ancestor a sequence of committed cycles adds up to. */
  function Fold(plan: Planner, commits: seq<Commit>): Option<Entry> {
    if commits == [] then None
    else
      var k := |commits| - 1;
      plan(Fold(plan, commits[..k]), commits[k].local, commits[k].remote).ancestor
  }

  /** Every committed cycle had executed the whole of both lists its scans and the ancestor before it led to. */
  predicate Whole(plan: Planner, commits: seq<Commit>) {
    forall i | 0 <= i < |commits| :: WholeAt(plan, commits[..i], commits[i])
  }

  predicate WholeAt(plan: Planner, before: seq<Commit>, c: Commit) {
    var p := plan(Fold(plan, before), c.local, c.remote);
    c.ranRemote == p.toRemote && c.ranLocal == p.toLocal
  }

  function Upto(l: seq<Change>, k: nat): seq<Change> {
    if k <= |l| then l[..k] else l
  }

  /** What a cycle has executed in the sandbox by a stage. */
  function RemoteBy(at: Stage, from: Option<Job>): seq<Change> {
    if from.None? then []
    else match at
         case AtTransition(k) => Upto(from.value.plan.toRemote, k)
         case AtSupply => from.value.plan.toRemote
         case AtTrash(_) => from.value.plan.toRemote
         case AtLocal(_) => from.value.plan.toRemote
         case AtSave => from.value.plan.toRemote
         case _ => []
  }

  /** And locally. */
  function LocalBy(at: Stage, from: Option<Job>): seq<Change> {
    if from.None? then []
    else match at
         case AtLocal(k) => Upto(from.value.plan.toLocal, k)
         case AtSave => from.value.plan.toLocal
         case _ => []
  }

  predicate PastGuard(at: Stage) {
    at.AtStaging? || at.AtTransition? || at.AtSupply? || at.AtTrash? || at.AtLocal? || at.AtSave?
  }

  predicate WithinLists(at: Stage, plan: PassPlan) {
    match at
    case AtTransition(k) => k <= |plan.toRemote|
    case AtTrash(k) => k <= |plan.toLocal|
    case AtLocal(k) => k <= |plan.toLocal|
    case _ => true
  }

  /** What was executed by a stage is what the stage says, from what the cycle works from. */
  predicate Did(plan: Planner, stored: Option<Entry>, at: Stage, from: Option<Job>, ranRemote: seq<Change>, ranLocal: seq<Change>) {
    && (from.Some? <==> PastGuard(at))
    && (from.Some? ==> from.value.plan == plan(stored, from.value.local, from.value.remote) && WithinLists(at, from.value.plan))
    && ranRemote == RemoteBy(at, from) && ranLocal == LocalBy(at, from)
  }

  /** What the last cycle has executed is what its stage says. */
  predicate OnTrack(plan: Planner, s: State) {
    Did(plan, s.stored, StageOf(s), JobOf(s.pc), s.ranRemote, s.ranLocal)
  }

  /** Where a cycle itself can come to a halt. */
  predicate HaltsAt(at: Stage) {
    at != AtDial && at != AtSave && !at.AtTrash? && !at.AtLocal? && (at.AtTransition? ==> at.done == 0)
  }

  /** Where halts come from: a cycle's own at its own stages, a version gap after a failed cycle, a terminated sandbox anywhere. */
  predicate HaltKnown(s: State) {
    && (s.pc.Faulted? ==> s.pc.at != AtDial && !s.pc.at.AtLocal?)
    && (s.pc.Faulted? && s.pc.verdict.Halt? ==> HaltsAt(s.pc.at) && !s.pc.verdict.reason.SandboxGone?)
    && (s.pc.Halted? ==>
          && (s.pc.reason.RootReplaced? || s.pc.reason.ContentLost? ==> HaltsAt(s.pc.at))
          && (s.pc.reason.VersionGap? ==> s.pc.at != AtDial && !s.pc.at.AtLocal?))
  }

  predicate Recorded(plan: Planner, s: State) {
    s.stored == Fold(plan, s.commits) && Whole(plan, s.commits)
  }

  predicate Steady(plan: Planner, s: State) {
    OnTrack(plan, s) && HaltKnown(s)
  }

  predicate Safe(plan: Planner, s: State) {
    Recorded(plan, s) && Steady(plan, s)
  }

  lemma CommitExtends(plan: Planner, s: State)
    requires Safe(plan, s) && s.pc.Saving?
    ensures var c := Commit(s.pc.job.local, s.pc.job.remote, s.ranRemote, s.ranLocal);
            Whole(plan, s.commits + [c]) && Fold(plan, s.commits + [c]) == s.pc.job.plan.ancestor
  {
    SavingHasRun(plan, s);
    OneMoreWhole(plan, s.commits, Commit(s.pc.job.local, s.pc.job.remote, s.ranRemote, s.ranLocal));
  }

  lemma SavingHasRun(plan: Planner, s: State)
    requires OnTrack(plan, s) && s.pc.Saving?
    ensures s.pc.job.plan == plan(s.stored, s.pc.job.local, s.pc.job.remote)
    ensures s.ranRemote == s.pc.job.plan.toRemote && s.ranLocal == s.pc.job.plan.toLocal
  {}

  lemma OneMoreWhole(plan: Planner, commits: seq<Commit>, c: Commit)
    requires Whole(plan, commits) && WholeAt(plan, commits, c)
    ensures Whole(plan, commits + [c]) && Fold(plan, commits + [c]) == plan(Fold(plan, commits), c.local, c.remote).ancestor
  {
    var all := commits + [c];
    assert all[..|commits|] == commits;
    forall i | 0 <= i < |all| ensures WholeAt(plan, all[..i], all[i]) {
      if i < |commits| {
        assert all[..i] == commits[..i];
        assert WholeAt(plan, commits[..i], commits[i]);
      }
    }
  }

  /** Failing, dropping and halting keep the stage, and so what was executed. */
  lemma SameStage(plan: Planner, s: State, after: State)
    requires OnTrack(plan, s) && after.stored == s.stored && after.ranRemote == s.ranRemote && after.ranLocal == s.ranLocal
    requires StageOf(after) == StageOf(s) && JobOf(after.pc) == JobOf(s.pc)
    ensures OnTrack(plan, after)
  {}

  /** Trashing goes on or gives up, and records nothing. */
  lemma MoveAsideMoves(s: State, c: Change, stamp: Name, sameDevice: bool)
    requires s.pc.Trashing?
    ensures var after := MoveAside(s, c, stamp, sameDevice);
            && (after == Fail(s, Retry) || after.pc == Trashing(s.pc.job, s.pc.trashed + 1))
            && after.stored == s.stored && after.commits == s.commits && after.ranLocal == s.ranLocal && after.ranRemote == s.ranRemote
            && after.id == s.id && after.remote == s.remote && after.local.staged == s.local.staged
  {}

  lemma MovingIsSteady(plan: Planner, s: State, stamp: Name, sameDevice: bool)
    requires Steady(plan, s) && Due(s, TrashNext(stamp, sameDevice))
    ensures Steady(plan, Take(plan, s, TrashNext(stamp, sameDevice)))
  {
    var after := Take(plan, s, TrashNext(stamp, sameDevice));
    MoveAsideMoves(s, s.pc.job.plan.toLocal[s.pc.trashed], stamp, sameDevice);
    if after.pc.Trashing? {
      JobGoesOn(plan, s.stored, s.pc.job, StageOf(s), StageOf(after), s.ranRemote, s.ranLocal);
    } else {
      SameStage(plan, s, after);
    }
  }

  lemma CheckIsSteady(plan: Planner, s: State)
    requires OnTrack(plan, s) && Due(s, Check)
    ensures Steady(plan, Take(plan, s, Check))
  {
    NothingYet(plan, s);
    if GuardContentLoss(s.stored, |s.pc.local|, |s.pc.remote|).Some? {
      BeforeJob(plan, s.stored, AtGuard);
    } else {
      JobBegins(plan, s.stored, s.pc.local, s.pc.remote);
    }
  }

  lemma JobBegins(plan: Planner, stored: Option<Entry>, local: seq<Scanned>, remote: seq<Scanned>)
    ensures Did(plan, stored, AtStaging, Some(Job(local, remote, plan(stored, local, remote))), [], [])
  {}

  /** Edits and content arriving in a staging area leave the cycle where it is. */
  predicate Outside(step: Step) {
    step.EditLocal? || step.EditRemote? || step.Send? || step.Fetch?
  }

  lemma OutsideIsSteady(plan: Planner, s: State, step: Step)
    requires Steady(plan, s) && Due(s, step) && Outside(step)
    ensures Steady(plan, Take(plan, s, step))
  {
    SameStage(plan, s, Take(plan, s, step));
  }

  /** The steps that end a cycle without committing it, and those the runner then takes. */
  predicate Ends(step: Step) {
    step.CutShort? || step.Refuse? || step.Break? || step.Attend? || step.DialFails?
  }

  lemma EndIsSteady(plan: Planner, s: State, step: Step)
    requires Steady(plan, s) && Due(s, step) && Ends(step)
    ensures Steady(plan, Take(plan, s, step))
  {
    EndKeepsStage(plan, s, step);
    EndIsKnown(plan, s, step);
    SameStage(plan, s, Take(plan, s, step));
  }

  lemma EndKeepsStage(plan: Planner, s: State, step: Step)
    requires Due(s, step) && Ends(step)
    ensures var after := Take(plan, s, step);
            && StageOf(after) == StageOf(s) && JobOf(after.pc) == JobOf(s.pc) && Over(after.pc)
            && after.stored == s.stored && after.commits == s.commits && after.ranRemote == s.ranRemote && after.ranLocal == s.ranLocal
            && after.local == s.local && after.remote == s.remote && after.trash == s.trash
  {}

  lemma EndIsKnown(plan: Planner, s: State, step: Step)
    requires HaltKnown(s) && Due(s, step) && Ends(step)
    ensures HaltKnown(Take(plan, s, step))
  {}

  /** The steps before a cycle has anything to execute. */
  predicate IsEarly(step: Step) {
    step.Identify? || step.Greet? || step.ScanLocal? || step.ScanRemote?
  }

  lemma EarlyIsSteady(plan: Planner, s: State, step: Step)
    requires OnTrack(plan, s) && Due(s, step) && IsEarly(step)
    ensures Steady(plan, Take(plan, s, step))
  {
    EarlyStage(plan, s, step);
    BeforeJob(plan, s.stored, StageOf(Take(plan, s, step)));
    if !step.Identify? { NothingYet(plan, s); }
  }

  lemma EarlyStage(plan: Planner, s: State, step: Step)
    requires Due(s, step) && IsEarly(step)
    ensures var after := Take(plan, s, step);
            && !PastGuard(StageOf(after)) && JobOf(after.pc).None? && after.stored == s.stored && HaltKnown(after)
            && (step.Identify? ==> after.ranRemote == [] && after.ranLocal == [])
            && (!step.Identify? ==> JobOf(s.pc).None? && after.ranRemote == s.ranRemote && after.ranLocal == s.ranLocal)
  {}

  lemma BeforeJob(plan: Planner, stored: Option<Entry>, at: Stage)
    requires !PastGuard(at)
    ensures Did(plan, stored, at, None, [], [])
  {}

  lemma NothingYet(plan: Planner, s: State)
    requires OnTrack(plan, s) && JobOf(s.pc).None?
    ensures s.ranRemote == [] && s.ranLocal == []
  {}

  /** From one stage of a job to the next. */
  predicate MovesOn(step: Step) {
    step.SentAll? || step.RemoteDone? || step.FetchedAll? || step.TrashedAll? || step.LocalDone? || step.WriteTemp?
  }

  /** A stage done leads to the next. */
  predicate Leads(plan: PassPlan, at: Stage, next: Stage) {
    || (at.AtStaging? && next == AtTransition(0))
    || (at == AtTransition(|plan.toRemote|) && next == AtSupply)
    || (at.AtSupply? && next == AtTrash(0))
    || (at.AtTrash? && next.AtTrash? && next.moved <= |plan.toLocal|)
    || (at.AtTrash? && next == AtLocal(0))
    || (at == AtLocal(|plan.toLocal|) && next == AtSave)
    || (at.AtSave? && next == AtSave)
  }

  lemma MovesLead(plan: Planner, s: State, step: Step)
    requires OnTrack(plan, s) && Due(s, step) && MovesOn(step)
    ensures var after := Take(plan, s, step);
            && HasJob(s.pc) && JobOf(after.pc) == Some(s.pc.job) && HaltKnown(after) && Leads(s.pc.job.plan, StageOf(s), StageOf(after))
            && after.stored == s.stored && after.ranRemote == s.ranRemote && after.ranLocal == s.ranLocal
  {
    if step.TrashedAll? { NothingRanLocally(plan, s); }
    if step.FetchedAll? || step.SentAll? { NotYetLocally(plan, s); }
  }

  lemma NothingRanLocally(plan: Planner, s: State)
    requires OnTrack(plan, s) && s.pc.Trashing?
    ensures s.ranLocal == []
  {}

  lemma NotYetLocally(plan: Planner, s: State)
    requires OnTrack(plan, s) && (s.pc.Staging? || s.pc.Supplying?)
    ensures s.ranLocal == [] && (s.pc.Staging? ==> s.ranRemote == [])
  {}

  lemma JobGoesOn(plan: Planner, stored: Option<Entry>, job: Job, at: Stage, next: Stage, ranRemote: seq<Change>, ranLocal: seq<Change>)
    requires Did(plan, stored, at, Some(job), ranRemote, ranLocal) && Leads(job.plan, at, next)
    ensures Did(plan, stored, next, Some(job), ranRemote, ranLocal)
  {}

  lemma MovingOnIsSteady(plan: Planner, s: State, step: Step)
    requires OnTrack(plan, s) && Due(s, step) && MovesOn(step)
    ensures Steady(plan, Take(plan, s, step))
  {
    MovesLead(plan, s, step);
    JobGoesOn(plan, s.stored, s.pc.job, StageOf(s), StageOf(Take(plan, s, step)), s.ranRemote, s.ranLocal);
  }

  lemma RanOneMoreIsSteady(plan: Planner, s: State)
    requires OnTrack(plan, s) && Due(s, ChangeRemote)
    ensures Steady(plan, Take(plan, s, ChangeRemote))
  {
    var l, k := s.pc.job.plan.toRemote, |s.ranRemote|;
    assert Did(plan, s.stored, AtTransition(k), Some(s.pc.job), s.ranRemote, s.ranLocal);
    assert l[..k] + [l[k]] == l[..k + 1];
    assert Did(plan, s.stored, AtTransition(k + 1), Some(s.pc.job), l[..k + 1], s.ranLocal);
  }

  lemma RanOneMoreLocally(plan: Planner, s: State)
    requires OnTrack(plan, s) && Due(s, ChangeLocal)
    ensures Steady(plan, Take(plan, s, ChangeLocal))
  {
    var l, k := s.pc.job.plan.toLocal, |s.ranLocal|;
    assert Did(plan, s.stored, AtLocal(k), Some(s.pc.job), s.ranRemote, s.ranLocal);
    assert l[..k] + [l[k]] == l[..k + 1];
    assert Did(plan, s.stored, AtLocal(k + 1), Some(s.pc.job), s.ranRemote, l[..k + 1]);
  }

  lemma CommitIsSafe(plan: Planner, s: State)
    requires Safe(plan, s) && Due(s, RenameTemp)
    ensures Safe(plan, Take(plan, s, RenameTemp))
  {
    CommitExtends(plan, s);
    AtRest(plan, Take(plan, s, RenameTemp));
  }

  lemma AtRest(plan: Planner, s: State)
    requires s.pc.Resting? && s.ranRemote == [] && s.ranLocal == []
    ensures Steady(plan, s)
  {}

  lemma StepIsSteady(plan: Planner, s: State, step: Step)
    requires Steady(plan, s) && Due(s, step) && !step.RenameTemp?
    ensures Steady(plan, Take(plan, s, step))
  {
    if Ends(step) { EndIsSteady(plan, s, step); }
    else if MovesOn(step) { MovingOnIsSteady(plan, s, step); }
    else if Outside(step) { OutsideIsSteady(plan, s, step); }
    else if IsEarly(step) { EarlyIsSteady(plan, s, step); }
    else {
      match step {
        case ChangeRemote => RanOneMoreIsSteady(plan, s);
        case ChangeLocal => RanOneMoreLocally(plan, s);
        case TrashNext(stamp, sameDevice) => MovingIsSteady(plan, s, stamp, sameDevice);
        case Check => CheckIsSteady(plan, s);
      }
    }
  }

  /** History is made only by the rename that ends a cycle. */
  lemma SameHistory(plan: Planner, s: State, step: Step)
    requires Due(s, step) && !step.RenameTemp?
    ensures Take(plan, s, step).stored == s.stored && Take(plan, s, step).commits == s.commits
  {}

  lemma StepIsSafe(plan: Planner, s: State, step: Step)
    requires Safe(plan, s) && Due(s, step)
    ensures Safe(plan, Take(plan, s, step))
  {
    if step.RenameTemp? {
      CommitIsSafe(plan, s);
    } else {
      StepIsSteady(plan, s, step);
      SameHistory(plan, s, step);
    }
  }

  ghost predicate IsRun(hash: Hash, plan: Planner, ss: seq<State>, steps: seq<Step>) {
    |ss| == |steps| + 1 && forall i | 0 <= i < |steps| :: Moves(hash, plan, ss, steps, i)
  }

  ghost predicate Moves(hash: Hash, plan: Planner, ss: seq<State>, steps: seq<Step>, i: nat)
    requires i < |steps| == |ss| - 1
  {
    Enabled(hash, ss[i], steps[i]) && ss[i + 1] == Take(plan, ss[i], steps[i])
  }

  ghost predicate Begins(s: State) {
    s.pc == Resting && s.stored == None && s.commits == [] && s.ranRemote == [] && s.ranLocal == [] && s.first
  }

  /**
   * Crash safety over whole runs: wherever cycles are cut short, the stored ancestor is always what the committed
   * cycles add up to, and every one of those had executed both of its lists in full.
   */
  lemma {:induction false} CrashSafety(hash: Hash, plan: Planner, ss: seq<State>, steps: seq<Step>, k: nat)
    requires IsRun(hash, plan, ss, steps) && Begins(ss[0]) && k <= |steps|
    ensures Safe(plan, ss[k])
  {
    if k > 0 {
      CrashSafety(hash, plan, ss, steps, k - 1);
      assert Moves(hash, plan, ss, steps, k - 1);
      StepIsSafe(plan, ss[k - 1], steps[k - 1]);
    }
  }

  /** The stored ancestor changes only at the very end of a cycle, from the one before to exactly the new one. */
  lemma AncestorChangesOnce(plan: Planner, s: State, step: Step)
    requires Safe(plan, s) && Due(s, step) && Take(plan, s, step).stored != s.stored
    ensures s.pc.Saving? && s.ranRemote == s.pc.job.plan.toRemote && s.ranLocal == s.pc.job.plan.toLocal
    ensures Take(plan, s, step).stored == plan(s.stored, s.pc.job.local, s.pc.job.remote).ancestor
  {
    if step.RenameTemp? { SavingHasRun(plan, s); } else { SameHistory(plan, s, step); }
  }

  /** A cycle with lists to execute has executed so much of them, and works from the ancestor stored. */
  predicate UnderWay(plan: Planner, s: State) {
    HasJob(s.pc) ==>
      && s.pc.job.plan == plan(s.stored, s.pc.job.local, s.pc.job.remote)
      && s.ranRemote <= s.pc.job.plan.toRemote && s.ranLocal <= s.pc.job.plan.toLocal
      && (s.pc.Trashing? ==> s.ranLocal == [])
  }

  lemma OnTrackIsUnderWay(plan: Planner, s: State)
    requires OnTrack(plan, s)
    ensures UnderWay(plan, s)
  {
    if HasJob(s.pc) { DidIsPrefix(plan, s.stored, StageOf(s), s.pc.job, s.ranRemote, s.ranLocal); }
  }

  lemma DidIsPrefix(plan: Planner, stored: Option<Entry>, at: Stage, job: Job, ranRemote: seq<Change>, ranLocal: seq<Change>)
    requires Did(plan, stored, at, Some(job), ranRemote, ranLocal)
    ensures ranRemote <= job.plan.toRemote && ranLocal <= job.plan.toLocal && (at.AtTrash? ==> ranLocal == [])
  {}

  // ---- what the ancestor vouches for --------------------------------------------------------------------

  lemma {:induction false} InsertAllIsDirectory(root: Entry, ss: seq<Scanned>)
    requires root.Directory?
    ensures InsertAll(root, ss).Directory?
    decreases |ss|
  {
    if ss != [] { InsertAllIsDirectory(InsertScanned(root, ss[0]), ss[1..]); }
  }

  /** Some committed cycle found this at the path on both sides. */
  ghost predicate Vouched(commits: seq<Commit>, p: Path, m: Meta) {
    exists i :: 0 <= i < |commits| && SeenBoth(commits[i], p, m)
  }

  ghost predicate SeenBoth(c: Commit, p: Path, m: Meta) {
    Look(Some(TreeOf(c.local)), p) == Some(m) && Look(Some(TreeOf(c.remote)), p) == Some(m)
  }

  lemma {:induction false} FoldIsVouched(plan: Planner, commits: seq<Commit>, p: Path)
    requires plan == PlanPass
    ensures Look(Fold(plan, commits), p).Some? ==> Vouched(commits, p, Look(Fold(plan, commits), p).value)
    decreases |commits|
  {
    AtNone(p);
    if commits != [] && Look(Fold(plan, commits), p).Some? {
      var k := |commits| - 1;
      FoldIsVouched(plan, commits[..k], p);
      LastVouches(Fold(plan, commits[..k]), commits, p, Look(Fold(plan, commits), p).value);
    }
  }

  lemma LastVouches(anc: Option<Entry>, commits: seq<Commit>, p: Path, m: Meta)
    requires commits != []
    requires Look(anc, p).Some? ==> Vouched(commits[..|commits| - 1], p, Look(anc, p).value)
    requires var c := commits[|commits| - 1]; Look(PlanPass(anc, c.local, c.remote).ancestor, p) == Some(m)
    ensures Vouched(commits, p, m)
  {
    var k := |commits| - 1;
    RecordedOrOld(anc, commits[k], p, m);
    if SeenBoth(commits[k], p, m) {
    } else {
      var i :| 0 <= i < k && SeenBoth(commits[..k][i], p, m);
      assert SeenBoth(commits[i], p, m);
    }
  }

  lemma RecordedOrOld(anc: Option<Entry>, c: Commit, p: Path, m: Meta)
    requires Look(PlanPass(anc, c.local, c.remote).ancestor, p) == Some(m)
    ensures SeenBoth(c, p, m) || Look(anc, p) == Some(m)
  {
    InsertAllIsDirectory(Directory(map[]), ByPath(c.local));
    InsertAllIsDirectory(Directory(map[]), ByPath(c.remote));
    AncestorIsHonest(anc, TreeOf(c.local), TreeOf(c.remote), p);
  }

  /** What a tree has at a path that a list of changes would overwrite or remove. */
  ghost function Lost(t: Entry, cs: seq<TreeChange>, p: Path): Option<Meta> {
    if Want(t, cs, p) != Look(Some(t), p) then Look(Some(t), p) else None
  }

  /** What a pass from this ancestor and these scans would overwrite or remove is what the ancestor holds. */
  lemma OnlyAncestorIsLost(anc: Option<Entry>, local: seq<Scanned>, remote: seq<Scanned>, p: Path)
    ensures var lost := Lost(TreeOf(local), Merged(anc, local, remote).alpha, p); lost.Some? ==> lost == Look(anc, p)
    ensures var lost := Lost(TreeOf(remote), Merged(anc, local, remote).beta, p); lost.Some? ==> lost == Look(anc, p)
  {
    InsertAllIsDirectory(Directory(map[]), ByPath(local));
    InsertAllIsDirectory(Directory(map[]), ByPath(remote));
    MergeAgrees(anc, TreeOf(local), TreeOf(remote), p);
  }

  /** The cycle under way works from its scans, and all it would lose at a path some committed cycle had found on both sides. */
  ghost predicate Backed(commits: seq<Commit>, stored: Option<Entry>, job: Job, p: Path) {
    var cs := Merged(stored, job.local, job.remote);
    && job.plan == PlanPass(stored, job.local, job.remote)
    && BackedSide(commits, Lost(TreeOf(job.local), cs.alpha, p), p)
    && BackedSide(commits, Lost(TreeOf(job.remote), cs.beta, p), p)
  }

  ghost predicate BackedSide(commits: seq<Commit>, lost: Option<Meta>, p: Path) {
    lost.Some? ==> Vouched(commits, p, lost.value)
  }

  lemma JobIsBacked(commits: seq<Commit>, anc: Option<Entry>, job: Job, p: Path)
    requires job.plan == PlanPass(anc, job.local, job.remote) && BackedSide(commits, Look(anc, p), p)
    ensures Backed(commits, anc, job, p)
  {
    OnlyAncestorIsLost(anc, job.local, job.remote, p);
  }

  /**
   * In every reachable state, with crashes and edits anywhere before it: what the cycle under way plans to overwrite
   * or remove of what it scanned on either side, some committed cycle had found at that path on both.
   */
  lemma PlanLosesOnlyVouched(hash: Hash, plan: Planner, ss: seq<State>, steps: seq<Step>, k: nat, p: Path)
    requires plan == PlanPass && IsRun(hash, plan, ss, steps) && Begins(ss[0]) && k <= |steps| && HasJob(ss[k].pc)
    ensures Backed(ss[k].commits, ss[k].stored, ss[k].pc.job, p)
  {
    CrashSafety(hash, plan, ss, steps, k);
    FoldIsVouched(plan, ss[k].commits, p);
    JobIsBacked(ss[k].commits, ss[k].stored, ss[k].pc.job, p);
  }

  // ---- the trash through a crash ------------------------------------------------------------------------------

  lemma ReadyPrefix(s: Local, cs: seq<Change>, stamps: seq<Name>, k: nat)
    requires |stamps| == |cs| && Trashable(s, cs, stamps) && k <= |cs|
    ensures Trashable(s, cs[..k], stamps[..k])
  {
    var a, b := cs[..k], stamps[..k];
    forall i | 0 <= i < |a| && a[i].kind.Remove? ensures a[i].path in s.nodes && Open(s.trash, [b[i]] + a[i].path) {
      assert a[i] == cs[i] && b[i] == stamps[i];
    }
    forall i, j | 0 <= i < j < |a| && a[i].kind.Remove? && a[j].kind.Remove? ensures !Comparable(a[i].path, a[j].path) {
      assert a[i] == cs[i] && a[j] == cs[j];
    }
  }

  predicate InPlace(s: Local, r: Local, p: Path)
    requires p in s.nodes
  {
    p in r.nodes && r.nodes[p] == s.nodes[p]
  }

  predicate InTrash(s: Local, c: Change, stamp: Name, r: Local, p: Path)
    requires p in s.nodes
  {
    c.kind.Remove? && c.path <= p && [stamp] + p in r.trash && r.trash[[stamp] + p] == s.nodes[p]
  }

  /** Cut short anywhere in the trashing, every path of the root is still in place or, where removed, in the trash as it was. */
  lemma TrashSurvivesCrash(s: Local, cs: seq<Change>, stamps: seq<Name>, k: nat, p: Path)
    requires |stamps| == |cs| && Trashable(s, cs, stamps) && k <= |cs| && p in s.nodes
    ensures TrashAll(s, cs[..k], stamps[..k], true).Some?
    ensures var r := TrashAll(s, cs[..k], stamps[..k], true).value;
            InPlace(s, r, p) || exists i :: 0 <= i < k && InTrash(s, cs[..k][i], stamps[..k][i], r, p)
  {
    ReadyPrefix(s, cs, stamps, k);
    TrashKeepsContent(s, cs[..k], stamps[..k]);
    InPlaceOrSheltered(s, cs[..k], stamps[..k], TrashAll(s, cs[..k], stamps[..k], true).value, p);
  }

  lemma InPlaceOrSheltered(s: Local, cs: seq<Change>, stamps: seq<Name>, r: Local, p: Path)
    requires |stamps| == |cs| && Trashed(s, cs, stamps, r) && p in s.nodes
    ensures InPlace(s, r, p) || exists i :: 0 <= i < |cs| && InTrash(s, cs[i], stamps[i], r, p)
  {
    if p !in r.nodes {
      var c :| c in cs && c.kind.Remove? && c.path <= p;
      var i :| 0 <= i < |cs| && cs[i] == c;
      assert Sheltered(s, cs[i], stamps[i], p, r);
      assert InTrash(s, cs[i], stamps[i], r, p);
    }
  }
}
