/** What a halted session's last cycle has executed, and what that left on both sides. */
module Halts {
  import opened Entries
  import opened Changes
  import opened Tree
  import opened Execution
  import opened Pass
  import opened Trash
  import opened Cycle
  import opened Crash

  predicate IsEdit(step: Step) {
    step.EditLocal? || step.EditRemote?
  }

  /** A stage by which nothing of either list has been executed. */
  predicate Idle(at: Stage, from: Option<Job>) {
    match at
    case AtTransition(k) => k == 0
    case AtLocal(k) => k == 0 && (from.Some? ==> from.value.plan.toRemote == [])
    case AtSave => from.Some? ==> from.value.plan.toRemote == [] && from.value.plan.toLocal == []
    case AtSupply => from.Some? ==> from.value.plan.toRemote == []
    case AtTrash(_) => from.Some? ==> from.value.plan.toRemote == []
    case _ => true
  }

  /**
   * Every halt of every run, the cycles' own and the runner's, wherever cycles were cut short and roots edited before:
   * what the last cycle had executed is exactly what the stage it came to says, so nothing if and only if that stage is
   * idle. Of the halts for a replaced root or lost content, only one while supplying, with a list for the sandbox, has
   * executed anything, and then the whole of that list and nothing locally.
   */
  lemma HaltExecutedExactly(hash: Hash, plan: Planner, ss: seq<State>, steps: seq<Step>, k: nat)
    requires IsRun(hash, plan, ss, steps) && Begins(ss[0]) && k <= |steps| && ss[k].pc.Halted?
    ensures var s := ss[k];
            && (s.pc.from.Some? <==> PastGuard(s.pc.at))
            && (s.pc.from.Some? ==> s.pc.from.value.plan == plan(s.stored, s.pc.from.value.local, s.pc.from.value.remote))
            && s.ranRemote == RemoteBy(s.pc.at, s.pc.from) && s.ranLocal == LocalBy(s.pc.at, s.pc.from)
            && (s.ranRemote == [] && s.ranLocal == [] <==> Idle(s.pc.at, s.pc.from))
            && (s.pc.reason.RootReplaced? || s.pc.reason.ContentLost? ==>
                  && s.ranLocal == []
                  && (s.ranRemote == [] <==> s.pc.at != AtSupply || s.pc.from.value.plan.toRemote == [])
                  && (s.ranRemote != [] ==> s.ranRemote == s.pc.from.value.plan.toRemote))
            && (s.pc.reason.VersionGap? ==> s.pc.at != AtDial && !s.pc.at.AtLocal?)
  {
    CrashSafety(hash, plan, ss, steps, k);
    IdleExactly(plan, ss[k]);
  }

  lemma IdleExactly(plan: Planner, s: State)
    requires OnTrack(plan, s)
    ensures s.ranRemote == [] && s.ranLocal == [] <==> Idle(StageOf(s), JobOf(s.pc))
  {}

  /** From one local root and trash to another by moving what a list removes aside, wherever renames work and not. */
  ghost predicate Shelved(a: Local, cs: seq<Change>, b: Local)
    decreases |cs|, 1
  {
    if cs == [] then a == b else exists m, stamp, sameDevice :: ShelvedLast(a, cs, m, stamp, sameDevice, b)
  }

  ghost predicate ShelvedLast(a: Local, cs: seq<Change>, m: Local, stamp: Name, sameDevice: bool, b: Local)
    requires cs != []
    decreases |cs|, 0
  {
    Shelved(a, cs[..|cs| - 1], m) && MovedOne(m, cs[|cs| - 1], stamp, sameDevice, b)
  }

  predicate MovedOne(m: Local, c: Change, stamp: Name, sameDevice: bool, b: Local) {
    if c.kind.Remove? then TrashPath(m, c.path, stamp, sameDevice) == Some(b) else b == m
  }

  function LocalOf(s: State): Local {
    Local(s.local.nodes, s.trash)
  }

  /** The sandbox as executing so much of its list leaves it. */
  ghost predicate RanFrom(before: State, s: State, d: Disk) {
    d.nodes == before.remote.nodes && s.remote == Run(d, s.ranRemote).0
  }

  /** The local root as executing so much of its list leaves it, with what that removes moved aside first. */
  ghost predicate RanLocallyFrom(before: State, s: State, job: Job, m: Local, d: Disk) {
    Shelved(LocalOf(before), job.plan.toLocal, m) && d.nodes == m.nodes && s.trash == m.trash && s.local == Run(d, s.ranLocal).0
  }

  ghost predicate LeftLocally(before: State, s: State) {
    var at, from := StageOf(s), JobOf(s.pc);
    match at
    case AtTrash(k) => from.Some? && Shelved(LocalOf(before), Upto(from.value.plan.toLocal, k), LocalOf(s))
    case AtLocal(_) => from.Some? && exists m, d :: RanLocallyFrom(before, s, from.value, m, d)
    case AtSave => from.Some? && exists m, d :: RanLocallyFrom(before, s, from.value, m, d)
    case _ => LocalOf(s) == LocalOf(before)
  }

  /** What an undisturbed cycle, begun from `before`, has made of both sides. */
  ghost predicate LeftBy(before: State, s: State) {
    (exists d: Disk :: RanFrom(before, s, d)) && LeftLocally(before, s)
  }

  lemma RanOneMore(d: Disk, ran: seq<Change>, c: Change)
    ensures Run(d, ran + [c]).0 == Apply(Run(d, ran).0, c).0
  {
    RunConcat(d, ran, [c]);
    var (d1, o) := Apply(Run(d, ran).0, c);
    assert Run(d1, []) == (d1, []);
  }

  lemma BegunLeaves(plan: Planner, s: State, step: Step)
    requires Due(s, step) && step.Identify?
    ensures LeftBy(s, Take(plan, s, step))
  {
    var after := Take(plan, s, step);
    assert RanFrom(s, after, after.remote);
  }

  lemma EndLeaves(plan: Planner, before: State, s: State, step: Step)
    requires Due(s, step) && Ends(step) && LeftBy(before, s)
    ensures LeftBy(before, Take(plan, s, step))
  {
    var after := Take(plan, s, step);
    EndKeepsStage(plan, s, step);
    var d: Disk :| RanFrom(before, s, d);
    assert RanFrom(before, after, d);
    EndLeavesLocally(before, s, after);
  }

  lemma EndLeavesLocally(before: State, s: State, after: State)
    requires LeftLocally(before, s) && StageOf(after) == StageOf(s) && JobOf(after.pc) == JobOf(s.pc)
    requires after.local == s.local && after.trash == s.trash && after.ranLocal == s.ranLocal
    ensures LeftLocally(before, after)
  {
    if StageOf(s).AtLocal? || StageOf(s).AtSave? {
      var m, d :| RanLocallyFrom(before, s, JobOf(s.pc).value, m, d);
      assert RanLocallyFrom(before, after, JobOf(s.pc).value, m, d);
    }
  }

  lemma SandboxLeaves(plan: Planner, before: State, s: State, step: Step)
    requires OnTrack(plan, s) && Due(s, step) && !IsEdit(step) && !step.Identify? && !step.RenameTemp?
    requires exists d: Disk :: RanFrom(before, s, d)
    ensures exists d: Disk :: RanFrom(before, Take(plan, s, step), d)
  {
    var after := Take(plan, s, step);
    var d: Disk :| RanFrom(before, s, d);
    if step.Send? {
      NotYetLocally(plan, s);
      assert RanFrom(before, after, after.remote);
    } else if step.ChangeRemote? {
      RanOneMore(d, s.ranRemote, s.pc.job.plan.toRemote[|s.ranRemote|]);
      assert RanFrom(before, after, d);
    } else {
      SandboxUntouched(plan, s, step);
      assert RanFrom(before, after, d);
    }
  }

  lemma SandboxUntouched(plan: Planner, s: State, step: Step)
    requires Due(s, step) && !IsEdit(step) && !step.Identify? && !step.RenameTemp? && !step.Send? && !step.ChangeRemote?
    ensures Take(plan, s, step).remote == s.remote && Take(plan, s, step).ranRemote == s.ranRemote
  {}

  lemma ShelvedMore(a: Local, l: seq<Change>, k: nat, m: Local, stamp: Name, sameDevice: bool, b: Local)
    requires k < |l| && Shelved(a, Upto(l, k), m) && MovedOne(m, l[k], stamp, sameDevice, b)
    ensures Shelved(a, Upto(l, k + 1), b)
  {
    var cs := l[..k + 1];
    assert cs[..k] == l[..k] && cs[k] == l[k];
    assert ShelvedLast(a, cs, m, stamp, sameDevice, b);
  }

  lemma TrashLeaves(plan: Planner, before: State, s: State, stamp: Name, sameDevice: bool)
    requires Due(s, TrashNext(stamp, sameDevice)) && LeftLocally(before, s)
    ensures LeftLocally(before, Take(plan, s, TrashNext(stamp, sameDevice)))
  {
    var after := Take(plan, s, TrashNext(stamp, sameDevice));
    var l, k := s.pc.job.plan.toLocal, s.pc.trashed;
    MoveAsideMoves(s, l[k], stamp, sameDevice);
    if after.pc.Trashing? {
      ShelvedMore(LocalOf(before), l, k, LocalOf(s), stamp, sameDevice, LocalOf(after));
    } else {
      EndLeavesLocally(before, s, after);
    }
  }

  lemma TrashedLeaves(plan: Planner, before: State, s: State)
    requires OnTrack(plan, s) && Due(s, TrashedAll) && LeftLocally(before, s)
    ensures LeftLocally(before, Take(plan, s, TrashedAll))
  {
    var l := s.pc.job.plan.toLocal;
    NothingRanLocally(plan, s);
    assert Upto(l, |l|) == l;
    assert RanLocallyFrom(before, Take(plan, s, TrashedAll), s.pc.job, LocalOf(s), s.local);
  }

  lemma ChangeLeaves(plan: Planner, before: State, s: State)
    requires Due(s, ChangeLocal) && LeftLocally(before, s)
    ensures LeftLocally(before, Take(plan, s, ChangeLocal))
  {
    var m, d :| RanLocallyFrom(before, s, s.pc.job, m, d);
    RanOneMore(d, s.ranLocal, s.pc.job.plan.toLocal[|s.ranLocal|]);
    assert RanLocallyFrom(before, Take(plan, s, ChangeLocal), s.pc.job, m, d);
  }

  lemma SavingLeaves(plan: Planner, before: State, s: State, step: Step)
    requires Due(s, step) && LeftLocally(before, s) && (step.LocalDone? || step.WriteTemp?)
    ensures LeftLocally(before, Take(plan, s, step))
  {
    OnlyStageMoves(plan, s, step);
    SameRan(before, s, Take(plan, s, step), s.pc.job);
  }

  lemma OnlyStageMoves(plan: Planner, s: State, step: Step)
    requires Due(s, step) && (step.LocalDone? || step.WriteTemp?)
    ensures var after := Take(plan, s, step);
            && StageOf(after) == AtSave && JobOf(after.pc) == Some(s.pc.job) && JobOf(s.pc) == Some(s.pc.job)
            && after.local == s.local && after.trash == s.trash && after.ranLocal == s.ranLocal
  {}

  lemma SameRan(before: State, s: State, after: State, job: Job)
    requires after.local == s.local && after.trash == s.trash && after.ranLocal == s.ranLocal
    requires exists m, d :: RanLocallyFrom(before, s, job, m, d)
    ensures exists m, d :: RanLocallyFrom(before, after, job, m, d)
  {
    var m, d :| RanLocallyFrom(before, s, job, m, d);
    assert RanLocallyFrom(before, after, job, m, d);
  }

  /** The steps of a cycle that has not come to its trashing. */
  predicate IsBeforehand(step: Step) {
    step.Greet? || step.ScanLocal? || step.ScanRemote? || step.Check? || step.Send? || step.SentAll? || step.ChangeRemote?
    || step.RemoteDone? || step.Fetch?
  }

  predicate Beforehand(at: Stage) {
    !at.AtTrash? && !at.AtLocal? && !at.AtSave?
  }

  lemma BeforehandStays(plan: Planner, s: State, step: Step)
    requires Due(s, step) && IsBeforehand(step)
    ensures Beforehand(StageOf(s)) && Beforehand(StageOf(Take(plan, s, step))) && LocalOf(Take(plan, s, step)) == LocalOf(s)
  {
    match step {
      case Greet =>
      case Check =>
      case _ =>
    }
  }

  lemma EarlierLeaves(plan: Planner, before: State, s: State, step: Step)
    requires Due(s, step) && LeftLocally(before, s) && IsBeforehand(step)
    ensures LeftLocally(before, Take(plan, s, step))
  {
    BeforehandStays(plan, s, step);
  }

  lemma FetchedLeaves(plan: Planner, before: State, s: State)
    requires Due(s, FetchedAll) && LeftLocally(before, s)
    ensures LeftLocally(before, Take(plan, s, FetchedAll))
  {
    assert Upto(s.pc.job.plan.toLocal, 0) == [];
  }

  lemma StepLeavesLocally(plan: Planner, before: State, s: State, step: Step)
    requires OnTrack(plan, s) && Due(s, step) && !Ends(step) && !IsEdit(step) && !step.Identify? && !step.RenameTemp? && LeftLocally(before, s)
    ensures LeftLocally(before, Take(plan, s, step))
  {
    if IsBeforehand(step) { EarlierLeaves(plan, before, s, step); }
    else if step.FetchedAll? { FetchedLeaves(plan, before, s); }
    else if step.TrashedAll? { TrashedLeaves(plan, before, s); }
    else if step.TrashNext? { TrashLeaves(plan, before, s, step.stamp, step.sameDevice); }
    else if step.ChangeLocal? { ChangeLeaves(plan, before, s); }
    else { SavingLeaves(plan, before, s, step); }
  }

  lemma StepLeaves(plan: Planner, before: State, s: State, step: Step)
    requires OnTrack(plan, s) && Due(s, step) && !IsEdit(step) && !step.Identify? && !step.RenameTemp? && LeftBy(before, s)
    ensures LeftBy(before, Take(plan, s, step))
  {
    if Ends(step) {
      EndLeaves(plan, before, s, step);
    } else {
      SandboxLeaves(plan, before, s, step);
      StepLeavesLocally(plan, before, s, step);
    }
  }

  /** Once past a cycle, only a new one leaves the dial behind. */
  lemma DialStays(plan: Planner, s: State, step: Step)
    requires Due(s, step) && !step.Identify? && StageOf(Take(plan, s, step)) != AtDial && HaltKnown(s)
    ensures StageOf(s) != AtDial && !step.RenameTemp?
  {}

  lemma GoesOnLeaving(hash: Hash, plan: Planner, before: State, s: State, step: Step, after: State)
    requires Steady(plan, s) && Due(s, step) && after == Take(plan, s, step) && StageOf(after) != AtDial
    requires !IsEdit(step) && !step.Identify? && (StageOf(s) != AtDial ==> LeftBy(before, s))
    ensures LeftBy(before, after)
  {
    DialStays(plan, s, step);
    StepLeaves(plan, before, s, step);
  }

  lemma {:induction false} CycleLeaves(hash: Hash, plan: Planner, ss: seq<State>, steps: seq<Step>, i: nat, j: nat)
    requires IsRun(hash, plan, ss, steps) && Begins(ss[0]) && i < j <= |steps| && StageOf(ss[j]) != AtDial
    requires steps[i].Identify? && (forall k | i < k < j :: !steps[k].Identify?) && forall k | i <= k < j :: !IsEdit(steps[k])
    ensures LeftBy(ss[i], ss[j])
    decreases j
  {
    StepFacts(hash, plan, ss, steps, j - 1);
    if i == j - 1 {
      BegunLeaves(plan, ss[i], steps[i]);
    } else {
      if StageOf(ss[j - 1]) != AtDial { CycleLeaves(hash, plan, ss, steps, i, j - 1); }
      GoesOnLeaving(hash, plan, ss[i], ss[j - 1], steps[j - 1], ss[j]);
    }
  }

  lemma StepFacts(hash: Hash, plan: Planner, ss: seq<State>, steps: seq<Step>, k: int)
    requires IsRun(hash, plan, ss, steps) && Begins(ss[0]) && 0 <= k < |steps|
    ensures Steady(plan, ss[k]) && Due(ss[k], steps[k]) && ss[k + 1] == Take(plan, ss[k], steps[k])
  {
    assert Moves(hash, plan, ss, steps, k);
    CrashSafety(hash, plan, ss, steps, k);
  }

  /**
   * And what that did to both sides, where nobody edited them since the cycle began: the sandbox is as what was executed
   * there makes it; the local root and the trash are as they were, unless the cycle had come to its trashing.
   */
  lemma HaltLeaves(hash: Hash, plan: Planner, ss: seq<State>, steps: seq<Step>, i: nat, j: nat)
    requires IsRun(hash, plan, ss, steps) && Begins(ss[0]) && i < j <= |steps| && ss[j].pc.Halted? && ss[j].pc.at != AtDial
    requires steps[i].Identify? && (forall k | i < k < j :: !steps[k].Identify?) && forall k | i <= k < j :: !IsEdit(steps[k])
    ensures exists d: Disk :: d.nodes == ss[i].remote.nodes && ss[j].remote == Run(d, RemoteBy(ss[j].pc.at, ss[j].pc.from)).0
    ensures LeftLocally(ss[i], ss[j])
    ensures ss[j].pc.reason.RootReplaced? || ss[j].pc.reason.ContentLost? ==> LocalOf(ss[j]) == LocalOf(ss[i])
  {
    CrashSafety(hash, plan, ss, steps, j);
    CycleLeaves(hash, plan, ss, steps, i, j);
    HaltLeft(plan, ss[i], ss[j]);
  }

  lemma HaltLeft(plan: Planner, before: State, s: State)
    requires Steady(plan, s) && s.pc.Halted? && LeftBy(before, s)
    ensures exists d: Disk :: d.nodes == before.remote.nodes && s.remote == Run(d, RemoteBy(s.pc.at, s.pc.from)).0
    ensures s.pc.reason.RootReplaced? || s.pc.reason.ContentLost? ==> LocalOf(s) == LocalOf(before)
  {
    var d: Disk :| RanFrom(before, s, d);
  }

  /**
   * From any cycle that has content still to fetch, an edit of that file in the sandbox halts the session for a
   * replaced root, with the whole list applied.
   */
  lemma LateHalt(hash: Hash, plan: Planner, s: State, c: Change, edited: Nodes, diagnosed: bool)
    requires Safe(plan, s) && Fetching(s, c) && !(s.first && diagnosed)
    requires c.path in edited && edited[c.path].FileNode? && hash(edited[c.path].content) != c.kind.digest
    ensures var s1 := Take(plan, s, EditRemote(edited, s.marker));
            && Enabled(hash, s, EditRemote(edited, s.marker)) && Enabled(hash, s1, Refuse(RootInvalid))
            && var s2 := Attended(Take(plan, s1, Refuse(RootInvalid)), diagnosed, false);
               && s2.pc == Halted(RootReplaced, AtSupply, Some(s.pc.job)) && s2.ranRemote == s.pc.job.plan.toRemote
               && s2.stored == s.stored && s2.remote.nodes == edited
  {
    var s1 := Take(plan, s, EditRemote(edited, s.marker));
    RefusalIsDue(hash, s1, c);
    SupplyingHasRun(plan, s);
  }

  /** A refusal, with the sandbox there and no diagnostics, halts for what its code deserves, and otherwise leaves the next cycle to try. */
  lemma RefusalDeserves(plan: Planner, s: State, code: ErrorCode)
    requires Refusable(s)
    ensures var after := Attended(Take(plan, s, Refuse(code)), false, false);
            && (code.ProtocolVersion? <==> after.pc.Halted? && after.pc.reason == VersionGap)
            && (code.RootOutsideWorkspace? || code.RootInvalid? <==> after.pc.Halted? && after.pc.reason == RootReplaced)
            && (code.NoSpace? || code.Internal? <==> after.pc.Broken?)
  {}

  lemma RefusalIsDue(hash: Hash, s: State, c: Change)
    requires Fetching(s, c) && c.path in s.remote.nodes && s.remote.nodes[c.path].FileNode?
    requires hash(s.remote.nodes[c.path].content) != c.kind.digest
    ensures Enabled(hash, s, Refuse(RootInvalid))
  {
    assert Fetching(s, c) && Refusal(hash, s.remote.nodes, c.path, c.kind.digest) == Some(RootInvalid);
  }

  lemma SupplyingHasRun(plan: Planner, s: State)
    requires OnTrack(plan, s) && s.pc.Supplying?
    ensures s.ranRemote == s.pc.job.plan.toRemote
  {}
}
