/** How cycles fail and what halts a session, over whole runs and from what happened in them. */
module Stops {
  import opened Lists
  import opened Entries
  import opened Changes
  import opened Tree
  import opened Execution
  import opened Snapshot
  import opened Trash
  import opened Guard
  import opened Cycle
  import opened Crash
  import opened Halts
  import opened Losses

  /** The lowest of what is at or above the path is no directory. */
  ghost predicate Obstructed(nodes: Nodes, p: Path) {
    exists q | q in nodes :: q <= p && !nodes[q].DirNode? && forall r | r in nodes && q < r :: !(r <= p)
  }

  lemma {:induction false} MkdirAllFails(nodes: Nodes, p: Path)
    ensures MkdirAll(nodes, p).None? <==> Obstructed(nodes, p)
    decreases |p|
  {
    if p in nodes {
      forall q | q in nodes && q <= p && (forall r | r in nodes && q < r :: !(r <= p)) ensures q == p { assert !(q < p); }
    } else if p != [] {
      MkdirAllFails(nodes, Parent(p));
      forall q | q in nodes ensures q <= p <==> q <= Parent(p) { PrefixOfParent(q, p); }
    }
  }

  /** The directory a removed path is to be moved into cannot be made in the trash. */
  ghost predicate NoRoom(s: State, stamp: Name)
    requires s.pc.Trashing? && s.pc.trashed < |s.pc.job.plan.toLocal|
  {
    var c := s.pc.job.plan.toLocal[s.pc.trashed];
    c.kind.Remove? && c.path in s.local.nodes && Obstructed(s.trash, Parent([stamp] + c.path))
  }

  /** What fails a cycle, and with which verdict. */
  ghost predicate FailsWith(s: State, step: Step, verdict: Verdict)
    requires Due(s, step)
  {
    match step
    case Refuse(code) => Deserves(code, verdict)
    case Break => verdict == Retry
    case Identify(sameRoot) => !sameRoot && verdict == Halt(RootReplaced)
    case Greet => s.marker != "" && s.marker != s.id && verdict == Halt(RootReplaced)
    case Check => LostMost(s.stored, |s.pc.local|, |s.pc.remote|) && verdict == Halt(ContentLost)
    case TrashNext(stamp, _) => NoRoom(s, stamp) && verdict == Retry
    case _ => false
  }

  /** A step fails the cycle exactly so. */
  lemma FailsExactly(plan: Planner, s: State, step: Step, verdict: Verdict)
    requires Due(s, step)
    ensures FailsWith(s, step, verdict) <==> !s.pc.Faulted? && Take(plan, s, step).pc.Faulted? && Take(plan, s, step).pc.verdict == verdict
  {
    match step {
      case Check => GuardPassesExactly(s.stored, |s.pc.local|, |s.pc.remote|);
      case TrashNext(stamp, sameDevice) => NoRoomExactly(s, stamp, sameDevice);
      case _ =>
    }
  }

  lemma NoRoomExactly(s: State, stamp: Name, sameDevice: bool)
    requires Due(s, TrashNext(stamp, sameDevice))
    ensures var after := MoveAside(s, s.pc.job.plan.toLocal[s.pc.trashed], stamp, sameDevice);
            if NoRoom(s, stamp) then after.pc.Faulted? && after.pc.verdict == Retry else after.pc.Trashing?
  {
    var c := s.pc.job.plan.toLocal[s.pc.trashed];
    MkdirAllFails(s.trash, Parent([stamp] + c.path));
  }

  /** Where a cycle can break off for a lost connection or a local failure: anywhere but at the guard and in the local changes. */
  lemma BreaksExactly(s: State)
    requires !Over(s.pc)
    ensures Due(s, Break) <==> !StageOf(s).AtDial? && !StageOf(s).AtGuard? && !StageOf(s).AtLocal?
  {}

  // ---- which failure a session is halted for -------------------------------------------------------------

  /** The cycle last begun has failed with this verdict, and the roots alone were touched since. */
  ghost predicate FailedSince(ss: seq<State>, steps: seq<Step>, k: nat, verdict: Verdict)
    requires k <= |steps| == |ss| - 1
  {
    exists i: nat | i < k :: FailedAt(ss, steps, i, verdict) && OnlyEdits(steps[i + 1..k])
  }

  predicate OnlyEdits(steps: seq<Step>) {
    forall j | 0 <= j < |steps| :: IsEdit(steps[j])
  }

  lemma OnlyEditsStep(steps: seq<Step>, i: nat, k: nat)
    requires i < k < |steps|
    ensures OnlyEdits(steps[i + 1..k + 1]) <==> OnlyEdits(steps[i + 1..k]) && IsEdit(steps[k])
  {
    var a, b := steps[i + 1..k], steps[i + 1..k + 1];
    assert b == a + [steps[k]];
    assert b[|a|] == steps[k];
    assert forall j | 0 <= j < |a| :: a[j] == b[j];
  }

  ghost predicate FailedAt(ss: seq<State>, steps: seq<Step>, i: nat, verdict: Verdict)
    requires i < |steps| == |ss| - 1
  {
    Due(ss[i], steps[i]) && FailsWith(ss[i], steps[i], verdict)
  }

  lemma {:induction false} FailureIsKept(hash: Hash, plan: Planner, ss: seq<State>, steps: seq<Step>, k: nat, verdict: Verdict)
    requires IsRun(hash, plan, ss, steps) && !ss[0].pc.Faulted? && k <= |steps|
    ensures FailedSince(ss, steps, k, verdict) <==> ss[k].pc.Faulted? && ss[k].pc.verdict == verdict
  {
    if k > 0 {
      FailureIsKept(hash, plan, ss, steps, k - 1, verdict);
      assert Moves(hash, plan, ss, steps, k - 1);
      FailsExactly(plan, ss[k - 1], steps[k - 1], verdict);
      if ss[k - 1].pc.Faulted? { FailureGoesOn(plan, ss[k - 1], steps[k - 1], verdict); }
      FailedSinceStep(ss, steps, k - 1, verdict);
    }
  }

  lemma FailureGoesOn(plan: Planner, s: State, step: Step, verdict: Verdict)
    requires Due(s, step) && s.pc.Faulted?
    ensures Take(plan, s, step).pc.Faulted? <==> IsEdit(step)
    ensures IsEdit(step) ==> Take(plan, s, step).pc == s.pc
  {}

  lemma FailedSinceStep(ss: seq<State>, steps: seq<Step>, k: nat, verdict: Verdict)
    requires k < |steps| == |ss| - 1
    ensures FailedSince(ss, steps, k + 1, verdict) <==> FailedAt(ss, steps, k, verdict) || (FailedSince(ss, steps, k, verdict) && IsEdit(steps[k]))
  {
    if i: nat :| i < k + 1 && FailedAt(ss, steps, i, verdict) && OnlyEdits(steps[i + 1..k + 1]) {
      if i < k { OnlyEditsStep(steps, i, k); }
    }
    if FailedAt(ss, steps, k, verdict) { assert OnlyEdits(steps[k + 1..k + 1]); }
    if i: nat :| i < k && FailedAt(ss, steps, i, verdict) && OnlyEdits(steps[i + 1..k]) {
      OnlyEditsStep(steps, i, k);
    }
  }

  /** What loses the connection, or finds none. */
  predicate Disconnects(step: Step) {
    step.CutShort? || step.Attend? || step.DialFails?
  }

  /** A cycle has been committed on the present connection. */
  ghost predicate WentWell(steps: seq<Step>, k: nat)
    requires k <= |steps|
  {
    exists i :: 0 <= i < k && steps[i].RenameTemp? && forall j | i < j < k :: !Disconnects(steps[j])
  }

  lemma WentWellStep(steps: seq<Step>, k: nat)
    requires k < |steps|
    ensures WentWell(steps, k + 1) <==> steps[k].RenameTemp? || (WentWell(steps, k) && !Disconnects(steps[k]))
  {
    if WentWell(steps, k + 1) {
      var i :| 0 <= i < k + 1 && steps[i].RenameTemp? && forall j | i < j < k + 1 :: !Disconnects(steps[j]);
      if i < k { assert !Disconnects(steps[k]); }
    }
    if WentWell(steps, k) && !Disconnects(steps[k]) {
      var i :| 0 <= i < k && steps[i].RenameTemp? && forall j | i < j < k :: !Disconnects(steps[j]);
      assert steps[i].RenameTemp? && forall j | i < j < k + 1 :: !Disconnects(steps[j]);
    }
  }

  lemma {:induction false} FirstExactly(hash: Hash, plan: Planner, ss: seq<State>, steps: seq<Step>, k: nat)
    requires IsRun(hash, plan, ss, steps) && Begins(ss[0]) && k <= |steps|
    ensures !ss[k].pc.Halted? ==> (ss[k].first <==> !WentWell(steps, k))
  {
    if k > 0 {
      FirstExactly(hash, plan, ss, steps, k - 1);
      assert Moves(hash, plan, ss, steps, k - 1);
      FirstChanges(plan, ss[k - 1], steps[k - 1]);
      WentWellStep(steps, k - 1);
    }
  }

  lemma FirstChanges(plan: Planner, s: State, step: Step)
    requires Due(s, step)
    ensures var after := Take(plan, s, step);
            && (s.pc.Halted? ==> after.pc == s.pc)
            && (!after.pc.Halted? ==> after.first == if step.RenameTemp? then false else Disconnects(step) || s.first)
  {
    if step.TrashNext? { MoveAsideFirst(s, s.pc.job.plan.toLocal[s.pc.trashed], step.stamp, step.sameDevice); }
  }

  lemma MoveAsideFirst(s: State, c: Change, stamp: Name, sameDevice: bool)
    requires s.pc.Trashing?
    ensures MoveAside(s, c, stamp, sameDevice).first == s.first
  {}

  /**
   * What halts a session at a step, from the steps before it: a dial or an attended failure. Diagnostics make it a version
   * gap on a connection with no cycle gone well; else it is what the cycle failed with, or the end of a terminated sandbox.
   */
  ghost predicate HaltsFor(ss: seq<State>, steps: seq<Step>, k: nat, reason: HaltReason)
    requires k < |steps| == |ss| - 1
  {
    match steps[k]
    case DialFails(terminated) => terminated && reason == SandboxGone
    case Attend(diagnosed, terminated) =>
      if diagnosed && !WentWell(steps, k) then reason == VersionGap
      else FailedSince(ss, steps, k, Halt(reason)) || (terminated && reason == SandboxGone && FailedSince(ss, steps, k, Retry))
    case _ => false
  }

  /** In every run the session halts exactly then, for exactly that reason; and having halted it stays as it is. */
  lemma HaltsExactly(hash: Hash, plan: Planner, ss: seq<State>, steps: seq<Step>, k: nat, reason: HaltReason)
    requires IsRun(hash, plan, ss, steps) && Begins(ss[0]) && k < |steps|
    ensures HaltsFor(ss, steps, k, reason) <==> !ss[k].pc.Halted? && ss[k + 1].pc.Halted? && ss[k + 1].pc.reason == reason
    ensures ss[k].pc.Halted? ==> IsEdit(steps[k]) && ss[k + 1].pc == ss[k].pc && ss[k + 1].stored == ss[k].stored
  {
    assert Moves(hash, plan, ss, steps, k);
    CrashSafety(hash, plan, ss, steps, k);
    FirstExactly(hash, plan, ss, steps, k);
    FailureIsKept(hash, plan, ss, steps, k, Halt(reason));
    FailureIsKept(hash, plan, ss, steps, k, Retry);
    HaltingStep(plan, ss[k], steps[k], reason);
  }

  /** One step halts for a reason exactly when the failure to be judged, or a sandbox that is gone, gives it. */
  lemma HaltingStep(plan: Planner, s: State, step: Step, reason: HaltReason)
    requires Due(s, step)
    ensures s.pc.Halted? ==> IsEdit(step) && Take(plan, s, step).pc == s.pc && Take(plan, s, step).stored == s.stored
    ensures !s.pc.Halted? && Take(plan, s, step).pc.Halted? && Take(plan, s, step).pc.reason == reason <==>
            match step
            case DialFails(terminated) => terminated && reason == SandboxGone
            case Attend(diagnosed, terminated) =>
              if diagnosed && s.first then reason == VersionGap
              else s.pc.verdict == Halt(reason) || (terminated && reason == SandboxGone && s.pc.verdict == Retry)
            case _ => false
  {
    if step.TrashNext? { MoveAsideMoves(s, s.pc.job.plan.toLocal[s.pc.trashed], step.stamp, step.sameDevice); }
  }

  // ---- what a cycle works from ---------------------------------------------------------------------------

  /** A cycle that has greeted the sandbox and not ended. */
  predicate PastGreeting(pc: Pc) {
    pc.Greeted? || pc.HalfScanned? || pc.BothScanned? || HasJob(pc)
  }

  /** What these steps of the cycle under way found: its own marker or none, and both scans. */
  ghost predicate GreetedAt(ss: seq<State>, steps: seq<Step>, k: nat, i: nat)
    requires i < k <= |steps| == |ss| - 1
  {
    && steps[i].Greet? && (ss[i].marker == "" || ss[i].marker == ss[k].id) && ss[i + 1].marker == ss[k].id
    && forall j | i < j < k :: !steps[j].Identify?
  }

  ghost predicate ScannedAt(ss: seq<State>, steps: seq<Step>, k: nat, i: nat, local: bool, entries: seq<Scanned>)
    requires i < k <= |steps| == |ss| - 1
  {
    && steps[i] == (if local then ScanLocal(entries) else ScanRemote(entries))
    && forall j | i < j < k :: !steps[j].Identify?
  }

  /** The cycle under way has greeted a sandbox that was its own or nobody's, and made it its own. */
  lemma {:induction false} GreetsItsOwn(hash: Hash, plan: Planner, ss: seq<State>, steps: seq<Step>, k: nat)
    requires IsRun(hash, plan, ss, steps) && Begins(ss[0]) && k <= |steps|
    ensures ss[k].id == ss[0].id
    ensures PastGreeting(ss[k].pc) ==> exists i :: 0 <= i < k && GreetedAt(ss, steps, k, i)
  {
    if k > 0 {
      GreetsItsOwn(hash, plan, ss, steps, k - 1);
      assert Moves(hash, plan, ss, steps, k - 1);
      GreetingGoesOn(plan, ss[k - 1], steps[k - 1]);
      if PastGreeting(ss[k].pc) {
        if steps[k - 1].Greet? {
          assert GreetedAt(ss, steps, k, k - 1);
        } else {
          var i :| 0 <= i < k - 1 && GreetedAt(ss, steps, k - 1, i);
          assert GreetedAt(ss, steps, k, i);
        }
      }
    }
  }

  lemma GreetingGoesOn(plan: Planner, s: State, step: Step)
    requires Due(s, step)
    ensures var after := Take(plan, s, step);
            && after.id == s.id
            && (step.Greet? && after.pc.Greeted? ==> (s.marker == "" || s.marker == s.id) && after.marker == s.id)
            && (PastGreeting(after.pc) && !step.Greet? ==> PastGreeting(s.pc) && !step.Identify?)
  {
    if step.TrashNext? { MoveAsideMoves(s, s.pc.job.plan.toLocal[s.pc.trashed], step.stamp, step.sameDevice); }
  }

  function ScanOf(pc: Pc, local: bool): Option<seq<Scanned>> {
    if local then LocalScanOf(pc) else RemoteScanOf(pc)
  }

  /** The scan of one side that a cycle works from, if it has come so far, is one that it made. */
  ghost predicate ItsOwn(ss: seq<State>, steps: seq<Step>, k: nat, local: bool)
    requires k <= |steps| == |ss| - 1
  {
    var scan := ScanOf(ss[k].pc, local);
    scan.Some? ==> exists i: nat | i < k :: ScannedAt(ss, steps, k, i, local, scan.value)
  }

  /**
   * In every run a cycle with lists to execute works from the two scans of its own that it made, each of what was then
   * on disk, and neither shows most of what the stored ancestor tracks to be lost.
   */
  lemma {:induction false} WorksFromItsScans(hash: Hash, plan: Planner, ss: seq<State>, steps: seq<Step>, k: nat)
    requires IsRun(hash, plan, ss, steps) && Begins(ss[0]) && k <= |steps|
    ensures ItsOwn(ss, steps, k, true) && ItsOwn(ss, steps, k, false) && Guarded(ss[k])
  {
    if k > 0 {
      WorksFromItsScans(hash, plan, ss, steps, k - 1);
      assert Moves(hash, plan, ss, steps, k - 1);
      GuardedStep(plan, ss[k - 1], steps[k - 1]);
      ScanIsKept(plan, ss, steps, k, true);
      ScanIsKept(plan, ss, steps, k, false);
    }
  }

  ghost predicate Guarded(s: State) {
    HasJob(s.pc) ==> !LostMost(s.stored, |s.pc.job.local|, |s.pc.job.remote|)
  }

  lemma ScansGoOn(plan: Planner, s: State, step: Step, local: bool)
    requires Due(s, step)
    ensures var after := ScanOf(Take(plan, s, step).pc, local);
            after.Some? ==> step == (if local then ScanLocal(after.value) else ScanRemote(after.value))
                            || (ScanOf(s.pc, local) == after && !step.Identify?)
  {
    if !step.ScanLocal? && !step.ScanRemote? { SameScans(plan, s, step); }
  }

  lemma ScanIsKept(plan: Planner, ss: seq<State>, steps: seq<Step>, k: nat, local: bool)
    requires 0 < k <= |steps| == |ss| - 1 && Due(ss[k - 1], steps[k - 1]) && ss[k] == Take(plan, ss[k - 1], steps[k - 1])
    requires ItsOwn(ss, steps, k - 1, local)
    ensures ItsOwn(ss, steps, k, local)
  {
    ScansGoOn(plan, ss[k - 1], steps[k - 1], local);
    var scan := ScanOf(ss[k].pc, local);
    if scan.Some? {
      if steps[k - 1] == (if local then ScanLocal(scan.value) else ScanRemote(scan.value)) {
        assert ScannedAt(ss, steps, k, k - 1, local, scan.value);
      } else {
        var i: nat :| i < k - 1 && ScannedAt(ss, steps, k - 1, i, local, scan.value);
        assert ScannedAt(ss, steps, k, i, local, scan.value);
      }
    }
  }

  lemma GuardedStep(plan: Planner, s: State, step: Step)
    requires Due(s, step) && Guarded(s)
    ensures Guarded(Take(plan, s, step))
  {
    if step.TrashNext? {
      MoveAsideMoves(s, s.pc.job.plan.toLocal[s.pc.trashed], step.stamp, step.sameDevice);
    } else if step.Check? {
      GuardPassesExactly(s.stored, |s.pc.local|, |s.pc.remote|);
    } else {
      SameJob(plan, s, step);
    }
  }

  lemma SameJob(plan: Planner, s: State, step: Step)
    requires Due(s, step) && !step.TrashNext? && !step.Check?
    ensures var after := Take(plan, s, step); HasJob(after.pc) ==> HasJob(s.pc) && after.pc.job == s.pc.job && after.stored == s.stored
  {}

  // ---- staged content ------------------------------------------------------------------------------------

  lemma ApplyKeepsGenuine(hash: Hash, d: Disk, c: Change)
    requires Genuine(hash, d.staged)
    ensures Genuine(hash, Apply(d, c).0.staged)
  {}

  lemma StagedBy(plan: Planner, s: State, step: Step)
    requires Due(s, step)
    ensures var after := Take(plan, s, step);
            && after.local.staged == (match step
                                      case Fetch(digest, content) => s.local.staged[digest := content]
                                      case ChangeLocal => Apply(s.local, s.pc.job.plan.toLocal[|s.ranLocal|]).0.staged
                                      case _ => s.local.staged)
            && after.remote.staged == (match step
                                       case Send(digest, content) => s.remote.staged[digest := content]
                                       case ChangeRemote => Apply(s.remote, s.pc.job.plan.toRemote[|s.ranRemote|]).0.staged
                                       case _ => s.remote.staged)
  {
    if step.TrashNext? { MoveAsideMoves(s, s.pc.job.plan.toLocal[s.pc.trashed], step.stamp, step.sameDevice); }
  }

  lemma GenuineStep(hash: Hash, plan: Planner, s: State, step: Step)
    requires Enabled(hash, s, step) && Genuine(hash, s.local.staged) && Genuine(hash, s.remote.staged)
    ensures Genuine(hash, Take(plan, s, step).local.staged) && Genuine(hash, Take(plan, s, step).remote.staged)
  {
    StagedBy(plan, s, step);
    if step.ChangeRemote? { ApplyKeepsGenuine(hash, s.remote, s.pc.job.plan.toRemote[|s.ranRemote|]); }
    if step.ChangeLocal? { ApplyKeepsGenuine(hash, s.local, s.pc.job.plan.toLocal[|s.ranLocal|]); }
  }

  /** Wherever cycles are cut short, what is staged on either side stays what its digest names. */
  lemma {:induction false} StagedStaysGenuine(hash: Hash, plan: Planner, ss: seq<State>, steps: seq<Step>, k: nat)
    requires IsRun(hash, plan, ss, steps) && k <= |steps| && Genuine(hash, ss[0].local.staged) && Genuine(hash, ss[0].remote.staged)
    ensures Genuine(hash, ss[k].local.staged) && Genuine(hash, ss[k].remote.staged)
  {
    if k > 0 {
      StagedStaysGenuine(hash, plan, ss, steps, k - 1);
      assert Moves(hash, plan, ss, steps, k - 1);
      GenuineStep(hash, plan, ss[k - 1], steps[k - 1]);
    }
  }
}
