/** What the steps of a cycle take away from the roots themselves, in any run. */
module Losses {
  import opened Lists
  import opened Entries
  import opened Changes
  import opened Splice
  import opened Reconcile
  import opened Tree
  import opened Execution
  import opened Meaning
  import opened Snapshot
  import opened Agreement
  import opened Pass
  import opened Trash
  import opened Cycle
  import opened Crash
  import Merge

  // ---- what one change touches ---------------------------------------------------------------------------

  /** What was at the path is not there any more. */
  predicate Takes(before: Nodes, after: Nodes, p: Path) {
    p in before && (p !in after || after[p] != before[p])
  }

  /** A change takes away only below a removal or at a file, link or mode change, and puts things only at or above it. */
  lemma ApplyTouches(d: Disk, c: Change, p: Path)
    requires Reachable(c)
    ensures var after := Apply(d, c).0.nodes;
            && (p in after && (p !in d.nodes || after[p] != d.nodes[p]) ==> !c.kind.Remove? && p <= c.path)
            && (Takes(d.nodes, after, p) ==>
                  (c.kind.Remove? && c.path <= p) || (!c.kind.Remove? && !c.kind.CreateDirectory? && p == c.path))
  {
    match c.kind {
      case CreateDirectory =>
        if MkdirAll(d.nodes, c.path).Some? { MkdirAdds(d.nodes, c.path, p); }
      case CreateFile(_, _) =>
        if MkdirAll(d.nodes, Parent(c.path)).Some? {
          MkdirAdds(d.nodes, Parent(c.path), p);
          PrefixOfParent(p, c.path);
        }
      case CreateSymlink(_) =>
        if MkdirAll(d.nodes, Parent(c.path)).Some? {
          MkdirAdds(d.nodes, Parent(c.path), p);
          PrefixOfParent(p, c.path);
        }
      case _ =>
    }
  }

  // ---- what a list takes away ------------------------------------------------------------------------------

  /** What is at the path is what the tree has there, or something the list has made at it or below it. */
  ghost predicate Traced(hash: Hash, nodes: Nodes, t: Entry, ran: seq<Change>, p: Path) {
    p in nodes ==> MetaAt(hash, nodes, p) == Look(Some(t), p) || MadeAt(ran, p)
  }

  ghost predicate MadeAt(ran: seq<Change>, p: Path) {
    exists c :: c in ran && !c.kind.Remove? && p <= c.path
  }

  lemma ListedIsReachable(t: Entry, cs: seq<TreeChange>, c: Change)
    requires Reconciled(t, cs) && AllAdmissible(t, cs) && c in ChangesFrom(cs)
    ensures Reachable(c)
  {
    if c.kind.Remove? { RemovalFacts(t, cs, c); } else { CreationFacts(t, cs, c); }
  }

  lemma TracedOn(hash: Hash, d: Disk, t: Entry, cs: seq<TreeChange>, k: nat, p: Path)
    requires Reconciled(t, cs) && AllAdmissible(t, cs) && k < |ChangesFrom(cs)|
    requires Traced(hash, d.nodes, t, ChangesFrom(cs)[..k], p)
    ensures Traced(hash, Apply(d, ChangesFrom(cs)[k]).0.nodes, t, ChangesFrom(cs)[..k] + [ChangesFrom(cs)[k]], p)
  {
    var l := ChangesFrom(cs);
    var c, ran := l[k], l[..k] + [l[k]];
    assert c in l && c in ran;
    ListedIsReachable(t, cs, c);
    ApplyTouches(d, c, p);
    if MadeAt(l[..k], p) {
      var x :| x in l[..k] && !x.kind.Remove? && p <= x.path;
      assert x in ran;
    }
  }

  lemma RemovalAfterRemovals(cs: seq<TreeChange>, k: nat, p: Path)
    requires k < |ChangesFrom(cs)| && ChangesFrom(cs)[k].kind.Remove?
    ensures !MadeAt(ChangesFrom(cs)[..k], p)
  {
    var l := ChangesFrom(cs);
    ChangesFromRanked(cs);
    forall c | c in l[..k] ensures c.kind.Remove? {
      var j :| 0 <= j < k && l[j] == c;
      assert Rank(l[j]) <= Rank(l[k]);
    }
  }

  lemma LeafNotMadeBefore(t: Entry, cs: seq<TreeChange>, k: nat)
    requires Reconciled(t, cs) && AllAdmissible(t, cs) && k < |ChangesFrom(cs)|
    requires var c := ChangesFrom(cs)[k]; !c.kind.Remove? && !c.kind.CreateDirectory?
    ensures !MadeAt(ChangesFrom(cs)[..k], ChangesFrom(cs)[k].path)
  {
    var l := ChangesFrom(cs);
    var c := l[k];
    assert c in l;
    CreationFacts(t, cs, c);
    ChangesFromNoRepeats(cs);
    forall x | x in l[..k] && !x.kind.Remove? ensures !(c.path <= x.path) {
      var j :| 0 <= j < k && l[j] == x;
      assert x in l && l[j] != l[k];
      CreationFacts(t, cs, x);
      WantClosed(t, cs);
      if c.path == x.path {
        SameCreation(cs, c, x);
      } else if c.path < x.path {
        ClosedAbove(Goal(t, cs), c.path, x.path);
      }
    }
  }

  /** Whatever a change of the list takes away, the tree had it and the list is not to keep it. */
  lemma TakenWasScanned(hash: Hash, d: Disk, t: Entry, cs: seq<TreeChange>, k: nat, p: Path)
    requires Reconciled(t, cs) && AllAdmissible(t, cs) && k < |ChangesFrom(cs)|
    requires Traced(hash, d.nodes, t, ChangesFrom(cs)[..k], p)
    requires Takes(d.nodes, Apply(d, ChangesFrom(cs)[k]).0.nodes, p)
    ensures Lost(t, cs, p) == Some(MetaOfNode(hash, d.nodes[p]))
  {
    var l := ChangesFrom(cs);
    var c := l[k];
    assert c in l;
    ListedIsReachable(t, cs, c);
    ApplyTouches(d, c, p);
    if c.kind.Remove? {
      RemovalAfterRemovals(cs, k, p);
      CoveredIsReplaced(t, cs, p);
    } else {
      LeafNotMadeBefore(t, cs, k);
      CreationFacts(t, cs, c);
    }
  }

  // ---- exactly when something is taken away -------------------------------------------------------------------

  /** The change, as the root is now, destroys what is at the path. */
  predicate Destroys(d: Disk, c: Change, p: Path) {
    && p in d.nodes
    && match c.kind
       case Remove => c.path <= p
       case CreateFile(digest, x) => p == c.path && digest in d.staged && !d.nodes[p].DirNode? && d.nodes[p] != FileNode(d.staged[digest], x)
       case CreateSymlink(target) => p == c.path && !HasChildren(d.nodes, p) && d.nodes[p] != LinkNode(target)
       case SetExecutable(x) => p == c.path && d.nodes[p].FileNode? && d.nodes[p].executable != x
       case _ => false
  }

  /** Executing a change takes away exactly that, whatever was scanned and whatever edits came since. */
  lemma ApplyTakesExactly(d: Disk, c: Change, p: Path)
    requires WellFormed(d.nodes) && Reachable(c)
    ensures Takes(d.nodes, Apply(d, c).0.nodes, p) <==> Destroys(d, c, p)
  {
    if p in d.nodes && (c.kind.CreateFile? || c.kind.CreateSymlink?) && p == c.path {
      assert MkdirAll(d.nodes, Parent(p)) == Some(d.nodes);
    } else if p in d.nodes && c.kind.Remove? && c.path <= p {
      NotBlocked(d.nodes, c.path, p);
    } else {
      ApplyTouches(d, c, p);
    }
  }

  lemma NotBlocked(nodes: Nodes, q: Path, p: Path)
    requires WellFormed(nodes) && p in nodes && q <= p
    ensures !Blocked(nodes, q)
  {
    forall k | 0 <= k < |q| ensures q[..k] in nodes && nodes[q[..k]].DirNode? {
      assert q[..k] < p;
      WellFormedPrefix(nodes, q[..k], p);
    }
  }

  // ---- scans under way ----------------------------------------------------------------------------------------

  function LocalScanOf(pc: Pc): Option<seq<Scanned>> {
    if pc.HalfScanned? || pc.BothScanned? then Some(pc.local) else if HasJob(pc) then Some(pc.job.local) else None
  }

  function RemoteScanOf(pc: Pc): Option<seq<Scanned>> {
    if pc.BothScanned? then Some(pc.remote) else if HasJob(pc) then Some(pc.job.remote) else None
  }

  /** A scan of some root sync could work on. */
  ghost predicate FromRoot(hash: Hash, entries: seq<Scanned>) {
    exists nodes :: Workable(nodes) && IsScan(hash, nodes, entries)
  }

  ghost predicate ScansReal(hash: Hash, pc: Pc) {
    && (LocalScanOf(pc).Some? ==> FromRoot(hash, LocalScanOf(pc).value))
    && (RemoteScanOf(pc).Some? ==> FromRoot(hash, RemoteScanOf(pc).value))
  }

  lemma ScansStayReal(hash: Hash, plan: Planner, s: State, step: Step)
    requires ScansReal(hash, s.pc) && Enabled(hash, s, step)
    ensures ScansReal(hash, Take(plan, s, step).pc)
  {
    if !step.ScanLocal? && !step.ScanRemote? { SameScans(plan, s, step); } else { ScanIsReal(hash, plan, s, step); }
  }

  lemma ScanIsReal(hash: Hash, plan: Planner, s: State, step: Step)
    requires ScansReal(hash, s.pc) && Enabled(hash, s, step) && (step.ScanLocal? || step.ScanRemote?)
    ensures ScansReal(hash, Take(plan, s, step).pc)
  {
    assert FromRoot(hash, step.entries);
  }

  /** Any step but a scan keeps the cycle's scans, or ends the cycle. */
  lemma SameScans(plan: Planner, s: State, step: Step)
    requires Due(s, step) && !step.ScanLocal? && !step.ScanRemote?
    ensures var after := Take(plan, s, step).pc;
            && (LocalScanOf(after).Some? ==> LocalScanOf(after) == LocalScanOf(s.pc))
            && (RemoteScanOf(after).Some? ==> RemoteScanOf(after) == RemoteScanOf(s.pc))
  {
    if Ends(step) { EndKeepsStage(plan, s, step); }
  }

  lemma {:induction false} RunScansReal(hash: Hash, plan: Planner, ss: seq<State>, steps: seq<Step>, k: nat)
    requires IsRun(hash, plan, ss, steps) && Begins(ss[0]) && k <= |steps|
    ensures ScansReal(hash, ss[k].pc)
  {
    if k > 0 {
      RunScansReal(hash, plan, ss, steps, k - 1);
      assert Moves(hash, plan, ss, steps, k - 1);
      ScansStayReal(hash, plan, ss[k - 1], steps[k - 1]);
    }
  }

  lemma TreeFromRoot(hash: Hash, entries: seq<Scanned>)
    requires PrintsHex(hash) && FromRoot(hash, entries)
    ensures TreeOf(entries).Directory? && HoldsAdmissible(TreeOf(entries))
  {
    var nodes :| Workable(nodes) && IsScan(hash, nodes, entries);
    ScanGivesTree(hash, nodes, entries);
    WorkableIsAdmissible(hash, nodes, TreeOf(entries));
  }

  lemma JobFacts(hash: Hash, anc: Option<Entry>, job: Job)
    requires PrintsHex(hash) && FromRoot(hash, job.local) && FromRoot(hash, job.remote) && job.plan == PlanPass(anc, job.local, job.remote)
    ensures var cs := Merged(anc, job.local, job.remote);
            && Reconciled(TreeOf(job.local), cs.alpha) && AllAdmissible(TreeOf(job.local), cs.alpha)
            && Reconciled(TreeOf(job.remote), cs.beta) && AllAdmissible(TreeOf(job.remote), cs.beta)
            && job.plan.toLocal == ChangesFrom(cs.alpha) && job.plan.toRemote == ChangesFrom(cs.beta)
  {
    TreeFromRoot(hash, job.local);
    TreeFromRoot(hash, job.remote);
    Merge.MergeIsReconciled(anc, TreeOf(job.local), TreeOf(job.remote));
    MergeAdmissible(anc, TreeOf(job.local), TreeOf(job.remote));
  }

  /** How far the cycle is with its lists. */
  lemma JobPrefix(plan: Planner, s: State)
    requires UnderWay(plan, s) && HasJob(s.pc)
    ensures |s.ranLocal| <= |s.pc.job.plan.toLocal| && s.ranLocal == s.pc.job.plan.toLocal[..|s.ranLocal|]
    ensures |s.ranRemote| <= |s.pc.job.plan.toRemote| && s.ranRemote == s.pc.job.plan.toRemote[..|s.ranRemote|]
  {}

  lemma ChangeLocalDoes(plan: Planner, s: State)
    requires Due(s, ChangeLocal)
    ensures var after, l, k := Take(plan, s, ChangeLocal), s.pc.job.plan.toLocal, |s.ranLocal|;
            k < |l| && after.local == Apply(s.local, l[k]).0 && after.ranLocal == s.ranLocal + [l[k]] && after.pc == s.pc
  {}

  lemma ChangeRemoteDoes(plan: Planner, s: State)
    requires Due(s, ChangeRemote)
    ensures var after, l, k := Take(plan, s, ChangeRemote), s.pc.job.plan.toRemote, |s.ranRemote|;
            k < |l| && after.remote == Apply(s.remote, l[k]).0 && after.ranRemote == s.ranRemote + [l[k]] && after.pc == s.pc
  {}

  // ---- the local side of a run ----------------------------------------------------------------------------------

  /** No edit since the last local scan before the k-th state touched the path. */
  ghost predicate LocalUntouched(ss: seq<State>, steps: seq<Step>, k: nat, p: Path)
    requires k <= |steps| == |ss| - 1
  {
    k > 0 && !steps[k - 1].ScanLocal? ==>
      && LocalUntouched(ss, steps, k - 1, p)
      && (steps[k - 1].EditLocal? ==> SameAt(ss[k - 1].local.nodes, steps[k - 1].nodes, p))
  }

  predicate SameAt(before: Nodes, after: Nodes, p: Path) {
    (p in after <==> p in before) && (p in after ==> after[p] == before[p])
  }

  ghost predicate LocalTraced(hash: Hash, s: State, p: Path) {
    LocalScanOf(s.pc).Some? ==> Traced(hash, s.local.nodes, TreeOf(LocalScanOf(s.pc).value), s.ranLocal, p)
  }

  lemma ScanTraces(hash: Hash, nodes: Nodes, entries: seq<Scanned>, ran: seq<Change>, p: Path)
    requires PrintsHex(hash) && Workable(nodes) && IsScan(hash, nodes, entries)
    ensures Traced(hash, nodes, TreeOf(entries), ran, p)
  {
    ScanGivesTree(hash, nodes, entries);
    assert MetaAt(hash, nodes, p) == Look(Some(TreeOf(entries)), p);
  }

  /** Trashing only ever takes away. */
  lemma MoveAsideTakes(s: State, c: Change, stamp: Name, sameDevice: bool, p: Path)
    requires s.pc.Trashing?
    ensures var after := MoveAside(s, c, stamp, sameDevice).local.nodes;
            && (p in after ==> p in s.local.nodes && after[p] == s.local.nodes[p])
            && (Takes(s.local.nodes, after, p) ==> c.kind.Remove? && c.path <= p)
  {}

  /** Steps that neither scan, edit, trash nor execute leave the local root and what was executed there alone. */
  lemma QuietLocally(plan: Planner, s: State, step: Step)
    requires Due(s, step) && !step.EditLocal? && !step.TrashNext? && !step.ChangeLocal?
    ensures Take(plan, s, step).local.nodes == s.local.nodes
    ensures LocalScanOf(s.pc).Some? && LocalScanOf(Take(plan, s, step).pc).Some? ==> Take(plan, s, step).ranLocal == s.ranLocal
  {
    if Ends(step) { EndKeepsStage(plan, s, step); }
  }

  lemma LocalTraceStep(hash: Hash, plan: Planner, s: State, step: Step, p: Path)
    requires plan == PlanPass && PrintsHex(hash) && UnderWay(plan, s) && ScansReal(hash, s.pc) && Enabled(hash, s, step)
    requires !step.ScanLocal? ==> LocalTraced(hash, s, p)
    requires step.EditLocal? ==> SameAt(s.local.nodes, step.nodes, p)
    ensures LocalTraced(hash, Take(plan, s, step), p)
  {
    if step.ScanLocal? {
      LocalTraceScan(hash, plan, s, step.entries, p);
    } else if step.ChangeLocal? {
      LocalTraceChange(hash, plan, s, p);
    } else {
      LocalTraceOther(hash, plan, s, step, p);
    }
  }

  lemma LocalTraceOther(hash: Hash, plan: Planner, s: State, step: Step, p: Path)
    requires Due(s, step) && !step.ScanLocal? && !step.ChangeLocal? && LocalTraced(hash, s, p)
    requires step.EditLocal? ==> SameAt(s.local.nodes, step.nodes, p)
    ensures LocalTraced(hash, Take(plan, s, step), p)
  {
    match step {
      case TrashNext(stamp, sameDevice) => LocalTraceTrash(hash, plan, s, stamp, sameDevice, p);
      case EditLocal(nodes) => LocalTraceEdit(hash, plan, s, nodes, p);
      case _ => LocalTraceQuiet(hash, plan, s, step, p);
    }
  }

  lemma LocalTraceScan(hash: Hash, plan: Planner, s: State, entries: seq<Scanned>, p: Path)
    requires PrintsHex(hash) && Enabled(hash, s, ScanLocal(entries))
    ensures LocalTraced(hash, Take(plan, s, ScanLocal(entries)), p)
  {
    ScanTraces(hash, s.local.nodes, entries, s.ranLocal, p);
  }

  lemma MoveAsideKeepsScan(s: State, c: Change, stamp: Name, sameDevice: bool)
    requires s.pc.Trashing?
    ensures var after := MoveAside(s, c, stamp, sameDevice);
            after.ranLocal == s.ranLocal && (LocalScanOf(after.pc).Some? ==> LocalScanOf(after.pc) == LocalScanOf(s.pc))
  {}

  lemma LocalTraceChange(hash: Hash, plan: Planner, s: State, p: Path)
    requires plan == PlanPass && PrintsHex(hash) && UnderWay(plan, s) && ScansReal(hash, s.pc) && Due(s, ChangeLocal) && LocalTraced(hash, s, p)
    ensures LocalTraced(hash, Take(plan, s, ChangeLocal), p)
  {
    ChangeLocalDoes(plan, s);
    JobPrefix(plan, s);
    ApplyLocalTraces(hash, s.stored, s.pc.job, s.local, |s.ranLocal|, p);
  }

  lemma ApplyLocalTraces(hash: Hash, anc: Option<Entry>, job: Job, d: Disk, k: nat, p: Path)
    requires PrintsHex(hash) && FromRoot(hash, job.local) && FromRoot(hash, job.remote) && job.plan == PlanPass(anc, job.local, job.remote)
    requires k < |job.plan.toLocal| && Traced(hash, d.nodes, TreeOf(job.local), job.plan.toLocal[..k], p)
    ensures Traced(hash, Apply(d, job.plan.toLocal[k]).0.nodes, TreeOf(job.local), job.plan.toLocal[..k] + [job.plan.toLocal[k]], p)
  {
    JobFacts(hash, anc, job);
    TracedOn(hash, d, TreeOf(job.local), Merged(anc, job.local, job.remote).alpha, k, p);
  }

  lemma LocalTraceTrash(hash: Hash, plan: Planner, s: State, stamp: Name, sameDevice: bool, p: Path)
    requires Due(s, TrashNext(stamp, sameDevice)) && LocalTraced(hash, s, p)
    ensures LocalTraced(hash, Take(plan, s, TrashNext(stamp, sameDevice)), p)
  {
    LocalTraceMove(hash, s, s.pc.job.plan.toLocal[s.pc.trashed], stamp, sameDevice, p);
  }

  lemma LocalTraceMove(hash: Hash, s: State, c: Change, stamp: Name, sameDevice: bool, p: Path)
    requires s.pc.Trashing? && LocalTraced(hash, s, p)
    ensures LocalTraced(hash, MoveAside(s, c, stamp, sameDevice), p)
  {
    MoveAsideTakes(s, c, stamp, sameDevice, p);
    MoveAsideKeepsScan(s, c, stamp, sameDevice);
  }

  lemma LocalTraceEdit(hash: Hash, plan: Planner, s: State, nodes: Nodes, p: Path)
    requires LocalTraced(hash, s, p) && SameAt(s.local.nodes, nodes, p)
    ensures LocalTraced(hash, Take(plan, s, EditLocal(nodes)), p)
  {}

  lemma LocalTraceQuiet(hash: Hash, plan: Planner, s: State, step: Step, p: Path)
    requires Due(s, step) && LocalTraced(hash, s, p)
    requires !step.EditLocal? && !step.TrashNext? && !step.ChangeLocal? && !step.ScanLocal?
    ensures LocalTraced(hash, Take(plan, s, step), p)
  {
    QuietLocally(plan, s, step);
    if step.ScanRemote? {
      assert LocalScanOf(Take(plan, s, step).pc) == LocalScanOf(s.pc);
    } else {
      SameScans(plan, s, step);
    }
  }

  lemma LocalTraceOn(hash: Hash, plan: Planner, ss: seq<State>, steps: seq<Step>, j: nat, p: Path)
    requires plan == PlanPass && PrintsHex(hash) && IsRun(hash, plan, ss, steps) && Begins(ss[0]) && j < |steps|
    requires !steps[j].ScanLocal? ==> LocalTraced(hash, ss[j], p)
    requires steps[j].EditLocal? ==> SameAt(ss[j].local.nodes, steps[j].nodes, p)
    ensures LocalTraced(hash, ss[j + 1], p)
  {
    RunFacts(hash, plan, ss, steps, j);
    LocalTraceStep(hash, plan, ss[j], steps[j], p);
  }

  lemma {:induction false} LocalTrace(hash: Hash, plan: Planner, ss: seq<State>, steps: seq<Step>, k: nat, p: Path)
    requires plan == PlanPass && PrintsHex(hash) && IsRun(hash, plan, ss, steps) && Begins(ss[0]) && k <= |steps|
    requires LocalUntouched(ss, steps, k, p)
    ensures LocalTraced(hash, ss[k], p)
    decreases k
  {
    if k > 0 {
      if !steps[k - 1].ScanLocal? { LocalTrace(hash, plan, ss, steps, k - 1, p); }
      LocalTraceOn(hash, plan, ss, steps, k - 1, p);
    }
  }

  lemma LocalStepLoses(hash: Hash, plan: Planner, s: State, step: Step, p: Path)
    requires plan == PlanPass && PrintsHex(hash) && UnderWay(plan, s) && ScansReal(hash, s.pc) && Enabled(hash, s, step)
    requires LocalTraced(hash, s, p) && !step.EditLocal? && Takes(s.local.nodes, Take(plan, s, step).local.nodes, p)
    ensures HasJob(s.pc)
    ensures Lost(TreeOf(s.pc.job.local), Merged(s.stored, s.pc.job.local, s.pc.job.remote).alpha, p) == Some(MetaOfNode(hash, s.local.nodes[p]))
  {
    match step {
      case ChangeLocal => ChangeLocalLoses(hash, plan, s, p);
      case TrashNext(stamp, sameDevice) => TrashNextLoses(hash, plan, s, stamp, sameDevice, p);
      case _ => QuietLocally(plan, s, step);
    }
  }

  lemma ChangeLocalLoses(hash: Hash, plan: Planner, s: State, p: Path)
    requires plan == PlanPass && PrintsHex(hash) && UnderWay(plan, s) && ScansReal(hash, s.pc) && Due(s, ChangeLocal)
    requires LocalTraced(hash, s, p) && Takes(s.local.nodes, Take(plan, s, ChangeLocal).local.nodes, p)
    ensures Lost(TreeOf(s.pc.job.local), Merged(s.stored, s.pc.job.local, s.pc.job.remote).alpha, p) == Some(MetaOfNode(hash, s.local.nodes[p]))
  {
    ChangeLocalDoes(plan, s);
    JobPrefix(plan, s);
    ApplyLocalLoses(hash, s.stored, s.pc.job, s.local, |s.ranLocal|, p);
  }

  lemma ApplyLocalLoses(hash: Hash, anc: Option<Entry>, job: Job, d: Disk, k: nat, p: Path)
    requires PrintsHex(hash) && FromRoot(hash, job.local) && FromRoot(hash, job.remote) && job.plan == PlanPass(anc, job.local, job.remote)
    requires k < |job.plan.toLocal| && Traced(hash, d.nodes, TreeOf(job.local), job.plan.toLocal[..k], p)
    requires Takes(d.nodes, Apply(d, job.plan.toLocal[k]).0.nodes, p)
    ensures Lost(TreeOf(job.local), Merged(anc, job.local, job.remote).alpha, p) == Some(MetaOfNode(hash, d.nodes[p]))
  {
    JobFacts(hash, anc, job);
    TakenWasScanned(hash, d, TreeOf(job.local), Merged(anc, job.local, job.remote).alpha, k, p);
  }

  lemma TrashNextLoses(hash: Hash, plan: Planner, s: State, stamp: Name, sameDevice: bool, p: Path)
    requires plan == PlanPass && PrintsHex(hash) && UnderWay(plan, s) && ScansReal(hash, s.pc) && Due(s, TrashNext(stamp, sameDevice))
    requires LocalTraced(hash, s, p) && Takes(s.local.nodes, Take(plan, s, TrashNext(stamp, sameDevice)).local.nodes, p)
    ensures Lost(TreeOf(s.pc.job.local), Merged(s.stored, s.pc.job.local, s.pc.job.remote).alpha, p) == Some(MetaOfNode(hash, s.local.nodes[p]))
  {
    MoveAsideTakes(s, s.pc.job.plan.toLocal[s.pc.trashed], stamp, sameDevice, p);
    RemovalWasScanned(hash, plan, s, p);
  }

  lemma RemovalWasScanned(hash: Hash, plan: Planner, s: State, p: Path)
    requires plan == PlanPass && PrintsHex(hash) && UnderWay(plan, s) && ScansReal(hash, s.pc) && LocalTraced(hash, s, p)
    requires s.pc.Trashing? && s.pc.trashed < |s.pc.job.plan.toLocal| && p in s.local.nodes
    requires var c := s.pc.job.plan.toLocal[s.pc.trashed]; c.kind.Remove? && c.path <= p
    ensures Lost(TreeOf(s.pc.job.local), Merged(s.stored, s.pc.job.local, s.pc.job.remote).alpha, p) == Some(MetaOfNode(hash, s.local.nodes[p]))
  {
    JobFacts(hash, s.stored, s.pc.job);
    RemovedWasScanned(hash, s.local.nodes, TreeOf(s.pc.job.local), Merged(s.stored, s.pc.job.local, s.pc.job.remote).alpha, s.pc.trashed, p);
  }

  lemma RemovedWasScanned(hash: Hash, nodes: Nodes, t: Entry, cs: seq<TreeChange>, k: nat, p: Path)
    requires Reconciled(t, cs) && k < |ChangesFrom(cs)| && ChangesFrom(cs)[k].kind.Remove? && ChangesFrom(cs)[k].path <= p
    requires p in nodes && Traced(hash, nodes, t, [], p)
    ensures Lost(t, cs, p) == Some(MetaOfNode(hash, nodes[p]))
  {
    assert ChangesFrom(cs)[k] in ChangesFrom(cs);
    CoveredIsReplaced(t, cs, p);
  }

  /** What is known of any step of a run. */
  lemma RunFacts(hash: Hash, plan: Planner, ss: seq<State>, steps: seq<Step>, k: nat)
    requires plan == PlanPass && IsRun(hash, plan, ss, steps) && Begins(ss[0]) && k < |steps|
    ensures UnderWay(plan, ss[k]) && ScansReal(hash, ss[k].pc) && Enabled(hash, ss[k], steps[k]) && ss[k + 1] == Take(plan, ss[k], steps[k])
  {
    assert Moves(hash, plan, ss, steps, k);
    CrashSafety(hash, plan, ss, steps, k);
    OnTrackIsUnderWay(plan, ss[k]);
    RunScansReal(hash, plan, ss, steps, k);
  }

  /**
   * In every run, with crashes and edits anywhere: whatever a step of a cycle takes away from the local root, into
   * the trash or for good, some committed cycle had found at that path on both sides, as long as no edit since the
   * cycle's scan had touched that path.
   */
  lemma LocalStepLosesOnlyVouched(hash: Hash, plan: Planner, ss: seq<State>, steps: seq<Step>, k: nat, p: Path)
    requires plan == PlanPass && PrintsHex(hash) && IsRun(hash, plan, ss, steps) && Begins(ss[0]) && k < |steps|
    requires !steps[k].EditLocal? && LocalUntouched(ss, steps, k, p)
    requires Takes(ss[k].local.nodes, ss[k + 1].local.nodes, p)
    ensures Vouched(ss[k].commits, p, MetaOfNode(hash, ss[k].local.nodes[p]))
  {
    RunFacts(hash, plan, ss, steps, k);
    LocalTrace(hash, plan, ss, steps, k, p);
    LocalStepLoses(hash, plan, ss[k], steps[k], p);
    PlanLosesOnlyVouched(hash, plan, ss, steps, k, p);
  }

  // ---- the sandbox side of a run ----------------------------------------------------------------------------------

  /** No edit since the last scan of the sandbox before the k-th state touched the path. */
  ghost predicate RemoteUntouched(ss: seq<State>, steps: seq<Step>, k: nat, p: Path)
    requires k <= |steps| == |ss| - 1
  {
    k > 0 && !steps[k - 1].ScanRemote? ==>
      && RemoteUntouched(ss, steps, k - 1, p)
      && (steps[k - 1].EditRemote? ==> SameAt(ss[k - 1].remote.nodes, steps[k - 1].nodes, p))
  }

  ghost predicate RemoteTraced(hash: Hash, s: State, p: Path) {
    RemoteScanOf(s.pc).Some? ==> Traced(hash, s.remote.nodes, TreeOf(RemoteScanOf(s.pc).value), s.ranRemote, p)
  }

  lemma QuietRemotely(plan: Planner, s: State, step: Step)
    requires Due(s, step) && !step.EditRemote? && !step.ChangeRemote?
    ensures Take(plan, s, step).remote.nodes == s.remote.nodes
    ensures RemoteScanOf(s.pc).Some? && RemoteScanOf(Take(plan, s, step).pc).Some? ==> Take(plan, s, step).ranRemote == s.ranRemote
  {
    if Ends(step) { EndKeepsStage(plan, s, step); }
  }

  lemma RemoteTraceStep(hash: Hash, plan: Planner, s: State, step: Step, p: Path)
    requires plan == PlanPass && PrintsHex(hash) && UnderWay(plan, s) && ScansReal(hash, s.pc) && Enabled(hash, s, step)
    requires !step.ScanRemote? ==> RemoteTraced(hash, s, p)
    requires step.EditRemote? ==> SameAt(s.remote.nodes, step.nodes, p)
    ensures RemoteTraced(hash, Take(plan, s, step), p)
  {
    match step {
      case ScanRemote(entries) => ScanTraces(hash, s.remote.nodes, entries, s.ranRemote, p);
      case ChangeRemote => RemoteTraceChange(hash, plan, s, p);
      case EditRemote(nodes, marker) =>
      case _ => RemoteTraceQuiet(hash, plan, s, step, p);
    }
  }

  lemma RemoteTraceChange(hash: Hash, plan: Planner, s: State, p: Path)
    requires plan == PlanPass && PrintsHex(hash) && UnderWay(plan, s) && ScansReal(hash, s.pc) && Due(s, ChangeRemote) && RemoteTraced(hash, s, p)
    ensures RemoteTraced(hash, Take(plan, s, ChangeRemote), p)
  {
    ChangeRemoteDoes(plan, s);
    JobPrefix(plan, s);
    ApplyRemoteTraces(hash, s.stored, s.pc.job, s.remote, |s.ranRemote|, p);
  }

  lemma ApplyRemoteTraces(hash: Hash, anc: Option<Entry>, job: Job, d: Disk, k: nat, p: Path)
    requires PrintsHex(hash) && FromRoot(hash, job.local) && FromRoot(hash, job.remote) && job.plan == PlanPass(anc, job.local, job.remote)
    requires k < |job.plan.toRemote| && Traced(hash, d.nodes, TreeOf(job.remote), job.plan.toRemote[..k], p)
    ensures Traced(hash, Apply(d, job.plan.toRemote[k]).0.nodes, TreeOf(job.remote), job.plan.toRemote[..k] + [job.plan.toRemote[k]], p)
  {
    JobFacts(hash, anc, job);
    TracedOn(hash, d, TreeOf(job.remote), Merged(anc, job.local, job.remote).beta, k, p);
  }

  lemma RemoteTraceQuiet(hash: Hash, plan: Planner, s: State, step: Step, p: Path)
    requires Due(s, step) && RemoteTraced(hash, s, p)
    requires !step.EditRemote? && !step.ChangeRemote? && !step.ScanRemote?
    ensures RemoteTraced(hash, Take(plan, s, step), p)
  {
    QuietRemotely(plan, s, step);
    if step.ScanLocal? {
      assert RemoteScanOf(Take(plan, s, step).pc).None?;
    } else {
      SameScans(plan, s, step);
    }
  }

  lemma RemoteTraceOn(hash: Hash, plan: Planner, ss: seq<State>, steps: seq<Step>, j: nat, p: Path)
    requires plan == PlanPass && PrintsHex(hash) && IsRun(hash, plan, ss, steps) && Begins(ss[0]) && j < |steps|
    requires !steps[j].ScanRemote? ==> RemoteTraced(hash, ss[j], p)
    requires steps[j].EditRemote? ==> SameAt(ss[j].remote.nodes, steps[j].nodes, p)
    ensures RemoteTraced(hash, ss[j + 1], p)
  {
    RunFacts(hash, plan, ss, steps, j);
    RemoteTraceStep(hash, plan, ss[j], steps[j], p);
  }

  lemma {:induction false} RemoteTrace(hash: Hash, plan: Planner, ss: seq<State>, steps: seq<Step>, k: nat, p: Path)
    requires plan == PlanPass && PrintsHex(hash) && IsRun(hash, plan, ss, steps) && Begins(ss[0]) && k <= |steps|
    requires RemoteUntouched(ss, steps, k, p)
    ensures RemoteTraced(hash, ss[k], p)
    decreases k
  {
    if k > 0 {
      if !steps[k - 1].ScanRemote? { RemoteTrace(hash, plan, ss, steps, k - 1, p); }
      RemoteTraceOn(hash, plan, ss, steps, k - 1, p);
    }
  }

  lemma RemoteStepLoses(hash: Hash, plan: Planner, s: State, step: Step, p: Path)
    requires plan == PlanPass && PrintsHex(hash) && UnderWay(plan, s) && ScansReal(hash, s.pc) && Enabled(hash, s, step)
    requires RemoteTraced(hash, s, p) && !step.EditRemote? && Takes(s.remote.nodes, Take(plan, s, step).remote.nodes, p)
    ensures HasJob(s.pc)
    ensures Lost(TreeOf(s.pc.job.remote), Merged(s.stored, s.pc.job.local, s.pc.job.remote).beta, p) == Some(MetaOfNode(hash, s.remote.nodes[p]))
  {
    if step.ChangeRemote? {
      ChangeRemoteLoses(hash, plan, s, p);
    } else {
      QuietRemotely(plan, s, step);
    }
  }

  lemma ChangeRemoteLoses(hash: Hash, plan: Planner, s: State, p: Path)
    requires plan == PlanPass && PrintsHex(hash) && UnderWay(plan, s) && ScansReal(hash, s.pc) && Due(s, ChangeRemote)
    requires RemoteTraced(hash, s, p) && Takes(s.remote.nodes, Take(plan, s, ChangeRemote).remote.nodes, p)
    ensures Lost(TreeOf(s.pc.job.remote), Merged(s.stored, s.pc.job.local, s.pc.job.remote).beta, p) == Some(MetaOfNode(hash, s.remote.nodes[p]))
  {
    ChangeRemoteDoes(plan, s);
    JobPrefix(plan, s);
    ApplyRemoteLoses(hash, s.stored, s.pc.job, s.remote, |s.ranRemote|, p);
  }

  lemma ApplyRemoteLoses(hash: Hash, anc: Option<Entry>, job: Job, d: Disk, k: nat, p: Path)
    requires PrintsHex(hash) && FromRoot(hash, job.local) && FromRoot(hash, job.remote) && job.plan == PlanPass(anc, job.local, job.remote)
    requires k < |job.plan.toRemote| && Traced(hash, d.nodes, TreeOf(job.remote), job.plan.toRemote[..k], p)
    requires Takes(d.nodes, Apply(d, job.plan.toRemote[k]).0.nodes, p)
    ensures Lost(TreeOf(job.remote), Merged(anc, job.local, job.remote).beta, p) == Some(MetaOfNode(hash, d.nodes[p]))
  {
    JobFacts(hash, anc, job);
    TakenWasScanned(hash, d, TreeOf(job.remote), Merged(anc, job.local, job.remote).beta, k, p);
  }

  /** And the same of the sandbox. */
  lemma RemoteStepLosesOnlyVouched(hash: Hash, plan: Planner, ss: seq<State>, steps: seq<Step>, k: nat, p: Path)
    requires plan == PlanPass && PrintsHex(hash) && IsRun(hash, plan, ss, steps) && Begins(ss[0]) && k < |steps|
    requires !steps[k].EditRemote? && RemoteUntouched(ss, steps, k, p)
    requires Takes(ss[k].remote.nodes, ss[k + 1].remote.nodes, p)
    ensures Vouched(ss[k].commits, p, MetaOfNode(hash, ss[k].remote.nodes[p]))
  {
    RunFacts(hash, plan, ss, steps, k);
    RemoteTrace(hash, plan, ss, steps, k, p);
    RemoteStepLoses(hash, plan, ss[k], steps[k], p);
    PlanLosesOnlyVouched(hash, plan, ss, steps, k, p);
  }

  // ---- what edits can lose ----------------------------------------------------------------------------------------

  /** The listed removal at or above the path that is moved to the trash. */
  predicate Shelves(s: State, c: Change, stamp: Name, sameDevice: bool, p: Path)
    requires s.pc.Trashing?
  {
    p in s.local.nodes && c.kind.Remove? && c.path <= p && c.path !in MoveAside(s, c, stamp, sameDevice).local.nodes
  }

  lemma ShelvesExactly(s: State, c: Change, stamp: Name, sameDevice: bool, p: Path)
    requires WellFormed(s.local.nodes) && s.pc.Trashing?
    ensures Takes(s.local.nodes, MoveAside(s, c, stamp, sameDevice).local.nodes, p) <==> Shelves(s, c, stamp, sameDevice, p)
  {
    if p in s.local.nodes && c.kind.Remove? && c.path <= p {
      WellFormedPrefix(s.local.nodes, c.path, p);
    }
  }

  /**
   * What any step other than an edit takes away from the local root, in any state, edits or none: what the next listed
   * change destroys of what is there now, and what the next listed removal moves aside.
   */
  lemma LocalStepTakesExactly(plan: Planner, s: State, step: Step, p: Path)
    requires Due(s, step) && !step.EditLocal? && WellFormed(s.local.nodes)
    requires step.ChangeLocal? ==> Reachable(s.pc.job.plan.toLocal[|s.ranLocal|])
    ensures Takes(s.local.nodes, Take(plan, s, step).local.nodes, p) <==>
            || (step.ChangeLocal? && Destroys(s.local, s.pc.job.plan.toLocal[|s.ranLocal|], p))
            || (step.TrashNext? && Shelves(s, s.pc.job.plan.toLocal[s.pc.trashed], step.stamp, step.sameDevice, p))
  {
    if step.ChangeLocal? {
      ChangeLocalDoes(plan, s);
      ApplyTakesExactly(s.local, s.pc.job.plan.toLocal[|s.ranLocal|], p);
    } else if step.TrashNext? {
      ShelvesExactly(s, s.pc.job.plan.toLocal[s.pc.trashed], step.stamp, step.sameDevice, p);
    } else {
      QuietLocally(plan, s, step);
    }
  }

  /** And from the sandbox. */
  lemma RemoteStepTakesExactly(plan: Planner, s: State, step: Step, p: Path)
    requires Due(s, step) && !step.EditRemote? && WellFormed(s.remote.nodes)
    requires step.ChangeRemote? ==> Reachable(s.pc.job.plan.toRemote[|s.ranRemote|])
    ensures Takes(s.remote.nodes, Take(plan, s, step).remote.nodes, p) <==>
            step.ChangeRemote? && Destroys(s.remote, s.pc.job.plan.toRemote[|s.ranRemote|], p)
  {
    if step.ChangeRemote? {
      ChangeRemoteDoes(plan, s);
      ApplyTakesExactly(s.remote, s.pc.job.plan.toRemote[|s.ranRemote|], p);
    } else {
      QuietRemotely(plan, s, step);
    }
  }
}
