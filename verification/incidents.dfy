/** Runs that reach what a cycle cannot rule out: a halt that comes late, and an edit that is overwritten. */
module Incidents {
  import opened Lists
  import opened Entries
  import opened Changes
  import opened Splice
  import opened Reconcile
  import opened Tree
  import opened Execution
  import opened Meaning
  import opened Snapshot
  import opened Pass
  import opened Cycle
  import opened Crash
  import opened Halts
  import opened Losses
  import Merge

  // ---- two roots with a file each ------------------------------------------------------------------------

  function OneLine(hash: Hash, n: Name, content: Bytes): seq<Scanned> {
    [Scanned([n], FileKind, hash(content), false, "")]
  }

  function OneEntry(hash: Hash, n: Name, content: Bytes): Entry {
    Directory(map[n := File(hash(content), false)])
  }

  predicate FitName(n: Name) {
    Proper(n) && n != STATE_DIR_NAME
  }

  lemma OneFileScans(hash: Hash, n: Name, content: Bytes)
    requires FitName(n)
    ensures Workable(OneFile(n, content)) && IsScan(hash, OneFile(n, content), OneLine(hash, n, content))
  {
    var nodes, entries := OneFile(n, content), OneLine(hash, n, content);
    assert [n][0] == n && [STATE_DIR_NAME][0] != [n][0];
    assert Parent([n]) == [] && Listed([n]) && Admissible([n]);
    forall p | p in nodes && Listed(p) ensures EntryFor(hash, p, nodes[p]) in entries {
      assert p == [n] && entries[0] == EntryFor(hash, p, nodes[p]);
    }
  }

  lemma OneLineTree(hash: Hash, n: Name, content: Bytes)
    requires PrintsHex(hash)
    ensures TreeOf(OneLine(hash, n, content)) == OneEntry(hash, n, content)
  {
    var s := OneLine(hash, n, content)[0];
    RehexExactly(hash(content));
    assert EntryFrom(s) == Some(File(hash(content), false));
    assert ByPath([s]) == [s] && [s][1..] == [];
    assert Snapshot.Insert(Directory(map[]), [n], File(hash(content), false)) == OneEntry(hash, n, content);
    assert InsertAll(Directory(map[]), [s]) == InsertAll(InsertScanned(Directory(map[]), s), []);
  }

  /** Where two such roots disagree, and which way. */
  lemma TwoFilesRulings(hash: Hash, a: Name, b: Name, x: Bytes, y: Bytes, r: Path)
    requires a != b
    ensures Merge.RulingAt(None, Some(OneEntry(hash, b, y)), Some(OneEntry(hash, a, x)), r) ==
            if r == [a] then Merge.ToAlpha else if r == [b] then Merge.ToBeta else Merge.Agreed
  {
    if r != [] {
      var alpha, beta := Some(OneEntry(hash, b, y)), Some(OneEntry(hash, a, x));
      var n, rest := r[0], r[1..];
      assert r == [n] + rest;
      assert Merge.RulingAt(None, alpha, beta, r) == Merge.RulingAt(None, Child(alpha, n), Child(beta, n), rest);
      assert rest == [] ==> r == [n];
      assert r == [a] ==> n == a && rest == [];
      assert r == [b] ==> n == b && rest == [];
    }
  }

  lemma OnlyOne(cs: seq<TreeChange>, c: TreeChange)
    requires NonNested(cs) && forall x :: x in cs <==> x == c
    ensures cs == [c]
  {
    assert c in cs && cs[0] in cs;
    assert forall i | 0 <= i < |cs| :: cs[i] in cs;
    assert |cs| < 2 || !Comparable(cs[0].path, cs[1].path);
  }

  function Making(hash: Hash, n: Name, content: Bytes): Change {
    Change([n], CreateFile(hash(content), false))
  }

  lemma ListOfOne(n: Name, digest: Digest)
    ensures ChangesFrom([TreeChange([n], None, Some(File(digest, false)))]) == [Change([n], CreateFile(digest, false))]
  {
    var t := TreeChange([n], None, Some(File(digest, false)));
    assert [t][1..] == [] && FlattenAll([]) == [];
    assert Flatten(t.path, t.before, t.after) == [Change([n], CreateFile(digest, false))];
    assert FlattenAll([t]) == [Change([n], CreateFile(digest, false))];
    assert [Change([n], CreateFile(digest, false))][1..] == [];
  }

  lemma OneMove(hash: Hash, a: Name, b: Name, x: Bytes, y: Bytes, to: Merge.Ruling)
    requires a != b && (to.ToAlpha? || to.ToBeta?)
    ensures var plan := Merge.Reconcile([], None, Some(OneEntry(hash, b, y)), Some(OneEntry(hash, a, x)));
            Merge.Side(plan, to) == [if to.ToAlpha? then TreeChange([a], None, Some(File(hash(x), false)))
                                     else TreeChange([b], None, Some(File(hash(y), false)))]
  {
    var alpha, beta := OneEntry(hash, b, y), OneEntry(hash, a, x);
    var cs := Merge.Side(Merge.Reconcile([], None, Some(alpha), Some(beta)), to);
    var c := if to.ToAlpha? then TreeChange([a], None, Some(File(hash(x), false))) else TreeChange([b], None, Some(File(hash(y), false)));
    Merge.SideNonNested([], None, Some(alpha), Some(beta), to);
    forall t ensures t in cs <==> t == c {
      Merge.SideMembers([], None, Some(alpha), Some(beta), to, t);
      TwoFilesRulings(hash, a, b, x, y, t.path);
      assert t.path[0..] == t.path;
      assert c.path[0..] == c.path;
      TwoFilesAt(hash, a, b, x, y);
    }
    OnlyOne(cs, c);
  }

  lemma TwoFilesAt(hash: Hash, a: Name, b: Name, x: Bytes, y: Bytes)
    requires a != b
    ensures At(Some(OneEntry(hash, b, y)), [a]) == None && At(Some(OneEntry(hash, a, x)), [a]) == Some(File(hash(x), false))
    ensures At(Some(OneEntry(hash, b, y)), [b]) == Some(File(hash(y), false)) && At(Some(OneEntry(hash, a, x)), [b]) == None
  {
    assert [a][1..] == [] && [b][1..] == [];
  }

  /** Each side is to make the other's file. */
  lemma TwoFilesPlan(hash: Hash, a: Name, b: Name, x: Bytes, y: Bytes)
    requires PrintsHex(hash) && a != b
    ensures var plan := PlanPass(None, OneLine(hash, b, y), OneLine(hash, a, x));
            plan.toLocal == [Making(hash, a, x)] && plan.toRemote == [Making(hash, b, y)]
  {
    OneLineTree(hash, b, y);
    OneLineTree(hash, a, x);
    OneMove(hash, a, b, x, y, Merge.ToAlpha);
    OneMove(hash, a, b, x, y, Merge.ToBeta);
    ListOfOne(a, hash(x));
    ListOfOne(b, hash(y));
    var plan := Merge.Reconcile([], None, Some(OneEntry(hash, b, y)), Some(OneEntry(hash, a, x)));
    assert Merge.Side(plan, Merge.ToAlpha) == plan.alpha && Merge.Side(plan, Merge.ToBeta) == plan.beta;
  }

  // ---- reaching states --------------------------------------------------------------------------------------

  /** Some run from a beginning ends in the state. */
  ghost predicate CanHappen(hash: Hash, plan: Planner, s: State) {
    exists ss, steps :: EndsIn(hash, plan, ss, steps, s)
  }

  ghost predicate EndsIn(hash: Hash, plan: Planner, ss: seq<State>, steps: seq<Step>, s: State) {
    IsRun(hash, plan, ss, steps) && Begins(ss[0]) && ss[|steps|] == s
  }

  lemma BeginsReachable(hash: Hash, plan: Planner, s: State)
    requires Begins(s)
    ensures CanHappen(hash, plan, s)
  {
    assert EndsIn(hash, plan, [s], [], s);
  }

  lemma StepReaches(hash: Hash, plan: Planner, s: State, step: Step) returns (after: State)
    requires CanHappen(hash, plan, s) && Enabled(hash, s, step)
    ensures after == Take(plan, s, step) && CanHappen(hash, plan, after)
  {
    after := Take(plan, s, step);
    var ss, steps :| EndsIn(hash, plan, ss, steps, s);
    var tt, uu := ss + [after], steps + [step];
    forall i | 0 <= i < |uu| ensures Moves(hash, plan, tt, uu, i) {
      if i < |steps| { assert Moves(hash, plan, ss, steps, i); }
    }
    assert EndsIn(hash, plan, tt, uu, after);
  }

  lemma ReachableIsSafe(hash: Hash, plan: Planner, s: State)
    requires CanHappen(hash, plan, s)
    ensures Safe(plan, s)
  {
    var ss, steps :| EndsIn(hash, plan, ss, steps, s);
    CrashSafety(hash, plan, ss, steps, |steps|);
  }

  function Start(id: string, a: Name, b: Name, x: Bytes, y: Bytes): State {
    State(id, Disk(OneFile(b, y), map[]), Disk(OneFile(a, x), map[]), map[], "", None, Resting, [], [], [], true)
  }

  function TheJob(hash: Hash, a: Name, b: Name, x: Bytes, y: Bytes): Job {
    Job(OneLine(hash, b, y), OneLine(hash, a, x), PlanPass(None, OneLine(hash, b, y), OneLine(hash, a, x)))
  }

  /** A first cycle between them scans both. */
  lemma BothScannedReached(hash: Hash, plan: Planner, id: string, a: Name, b: Name, x: Bytes, y: Bytes) returns (s: State)
    requires FitName(a) && FitName(b)
    ensures CanHappen(hash, plan, s)
    ensures s == Start(id, a, b, x, y).(marker := id, pc := BothScanned(OneLine(hash, b, y), OneLine(hash, a, x)))
  {
    s := Start(id, a, b, x, y);
    BeginsReachable(hash, plan, s);
    OneFileScans(hash, b, y);
    OneFileScans(hash, a, x);
    s := StepReaches(hash, plan, s, Identify(true));
    s := StepReaches(hash, plan, s, Step.Greet);
    s := StepReaches(hash, plan, s, ScanLocal(OneLine(hash, b, y)));
    s := StepReaches(hash, plan, s, ScanRemote(OneLine(hash, a, x)));
  }

  /** And comes past the guard. */
  lemma StagingReached(hash: Hash, plan: Planner, id: string, a: Name, b: Name, x: Bytes, y: Bytes) returns (s: State)
    requires plan == PlanPass && a != b && FitName(a) && FitName(b)
    ensures CanHappen(hash, plan, s)
    ensures s == Start(id, a, b, x, y).(marker := id, pc := Staging(TheJob(hash, a, b, x, y)))
  {
    s := BothScannedReached(hash, plan, id, a, b, x, y);
    s := StepReaches(hash, plan, s, Check);
  }

  /** And to where the sandbox is to execute its list. */
  lemma SendingReached(hash: Hash, plan: Planner, id: string, a: Name, b: Name, x: Bytes, y: Bytes) returns (s: State)
    requires plan == PlanPass && PrintsHex(hash) && a != b && FitName(a) && FitName(b)
    ensures CanHappen(hash, plan, s) && s.pc == ChangingRemote(TheJob(hash, a, b, x, y)) && s.ranRemote == [] && s.ranLocal == [] && s.first
    ensures s.local == Disk(OneFile(b, y), map[]) && s.remote == Disk(OneFile(a, x), map[hash(y) := y])
    ensures s.trash == map[] && s.commits == [] && s.stored == None && s.marker == id
  {
    s := StagingReached(hash, plan, id, a, b, x, y);
    s := StepReaches(hash, plan, s, Send(hash(y), y));
    s := StepReaches(hash, plan, s, SentAll);
  }

  /** A cycle with one change for the sandbox executes it. */
  lemma OneChangeRun(hash: Hash, plan: Planner, s: State, job: Job, c: Change) returns (after: State)
    requires CanHappen(hash, plan, s) && s.pc == ChangingRemote(job) && s.ranRemote == [] && job.plan.toRemote == [c]
    ensures CanHappen(hash, plan, after) && after == s.(remote := Apply(s.remote, c).0, ranRemote := [c])
  {
    after := StepReaches(hash, plan, s, ChangeRemote);
  }

  /** And has executed it. */
  lemma ChangedReached(hash: Hash, plan: Planner, id: string, a: Name, b: Name, x: Bytes, y: Bytes) returns (s: State)
    requires plan == PlanPass && PrintsHex(hash) && a != b && FitName(a) && FitName(b)
    ensures CanHappen(hash, plan, s) && s.pc == ChangingRemote(TheJob(hash, a, b, x, y)) && s.ranRemote == [Making(hash, b, y)] && s.first
    ensures s.local == Disk(OneFile(b, y), map[]) && s.trash == map[] && s.commits == [] && s.ranLocal == [] && s.stored == None
  {
    TwoFilesPlan(hash, a, b, x, y);
    s := SendingReached(hash, plan, id, a, b, x, y);
    s := OneChangeRun(hash, plan, s, TheJob(hash, a, b, x, y), Making(hash, b, y));
  }

  /** And to where the cycle fetches what the local side is to have. */
  lemma SupplyingReached(hash: Hash, plan: Planner, id: string, a: Name, b: Name, x: Bytes, y: Bytes) returns (s: State)
    requires plan == PlanPass && PrintsHex(hash) && a != b && FitName(a) && FitName(b)
    ensures CanHappen(hash, plan, s) && s.pc == Supplying(TheJob(hash, a, b, x, y)) && s.ranRemote == [Making(hash, b, y)] && s.first
    ensures s.local == Disk(OneFile(b, y), map[]) && s.trash == map[] && s.commits == [] && s.ranLocal == [] && s.stored == None
  {
    TwoFilesPlan(hash, a, b, x, y);
    s := ChangedReached(hash, plan, id, a, b, x, y);
    s := StepReaches(hash, plan, s, RemoteDone);
  }

  // ---- the incidents ---------------------------------------------------------------------------------------------

  /** A halt for a replaced root can come after the sandbox has executed a list. */
  lemma LateHaltIsReached(hash: Hash, plan: Planner, id: string, a: Name, b: Name, x: Bytes, y: Bytes, z: Bytes) returns (s: State)
    requires plan == PlanPass && PrintsHex(hash) && a != b && FitName(a) && FitName(b) && hash(z) != hash(x)
    ensures CanHappen(hash, plan, s) && s.pc == Halted(RootReplaced, AtSupply, Some(TheJob(hash, a, b, x, y)))
    ensures s.ranRemote == [Making(hash, b, y)] && s.stored == None
  {
    TwoFilesPlan(hash, a, b, x, y);
    s := SupplyingReached(hash, plan, id, a, b, x, y);
    ReachableIsSafe(hash, plan, s);
    assert Fetching(s, Making(hash, a, x)) by { assert Making(hash, a, x) in [Making(hash, a, x)]; }
    LateHalt(hash, plan, s, Making(hash, a, x), OneFile(a, z), false);
    s := StepReaches(hash, plan, s, EditRemote(OneFile(a, z), s.marker));
    s := StepReaches(hash, plan, s, Refuse(RootInvalid));
    s := StepReaches(hash, plan, s, Attend(false, false));
  }

  /** The connection is lost during a transition, and the sandbox is found terminated. */
  lemma TerminatedThere(hash: Hash, plan: Planner, s: State, job: Job) returns (after: State)
    requires CanHappen(hash, plan, s) && s.pc == ChangingRemote(job)
    ensures CanHappen(hash, plan, after) && after.pc == Halted(SandboxGone, AtTransition(|s.ranRemote|), Some(job))
    ensures after.ranRemote == s.ranRemote && after.ranLocal == s.ranLocal && after.stored == s.stored
  {
    after := StepReaches(hash, plan, s, Break);
    after := StepReaches(hash, plan, after, Attend(false, true));
  }

  /** The ancestor cannot be stored, on a connection's first cycle, and the endpoint had written diagnostics. */
  lemma DiagnosedThere(hash: Hash, plan: Planner, s: State, job: Job) returns (after: State)
    requires CanHappen(hash, plan, s) && s.pc == Saving(job, false) && s.first
    ensures CanHappen(hash, plan, after) && after.pc == Halted(VersionGap, AtSave, Some(job))
    ensures after.ranRemote == s.ranRemote && after.ranLocal == s.ranLocal && after.stored == s.stored
  {
    after := StepReaches(hash, plan, s, Break);
    after := StepReaches(hash, plan, after, Attend(true, false));
  }

  /** A sandbox terminated while it executes its list: the runner halts, the list executed and nothing done locally. */
  lemma TerminatedHaltIsReached(hash: Hash, plan: Planner, id: string, a: Name, b: Name, x: Bytes, y: Bytes) returns (s: State)
    requires plan == PlanPass && PrintsHex(hash) && a != b && FitName(a) && FitName(b)
    ensures CanHappen(hash, plan, s) && s.pc == Halted(SandboxGone, AtTransition(1), Some(TheJob(hash, a, b, x, y)))
    ensures s.ranRemote == [Making(hash, b, y)] && s.ranLocal == [] && s.stored == None
  {
    s := ChangedReached(hash, plan, id, a, b, x, y);
    s := TerminatedThere(hash, plan, s, TheJob(hash, a, b, x, y));
  }

  /** A cycle with one local change comes to its last stage. */
  lemma OneLocalChangeRun(hash: Hash, plan: Planner, s: State, job: Job, c: Change) returns (after: State)
    requires CanHappen(hash, plan, s) && s.pc == ChangingLocal(job) && s.ranLocal == [] && job.plan.toLocal == [c]
    ensures CanHappen(hash, plan, after) && after.pc == Saving(job, false) && after.ranLocal == [c]
    ensures after.ranRemote == s.ranRemote && after.first == s.first && after.stored == s.stored
  {
    after := StepReaches(hash, plan, s, ChangeLocal);
    after := StepReaches(hash, plan, after, LocalDone);
  }

  /**
   * A first cycle that executes both lists and then cannot store its ancestor, under an endpoint that had written
   * diagnostics: the runner halts for a version gap.
   */
  lemma VersionGapIsReached(hash: Hash, plan: Planner, id: string, a: Name, b: Name, x: Bytes, y: Bytes) returns (s: State)
    requires plan == PlanPass && PrintsHex(hash) && a != b && FitName(a) && FitName(b)
    ensures CanHappen(hash, plan, s) && s.pc == Halted(VersionGap, AtSave, Some(TheJob(hash, a, b, x, y)))
    ensures s.ranRemote == [Making(hash, b, y)] && s.ranLocal == [Making(hash, a, x)] && s.stored == None
  {
    TwoFilesPlan(hash, a, b, x, y);
    s := ChangingReached(hash, plan, id, a, b, x, y);
    s := OneLocalChangeRun(hash, plan, s, TheJob(hash, a, b, x, y), Making(hash, a, x));
    s := DiagnosedThere(hash, plan, s, TheJob(hash, a, b, x, y));
  }

  /** A file is put in place of whatever file is there. */
  lemma FileReplaces(d: Disk, c: Change, content: Bytes)
    requires Reachable(c) && c.kind.CreateFile? && c.kind.digest in d.staged
    requires Parent(c.path) in d.nodes && d.nodes[Parent(c.path)].DirNode?
    ensures var edited := d.nodes[c.path := FileNode(content, false)];
            Apply(d.(nodes := edited), c).0.nodes == edited[c.path := FileNode(d.staged[c.kind.digest], c.kind.executable)]
  {
    var edited := d.nodes[c.path := FileNode(content, false)];
    assert Parent(c.path) < c.path;
    assert MkdirAll(edited, Parent(c.path)) == Some(edited);
  }

  /**
   * Whatever an edit puts where the cycle is next to create a file is overwritten, and the trash has nothing of it: in
   * any state, whatever was there when the root was scanned.
   */
  lemma EditIsOverwritten(plan: Planner, s: State, content: Bytes)
    requires s.pc.ChangingLocal? && |s.ranLocal| < |s.pc.job.plan.toLocal|
    requires var c := s.pc.job.plan.toLocal[|s.ranLocal|];
             && Reachable(c) && c.kind.CreateFile? && c.kind.digest in s.local.staged
             && Parent(c.path) in s.local.nodes && s.local.nodes[Parent(c.path)].DirNode?
    ensures var c := s.pc.job.plan.toLocal[|s.ranLocal|];
            var edited := Take(plan, s, EditLocal(s.local.nodes[c.path := FileNode(content, false)]));
            var after := Take(plan, edited, ChangeLocal);
            && c.path in after.local.nodes && after.local.nodes[c.path] == FileNode(s.local.staged[c.kind.digest], c.kind.executable)
            && after.trash == s.trash
  {
    FileReplaces(s.local, s.pc.job.plan.toLocal[|s.ranLocal|], content);
  }

  /** And so it is in the sandbox. */
  lemma SandboxEditIsOverwritten(plan: Planner, s: State, content: Bytes)
    requires s.pc.ChangingRemote? && |s.ranRemote| < |s.pc.job.plan.toRemote|
    requires var c := s.pc.job.plan.toRemote[|s.ranRemote|];
             && Reachable(c) && c.kind.CreateFile? && c.kind.digest in s.remote.staged
             && Parent(c.path) in s.remote.nodes && s.remote.nodes[Parent(c.path)].DirNode?
    ensures var c := s.pc.job.plan.toRemote[|s.ranRemote|];
            var edited := Take(plan, s, EditRemote(s.remote.nodes[c.path := FileNode(content, false)], s.marker));
            var after := Take(plan, edited, ChangeRemote);
            c.path in after.remote.nodes && after.remote.nodes[c.path] == FileNode(s.remote.staged[c.kind.digest], c.kind.executable)
  {
    FileReplaces(s.remote, s.pc.job.plan.toRemote[|s.ranRemote|], content);
  }

  /** The cycle goes on to its trashing. */
  lemma TrashingReached(hash: Hash, plan: Planner, id: string, a: Name, b: Name, x: Bytes, y: Bytes) returns (s: State)
    requires plan == PlanPass && PrintsHex(hash) && a != b && FitName(a) && FitName(b)
    ensures CanHappen(hash, plan, s) && s.pc == Trashing(TheJob(hash, a, b, x, y), 0) && s.ranLocal == []
    ensures s.ranRemote == [Making(hash, b, y)] && s.first && s.stored == None
    ensures s.local == Disk(OneFile(b, y), map[hash(x) := x]) && s.trash == map[] && s.commits == []
  {
    s := SupplyingReached(hash, plan, id, a, b, x, y);
    s := StepReaches(hash, plan, s, Fetch(hash(x), x));
    s := StepReaches(hash, plan, s, FetchedAll);
  }

  lemma NothingToMoveAside(s: State, c: Change)
    requires s.pc.Trashing? && !c.kind.Remove?
    ensures MoveAside(s, c, "", true) == s.(pc := s.pc.(trashed := s.pc.trashed + 1))
  {}

  /** And to where it is to create its one local file. */
  lemma ChangingReached(hash: Hash, plan: Planner, id: string, a: Name, b: Name, x: Bytes, y: Bytes) returns (s: State)
    requires plan == PlanPass && PrintsHex(hash) && a != b && FitName(a) && FitName(b)
    ensures CanHappen(hash, plan, s) && s.pc == ChangingLocal(TheJob(hash, a, b, x, y)) && s.ranLocal == []
    ensures s.ranRemote == [Making(hash, b, y)] && s.first && s.stored == None
    ensures s.local == Disk(OneFile(b, y), map[hash(x) := x]) && s.trash == map[] && s.commits == []
  {
    TwoFilesPlan(hash, a, b, x, y);
    s := TrashingReached(hash, plan, id, a, b, x, y);
    NothingToMoveAside(s, Making(hash, a, x));
    s := StepReaches(hash, plan, s, TrashNext("", true));
    s := StepReaches(hash, plan, s, TrashedAll);
  }

  /** An edit comes just before the change that overwrites it. */
  lemma EditedBefore(hash: Hash, plan: Planner, s: State, job: Job, c: Change, z: Bytes, x: Bytes) returns (edited: State)
    requires CanHappen(hash, plan, s) && s.pc == ChangingLocal(job) && s.ranLocal == [] && job.plan.toLocal == [c]
    requires Reachable(c) && c.kind.CreateFile? && !c.kind.executable && s.local.staged == map[c.kind.digest := x] && z != x
    requires Parent(c.path) in s.local.nodes && s.local.nodes[Parent(c.path)].DirNode?
    ensures CanHappen(hash, plan, edited) && Due(edited, ChangeLocal) && edited.local.nodes == s.local.nodes[c.path := FileNode(z, false)]
    ensures edited.commits == s.commits && edited.trash == s.trash
    ensures var after := Take(plan, edited, ChangeLocal);
            && Takes(edited.local.nodes, after.local.nodes, c.path) && after.trash == s.trash
            && after.local.nodes == s.local.nodes[c.path := FileNode(x, false)]
  {
    FileReplaces(s.local, c, z);
    var nodes := s.local.nodes[c.path := FileNode(z, false)];
    edited := StepReaches(hash, plan, s, EditLocal(nodes));
    assert nodes[c.path := FileNode(x, false)] == s.local.nodes[c.path := FileNode(x, false)];
  }

  /** It happens: content that no committed cycle ever found, and that is nowhere else, is gone for good. */
  lemma UnvouchedEditIsLost(hash: Hash, plan: Planner, id: string, a: Name, b: Name, x: Bytes, y: Bytes, z: Bytes) returns (s: State)
    requires plan == PlanPass && PrintsHex(hash) && a != b && FitName(a) && FitName(b) && z != x
    ensures CanHappen(hash, plan, s) && Due(s, ChangeLocal) && s.commits == []
    ensures [a] in s.local.nodes && s.local.nodes[[a]] == FileNode(z, false)
    ensures var after := Take(plan, s, ChangeLocal);
            Takes(s.local.nodes, after.local.nodes, [a]) && after.local.nodes == OneFile(b, y)[[a] := FileNode(x, false)] && after.trash == map[]
  {
    TwoFilesPlan(hash, a, b, x, y);
    s := ChangingReached(hash, plan, id, a, b, x, y);
    FitIsReachable(hash, a, x);
    assert Parent([a]) == [];
    s := EditedBefore(hash, plan, s, TheJob(hash, a, b, x, y), Making(hash, a, x), z, x);
  }

  lemma SandboxEditedBefore(hash: Hash, plan: Planner, s: State, job: Job, c: Change, z: Bytes, y: Bytes) returns (edited: State)
    requires CanHappen(hash, plan, s) && s.pc == ChangingRemote(job) && s.ranRemote == [] && job.plan.toRemote == [c]
    requires Reachable(c) && c.kind.CreateFile? && !c.kind.executable && s.remote.staged == map[c.kind.digest := y] && z != y
    requires Parent(c.path) in s.remote.nodes && s.remote.nodes[Parent(c.path)].DirNode?
    ensures CanHappen(hash, plan, edited) && Due(edited, ChangeRemote) && edited.remote.nodes == s.remote.nodes[c.path := FileNode(z, false)]
    ensures edited.commits == s.commits
    ensures var after := Take(plan, edited, ChangeRemote);
            Takes(edited.remote.nodes, after.remote.nodes, c.path) && after.remote.nodes == s.remote.nodes[c.path := FileNode(y, false)]
  {
    FileReplaces(s.remote, c, z);
    var nodes := s.remote.nodes[c.path := FileNode(z, false)];
    edited := StepReaches(hash, plan, s, EditRemote(nodes, s.marker));
    assert nodes[c.path := FileNode(y, false)] == s.remote.nodes[c.path := FileNode(y, false)];
  }

  /** And in the sandbox, which has no trash. */
  lemma UnvouchedSandboxEditIsLost(hash: Hash, plan: Planner, id: string, a: Name, b: Name, x: Bytes, y: Bytes, z: Bytes) returns (s: State)
    requires plan == PlanPass && PrintsHex(hash) && a != b && FitName(a) && FitName(b) && z != y
    ensures CanHappen(hash, plan, s) && Due(s, ChangeRemote) && s.commits == []
    ensures [b] in s.remote.nodes && s.remote.nodes[[b]] == FileNode(z, false)
    ensures var after := Take(plan, s, ChangeRemote);
            Takes(s.remote.nodes, after.remote.nodes, [b]) && after.remote.nodes == OneFile(a, x)[[b] := FileNode(y, false)]
  {
    TwoFilesPlan(hash, a, b, x, y);
    s := SendingReached(hash, plan, id, a, b, x, y);
    FitIsReachable(hash, b, y);
    assert Parent([b]) == [];
    s := SandboxEditedBefore(hash, plan, s, TheJob(hash, a, b, x, y), Making(hash, b, y), z, y);
  }

  lemma FitIsReachable(hash: Hash, n: Name, content: Bytes)
    requires FitName(n)
    ensures Reachable(Making(hash, n, content))
  {
    assert Admissible([n]) by { assert [n][0] == n && [STATE_DIR_NAME][0] != [n][0]; }
    AdmissibleIsReachable(Making(hash, n, content));
  }
}
