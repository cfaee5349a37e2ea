/** A cycle of the step machine that nothing disturbs does to both sides what a whole cycle of a session does. */
module Undisturbed {
  import opened Entries
  import opened Changes
  import opened Tree
  import opened Execution
  import opened Snapshot
  import opened Reconcile
  import opened Ancestor
  import opened Pass
  import opened Convergence
  import opened Trash
  import opened Guard
  import opened Cycle
  import opened Crash
  import opened Halts
  import opened Stops

  /** Steps of cycles alone, with no edit, no failure and no attention of the runner's. */
  ghost predicate Goes(hash: Hash, plan: Planner, s: State, steps: seq<Step>, after: State)
    decreases |steps|
  {
    if steps == [] then s == after
    else
      var m := steps[..|steps| - 1];
      exists before :: Goes(hash, plan, s, m, before) && GoesOne(hash, plan, before, steps[|steps| - 1], after)
  }

  ghost predicate GoesOne(hash: Hash, plan: Planner, s: State, step: Step, after: State) {
    Enabled(hash, s, step) && !IsEdit(step) && !Ends(step) && after == Take(plan, s, step)
  }

  ghost predicate Reaches(hash: Hash, plan: Planner, s: State, after: State) {
    exists steps :: Goes(hash, plan, s, steps, after)
  }

  lemma ReachesItself(hash: Hash, plan: Planner, s: State)
    ensures Reaches(hash, plan, s, s)
  {
    assert Goes(hash, plan, s, [], s);
  }

  lemma OneStepOn(hash: Hash, plan: Planner, s: State, m: State, step: Step, after: State)
    requires Reaches(hash, plan, s, m) && GoesOne(hash, plan, m, step, after)
    ensures Reaches(hash, plan, s, after)
  {
    var steps :| Goes(hash, plan, s, steps, m);
    var more := steps + [step];
    assert more[..|more| - 1] == steps;
    assert Goes(hash, plan, s, more, after);
  }

  // ---- stage by stage --------------------------------------------------------------------------------------

  lemma Opened(hash: Hash, plan: Planner, s: State) returns (after: State)
    requires Rests(s.pc) && (s.marker == "" || s.marker == s.id)
    ensures Reaches(hash, plan, s, after)
    ensures after == s.(marker := s.id, pc := Greeted, ranRemote := [], ranLocal := [])
  {
    var known := Take(plan, s, Identify(true));
    after := Take(plan, known, Greet);
    ReachesItself(hash, plan, s);
    OneStepOn(hash, plan, s, s, Identify(true), known);
    OneStepOn(hash, plan, s, known, Greet, after);
  }

  lemma ScannedAndGuarded(hash: Hash, plan: Planner, s: State, m: State, ls: seq<Scanned>, rs: seq<Scanned>) returns (after: State)
    requires Reaches(hash, plan, s, m) && m.pc.Greeted?
    requires Workable(m.local.nodes) && Workable(m.remote.nodes) && IsScan(hash, m.local.nodes, ls) && IsScan(hash, m.remote.nodes, rs)
    requires !LostMost(m.stored, |ls|, |rs|)
    ensures Reaches(hash, plan, s, after)
    ensures after == m.(pc := Staging(Job(ls, rs, plan(m.stored, ls, rs))))
  {
    var half := Take(plan, m, ScanLocal(ls));
    var both := Take(plan, half, ScanRemote(rs));
    after := Take(plan, both, Check);
    GuardPassesExactly(m.stored, |ls|, |rs|);
    OneStepOn(hash, plan, s, m, ScanLocal(ls), half);
    OneStepOn(hash, plan, s, half, ScanRemote(rs), both);
    OneStepOn(hash, plan, s, both, Check, after);
  }

  function SentTo(s: State, content: map<Digest, Bytes>): State {
    s.(remote := s.remote.(staged := s.remote.staged + content))
  }

  function FetchedTo(s: State, content: map<Digest, Bytes>): State {
    s.(local := s.local.(staged := s.local.staged + content))
  }

  lemma SendOne(hash: Hash, plan: Planner, m: State, content: map<Digest, Bytes>, g: Digest)
    requires m.pc.Staging? && g in content && hash(content[g]) == g
    ensures GoesOne(hash, plan, SentTo(m, content - {g}), Send(g, content[g]), SentTo(m, content))
  {
    assert m.remote.staged + content == (m.remote.staged + (content - {g}))[g := content[g]];
  }

  lemma FetchOne(hash: Hash, plan: Planner, m: State, content: map<Digest, Bytes>, g: Digest)
    requires m.pc.Supplying? && g in content && hash(content[g]) == g
    ensures GoesOne(hash, plan, FetchedTo(m, content - {g}), Fetch(g, content[g]), FetchedTo(m, content))
  {
    assert m.local.staged + content == (m.local.staged + (content - {g}))[g := content[g]];
  }

  lemma {:induction false} Uploaded(hash: Hash, plan: Planner, s: State, m: State, content: map<Digest, Bytes>)
    requires Reaches(hash, plan, s, m) && m.pc.Staging? && Genuine(hash, content)
    ensures Reaches(hash, plan, s, SentTo(m, content))
    decreases |content|
  {
    if content == map[] {
      assert m.remote.staged + content == m.remote.staged;
      assert SentTo(m, content) == m;
    } else {
      var g :| g in content;
      var rest := content - {g};
      Uploaded(hash, plan, s, m, rest);
      SendOne(hash, plan, m, content, g);
      OneStepOn(hash, plan, s, SentTo(m, rest), Send(g, content[g]), SentTo(m, content));
    }
  }

  lemma {:induction false} Fetched(hash: Hash, plan: Planner, s: State, m: State, content: map<Digest, Bytes>)
    requires Reaches(hash, plan, s, m) && m.pc.Supplying? && Genuine(hash, content)
    ensures Reaches(hash, plan, s, FetchedTo(m, content))
    decreases |content|
  {
    if content == map[] {
      assert m.local.staged + content == m.local.staged;
      assert FetchedTo(m, content) == m;
    } else {
      var g :| g in content;
      var rest := content - {g};
      Fetched(hash, plan, s, m, rest);
      FetchOne(hash, plan, m, content, g);
      OneStepOn(hash, plan, s, FetchedTo(m, rest), Fetch(g, content[g]), FetchedTo(m, content));
    }
  }

  /** The cycle with so much of its sandbox list executed. */
  function RemoteTo(m: State, k: nat): State
    requires m.pc.ChangingRemote? && k <= |m.pc.job.plan.toRemote|
  {
    m.(remote := Run(m.remote, m.pc.job.plan.toRemote[..k]).0, ranRemote := m.pc.job.plan.toRemote[..k])
  }

  function LocalTo(m: State, k: nat): State
    requires m.pc.ChangingLocal? && k <= |m.pc.job.plan.toLocal|
  {
    m.(local := Run(m.local, m.pc.job.plan.toLocal[..k]).0, ranLocal := m.pc.job.plan.toLocal[..k])
  }

  lemma RunOneRemotely(hash: Hash, plan: Planner, m: State, k: nat)
    requires m.pc.ChangingRemote? && k < |m.pc.job.plan.toRemote|
    ensures GoesOne(hash, plan, RemoteTo(m, k), ChangeRemote, RemoteTo(m, k + 1))
  {
    var l := m.pc.job.plan.toRemote;
    RanOneMore(m.remote, l[..k], l[k]);
    assert l[..k] + [l[k]] == l[..k + 1];
  }

  lemma RunOneLocally(hash: Hash, plan: Planner, m: State, k: nat)
    requires m.pc.ChangingLocal? && k < |m.pc.job.plan.toLocal|
    ensures GoesOne(hash, plan, LocalTo(m, k), ChangeLocal, LocalTo(m, k + 1))
  {
    var l := m.pc.job.plan.toLocal;
    RanOneMore(m.local, l[..k], l[k]);
    assert l[..k] + [l[k]] == l[..k + 1];
  }

  lemma {:induction false} RanRemotely(hash: Hash, plan: Planner, s: State, m: State, k: nat)
    requires Reaches(hash, plan, s, m) && m.pc.ChangingRemote? && m.ranRemote == [] && k <= |m.pc.job.plan.toRemote|
    ensures Reaches(hash, plan, s, RemoteTo(m, k))
  {
    if k == 0 {
      assert RemoteTo(m, 0) == m;
    } else {
      RanRemotely(hash, plan, s, m, k - 1);
      RunOneRemotely(hash, plan, m, k - 1);
      OneStepOn(hash, plan, s, RemoteTo(m, k - 1), ChangeRemote, RemoteTo(m, k));
    }
  }

  lemma {:induction false} RanLocally(hash: Hash, plan: Planner, s: State, m: State, k: nat)
    requires Reaches(hash, plan, s, m) && m.pc.ChangingLocal? && m.ranLocal == [] && k <= |m.pc.job.plan.toLocal|
    ensures Reaches(hash, plan, s, LocalTo(m, k))
  {
    if k == 0 {
      assert LocalTo(m, 0) == m;
    } else {
      RanLocally(hash, plan, s, m, k - 1);
      RunOneLocally(hash, plan, m, k - 1);
      OneStepOn(hash, plan, s, LocalTo(m, k - 1), ChangeLocal, LocalTo(m, k));
    }
  }

  function AsideTo(s: State, aside: Local): State {
    s.(local := s.local.(nodes := aside.nodes), trash := aside.trash)
  }

  /** Trashing from the k-th change on. */
  lemma {:induction false} MovedAside(hash: Hash, plan: Planner, s: State, m: State, stamps: seq<Name>, sameDevice: bool, aside: Local)
    requires Reaches(hash, plan, s, m) && m.pc.Trashing? && m.pc.trashed <= |m.pc.job.plan.toLocal|
    requires |stamps| == |m.pc.job.plan.toLocal| - m.pc.trashed
    requires TrashAll(LocalOf(m), m.pc.job.plan.toLocal[m.pc.trashed..], stamps, sameDevice) == Some(aside)
    ensures Reaches(hash, plan, s, AsideTo(m, aside).(pc := Trashing(m.pc.job, |m.pc.job.plan.toLocal|)))
    decreases |stamps|
  {
    var l, k := m.pc.job.plan.toLocal, m.pc.trashed;
    if k == |l| {
      assert AsideTo(m, aside).(pc := Trashing(m.pc.job, |l|)) == m;
    } else {
      assert l[k..][0] == l[k] && l[k..][1..] == l[k + 1..];
      var next := Take(plan, m, TrashNext(stamps[0], sameDevice));
      OneStepOn(hash, plan, s, m, TrashNext(stamps[0], sameDevice), next);
      MovedAside(hash, plan, s, next, stamps[1..], sameDevice, aside);
    }
  }

  /** What an undisturbed cycle works on and brings: its scans, the content sent and fetched, and the trashing's results. */
  datatype Course = Course(ls: seq<Scanned>, rs: seq<Scanned>, sent: map<Digest, Bytes>, fetched: map<Digest, Bytes>,
                           stamps: seq<Name>, sameDevice: bool, aside: Local)

  /** The world lets the cycle have this course. */
  ghost predicate Open(hash: Hash, plan: Planner, s: State, c: Course) {
    && Rests(s.pc) && (s.marker == "" || s.marker == s.id)
    && Workable(s.local.nodes) && Workable(s.remote.nodes) && IsScan(hash, s.local.nodes, c.ls) && IsScan(hash, s.remote.nodes, c.rs)
    && !LostMost(s.stored, |c.ls|, |c.rs|)
    && Genuine(hash, c.sent) && Genuine(hash, c.fetched)
    && var l := plan(s.stored, c.ls, c.rs).toLocal;
       |c.stamps| == |l| && TrashAll(LocalOf(s), l, c.stamps, c.sameDevice) == Some(c.aside)
  }

  /** What it ends with: both lists executed in full on what was staged, the removals moved aside, and the ancestor recorded. */
  function Ended(plan: Planner, s: State, c: Course): State {
    var p := plan(s.stored, c.ls, c.rs);
    State(s.id,
          Run(Disk(c.aside.nodes, s.local.staged + c.fetched), p.toLocal).0,
          Run(Disk(s.remote.nodes, s.remote.staged + c.sent), p.toRemote).0,
          c.aside.trash, s.id, p.ancestor, Resting, [], [], s.commits + [Commit(c.ls, c.rs, p.toRemote, p.toLocal)], false)
  }

  /** Wherever the session rests, a cycle of any such course can go through to its end undisturbed, and ends so. */
  lemma UndisturbedCycle(hash: Hash, plan: Planner, s: State, c: Course)
    requires Open(hash, plan, s, c)
    ensures Reaches(hash, plan, s, Ended(plan, s, c))
  {
    var p := plan(s.stored, c.ls, c.rs);
    var s1 := Opened(hash, plan, s);
    var s2 := ScannedAndGuarded(hash, plan, s, s1, c.ls, c.rs);
    var s3 := RemoteDoneBy(hash, plan, s, s2, c.sent);
    var s4 := LocalReadyBy(hash, plan, s, s3, c);
    var s5 := LocalDoneBy(hash, plan, s, s4);
    Saved(hash, plan, s, s5);
    assert Take(plan, Take(plan, s5, WriteTemp), RenameTemp) == Ended(plan, s, c);
  }

  lemma RemoteDoneBy(hash: Hash, plan: Planner, s: State, m: State, sent: map<Digest, Bytes>) returns (after: State)
    requires Reaches(hash, plan, s, m) && m.pc.Staging? && m.ranRemote == [] && Genuine(hash, sent)
    ensures Reaches(hash, plan, s, after)
    ensures after == m.(remote := Run(Disk(m.remote.nodes, m.remote.staged + sent), m.pc.job.plan.toRemote).0,
                        ranRemote := m.pc.job.plan.toRemote, pc := Supplying(m.pc.job))
  {
    var l := m.pc.job.plan.toRemote;
    Uploaded(hash, plan, s, m, sent);
    var a := SentTo(m, sent);
    var b := Take(plan, a, SentAll);
    OneStepOn(hash, plan, s, a, SentAll, b);
    RanRemotely(hash, plan, s, b, |l|);
    assert l[..|l|] == l;
    var d := RemoteTo(b, |l|);
    after := Take(plan, d, RemoteDone);
    OneStepOn(hash, plan, s, d, RemoteDone, after);
  }

  lemma LocalReadyBy(hash: Hash, plan: Planner, s: State, m: State, c: Course) returns (after: State)
    requires Reaches(hash, plan, s, m) && m.pc.Supplying? && Genuine(hash, c.fetched)
    requires var l := m.pc.job.plan.toLocal; |c.stamps| == |l| && TrashAll(LocalOf(m), l, c.stamps, c.sameDevice) == Some(c.aside)
    ensures Reaches(hash, plan, s, after)
    ensures after == m.(local := Disk(c.aside.nodes, m.local.staged + c.fetched), trash := c.aside.trash, pc := ChangingLocal(m.pc.job))
  {
    var l := m.pc.job.plan.toLocal;
    Fetched(hash, plan, s, m, c.fetched);
    var a := FetchedTo(m, c.fetched);
    var b := Take(plan, a, FetchedAll);
    OneStepOn(hash, plan, s, a, FetchedAll, b);
    assert l[0..] == l && LocalOf(b) == LocalOf(m);
    MovedAside(hash, plan, s, b, c.stamps, c.sameDevice, c.aside);
    var d := AsideTo(b, c.aside).(pc := Trashing(m.pc.job, |l|));
    after := Take(plan, d, TrashedAll);
    OneStepOn(hash, plan, s, d, TrashedAll, after);
  }

  lemma LocalDoneBy(hash: Hash, plan: Planner, s: State, m: State) returns (after: State)
    requires Reaches(hash, plan, s, m) && m.pc.ChangingLocal? && m.ranLocal == []
    ensures Reaches(hash, plan, s, after)
    ensures after == m.(local := Run(m.local, m.pc.job.plan.toLocal).0, ranLocal := m.pc.job.plan.toLocal, pc := Saving(m.pc.job, false))
  {
    var l := m.pc.job.plan.toLocal;
    RanLocally(hash, plan, s, m, |l|);
    assert l[..|l|] == l;
    var d := LocalTo(m, |l|);
    after := Take(plan, d, LocalDone);
    OneStepOn(hash, plan, s, d, LocalDone, after);
  }

  lemma Saved(hash: Hash, plan: Planner, s: State, m: State)
    requires Reaches(hash, plan, s, m) && m.pc.Saving? && !m.pc.written
    ensures Reaches(hash, plan, s, Take(plan, Take(plan, m, WriteTemp), RenameTemp))
  {
    var a := Take(plan, m, WriteTemp);
    OneStepOn(hash, plan, s, m, WriteTemp, a);
    OneStepOn(hash, plan, s, a, RenameTemp, Take(plan, a, RenameTemp));
  }

  // ---- and that is what a session's cycle does --------------------------------------------------------------

  /** The content of one side that a list needs, by digest. */
  ghost function Needed(hash: Hash, source: Nodes, l: seq<Change>): map<Digest, Bytes>
    requires Available(hash, source, l)
  {
    map g | g in DigestSet(l) :: ContentFor(hash, source, l, g)
  }

  ghost function ContentFor(hash: Hash, source: Nodes, l: seq<Change>, g: Digest): (r: Bytes)
    requires Available(hash, source, l) && g in DigestSet(l)
    ensures hash(r) == g
  {
    var c :| c in l && Creates(c, g);
    source[c.path].content
  }

  /**
   * Between roots in order, where no more than half of what is tracked was lost, the step machine can take a cycle that
   * ends as a session's own cycle does: each side reaches what the merge asks of it, removals are sheltered, the ancestor
   * is the merge's.
   */
  lemma CycleRefines(hash: Hash, plan: Planner, s: State, ls: seq<Scanned>, rs: seq<Scanned>, w: World)
    requires plan == PlanPass && Rests(s.pc) && (s.marker == "" || s.marker == s.id)
    requires InOrder(hash, s.local, s.remote, s.trash, w.clock)
    requires IsScan(hash, s.local.nodes, ls) && IsScan(hash, s.remote.nodes, rs) && !LostMost(s.stored, |ls|, |rs|)
    ensures exists after :: Reaches(hash, plan, s, after) && EndsInSync(hash, s, ls, rs, w, after)
  {
    var c := CourseInOrder(hash, s, ls, rs, w);
    UndisturbedCycle(hash, plan, s, c);
    assert EndsInSync(hash, s, ls, rs, w, Ended(plan, s, c));
  }

  /** The sandbox gets all it needs, and reaches what is wanted of it. */
  lemma SentInOrder(hash: Hash, s: State, ls: seq<Scanned>, rs: seq<Scanned>) returns (sent: map<Digest, Bytes>)
    requires Scans(hash, s.local.nodes, s.remote.nodes, ls, rs) && Genuine(hash, s.remote.staged)
    ensures Genuine(hash, sent)
    ensures var r := Run(Disk(s.remote.nodes, s.remote.staged + sent), PlanPass(s.stored, ls, rs).toRemote).0;
            InShape(hash, r) && Reached(hash, s.remote.nodes, r.nodes, TreeOf(rs), Merged(s.stored, ls, rs).beta)
  {
    RemoteReady(hash, s.local.nodes, s.remote.nodes, s.stored, ls, rs);
    sent := Needed(hash, s.local.nodes, ChangesFrom(Merged(s.stored, ls, rs).beta));
    MergeFacts(hash, s.local.nodes, s.remote.nodes, s.stored, ls, rs);
    RunReaches(hash, Disk(s.remote.nodes, s.remote.staged + sent), TreeOf(rs), Merged(s.stored, ls, rs).beta);
  }

  lemma CourseInOrder(hash: Hash, s: State, ls: seq<Scanned>, rs: seq<Scanned>, w: World) returns (c: Course)
    requires Rests(s.pc) && (s.marker == "" || s.marker == s.id)
    requires InOrder(hash, s.local, s.remote, s.trash, w.clock)
    requires IsScan(hash, s.local.nodes, ls) && IsScan(hash, s.remote.nodes, rs) && !LostMost(s.stored, |ls|, |rs|)
    ensures Open(hash, PlanPass, s, c) && c.ls == ls && c.rs == rs
    ensures EndsInSync(hash, s, ls, rs, w, Ended(PlanPass, s, c))
  {
    var l := PlanPass(s.stored, ls, rs).toLocal;
    var sent := SentInOrder(hash, s, ls, rs);
    var changed := Run(Disk(s.remote.nodes, s.remote.staged + sent), PlanPass(s.stored, ls, rs).toRemote).0;
    var fetched, aside := FetchedInOrder(hash, s, ls, rs, w, changed.nodes);
    c := Course(ls, rs, sent, fetched, Times(w.clock, |l|), w.sameDevice, aside);
  }

  /** And the local side from the sandbox so changed, with what it removes moved aside. */
  lemma FetchedInOrder(hash: Hash, s: State, ls: seq<Scanned>, rs: seq<Scanned>, w: World, changed: Nodes)
    returns (fetched: map<Digest, Bytes>, aside: Local)
    requires Scans(hash, s.local.nodes, s.remote.nodes, ls, rs) && Genuine(hash, s.local.staged) && Unused(s.trash, w.clock)
    requires Reached(hash, s.remote.nodes, changed, TreeOf(rs), Merged(s.stored, ls, rs).beta)
    ensures Genuine(hash, fetched)
    ensures var l := PlanPass(s.stored, ls, rs).toLocal;
            var r := Run(Disk(aside.nodes, s.local.staged + fetched), l).0;
            && TrashAll(LocalOf(s), l, Times(w.clock, |l|), w.sameDevice) == Some(aside)
            && Sheltering(LocalOf(s), l, w, aside.trash) && InShape(hash, r)
            && Reached(hash, s.local.nodes, r.nodes, TreeOf(ls), Merged(s.stored, ls, rs).alpha)
  {
    var l := PlanPass(s.stored, ls, rs).toLocal;
    LocalReady(hash, s.local.nodes, s.remote.nodes, changed, s.stored, ls, rs);
    fetched := Needed(hash, changed, l);
    LocalReaches(hash, Disk(s.local.nodes, s.local.staged + fetched), s.remote.nodes, s.trash, s.stored, ls, rs, w);
    aside := TrashAll(Local(s.local.nodes, s.trash), l, Times(w.clock, |l|), w.sameDevice).value;
  }

  ghost predicate EndsInSync(hash: Hash, s: State, ls: seq<Scanned>, rs: seq<Scanned>, w: World, after: State) {
    && after.pc.Resting? && after.marker == s.id && !after.first
    && Synced(hash, s.stored, s.local.nodes, s.remote.nodes, after.local.nodes, after.remote.nodes, ls, rs)
    && Sheltering(Local(s.local.nodes, s.trash), ChangesFrom(Merged(s.stored, ls, rs).alpha), w, after.trash)
    && InShape(hash, after.local) && InShape(hash, after.remote)
    && after.stored == NextAncestor(s.stored, TreeOf(ls), TreeOf(rs))
  }
}
