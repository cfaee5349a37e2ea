/** One whole sync pass over two roots: scan, build, merge, flatten, stage, execute. */
module Pass {
  import opened Lists
  import opened Entries
  import opened Changes
  import opened Splice
  import opened Reconcile
  import opened Tree
  import opened Execution
  import opened Meaning
  import opened Snapshot
  import opened Agreement
  import opened Ancestor
  import Merge

  /** Hashes are printed as lower-case hex. */
  ghost predicate PrintsHex(hash: Hash) {
    forall b :: HexText(hash(b)) && Lowered(hash(b)) == hash(b)
  }

  /** A root sync can work on: names in order, everything in directories, and its own state kept apart. */
  ghost predicate Workable(nodes: Nodes) {
    WellFormed(nodes) && [] in nodes && forall p | p in nodes :: Admissible(p)
  }

  // ---- scanning ------------------------------------------------------------------------------------

  function EntryFor(hash: Hash, p: Path, n: Node): Scanned {
    match n
    case DirNode => Scanned(p, DirectoryKind, "", false, "")
    case FileNode(content, x) => Scanned(p, FileKind, hash(content), x, "")
    case LinkNode(t) => Scanned(p, SymlinkKind, "", false, t)
  }

  /** The snapshot has one line for every path but the root and sync's own state. */
  ghost predicate IsScan(hash: Hash, nodes: Nodes, snapshot: seq<Scanned>) {
    && (forall s | s in snapshot :: s.path in nodes && s == EntryFor(hash, s.path, nodes[s.path]) && Listed(s.path))
    && (forall p | p in nodes && Listed(p) :: EntryFor(hash, p, nodes[p]) in snapshot)
    && NoRepeats(snapshot)
  }

  predicate Listed(p: Path) {
    p != [] && !([STATE_DIR_NAME] <= p)
  }

  method Scan(root: Root, hash: Hash) returns (snapshot: seq<Scanned>)
    ensures IsScan(hash, root.nodes, snapshot)
    ensures forall s | s in snapshot :: s.path != [] && s.path[0] != STATE_DIR_NAME
    ensures forall i, j | 0 <= i < j < |snapshot| :: Leq(Join(snapshot[i].path), Join(snapshot[j].path))
  {
    var found: seq<Scanned> := [];
    var todo := root.nodes.Keys;
    while todo != {}
      invariant todo <= root.nodes.Keys
      invariant forall s | s in found ::
                  s.path in root.nodes && s.path !in todo && s == EntryFor(hash, s.path, root.nodes[s.path]) && Listed(s.path)
      invariant forall p | p in root.nodes && p !in todo && Listed(p) :: EntryFor(hash, p, root.nodes[p]) in found
      invariant NoRepeats(found)
      decreases |todo|
    {
      var p :| p in todo;
      todo := todo - {p};
      if Listed(p) {
        NoRepeatsConcat(found, [EntryFor(hash, p, root.nodes[p])]);
        found := found + [EntryFor(hash, p, root.nodes[p])];
      }
    }
    snapshot := ByPath(found);
    SameElements(snapshot, found);
    NoRepeatsPermutes(found, snapshot);
    ByPathOrdered(found);
  }

  lemma ByPathOrdered(found: seq<Scanned>)
    ensures var s := ByPath(found); forall i, j | 0 <= i < j < |s| :: Leq(Join(s[i].path), Join(s[j].path))
  {
    var le := (a: Scanned, b: Scanned) => Leq(Join(a.path), Join(b.path));
    forall x, y ensures le(x, y) || le(y, x) { LeqTotal(Join(x.path), Join(y.path)); }
    forall x, y, z | le(x, y) && le(y, z) ensures le(x, z) { LeqTransitive(Join(x.path), Join(y.path), Join(z.path)); }
    SortSorted(found, le);
    forall i, j | 0 <= i < j < |ByPath(found)| ensures Leq(Join(ByPath(found)[i].path), Join(ByPath(found)[j].path)) {
      assert le(ByPath(found)[i], ByPath(found)[j]);
    }
  }

  ghost function View(hash: Hash, nodes: Nodes): Wanted {
    p => MetaAt(hash, nodes, p)
  }

  lemma ScanDescribes(hash: Hash, nodes: Nodes, snapshot: seq<Scanned>)
    requires PrintsHex(hash) && Workable(nodes) && IsScan(hash, nodes, snapshot)
    ensures Closed(View(hash, nodes)) && Describes(snapshot, View(hash, nodes))
  {
    forall p | p != [] && View(hash, nodes)(p).Some? ensures View(hash, nodes)(Parent(p)) == Some(DirectoryMeta) {
      assert p in nodes;
    }
    forall s | s in snapshot && Supported(s) ensures View(hash, nodes)(s.path) == Some(Said(s)) {
      assert nodes[s.path].FileNode? ==> Lowered(hash(nodes[s.path].content)) == hash(nodes[s.path].content);
    }
    forall p | p != [] && View(hash, nodes)(p).Some? ensures Mentioned(snapshot, p) {
      var s := EntryFor(hash, p, nodes[p]);
      assert s in snapshot;
      assert nodes[p].FileNode? ==> HexText(hash(nodes[p].content));
      assert Supported(s);
    }
  }

  /** The tree built from a scan is what the root holds. */
  lemma ScanGivesTree(hash: Hash, nodes: Nodes, snapshot: seq<Scanned>)
    requires PrintsHex(hash) && Workable(nodes) && IsScan(hash, nodes, snapshot)
    ensures TreeOf(snapshot).Directory? && Holds(hash, nodes, TreeOf(snapshot))
  {
    ScanDescribes(hash, nodes, snapshot);
    TreeOfDescribed(snapshot, View(hash, nodes));
    var t := TreeOf(snapshot);
    forall p ensures MetaAt(hash, nodes, p) == Look(Some(t), p) {
      assert Look(Some(t), p) == View(hash, nodes)(p);
    }
  }

  /** Entries a scan lists. */
  ghost function SizeOf(nodes: Nodes): nat {
    |set p | p in nodes && Listed(p)|
  }

  lemma ScanSize(hash: Hash, nodes: Nodes, snapshot: seq<Scanned>)
    requires IsScan(hash, nodes, snapshot)
    ensures |snapshot| == SizeOf(nodes)
  {
    forall i, j | 0 <= i < j < |snapshot| ensures snapshot[i].path != snapshot[j].path {
      assert snapshot[i] in snapshot && snapshot[j] in snapshot;
    }
    var ps := PathsOf(snapshot);
    ScannedPaths(hash, nodes, snapshot, ps);
    assert (set p | p in ps) == set p | p in nodes && Listed(p);
  }

  lemma ScannedPaths(hash: Hash, nodes: Nodes, snapshot: seq<Scanned>, ps: seq<Path>)
    requires IsScan(hash, nodes, snapshot) && |ps| == |snapshot| && forall i | 0 <= i < |ps| :: ps[i] == snapshot[i].path
    ensures forall p :: p in ps <==> p in nodes && Listed(p)
  {
    forall p ensures p in ps <==> p in nodes && Listed(p) {
      if p in ps {
        var i :| 0 <= i < |ps| && ps[i] == p;
        assert snapshot[i] in snapshot;
      }
      if p in nodes && Listed(p) {
        var i :| 0 <= i < |snapshot| && snapshot[i] == EntryFor(hash, p, nodes[p]);
        assert ps[i] == p;
      }
    }
  }

  /** The tree built from a scan tracks as many entries as the scan has lines. */
  lemma ScanCounts(hash: Hash, nodes: Nodes, snapshot: seq<Scanned>)
    requires PrintsHex(hash) && Workable(nodes) && IsScan(hash, nodes, snapshot)
    ensures CountOf(Some(TreeOf(snapshot))) == |snapshot|
  {
    ScanGivesTree(hash, nodes, snapshot);
    var t := TreeOf(snapshot);
    CountIsTracked(t);
    ScanSize(hash, nodes, snapshot);
    forall p ensures p in Tracked(t) <==> p in nodes && Listed(p) {
      assert MetaAt(hash, nodes, p) == Look(Some(t), p);
    }
    assert Tracked(t) == set p | p in nodes && Listed(p);
  }

  // ---- the whole pass ----------------------------------------------------------------------------------

  datatype PassPlan = PassPlan(toLocal: seq<Change>, toRemote: seq<Change>, conflicts: seq<Path>, ancestor: Option<Entry>)

  /** What each side must do, where both changed, and the ancestor to record, from the two scans. */
  function PlanPass(anc: Option<Entry>, local: seq<Scanned>, remote: seq<Scanned>): PassPlan {
    var alpha, beta := TreeOf(local), TreeOf(remote);
    var plan := Merge.Reconcile([], anc, Some(alpha), Some(beta));
    PassPlan(ChangesFrom(plan.alpha), ChangesFrom(plan.beta), ConflictsFrom(plan.conflicts), NextAncestor(anc, alpha, beta))
  }

  /** The paths of conflicts as they are reported. */
  function ConflictsFrom(conflicts: seq<Merge.Conflict>): seq<Path> {
    Sort(Merge.Roots(conflicts), (a: Path, b: Path) => Leq(Join(a), Join(b)))
  }

  /** A pass reports, once each and in order, exactly the paths both sides gave something new to. */
  lemma ConflictsReported(anc: Option<Entry>, local: seq<Scanned>, remote: seq<Scanned>)
    ensures var found := PlanPass(anc, local, remote).conflicts;
            && (forall p :: p in found <==> Merge.RulingAt(anc, Some(TreeOf(local)), Some(TreeOf(remote)), p) == Merge.Clash)
            && NoRepeats(found)
            && forall i, j | 0 <= i < j < |found| :: Leq(Join(found[i]), Join(found[j]))
  {
    ConflictsOf(anc, TreeOf(local), TreeOf(remote));
  }

  lemma ConflictsOf(anc: Option<Entry>, alpha: Entry, beta: Entry)
    ensures var found := ConflictsFrom(Merge.Reconcile([], anc, Some(alpha), Some(beta)).conflicts);
            && (forall p :: p in found <==> Merge.RulingAt(anc, Some(alpha), Some(beta), p) == Merge.Clash)
            && NoRepeats(found)
            && forall i, j | 0 <= i < j < |found| :: Leq(Join(found[i]), Join(found[j]))
  {
    var conflicts := Merge.Reconcile([], anc, Some(alpha), Some(beta)).conflicts;
    Merge.ConflictsOnce([], anc, Some(alpha), Some(beta));
    ConflictsSorted(conflicts);
    forall p ensures p in ConflictsFrom(conflicts) <==> Merge.RulingAt(anc, Some(alpha), Some(beta), p) == Merge.Clash {
      Merge.ConflictMembers([], anc, Some(alpha), Some(beta), p);
      assert p[0..] == p;
    }
  }

  lemma ConflictsSorted(conflicts: seq<Merge.Conflict>)
    requires NoRepeats(Merge.Roots(conflicts))
    ensures var found := ConflictsFrom(conflicts);
            && (forall p :: p in found <==> p in Merge.Roots(conflicts)) && NoRepeats(found)
            && forall i, j | 0 <= i < j < |found| :: Leq(Join(found[i]), Join(found[j]))
  {
    var le := (a: Path, b: Path) => Leq(Join(a), Join(b));
    var roots, found := Merge.Roots(conflicts), ConflictsFrom(conflicts);
    forall x, y ensures le(x, y) || le(y, x) { LeqTotal(Join(x), Join(y)); }
    forall x, y, z | le(x, y) && le(y, z) ensures le(x, z) { LeqTransitive(Join(x), Join(y), Join(z)); }
    SortSorted(roots, le);
    SameElements(found, roots);
    NoRepeatsPermutes(roots, found);
    forall i, j | 0 <= i < j < |found| ensures Leq(Join(found[i]), Join(found[j])) {
      assert le(found[i], found[j]);
    }
  }

  /** Every path the tree holds can be worked on. */
  ghost predicate HoldsAdmissible(t: Entry) {
    forall p | Look(Some(t), p).Some? :: Admissible(p)
  }

  lemma WorkableIsAdmissible(hash: Hash, nodes: Nodes, t: Entry)
    requires Workable(nodes) && Holds(hash, nodes, t)
    ensures HoldsAdmissible(t)
  {
    forall p | Look(Some(t), p).Some? ensures Admissible(p) {
      assert MetaAt(hash, nodes, p) == Look(Some(t), p);
    }
  }

  lemma MergeAdmissible(anc: Option<Entry>, alpha: Entry, beta: Entry)
    requires alpha.Directory? && beta.Directory? && HoldsAdmissible(alpha) && HoldsAdmissible(beta)
    ensures var plan := Merge.Reconcile([], anc, Some(alpha), Some(beta));
            AllAdmissible(alpha, plan.alpha) && AllAdmissible(beta, plan.beta)
  {
    var plan := Merge.Reconcile([], anc, Some(alpha), Some(beta));
    forall p ensures Want(alpha, plan.alpha, p).Some? ==> Admissible(p)
      ensures Want(beta, plan.beta, p).Some? ==> Admissible(p)
    {
      SideWant(anc, alpha, beta, Merge.ToAlpha, p);
      SideWant(anc, alpha, beta, Merge.ToBeta, p);
      assert Merge.Side(plan, Merge.ToAlpha) == plan.alpha && Merge.Side(plan, Merge.ToBeta) == plan.beta;
    }
  }

  /**
   * A fully staged pass, from two roots and whatever ancestor is stored: every change applies on both
   * sides; the roots then hold the same at every path not under a clash and what they held before under
   * one; and neither side lost anything the ancestor did not hold too.
   */
  lemma PassAgrees(hash: Hash, local: Disk, remote: Disk, anc: Option<Entry>, ls: seq<Scanned>, rs: seq<Scanned>)
    requires PrintsHex(hash) && Workable(local.nodes) && Workable(remote.nodes)
    requires Genuine(hash, local.staged) && Genuine(hash, remote.staged)
    requires IsScan(hash, local.nodes, ls) && IsScan(hash, remote.nodes, rs)
    requires FullyStaged(local.staged, PlanPass(anc, ls, rs).toLocal)
    requires FullyStaged(remote.staged, PlanPass(anc, ls, rs).toRemote)
    ensures var plan := PlanPass(anc, ls, rs);
            var (l, los) := Run(local, plan.toLocal);
            var (r, ros) := Run(remote, plan.toRemote);
            && (forall i | 0 <= i < |los| :: los[i] == Applied) && (forall i | 0 <= i < |ros| :: ros[i] == Applied)
            && (forall p :: PathAgrees(hash, local.nodes, remote.nodes, l.nodes, r.nodes, anc, TreeOf(ls), TreeOf(rs), p))
  {
    var alpha, beta := TreeOf(ls), TreeOf(rs);
    ScanGivesTree(hash, local.nodes, ls);
    ScanGivesTree(hash, remote.nodes, rs);
    Merge.MergeIsReconciled(anc, alpha, beta);
    WorkableIsAdmissible(hash, local.nodes, alpha);
    WorkableIsAdmissible(hash, remote.nodes, beta);
    MergeAdmissible(anc, alpha, beta);
    var plan := Merge.Reconcile([], anc, Some(alpha), Some(beta));
    MeaningPreserved(hash, local, alpha, plan.alpha);
    MeaningPreserved(hash, remote, beta, plan.beta);
    var l, r := Run(local, ChangesFrom(plan.alpha)).0, Run(remote, ChangesFrom(plan.beta)).0;
    forall p ensures PathAgrees(hash, local.nodes, remote.nodes, l.nodes, r.nodes, anc, alpha, beta, p) {
      MergeAgrees(anc, alpha, beta, p);
      assert MetaAt(hash, local.nodes, p) == Look(Some(alpha), p);
      assert MetaAt(hash, remote.nodes, p) == Look(Some(beta), p);
      assert MetaAt(hash, l.nodes, p) == Want(alpha, plan.alpha, p);
      assert MetaAt(hash, r.nodes, p) == Want(beta, plan.beta, p);
    }
  }

  ghost predicate PathAgrees(hash: Hash, l0: Nodes, r0: Nodes, l: Nodes, r: Nodes, anc: Option<Entry>, alpha: Entry, beta: Entry, p: Path) {
    var was, wasR, now, nowR := MetaAt(hash, l0, p), MetaAt(hash, r0, p), MetaAt(hash, l, p), MetaAt(hash, r, p);
    && (if Fate(anc, Some(alpha), Some(beta), p) == Merge.Clash then now == was && nowR == wasR else now == nowR)
    && (was.Some? && now != was ==> Look(anc, p) == was)
    && (wasR.Some? && nowR != wasR ==> Look(anc, p) == wasR)
  }

  /** The pass after it, from fresh scans and the ancestor it recorded, has nothing to do on either side. */
  lemma NextPassIsQuiet(hash: Hash, local: Disk, remote: Disk, anc: Option<Entry>, ls: seq<Scanned>, rs: seq<Scanned>,
                        ls': seq<Scanned>, rs': seq<Scanned>)
    requires PrintsHex(hash) && Workable(local.nodes) && Workable(remote.nodes)
    requires Genuine(hash, local.staged) && Genuine(hash, remote.staged)
    requires IsScan(hash, local.nodes, ls) && IsScan(hash, remote.nodes, rs)
    requires FullyStaged(local.staged, PlanPass(anc, ls, rs).toLocal)
    requires FullyStaged(remote.staged, PlanPass(anc, ls, rs).toRemote)
    requires IsScan(hash, Run(local, PlanPass(anc, ls, rs).toLocal).0.nodes, ls')
    requires IsScan(hash, Run(remote, PlanPass(anc, ls, rs).toRemote).0.nodes, rs')
    ensures var next := PlanPass(PlanPass(anc, ls, rs).ancestor, ls', rs'); next.toLocal == [] && next.toRemote == []
  {
    var alpha, beta := TreeOf(ls), TreeOf(rs);
    ScanGivesTree(hash, local.nodes, ls);
    ScanGivesTree(hash, remote.nodes, rs);
    Merge.MergeIsReconciled(anc, alpha, beta);
    WorkableIsAdmissible(hash, local.nodes, alpha);
    WorkableIsAdmissible(hash, remote.nodes, beta);
    MergeAdmissible(anc, alpha, beta);
    var plan := Merge.Reconcile([], anc, Some(alpha), Some(beta));
    RunGivesTree(hash, local, alpha, plan.alpha, ls');
    RunGivesTree(hash, remote, beta, plan.beta, rs');
    NextMergeIsQuiet(anc, alpha, beta, TreeOf(ls'), TreeOf(rs'));
  }

  /** A scan taken after a fully staged run builds exactly the wanted tree. */
  lemma RunGivesTree(hash: Hash, d: Disk, t: Entry, cs: seq<TreeChange>, after: seq<Scanned>)
    requires PrintsHex(hash) && WellFormed(d.nodes) && Holds(hash, d.nodes, t) && Genuine(hash, d.staged)
    requires Reconciled(t, cs) && AllAdmissible(t, cs) && FullyStaged(d.staged, ChangesFrom(cs))
    requires IsScan(hash, Run(d, ChangesFrom(cs)).0.nodes, after)
    ensures TreeOf(after).Directory? && forall p :: Look(Some(TreeOf(after)), p) == Want(t, cs, p)
  {
    ExactOutcome(hash, d, t, cs);
    MeaningPreserved(hash, d, t, cs);
    var nodes := Run(d, ChangesFrom(cs)).0.nodes;
    forall p | p in nodes ensures Admissible(p) {
      assert MetaAt(hash, nodes, p) == Want(t, cs, p);
    }
    WantClosed(t, cs);
    assert MetaAt(hash, nodes, []) == Goal(t, cs)([]);
    ScanGivesTree(hash, nodes, after);
    forall p ensures Look(Some(TreeOf(after)), p) == Want(t, cs, p) {
      assert MetaAt(hash, nodes, p) == Look(Some(TreeOf(after)), p);
    }
  }
}
