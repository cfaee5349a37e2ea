/** Diffing, sorting and executing: the run reaches what the tree changes asked for. */
module Meaning {
  import opened Entries
  import opened Changes
  import opened Reconcile
  import opened Tree
  import opened Execution
  import opened Splice

  /** The root holds exactly the tree `t`. */
  ghost predicate Holds(hash: Hash, nodes: Nodes, t: Entry) {
    forall p :: MetaAt(hash, nodes, p) == Look(Some(t), p)
  }

  /** A path made of proper names and outside sync's own state. */
  predicate Admissible(p: Path) {
    AllProper(p) && !([STATE_DIR_NAME] <= p)
  }

  ghost predicate AllAdmissible(t: Entry, cs: seq<TreeChange>) {
    && (forall p | Look(Some(t), p).Some? :: Admissible(p))
    && (forall p | Want(t, cs, p).Some? :: Admissible(p))
  }

  lemma AdmissibleIsReachable(c: Change)
    requires c.path != [] && Admissible(c.path)
    ensures Reachable(c)
  {
    assert [STATE_DIR_NAME] <= c.path <==> c.path[0] == STATE_DIR_NAME;
    ResolveKeeps(c.path);
  }

  // ---- the goal is a tree --------------------------------------------------------------------

  lemma WantClosed(t: Entry, cs: seq<TreeChange>)
    requires Reconciled(t, cs)
    ensures Closed(Goal(t, cs))
  {
    forall p | p == [] || Want(t, cs, p).Some? ensures Want(t, cs, Parent(p)) == Some(DirectoryMeta) {
      if p == [] {
        if c :| c in cs && c.path <= [] { WantInside(t, cs, c, []); } else { WantOutside(t, cs, []); }
      } else {
        WantParent(t, cs, p);
      }
    }
  }

  lemma WantParent(t: Entry, cs: seq<TreeChange>, p: Path)
    requires Reconciled(t, cs) && p != [] && Want(t, cs, p).Some?
    ensures Want(t, cs, Parent(p)) == Some(DirectoryMeta)
  {
    var q := Parent(p);
    if c :| c in cs && c.path <= q {
      WantInside(t, cs, c, q);
      WantInside(t, cs, c, p);
      AboveIsDirectory(c.after, q[|c.path|..], p[|c.path|..]);
    } else {
      WantOutside(t, cs, q);
      if c :| c in cs && c.path <= p {
        PrefixOfParent(c.path, p);
      } else {
        WantOutside(t, cs, p);
        AboveIsDirectory(Some(t), q, p);
      }
    }
  }

  // ---- the sorted list: removals, then everything else --------------------------------------

  function LeadingRemovals(l: seq<Change>): (k: nat)
    ensures k <= |l| && forall i | 0 <= i < k :: l[i].kind.Remove?
    ensures k < |l| ==> !l[k].kind.Remove?
  {
    if l == [] || !l[0].kind.Remove? then 0 else 1 + LeadingRemovals(l[1..])
  }

  lemma RankedRemovalsFirst(l: seq<Change>)
    requires Ranked(l)
    ensures forall i | LeadingRemovals(l) <= i < |l| :: !l[i].kind.Remove?
  {
    var k := LeadingRemovals(l);
    forall i | k <= i < |l| ensures !l[i].kind.Remove? {
      assert k < i ==> Rank(l[k]) <= Rank(l[i]);
    }
  }

  lemma RemovalsFirst(cs: seq<TreeChange>)
    ensures var l := ChangesFrom(cs); forall i | LeadingRemovals(l) <= i < |l| :: !l[i].kind.Remove?
  {
    ChangesFromRanked(cs);
    RankedRemovalsFirst(ChangesFrom(cs));
  }

  lemma RemovalFacts(t: Entry, cs: seq<TreeChange>, c: Change)
    requires Reconciled(t, cs) && AllAdmissible(t, cs)
    requires c in ChangesFrom(cs) && c.kind.Remove?
    ensures Reachable(c) && Look(Some(t), c.path).Some?
  {
    ChangesFromMembers(cs);
    var tc :| tc in cs && EmittedBy(tc, c);
    RemovedWasThere(tc.before, tc.after, c.path[|tc.path|..]);
    BeforeInside(t, tc, c.path);
    AdmissibleIsReachable(c);
  }

  /** Something a list removal covers is either unwanted or wanted as another kind of thing. */
  lemma CoveredIsReplaced(t: Entry, cs: seq<TreeChange>, p: Path)
    requires Reconciled(t, cs) && Look(Some(t), p).Some?
    requires exists c :: c in ChangesFrom(cs) && c.kind.Remove? && c.path <= p
    ensures Want(t, cs, p).None? || !SameKind(Look(Some(t), p).value, Want(t, cs, p).value)
  {
    ChangesFromMembers(cs);
    var c :| c in ChangesFrom(cs) && c.kind.Remove? && c.path <= p;
    var tc :| tc in cs && EmittedBy(tc, c);
    WantInside(t, cs, tc, p);
    BeforeInside(t, tc, p);
    RemovedAbove(tc.before, tc.after, c.path[|tc.path|..], p[|tc.path|..]);
  }

  /** Something no list removal covers is wanted as the same kind of thing. */
  lemma UncoveredIsKept(t: Entry, cs: seq<TreeChange>, p: Path)
    requires Reconciled(t, cs) && Look(Some(t), p).Some?
    requires forall c | c in ChangesFrom(cs) && c.kind.Remove? :: !(c.path <= p)
    ensures Want(t, cs, p).Some? && SameKind(Look(Some(t), p).value, Want(t, cs, p).value)
  {
    ChangesFromMembers(cs);
    if tc :| tc in cs && tc.path <= p {
      var r := p[|tc.path|..];
      WantInside(t, cs, tc, p);
      BeforeInside(t, tc, p);
      forall q | q <= r ensures !Removed(tc.before, tc.after, q) {
        var c := Change(tc.path + q, Remove);
        assert c.path[|tc.path|..] == q && c.path <= p;
        assert c.path == [] ==> tc.path == [] && q == [];
        assert c.path == [] ==> !Removed(tc.before, tc.after, q);
        assert EmittedBy(tc, c) <==> Removed(tc.before, tc.after, q);
      }
      KeptKind(tc.before, tc.after, r);
    } else {
      WantOutside(t, cs, p);
    }
  }

  lemma CreationFacts(t: Entry, cs: seq<TreeChange>, c: Change)
    requires Reconciled(t, cs) && AllAdmissible(t, cs)
    requires c in ChangesFrom(cs) && !c.kind.Remove?
    ensures Reachable(c) && Want(t, cs, c.path).Some? && Makes(c.kind, Want(t, cs, c.path).value)
    ensures Look(Some(t), c.path) != Want(t, cs, c.path)
    ensures c.kind.SetExecutable? ==>
              var was := Look(Some(t), c.path);
              was.Some? && was.value.FileMeta? && was.value.digest == Want(t, cs, c.path).value.digest
    ensures c.kind.CreateFile? ==>
              var was := Look(Some(t), c.path);
              !(was.Some? && was.value.FileMeta? && was.value.digest == Want(t, cs, c.path).value.digest)
  {
    ChangesFromMembers(cs);
    var tc :| tc in cs && EmittedBy(tc, c);
    CreationIsWanted(tc.before, tc.after, c.path[|tc.path|..]);
    WantInside(t, cs, tc, c.path);
    BeforeInside(t, tc, c.path);
    AdmissibleIsReachable(c);
  }

  /** What is wanted, and is not what was there, has a creation in the list. */
  lemma WantedIsCreated(t: Entry, cs: seq<TreeChange>, p: Path)
    requires Reconciled(t, cs) && Want(t, cs, p).Some? && Want(t, cs, p) != Look(Some(t), p)
    ensures exists c :: c in ChangesFrom(cs) && !c.kind.Remove? && c.path == p
  {
    ChangesFromMembers(cs);
    if tc :| tc in cs && tc.path <= p {
      var r := p[|tc.path|..];
      WantInside(t, cs, tc, p);
      BeforeInside(t, tc, p);
      if Created(tc.before, tc.after, r).None? {
        UncreatedIsThere(tc.before, tc.after, r);
      } else {
        CreationIsWanted(tc.before, tc.after, r);
        var c := Change(p, Created(tc.before, tc.after, r).value);
        assert EmittedBy(tc, c);
      }
    } else {
      WantOutside(t, cs, p);
    }
  }

  lemma SameCreation(cs: seq<TreeChange>, x: Change, y: Change)
    requires NonNested(cs) && x in ChangesFrom(cs) && y in ChangesFrom(cs)
    requires x.path == y.path && !x.kind.Remove? && !y.kind.Remove?
    ensures x == y
  {
    ChangesFromMembers(cs);
    var a :| a in cs && EmittedBy(a, x);
    var b :| b in cs && EmittedBy(b, y);
    SameOwner(cs, a, b, x.path);
  }

  lemma CreationsDistinct(cs: seq<TreeChange>)
    requires NonNested(cs)
    ensures var l := ChangesFrom(cs);
            forall i, j | 0 <= i < j < |l| && !l[i].kind.Remove? && !l[j].kind.Remove? :: l[i].path != l[j].path
  {
    var l := ChangesFrom(cs);
    ChangesFromNoRepeats(cs);
    forall i, j | 0 <= i < j < |l| && !l[i].kind.Remove? && !l[j].kind.Remove? ensures l[i].path != l[j].path {
      if l[i].path == l[j].path {
        SameCreation(cs, l[i], l[j]);
      }
    }
  }

  // ---- the theorem ----------------------------------------------------------------------------

  /** A file of the list that found its content missing or already taken. */
  ghost predicate Missed(staged: map<Digest, Bytes>, l: seq<Change>, p: Path) {
    exists i :: 0 <= i < |l| && l[i].path == p && !Succeeds(staged, l, i)
  }

  /** What is left at a path whose file could not be created: the old file, if there was one. */
  function Leftover(was: Option<Meta>): Option<Meta> {
    if was.Some? && was.value.FileMeta? then was else None
  }

  /** What every path should hold in the end, as a function of the path. */
  ghost function Goal(t: Entry, cs: seq<TreeChange>): Wanted {
    p => Want(t, cs, p)
  }

  /** Something is there, and what is wanted there is the same kind of thing. */
  ghost predicate Kept(t: Entry, cs: seq<TreeChange>, p: Path) {
    Look(Some(t), p).Some? && Want(t, cs, p).Some? && SameKind(Look(Some(t), p).value, Want(t, cs, p).value)
  }

  /** The disk once the removals have run: what is kept is as it was, and nothing else is left. */
  ghost predicate Cleared(d: Disk, t: Entry, cs: seq<TreeChange>, d1: Disk) {
    && d1.staged == d.staged
    && (forall p :: p in d1.nodes <==> Kept(t, cs, p))
    && (forall p | p in d1.nodes :: p in d.nodes && d1.nodes[p] == d.nodes[p])
  }

  lemma RemovalsRun(hash: Hash, d: Disk, t: Entry, cs: seq<TreeChange>)
    requires WellFormed(d.nodes) && Holds(hash, d.nodes, t)
    requires Reconciled(t, cs) && AllAdmissible(t, cs)
    ensures var l := ChangesFrom(cs); var rs := l[..LeadingRemovals(l)]; var r := Run(d, rs);
            && WellFormed(r.0.nodes) && r.0.staged == d.staged
            && (forall i | 0 <= i < |rs| :: r.1[i] == Applied)
            && (forall q :: q in r.0.nodes <==> q in d.nodes && !CoveredBy(rs, q))
            && (forall q | q in r.0.nodes :: r.0.nodes[q] == d.nodes[q])
  {
    var l := ChangesFrom(cs);
    var rs := l[..LeadingRemovals(l)];
    forall c | c in rs ensures c.kind.Remove? && Reachable(c) && !Blocked(d.nodes, c.path) {
      RemovalFacts(t, cs, c);
      forall j | 0 <= j < |c.path| && c.path[..j] in d.nodes ensures d.nodes[c.path[..j]].DirNode? {
        AboveIsDirectory(Some(t), c.path[..j], c.path);
        assert MetaAt(hash, d.nodes, c.path[..j]) == Look(Some(t), c.path[..j]);
      }
    }
    RemovePhase(d, rs);
  }

  lemma CoveredOrKept(t: Entry, cs: seq<TreeChange>, p: Path)
    requires Reconciled(t, cs)
    ensures var l := ChangesFrom(cs); var rs := l[..LeadingRemovals(l)];
            Kept(t, cs, p) <==> Look(Some(t), p).Some? && !CoveredBy(rs, p)
  {
    var l := ChangesFrom(cs);
    var rs := l[..LeadingRemovals(l)];
    RemovalsFirst(cs);
    if Look(Some(t), p).Some? {
      if CoveredBy(rs, p) {
        var c :| c in rs && c.path <= p;
        assert c in l;
        CoveredIsReplaced(t, cs, p);
      } else {
        forall c | c in l && c.kind.Remove? ensures !(c.path <= p) {
          var i :| 0 <= i < |l| && l[i] == c;
          assert rs[i] == c;
        }
        UncoveredIsKept(t, cs, p);
      }
    }
  }

  lemma AfterRemovals(hash: Hash, d: Disk, t: Entry, cs: seq<TreeChange>)
    requires WellFormed(d.nodes) && Holds(hash, d.nodes, t) && Genuine(hash, d.staged)
    requires Reconciled(t, cs) && AllAdmissible(t, cs)
    ensures var l := ChangesFrom(cs); var r := Run(d, l[..LeadingRemovals(l)]);
            && Ready(hash, r.0, Goal(t, cs)) && Cleared(d, t, cs, r.0)
            && (forall i | 0 <= i < LeadingRemovals(l) :: r.1[i] == Applied)
  {
    var l := ChangesFrom(cs);
    var rs := l[..LeadingRemovals(l)];
    var d1 := Run(d, rs).0;
    RemovalsRun(hash, d, t, cs);
    WantClosed(t, cs);
    forall p ensures p in d1.nodes <==> Kept(t, cs, p) {
      assert MetaAt(hash, d.nodes, p) == Look(Some(t), p);
      CoveredOrKept(t, cs, p);
    }
    forall p | p in d1.nodes ensures Goal(t, cs)(p).Some? && SameKind(MetaOfNode(hash, d1.nodes[p]), Goal(t, cs)(p).value) {
      assert MetaAt(hash, d.nodes, p) == Look(Some(t), p);
      assert Kept(t, cs, p);
    }
  }

  lemma SucceedsSplit(staged: map<Digest, Bytes>, l: seq<Change>, k: nat, i: nat)
    requires k <= |l| && i < |l| && forall j | 0 <= j < k :: l[j].kind.Remove?
    ensures if i < k then Succeeds(staged, l, i) else Succeeds(staged, l, i) <==> Succeeds(staged, l[k..], i - k)
  {
    if k <= i && l[i].kind.CreateFile? {
      var g := l[i].kind.digest;
      assert l[k..][i - k] == l[i];
      if Succeeds(staged, l[k..], i - k) {
        forall j | 0 <= j < i ensures !Creates(l[j], g) {
          if k <= j { assert l[k..][j - k] == l[j]; }
        }
      }
    }
  }

  lemma RunSplit(d: Disk, l: seq<Change>, k: nat)
    requires k <= |l|
    ensures Run(d, l).0 == Run(Run(d, l[..k]).0, l[k..]).0
    ensures Run(d, l).1 == Run(d, l[..k]).1 + Run(Run(d, l[..k]).0, l[k..]).1
  {
    assert l == l[..k] + l[k..];
    RunConcat(d, l[..k], l[k..]);
  }

  /**
   * The exact outcome of diffing, sorting and executing, whatever is staged: every change applies
   * except a file whose content is not staged or was taken by an earlier file of the list, such a
   * file has no effect of its own, and every other path ends holding exactly what was wanted.
   */
  lemma ExactOutcome(hash: Hash, d: Disk, t: Entry, cs: seq<TreeChange>)
    requires WellFormed(d.nodes) && Holds(hash, d.nodes, t) && Genuine(hash, d.staged)
    requires Reconciled(t, cs) && AllAdmissible(t, cs)
    ensures var l := ChangesFrom(cs); var r := Run(d, l);
            && WellFormed(r.0.nodes) && Genuine(hash, r.0.staged)
            && (forall i | 0 <= i < |l| :: r.1[i] == if Succeeds(d.staged, l, i) then Applied else Failed(NotStaged))
            && (forall p :: MetaAt(hash, r.0.nodes, p) ==
                            if Missed(d.staged, l, p) then Leftover(Look(Some(t), p)) else Want(t, cs, p))
            && (forall n :: n in r.0.staged <==> n in d.staged && !Consumed(l, n))
  {
    var l := ChangesFrom(cs);
    var k := LeadingRemovals(l);
    var rs, ms := l[..k], l[k..];
    AfterRemovals(hash, d, t, cs);
    var d1 := Run(d, rs).0;
    CreationsRun(hash, d, t, cs, d1);
    RunSplit(d, l, k);
    var r := Run(d, l);
    OutcomesJoin(hash, d.staged, d1, l, k, Goal(t, cs), r.0, Run(d, rs).1, Run(d1, ms).1);
    PathOutcomes(hash, d, t, cs, d1, r.0);
  }

  lemma PathOutcomes(hash: Hash, d: Disk, t: Entry, cs: seq<TreeChange>, d1: Disk, d2: Disk)
    requires Holds(hash, d.nodes, t) && Reconciled(t, cs) && AllAdmissible(t, cs) && Cleared(d, t, cs, d1)
    requires var l := ChangesFrom(cs); var ms := l[LeadingRemovals(l)..];
             DistinctPaths(ms) && exists os :: PhaseDone(hash, d1, ms, Goal(t, cs), d2, os)
    ensures forall p :: MetaAt(hash, d2.nodes, p) ==
                        if Missed(d.staged, ChangesFrom(cs), p) then Leftover(Look(Some(t), p)) else Want(t, cs, p)
  {
    forall p ensures MetaAt(hash, d2.nodes, p) ==
                     if Missed(d.staged, ChangesFrom(cs), p) then Leftover(Look(Some(t), p)) else Want(t, cs, p)
    {
      PathOutcome(hash, d, t, cs, p, d1, d2);
    }
  }

  /** The outcomes of the removals and of the creations, put together. */
  lemma OutcomesJoin(hash: Hash, staged: map<Digest, Bytes>, d1: Disk, l: seq<Change>, k: nat, w: Wanted, d2: Disk,
                     removals: seq<Outcome>, creations: seq<Outcome>)
    requires k <= |l| == |removals| + |creations| && |removals| == k && d1.staged == staged
    requires forall i | 0 <= i < k :: l[i].kind.Remove? && removals[i] == Applied
    requires PhaseDone(hash, d1, l[k..], w, d2, creations)
    ensures forall i | 0 <= i < |l| :: (removals + creations)[i] == if Succeeds(staged, l, i) then Applied else Failed(NotStaged)
    ensures forall n :: n in d2.staged <==> n in staged && !Consumed(l, n)
  {
    var ms := l[k..];
    forall i | 0 <= i < |l| ensures (removals + creations)[i] == if Succeeds(staged, l, i) then Applied else Failed(NotStaged) {
      SucceedsSplit(staged, l, k, i);
    }
    assert l == l[..k] + ms;
    forall n ensures Consumed(l, n) <==> Consumed(ms, n) {
      if c :| c in l && Creates(c, n) { assert c in l[..k] || c in ms; }
      if c :| c in ms && Creates(c, n) { assert c in l; }
    }
  }

  lemma CreationMakeable(hash: Hash, d: Disk, t: Entry, cs: seq<TreeChange>, d1: Disk, c: Change)
    requires Holds(hash, d.nodes, t) && Reconciled(t, cs) && AllAdmissible(t, cs) && Cleared(d, t, cs, d1)
    requires c in ChangesFrom(cs) && !c.kind.Remove?
    ensures Makeable(hash, d1.nodes, Goal(t, cs), c)
  {
    CreationFacts(t, cs, c);
    if c.kind.SetExecutable? {
      assert MetaAt(hash, d.nodes, c.path) == Look(Some(t), c.path);
      assert Kept(t, cs, c.path);
      assert c.path in d1.nodes;
    }
  }

  lemma CreationsRun(hash: Hash, d: Disk, t: Entry, cs: seq<TreeChange>, d1: Disk)
    requires Holds(hash, d.nodes, t) && Reconciled(t, cs) && AllAdmissible(t, cs)
    requires Ready(hash, d1, Goal(t, cs)) && Cleared(d, t, cs, d1)
    ensures var l := ChangesFrom(cs); var ms := l[LeadingRemovals(l)..]; var r := Run(d1, ms);
            && DistinctPaths(ms) && Ready(hash, r.0, Goal(t, cs)) && PhaseDone(hash, d1, ms, Goal(t, cs), r.0, r.1)
  {
    var l := ChangesFrom(cs);
    var ms := l[LeadingRemovals(l)..];
    CreationsTail(cs);
    forall c | c in ms ensures Makeable(hash, d1.nodes, Goal(t, cs), c) {
      CreationMakeable(hash, d, t, cs, d1, c);
    }
    CreatePhase(hash, d1, ms, Goal(t, cs));
  }

  lemma CreationsTail(cs: seq<TreeChange>)
    requires NonNested(cs)
    ensures var l := ChangesFrom(cs); var ms := l[LeadingRemovals(l)..];
            DistinctPaths(ms) && forall c | c in ms :: c in l && !c.kind.Remove?
  {
    RemovalsFirst(cs);
    CreationsDistinct(cs);
    TailIsDistinct(ChangesFrom(cs), LeadingRemovals(ChangesFrom(cs)));
  }

  lemma TailIsDistinct(l: seq<Change>, k: nat)
    requires k <= |l| && forall i | k <= i < |l| :: !l[i].kind.Remove?
    requires forall i, j | 0 <= i < j < |l| && !l[i].kind.Remove? && !l[j].kind.Remove? :: l[i].path != l[j].path
    ensures DistinctPaths(l[k..]) && forall c | c in l[k..] :: c in l && !c.kind.Remove?
  {
    var ms := l[k..];
    forall i, j | 0 <= i < j < |ms| ensures ms[i].path != ms[j].path {
      assert ms[i] == l[k + i] && ms[j] == l[k + j];
    }
  }

  /** The final state of one path, from what the removals left and what the creations did. */
  lemma PathOutcome(hash: Hash, d: Disk, t: Entry, cs: seq<TreeChange>, p: Path, d1: Disk, d2: Disk)
    requires Holds(hash, d.nodes, t) && Reconciled(t, cs) && AllAdmissible(t, cs) && Cleared(d, t, cs, d1)
    requires var l := ChangesFrom(cs); var ms := l[LeadingRemovals(l)..];
             DistinctPaths(ms) && exists os :: PhaseDone(hash, d1, ms, Goal(t, cs), d2, os)
    ensures MetaAt(hash, d2.nodes, p) ==
            if Missed(d.staged, ChangesFrom(cs), p) then Leftover(Look(Some(t), p)) else Want(t, cs, p)
  {
    var l := ChangesFrom(cs);
    var k := LeadingRemovals(l);
    var ms := l[k..];
    assert MetaAt(hash, d.nodes, p) == Look(Some(t), p);
    if Missed(d.staged, l, p) {
      MissedOutcome(hash, d, t, cs, p, d1, d2);
    } else if SomeSuccessAt(d1.staged, ms, p) {
    } else {
      assert LeftAlone(d1.nodes, d2.nodes, Goal(t, cs), p);
      NothingToDo(d, t, cs, p);
      assert p in d1.nodes <==> Kept(t, cs, p);
    }
  }

  lemma MissedOutcome(hash: Hash, d: Disk, t: Entry, cs: seq<TreeChange>, p: Path, d1: Disk, d2: Disk)
    requires Holds(hash, d.nodes, t) && Reconciled(t, cs) && AllAdmissible(t, cs) && Cleared(d, t, cs, d1)
    requires var l := ChangesFrom(cs); var ms := l[LeadingRemovals(l)..];
             DistinctPaths(ms) && (!SomeSuccessAt(d.staged, ms, p) ==> LeftAlone(d1.nodes, d2.nodes, Goal(t, cs), p))
    requires Missed(d.staged, ChangesFrom(cs), p)
    ensures MetaAt(hash, d2.nodes, p) == Leftover(Look(Some(t), p))
  {
    var l := ChangesFrom(cs);
    var j := MissedFile(d.staged, l, LeadingRemovals(l), p);
    CreationFacts(t, cs, l[j]);
    assert MetaAt(hash, d.nodes, p) == Look(Some(t), p);
    assert p in d1.nodes <==> Kept(t, cs, p);
  }

  /** Where a file was missed nothing else is created. */
  lemma MissedFile(staged: map<Digest, Bytes>, l: seq<Change>, k: nat, p: Path) returns (j: nat)
    requires k <= |l| && (forall i | 0 <= i < k :: l[i].kind.Remove?) && DistinctPaths(l[k..]) && Missed(staged, l, p)
    ensures k <= j < |l| && l[j].path == p && l[j].kind.CreateFile? && !SomeSuccessAt(staged, l[k..], p)
  {
    var ms := l[k..];
    j :| 0 <= j < |l| && l[j].path == p && !Succeeds(staged, l, j);
    SucceedsSplit(staged, l, k, j);
    assert ms[j - k] == l[j];
    forall i | 0 <= i < |ms| && ms[i].path == p ensures !Succeeds(staged, ms, i) {
      OnePerPath(ms, i, j - k);
    }
  }

  lemma OnePerPath(ms: seq<Change>, i: nat, j: nat)
    requires DistinctPaths(ms) && i < |ms| && j < |ms| && ms[i].path == ms[j].path
    ensures i == j
  {}

  lemma NeitherMissedNorMade(staged: map<Digest, Bytes>, l: seq<Change>, k: nat, p: Path)
    requires k <= |l| && forall j | 0 <= j < k :: l[j].kind.Remove?
    requires !Missed(staged, l, p) && !SomeSuccessAt(staged, l[k..], p)
    ensures forall c | c in l && c.path == p :: c.kind.Remove?
  {
    forall j | 0 <= j < |l| && l[j].path == p ensures j < k {
      assert Succeeds(staged, l, j);
      if k <= j { MadeInTail(staged, l, k, j); }
    }
  }

  lemma MadeInTail(staged: map<Digest, Bytes>, l: seq<Change>, k: nat, j: nat)
    requires k <= j < |l| && Succeeds(staged, l, j) && forall i | 0 <= i < k :: l[i].kind.Remove?
    ensures SomeSuccessAt(staged, l[k..], l[j].path)
  {
    SucceedsSplit(staged, l, k, j);
    assert l[k..][j - k] == l[j];
  }

  /** A path no creation succeeds at and no file missed already holds what is wanted, or is to hold nothing. */
  lemma NothingToDo(d: Disk, t: Entry, cs: seq<TreeChange>, p: Path)
    requires Reconciled(t, cs)
    requires var l := ChangesFrom(cs); !Missed(d.staged, l, p) && !SomeSuccessAt(d.staged, l[LeadingRemovals(l)..], p)
    ensures Want(t, cs, p).Some? ==> Want(t, cs, p) == Look(Some(t), p)
  {
    var l := ChangesFrom(cs);
    NeitherMissedNorMade(d.staged, l, LeadingRemovals(l), p);
    if Want(t, cs, p).Some? && Want(t, cs, p) != Look(Some(t), p) {
      WantedIsCreated(t, cs, p);
    }
  }

  /** Every file of the list finds its content staged, and no two need the same. */
  ghost predicate FullyStaged(staged: map<Digest, Bytes>, l: seq<Change>) {
    && (forall c | c in l && c.kind.CreateFile? :: c.kind.digest in staged)
    && (forall i, j | 0 <= i < j < |l| && l[i].kind.CreateFile? && l[j].kind.CreateFile? :: l[i].kind.digest != l[j].kind.digest)
  }

  /** Meaning is preserved: fully staged, the run ends with exactly what was wanted, every change applied. */
  lemma MeaningPreserved(hash: Hash, d: Disk, t: Entry, cs: seq<TreeChange>)
    requires WellFormed(d.nodes) && Holds(hash, d.nodes, t) && Genuine(hash, d.staged)
    requires Reconciled(t, cs) && AllAdmissible(t, cs)
    requires FullyStaged(d.staged, ChangesFrom(cs))
    ensures var l := ChangesFrom(cs); var r := Run(d, l);
            && (forall i | 0 <= i < |l| :: r.1[i] == Applied)
            && (forall p :: MetaAt(hash, r.0.nodes, p) == Want(t, cs, p))
  {
    ExactOutcome(hash, d, t, cs);
    var l := ChangesFrom(cs);
    forall i | 0 <= i < |l| ensures Succeeds(d.staged, l, i) {
      assert l[i] in l;
    }
  }

  /** And only then: if every path ends as wanted, every file found its content. */
  lemma MeaningNeedsStaging(hash: Hash, d: Disk, t: Entry, cs: seq<TreeChange>)
    requires WellFormed(d.nodes) && Holds(hash, d.nodes, t) && Genuine(hash, d.staged)
    requires Reconciled(t, cs) && AllAdmissible(t, cs)
    requires forall p :: MetaAt(hash, Run(d, ChangesFrom(cs)).0.nodes, p) == Want(t, cs, p)
    ensures FullyStaged(d.staged, ChangesFrom(cs))
  {
    ExactOutcome(hash, d, t, cs);
    var l := ChangesFrom(cs);
    forall i | 0 <= i < |l| && l[i].kind.CreateFile? ensures Succeeds(d.staged, l, i) {
      if !Succeeds(d.staged, l, i) {
        assert Missed(d.staged, l, l[i].path);
        CreationFacts(t, cs, l[i]);
      }
    }
    forall i, j | 0 <= i < j < |l| && l[i].kind.CreateFile? && l[j].kind.CreateFile?
      ensures l[i].kind.digest != l[j].kind.digest
    {
      assert Succeeds(d.staged, l, j) && !Creates(l[i], l[j].kind.digest);
    }
  }
}
