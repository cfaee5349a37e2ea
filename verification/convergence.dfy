/** Repeating a pass toward a fixed tree reaches it, although each staged file can be used only once. */
module Convergence {
  import opened Lists
  import opened Entries
  import opened Changes
  import opened Splice
  import opened Reconcile
  import opened Tree
  import opened Execution
  import opened Meaning
  import opened Snapshot
  import opened Pass

  // ---- what has to be staged --------------------------------------------------------------------------

  function DigestSet(l: seq<Change>): (r: set<Digest>)
    ensures forall g :: g in r <==> Consumed(l, g)
  {
    set c | c in l && c.kind.CreateFile? :: c.kind.digest
  }

  /** The digests the files of a list need, each once, in order. */
  method DigestsNeeded(changes: seq<Change>) returns (digests: seq<Digest>)
    ensures digests == SortedNames(DigestSet(changes))
  {
    var seen: set<Digest> := {};
    for i := 0 to |changes|
      invariant seen == DigestSet(changes[..i])
    {
      assert changes[..i + 1] == changes[..i] + [changes[i]];
      if changes[i].kind.CreateFile? && changes[i].kind.digest !in seen {
        seen := seen + {changes[i].kind.digest};
      }
    }
    assert changes[..|changes|] == changes;
    digests := SortedNames(seen);
  }

  /** Content for every digest asked for. */
  type Supply = Digest -> Bytes

  /** The staging area once what it lacks has been supplied. */
  function Stage(staged: map<Digest, Bytes>, needed: set<Digest>, supply: Supply): map<Digest, Bytes> {
    map g | g in staged.Keys + needed :: if g in staged then staged[g] else supply(g)
  }

  // ---- one pass toward a target -----------------------------------------------------------------------

  function Toward(current: Entry, target: Entry): seq<TreeChange> {
    [TreeChange([], Some(current), Some(target))]
  }

  lemma TowardReconciled(current: Entry, target: Entry)
    requires current.Directory? && target.Directory?
    ensures Reconciled(current, Toward(current, target))
    ensures forall p :: Want(current, Toward(current, target), p) == Look(Some(target), p)
  {
    forall p ensures Want(current, Toward(current, target), p) == Look(Some(target), p) {
      assert [] <= p && p[0..] == p;
    }
  }

  /** A file of the target whose content the root does not have at its path. */
  ghost predicate Lacking(hash: Hash, nodes: Nodes, target: Entry, p: Path) {
    var wanted, held := Look(Some(target), p), MetaAt(hash, nodes, p);
    && wanted.Some? && wanted.value.FileMeta?
    && !(held.Some? && held.value.FileMeta? && held.value.digest == wanted.value.digest)
  }

  /** The files lacking a given content. */
  ghost function LackingOf(hash: Hash, nodes: Nodes, target: Entry, g: Digest): set<Path> {
    set p | p in Tracked(target) && Lacking(hash, nodes, target, p) && Look(Some(target), p).value.digest == g
  }

  ghost predicate Fit(hash: Hash, d: Disk, target: Entry, supply: Supply) {
    && PrintsHex(hash) && Workable(d.nodes) && Genuine(hash, d.staged)
    && target.Directory? && (forall p | Look(Some(target), p).Some? :: Admissible(p))
    && (forall p | Look(Some(target), p).Some? && Look(Some(target), p).value.FileMeta? ::
          hash(supply(Look(Some(target), p).value.digest)) == Look(Some(target), p).value.digest)
  }

  function PassList(scan: seq<Scanned>, target: Entry): seq<Change> {
    ChangesFrom(Toward(TreeOf(scan), target))
  }

  function StagedFor(d: Disk, scan: seq<Scanned>, target: Entry, supply: Supply): Disk {
    d.(staged := Stage(d.staged, DigestSet(PassList(scan, target)), supply))
  }

  /** Scan, flatten, stage what is missing, execute. */
  function OnePass(d: Disk, scan: seq<Scanned>, target: Entry, supply: Supply): Disk {
    Run(StagedFor(d, scan, target, supply), PassList(scan, target)).0
  }

  lemma ListFacts(hash: Hash, d: Disk, scan: seq<Scanned>, target: Entry, supply: Supply)
    requires Fit(hash, d, target, supply) && IsScan(hash, d.nodes, scan)
    ensures var t := TreeOf(scan); var cs := Toward(t, target);
            && t.Directory? && Holds(hash, d.nodes, t) && Reconciled(t, cs) && AllAdmissible(t, cs)
            && (forall p :: Want(t, cs, p) == Look(Some(target), p))
  {
    ScanGivesTree(hash, d.nodes, scan);
    var t := TreeOf(scan);
    TowardReconciled(t, target);
    forall p | Look(Some(t), p).Some? ensures Admissible(p) {
      assert MetaAt(hash, d.nodes, p) == Look(Some(t), p);
    }
  }

  /** The list creates a file exactly at the paths lacking their content. */
  lemma CreatesWhereLacking(hash: Hash, d: Disk, scan: seq<Scanned>, target: Entry, supply: Supply, p: Path, g: Digest)
    requires Fit(hash, d, target, supply) && IsScan(hash, d.nodes, scan)
    ensures (exists c :: c in PassList(scan, target) && c.path == p && Creates(c, g)) <==>
            Lacking(hash, d.nodes, target, p) && Look(Some(target), p).value.digest == g
  {
    ListFacts(hash, d, scan, target, supply);
    var t := TreeOf(scan);
    var cs := Toward(t, target);
    assert MetaAt(hash, d.nodes, p) == Look(Some(t), p);
    forall c | c in PassList(scan, target) && c.path == p && !c.kind.Remove?
      ensures c.kind.CreateFile? ==> Lacking(hash, d.nodes, target, p) && Look(Some(target), p).value.digest == c.kind.digest
      ensures Lacking(hash, d.nodes, target, p) ==> Creates(c, Look(Some(target), p).value.digest)
    {
      CreationFacts(t, cs, c);
    }
    if Lacking(hash, d.nodes, target, p) {
      WantedIsCreated(t, cs, p);
    }
  }

  lemma StagedIsGenuine(hash: Hash, d: Disk, scan: seq<Scanned>, target: Entry, supply: Supply)
    requires Fit(hash, d, target, supply) && IsScan(hash, d.nodes, scan)
    ensures Genuine(hash, StagedFor(d, scan, target, supply).staged)
  {
    var l := PassList(scan, target);
    forall g | g in DigestSet(l) ensures hash(supply(g)) == g {
      var c :| c in l && Creates(c, g);
      CreatesWhereLacking(hash, d, scan, target, supply, c.path, g);
    }
  }

  /** The first file of a list that needs a content gets it; the others that need it do not. */
  ghost predicate IsFirst(l: seq<Change>, p: Path, g: Digest) {
    exists i :: 0 <= i < |l| && l[i].path == p && Creates(l[i], g) && forall j | 0 <= j < i :: !Creates(l[j], g)
  }

  lemma {:induction false} FirstExists(l: seq<Change>, g: Digest)
    requires Consumed(l, g)
    ensures exists p :: IsFirst(l, p, g)
    ensures forall p, q | IsFirst(l, p, g) && IsFirst(l, q, g) :: p == q
  {
    var i := FirstIndex(l, g);
    assert IsFirst(l, l[i].path, g);
  }

  lemma FirstIndex(l: seq<Change>, g: Digest) returns (i: nat)
    requires Consumed(l, g)
    ensures i < |l| && Creates(l[i], g) && forall j | 0 <= j < i :: !Creates(l[j], g)
  {
    i := 0;
    var c :| c in l && Creates(c, g);
    var k :| 0 <= k < |l| && l[k] == c;
    while !Creates(l[i], g)
      invariant i <= k && forall j | 0 <= j < i :: !Creates(l[j], g)
      decreases k - i
    {
      i := i + 1;
    }
  }

  /** What a pass leaves: the target everywhere, but the files that came second to their content. */
  ghost predicate AllButLate(hash: Hash, nodes: Nodes, target: Entry) {
    forall p :: MetaAt(hash, nodes, p) ==
                if Lacking(hash, nodes, target, p) then Leftover(MetaAt(hash, nodes, p)) else Look(Some(target), p)
  }

  lemma PassOutcome(hash: Hash, d: Disk, scan: seq<Scanned>, target: Entry, supply: Supply)
    requires Fit(hash, d, target, supply) && IsScan(hash, d.nodes, scan)
    ensures var d' := OnePass(d, scan, target, supply);
            && Fit(hash, d', target, supply) && AllButLate(hash, d'.nodes, target)
            && (forall p :: Lacking(hash, d'.nodes, target, p) <==>
                            Lacking(hash, d.nodes, target, p) && !IsFirst(PassList(scan, target), p, Look(Some(target), p).value.digest))
  {
    ListFacts(hash, d, scan, target, supply);
    StagedIsGenuine(hash, d, scan, target, supply);
    var t, l, ds := TreeOf(scan), PassList(scan, target), StagedFor(d, scan, target, supply);
    var cs := Toward(t, target);
    ExactOutcome(hash, ds, t, cs);
    var d' := OnePass(d, scan, target, supply);
    forall p
      ensures Lacking(hash, d'.nodes, target, p) <==> Lacking(hash, d.nodes, target, p) && !IsFirst(l, p, Look(Some(target), p).value.digest)
      ensures MetaAt(hash, d'.nodes, p) ==
              if Lacking(hash, d'.nodes, target, p) then Leftover(MetaAt(hash, d'.nodes, p)) else Look(Some(target), p)
      ensures p in d'.nodes ==> Admissible(p)
    {
      assert MetaAt(hash, d.nodes, p) == Look(Some(t), p);
      MissedIsLate(hash, d, scan, target, supply, p);
    }
    assert MetaAt(hash, d'.nodes, []) == Look(Some(target), []);
  }

  lemma MissedIsLate(hash: Hash, d: Disk, scan: seq<Scanned>, target: Entry, supply: Supply, p: Path)
    requires Fit(hash, d, target, supply) && IsScan(hash, d.nodes, scan)
    ensures var l := PassList(scan, target);
            Missed(StagedFor(d, scan, target, supply).staged, l, p) <==>
            Lacking(hash, d.nodes, target, p) && !IsFirst(l, p, Look(Some(target), p).value.digest)
  {
    var staged := StagedFor(d, scan, target, supply).staged;
    if Missed(staged, PassList(scan, target), p) {
      MissedLacks(hash, d, scan, target, supply, staged, p);
    }
    if Lacking(hash, d.nodes, target, p) && !IsFirst(PassList(scan, target), p, Look(Some(target), p).value.digest) {
      LackingMisses(hash, d, scan, target, supply, staged, p);
    }
  }

  lemma MissedLacks(hash: Hash, d: Disk, scan: seq<Scanned>, target: Entry, supply: Supply, staged: map<Digest, Bytes>, p: Path)
    requires Fit(hash, d, target, supply) && IsScan(hash, d.nodes, scan) && DigestSet(PassList(scan, target)) <= staged.Keys
    requires Missed(staged, PassList(scan, target), p)
    ensures Lacking(hash, d.nodes, target, p) && !IsFirst(PassList(scan, target), p, Look(Some(target), p).value.digest)
  {
    var l := PassList(scan, target);
    var i :| 0 <= i < |l| && l[i].path == p && !Succeeds(staged, l, i);
    var g := l[i].kind.digest;
    assert l[i] in l && Creates(l[i], g);
    CreatesWhereLacking(hash, d, scan, target, supply, p, g);
    assert Consumed(l, g);
    FilesDistinct(TreeOf(scan), target, l, p);
    LateIsNotFirst(l, i, p, g);
  }

  lemma LackingMisses(hash: Hash, d: Disk, scan: seq<Scanned>, target: Entry, supply: Supply, staged: map<Digest, Bytes>, p: Path)
    requires Fit(hash, d, target, supply) && IsScan(hash, d.nodes, scan)
    requires Lacking(hash, d.nodes, target, p) && !IsFirst(PassList(scan, target), p, Look(Some(target), p).value.digest)
    ensures Missed(staged, PassList(scan, target), p)
  {
    var g := Look(Some(target), p).value.digest;
    var i := CreatingIndex(hash, d, scan, target, supply, p, g);
    NotFirstIsLate(staged, PassList(scan, target), i, p, g);
  }

  lemma CreatingIndex(hash: Hash, d: Disk, scan: seq<Scanned>, target: Entry, supply: Supply, p: Path, g: Digest) returns (i: nat)
    requires Fit(hash, d, target, supply) && IsScan(hash, d.nodes, scan)
    requires Lacking(hash, d.nodes, target, p) && Look(Some(target), p).value.digest == g
    ensures i < |PassList(scan, target)| && PassList(scan, target)[i].path == p && Creates(PassList(scan, target)[i], g)
  {
    CreatesWhereLacking(hash, d, scan, target, supply, p, g);
    i := IndexOf(PassList(scan, target), p, g);
  }

  lemma IndexOf(l: seq<Change>, p: Path, g: Digest) returns (i: nat)
    requires exists c :: c in l && c.path == p && Creates(c, g)
    ensures i < |l| && l[i].path == p && Creates(l[i], g)
  {
    var c :| c in l && c.path == p && Creates(c, g);
    i :| 0 <= i < |l| && l[i] == c;
  }

  lemma LateIsNotFirst(l: seq<Change>, i: nat, p: Path, g: Digest)
    requires i < |l| && l[i].path == p && Creates(l[i], g) && exists j :: 0 <= j < i && Creates(l[j], g)
    requires forall a, b | 0 <= a < |l| && 0 <= b < |l| && l[a].path == p == l[b].path && l[a].kind.CreateFile? && l[b].kind.CreateFile? :: a == b
    ensures !IsFirst(l, p, g)
  {}

  lemma NotFirstIsLate(staged: map<Digest, Bytes>, l: seq<Change>, i: nat, p: Path, g: Digest)
    requires i < |l| && l[i].path == p && Creates(l[i], g) && !IsFirst(l, p, g)
    ensures Missed(staged, l, p)
  {
    assert !Succeeds(staged, l, i);
  }

  lemma FilesDistinct(current: Entry, target: Entry, l: seq<Change>, p: Path)
    requires l == ChangesFrom(Toward(current, target))
    ensures forall i, j | 0 <= i < |l| && 0 <= j < |l| && l[i].path == p == l[j].path && l[i].kind.CreateFile? && l[j].kind.CreateFile? :: i == j
  {
    CreationsDistinct(Toward(current, target));
  }

  // ---- counting down ------------------------------------------------------------------------------------

  lemma PassShrinks(hash: Hash, d: Disk, scan: seq<Scanned>, target: Entry, supply: Supply, g: Digest)
    requires Fit(hash, d, target, supply) && IsScan(hash, d.nodes, scan)
    ensures var d', before := OnePass(d, scan, target, supply), LackingOf(hash, d.nodes, target, g);
            |LackingOf(hash, d'.nodes, target, g)| == if before == {} then 0 else |before| - 1
  {
    var d', l := OnePass(d, scan, target, supply), PassList(scan, target);
    var before, after := LackingOf(hash, d.nodes, target, g), LackingOf(hash, d'.nodes, target, g);
    PassOutcome(hash, d, scan, target, supply);
    if before == {} {
      NoneLeft(hash, d.nodes, d'.nodes, target, g);
    } else {
      var p :| p in before;
      var q := FirstLacking(hash, d, scan, target, supply, p, g);
      OneFewer(hash, d.nodes, d'.nodes, target, l, g, q);
    }
  }

  lemma NoneLeft(hash: Hash, before: Nodes, after: Nodes, target: Entry, g: Digest)
    requires forall p :: Lacking(hash, after, target, p) ==> Lacking(hash, before, target, p)
    requires LackingOf(hash, before, target, g) == {}
    ensures LackingOf(hash, after, target, g) == {}
  {
    forall p ensures p !in LackingOf(hash, after, target, g) {
      assert p !in LackingOf(hash, before, target, g);
    }
  }

  lemma OneFewer(hash: Hash, before: Nodes, after: Nodes, target: Entry, l: seq<Change>, g: Digest, q: Path)
    requires forall p :: Lacking(hash, after, target, p) <==>
                         Lacking(hash, before, target, p) && !IsFirst(l, p, Look(Some(target), p).value.digest)
    requires forall x :: IsFirst(l, x, g) <==> x == q
    ensures LackingOf(hash, after, target, g) == LackingOf(hash, before, target, g) - {q}
  {
    forall x ensures x in LackingOf(hash, after, target, g) <==> x in LackingOf(hash, before, target, g) && x != q {
      assert Lacking(hash, after, target, x) ==> Lacking(hash, before, target, x);
    }
  }

  lemma FirstLacking(hash: Hash, d: Disk, scan: seq<Scanned>, target: Entry, supply: Supply, p: Path, g: Digest) returns (q: Path)
    requires Fit(hash, d, target, supply) && IsScan(hash, d.nodes, scan) && p in LackingOf(hash, d.nodes, target, g)
    ensures q in LackingOf(hash, d.nodes, target, g)
    ensures forall x :: IsFirst(PassList(scan, target), x, g) <==> x == q
  {
    var l := PassList(scan, target);
    CreatesWhereLacking(hash, d, scan, target, supply, p, g);
    FirstExists(l, g);
    q :| IsFirst(l, q, g);
    CreatesWhereLacking(hash, d, scan, target, supply, q, g);
    assert Look(Some(target), []) == Some(DirectoryMeta);
  }

  /** A run of passes: each from a fresh scan of what the one before left. */
  ghost predicate Passes(hash: Hash, ds: seq<Disk>, scans: seq<seq<Scanned>>, target: Entry, supply: Supply) {
    && |ds| == |scans| + 1
    && forall i | 0 <= i < |scans| :: IsScan(hash, ds[i].nodes, scans[i]) && ds[i + 1] == OnePass(ds[i], scans[i], target, supply)
  }

  lemma {:induction false} AfterPasses(hash: Hash, ds: seq<Disk>, scans: seq<seq<Scanned>>, target: Entry, supply: Supply, k: nat, g: Digest)
    requires Passes(hash, ds, scans, target, supply) && Fit(hash, ds[0], target, supply) && k <= |scans|
    ensures Fit(hash, ds[k], target, supply) && (k > 0 ==> AllButLate(hash, ds[k].nodes, target))
    ensures var n := |LackingOf(hash, ds[0].nodes, target, g)|;
            |LackingOf(hash, ds[k].nodes, target, g)| == if n <= k then 0 else n - k
  {
    if k > 0 {
      AfterPasses(hash, ds, scans, target, supply, k - 1, g);
      PassOutcome(hash, ds[k - 1], scans[k - 1], target, supply);
      PassShrinks(hash, ds[k - 1], scans[k - 1], target, supply, g);
    }
  }

  lemma HoldsWhenNothingLacks(hash: Hash, nodes: Nodes, target: Entry)
    requires target.Directory? && AllButLate(hash, nodes, target)
    ensures Holds(hash, nodes, target) <==> forall g :: LackingOf(hash, nodes, target, g) == {}
  {
    if forall g :: LackingOf(hash, nodes, target, g) == {} {
      forall p ensures MetaAt(hash, nodes, p) == Look(Some(target), p) {
        assert Look(Some(target), []) == Some(DirectoryMeta);
        assert Lacking(hash, nodes, target, p) <==>
               Look(Some(target), p).Some? && Look(Some(target), p).value.FileMeta? &&
               p in LackingOf(hash, nodes, target, Look(Some(target), p).value.digest);
      }
    }
    if Holds(hash, nodes, target) {
      forall p ensures !Lacking(hash, nodes, target, p) {
        assert MetaAt(hash, nodes, p) == Look(Some(target), p);
      }
    }
  }

  /**
   * Convergence, and exactly when: after n > 0 passes the root holds the target if and only if no
   * content was lacked by more than n files at the start.
   */
  lemma Converges(hash: Hash, ds: seq<Disk>, scans: seq<seq<Scanned>>, target: Entry, supply: Supply)
    requires Passes(hash, ds, scans, target, supply) && Fit(hash, ds[0], target, supply) && |scans| > 0
    ensures Holds(hash, ds[|scans|].nodes, target) <==>
            forall g :: |LackingOf(hash, ds[0].nodes, target, g)| <= |scans|
  {
    var n := |scans|;
    AfterPasses(hash, ds, scans, target, supply, n, "");
    HoldsWhenNothingLacks(hash, ds[n].nodes, target);
    forall g ensures LackingOf(hash, ds[n].nodes, target, g) == {} <==> |LackingOf(hash, ds[0].nodes, target, g)| <= n {
      AfterPasses(hash, ds, scans, target, supply, n, g);
    }
  }

  /** After the first pass only files are left to create. */
  lemma OnlyFilesRemain(hash: Hash, d: Disk, scan: seq<Scanned>, target: Entry, supply: Supply, c: Change)
    requires Fit(hash, d, target, supply) && IsScan(hash, d.nodes, scan) && AllButLate(hash, d.nodes, target)
    requires c in PassList(scan, target)
    ensures c.kind.CreateFile?
  {
    ListFacts(hash, d, scan, target, supply);
    var t := TreeOf(scan);
    assert MetaAt(hash, d.nodes, c.path) == Look(Some(t), c.path);
    if c.kind.Remove? {
      LeftoversStay(t, target, c);
    } else {
      CreationFacts(t, Toward(t, target), c);
    }
  }

  /** A removal is of something the target has as another kind of thing, or not at all. */
  lemma LeftoversStay(t: Entry, target: Entry, c: Change)
    requires Reconciled(t, Toward(t, target)) && AllAdmissible(t, Toward(t, target))
    requires c in ChangesFrom(Toward(t, target)) && c.kind.Remove?
    requires forall p :: Want(t, Toward(t, target), p) == Look(Some(target), p)
    ensures var was, wanted := Look(Some(t), c.path), Look(Some(target), c.path);
            was.Some? && (wanted.None? || !SameKind(was.value, wanted.value))
  {
    RemovalFacts(t, Toward(t, target), c);
    CoveredIsReplaced(t, Toward(t, target), c.path);
  }
}
