/** One cycle of a session, run start to end on a local and a remote root. */
module Cycle {
  import opened Lists
  import opened Entries
  import opened Changes
  import opened Splice
  import opened Reconcile
  import opened Tree
  import opened Execution
  import opened Meaning
  import opened Snapshot
  import opened Agreement
  import opened Ancestor
  import opened Pass
  import opened Convergence
  import opened Staging
  import opened Trash
  import Undelete
  import opened Guard
  import Merge

  datatype HaltReason = RootReplaced | ContentLost | SandboxGone | VersionGap

  datatype ErrorCode = ProtocolVersion | RootOutsideWorkspace | RootInvalid | NoSpace | Internal

  /** A durable stop, or a failure to retry. */
  datatype Verdict = Halt(reason: HaltReason) | Retry

  /** What an endpoint's error means for the session. */
  function Classify(code: ErrorCode): Verdict {
    match code
    case ProtocolVersion => Halt(VersionGap)
    case RootOutsideWorkspace => Halt(RootReplaced)
    case RootInvalid => Halt(RootReplaced)
    case _ => Retry
  }

  /** What a refusal must come to: an old binary and a wrong root halt the session, and nothing else does. */
  predicate Deserves(code: ErrorCode, verdict: Verdict) {
    && (verdict == Halt(VersionGap) <==> code.ProtocolVersion?)
    && (verdict == Halt(RootReplaced) <==> code.RootOutsideWorkspace? || code.RootInvalid?)
    && (verdict == Retry <==> code.NoSpace? || code.Internal?)
  }

  /** How an endpoint refuses to supply a file, if it does: one that moved or changed since the scan is an invalid root. */
  function Refusal(hash: Hash, nodes: Nodes, p: Path, digest: Digest): Option<ErrorCode> {
    if p !in nodes || nodes[p].LinkNode? then Some(RootInvalid)
    else if nodes[p].DirNode? then Some(Internal)
    else if hash(nodes[p].content) != digest then Some(RootInvalid)
    else None
  }

  /** What not getting a file of the sandbox comes to: a halt where it moved or changed, another try where it cannot be read. */
  predicate NotSupplied(hash: Hash, source: Nodes, c: Change, verdict: Verdict) {
    && c.kind.CreateFile?
    && (verdict == Halt(RootReplaced) <==>
          c.path !in source || source[c.path].LinkNode? || (source[c.path].FileNode? && hash(source[c.path].content) != c.kind.digest))
    && (verdict == Retry <==> c.path in source && source[c.path].DirNode?)
    && (verdict == Halt(RootReplaced) || verdict == Retry)
  }

  /** How many changes each side was sent, and the paths in conflict. */
  datatype Outcome = Outcome(appliedLocal: nat, appliedRemote: nat, conflicts: seq<Path>)

  /** A cycle's end; a completed one is told with the two scans it made. */
  datatype CycleEnd = Completed(local: seq<Scanned>, remote: seq<Scanned>, outcome: Outcome) | Stopped(verdict: Verdict)

  /** What a request to the sandbox came to. */
  datatype Reply = Answered | Refused(code: ErrorCode) | Unreachable

  // ---- what a cycle can count on -----------------------------------------------------------------------

  /** Every file of the list can be read at its own path on the other side. */
  ghost predicate Available(hash: Hash, source: Nodes, l: seq<Change>) {
    forall c | c in l && c.kind.CreateFile? ::
      c.path in source && source[c.path].FileNode? && hash(source[c.path].content) == c.kind.digest
  }

  /** A file of the list that needs content an earlier one has taken. */
  ghost predicate Late(l: seq<Change>, p: Path) {
    exists i, j :: 0 <= j < i < |l| && l[i].path == p && l[i].kind.CreateFile? && Creates(l[j], l[i].kind.digest)
  }

  /** What a side ends with: what was wanted, but at late files what there was. */
  ghost predicate Reached(hash: Hash, before: Nodes, after: Nodes, t: Entry, cs: seq<TreeChange>) {
    forall p :: MetaAt(hash, after, p) == if Late(ChangesFrom(cs), p) then Leftover(MetaAt(hash, before, p)) else Want(t, cs, p)
  }

  lemma RunReaches(hash: Hash, d: Disk, t: Entry, cs: seq<TreeChange>)
    requires WellFormed(d.nodes) && Holds(hash, d.nodes, t) && Genuine(hash, d.staged) && Reconciled(t, cs) && AllAdmissible(t, cs)
    requires DigestSet(ChangesFrom(cs)) <= d.staged.Keys
    ensures var r := Run(d, ChangesFrom(cs)).0;
            InShape(hash, r) && Reached(hash, d.nodes, r.nodes, t, cs)
  {
    ExactOutcome(hash, d, t, cs);
    var l := ChangesFrom(cs);
    forall p ensures Missed(d.staged, l, p) <==> Late(l, p) {
      MissedIffLate(d.staged, l, p);
      assert MetaAt(hash, d.nodes, p) == Look(Some(t), p);
    }
    forall p ensures MetaAt(hash, d.nodes, p) == Look(Some(t), p) {}
    ReachedIsWorkable(hash, d.nodes, Run(d, l).0.nodes, t, cs);
  }

  ghost predicate IsFile(m: Option<Meta>) {
    m.Some? && m.value.FileMeta?
  }

  /** A root that reached what was wanted of it can be worked on. */
  lemma ReachedIsWorkable(hash: Hash, before: Nodes, after: Nodes, t: Entry, cs: seq<TreeChange>)
    requires Holds(hash, before, t) && Reconciled(t, cs) && AllAdmissible(t, cs) && Reached(hash, before, after, t, cs)
    ensures Workable(after)
  {
    WantClosed(t, cs);
    forall p | p == [] || p in after
      ensures p in after && Admissible(p) && Parent(p) in after && after[Parent(p)].DirNode?
    {
      NotLateAbove(hash, before, after, t, cs, p);
    }
    assert Parent([]) == [];
  }

  lemma NotLateAbove(hash: Hash, before: Nodes, after: Nodes, t: Entry, cs: seq<TreeChange>, p: Path)
    requires Holds(hash, before, t) && Reconciled(t, cs) && AllAdmissible(t, cs) && Reached(hash, before, after, t, cs)
    requires Closed(Goal(t, cs)) && (p == [] || p in after)
    ensures Want(t, cs, p).Some? && MetaAt(hash, after, Parent(p)) == Some(DirectoryMeta)
    ensures p == [] ==> p in after
  {
    var l := ChangesFrom(cs);
    assert MetaAt(hash, after, p) == if Late(l, p) then Leftover(MetaAt(hash, before, p)) else Want(t, cs, p);
    if Late(l, p) { LateIsFile(t, cs, p); }
    assert Goal(t, cs)(p) == Want(t, cs, p) && Goal(t, cs)(Parent(p)) == Want(t, cs, Parent(p));
    if Late(l, Parent(p)) { LateIsFile(t, cs, Parent(p)); }
    assert MetaAt(hash, after, Parent(p)) == if Late(l, Parent(p)) then Leftover(MetaAt(hash, before, Parent(p))) else Want(t, cs, Parent(p));
  }

  lemma LateIsFile(t: Entry, cs: seq<TreeChange>, p: Path)
    requires Reconciled(t, cs) && AllAdmissible(t, cs) && Late(ChangesFrom(cs), p)
    ensures IsFile(Want(t, cs, p)) && Want(t, cs, p) != Look(Some(t), p)
  {
    var l := ChangesFrom(cs);
    var i :| 0 <= i < |l| && l[i].path == p && l[i].kind.CreateFile?;
    CreationFacts(t, cs, l[i]);
  }

  lemma MissedIffLate(staged: map<Digest, Bytes>, l: seq<Change>, p: Path)
    requires DigestSet(l) <= staged.Keys
    ensures Missed(staged, l, p) <==> Late(l, p)
  {
    if Missed(staged, l, p) {
      var i :| 0 <= i < |l| && l[i].path == p && !Succeeds(staged, l, i);
      assert l[i] in l && Creates(l[i], l[i].kind.digest);
      assert Consumed(l, l[i].kind.digest);
    }
    if Late(l, p) {
      var i, j :| 0 <= j < i < |l| && l[i].path == p && l[i].kind.CreateFile? && Creates(l[j], l[i].kind.digest);
      assert !Succeeds(staged, l, i);
    }
  }

  /** Content one side is to create is there to be read on the other. */
  lemma MovedIsAvailable(hash: Hash, anc: Option<Entry>, alpha: Entry, beta: Entry, to: Merge.Ruling, loser: Nodes, winner: Nodes)
    requires alpha.Directory? && beta.Directory? && (to.ToAlpha? || to.ToBeta?)
    requires var cs := Merge.Side(Merge.Reconcile([], anc, Some(alpha), Some(beta)), to);
             var t := Loser(alpha, beta, to);
             Reconciled(t, cs) && AllAdmissible(t, cs)
    requires forall p | Fate(anc, Some(alpha), Some(beta), p) == to :: MetaAt(hash, winner, p) == Look(Some(Winner(alpha, beta, to)), p)
    ensures Available(hash, winner, ChangesFrom(Merge.Side(Merge.Reconcile([], anc, Some(alpha), Some(beta)), to)))
  {
    var cs := Merge.Side(Merge.Reconcile([], anc, Some(alpha), Some(beta)), to);
    var t := Loser(alpha, beta, to);
    forall c | c in ChangesFrom(cs) && c.kind.CreateFile?
      ensures c.path in winner && winner[c.path].FileNode? && hash(winner[c.path].content) == c.kind.digest
    {
      CreationFacts(t, cs, c);
      SideWant(anc, alpha, beta, to, c.path);
      assert MetaAt(hash, winner, c.path) == Look(Some(Winner(alpha, beta, to)), c.path);
    }
  }

  /** The side that is changed first keeps, where it wins, what it had. */
  lemma WinnerKeepsItsOwn(hash: Hash, anc: Option<Entry>, alpha: Entry, beta: Entry, before: Nodes, after: Nodes, p: Path)
    requires alpha.Directory? && beta.Directory? && Holds(hash, before, beta)
    requires var cs := Merge.Reconcile([], anc, Some(alpha), Some(beta)).beta;
             Reconciled(beta, cs) && AllAdmissible(beta, cs) && Reached(hash, before, after, beta, cs)
    requires Fate(anc, Some(alpha), Some(beta), p) == Merge.ToAlpha
    ensures MetaAt(hash, after, p) == Look(Some(beta), p)
  {
    var plan := Merge.Reconcile([], anc, Some(alpha), Some(beta));
    assert Merge.Side(plan, Merge.ToBeta) == plan.beta;
    SideWant(anc, alpha, beta, Merge.ToBeta, p);
    if Late(ChangesFrom(plan.beta), p) {
      var i :| 0 <= i < |ChangesFrom(plan.beta)| && ChangesFrom(plan.beta)[i].path == p && ChangesFrom(plan.beta)[i].kind.CreateFile?;
      CreationFacts(beta, plan.beta, ChangesFrom(plan.beta)[i]);
    }
  }

  /** The last change of a list to name a digest. */
  ghost predicate LastNamed(l: seq<Change>, g: Digest, i: int) {
    0 <= i < |l| && Creates(l[i], g) && forall j | i < j < |l| :: !Creates(l[j], g)
  }

  /** Each digest a list creates, with the path of the last change to create it. */
  ghost predicate NamesLast(byDigest: map<Digest, Path>, l: seq<Change>) {
    byDigest.Keys == DigestSet(l) && forall g | g in byDigest :: exists i :: LastNamed(l, g, i) && l[i].path == byDigest[g]
  }

  lemma NamesOneMore(byDigest: map<Digest, Path>, changes: seq<Change>, i: nat)
    requires i < |changes| && NamesLast(byDigest, changes[..i])
    ensures var c := changes[i]; NamesLast(if c.kind.CreateFile? then byDigest[c.kind.digest := c.path] else byDigest, changes[..i + 1])
  {
    var l, c := changes[..i + 1], changes[i];
    assert l == changes[..i] + [c];
    var more := if c.kind.CreateFile? then byDigest[c.kind.digest := c.path] else byDigest;
    forall g | g in more ensures exists k :: LastNamed(l, g, k) && l[k].path == more[g] {
      if Creates(c, g) {
        assert LastNamed(l, g, i);
      } else {
        var k :| LastNamed(changes[..i], g, k) && changes[..i][k].path == byDigest[g];
        assert LastNamed(l, g, k);
      }
    }
  }

  /** A local file that cannot be sent as what it was listed for: it has become a directory, or other content. */
  predicate Unsendable(hash: Hash, source: Nodes, p: Path, digest: Digest) {
    p in source && (source[p].DirNode? || (source[p].FileNode? && hash(source[p].content) != digest))
  }

  /** A local file that is no longer there to be sent. */
  predicate Gone(source: Nodes, p: Path) {
    p !in source || source[p].LinkNode?
  }

  /** Everything that was staged still is. */
  ghost predicate Grown(before: map<Digest, Bytes>, after: map<Digest, Bytes>) {
    forall g | g in before :: g in after && after[g] == before[g]
  }

  /** Every named file is there, with the content it is named for. */
  ghost predicate Offered(hash: Hash, source: Nodes, byDigest: map<Digest, Path>) {
    forall g | g in byDigest ::
      byDigest[g] in source && source[byDigest[g]].FileNode? && hash(source[byDigest[g]].content) == g
  }

  lemma NamedAreReadable(hash: Hash, source: Nodes, changes: seq<Change>, byDigest: map<Digest, Path>)
    requires forall g | g in byDigest :: exists c :: c in changes && Creates(c, g) && c.path == byDigest[g]
    ensures Available(hash, source, changes) ==> Offered(hash, source, byDigest)
  {}

  /** The times of day the trashing calls of one cycle see. */
  function Times(clock: nat -> Name, n: nat): (r: seq<Name>)
    ensures |r| == n
  {
    seq(n, i requires i >= 0 => clock(i))
  }

  // ---- what a cycle comes to ---------------------------------------------------------------------------

  /** A trash in which nothing was put at any of these times. */
  ghost predicate Unused(trash: Nodes, clock: nat -> Name) {
    WellFormed(trash) && forall i :: [clock(i)] !in trash
  }

  /** A root sync can work on, and staged content that is what its names say. */
  ghost predicate InShape(hash: Hash, d: Disk) {
    Workable(d.nodes) && Genuine(hash, d.staged)
  }

  /** Both sides in shape, and a trash not yet used at these times. */
  ghost predicate InOrder(hash: Hash, local: Disk, remote: Disk, trash: Nodes, clock: nat -> Name) {
    PrintsHex(hash) && InShape(hash, local) && InShape(hash, remote) && Unused(trash, clock)
  }

  /** Two roots that differ, with content staged, can be in order. */
  lemma InOrderHappens(hash: Hash, clock: nat -> Name, content: Bytes)
    requires (forall b :: hash(b) == "00") && forall i :: clock(i) == "now"
    ensures InOrder(hash, Disk(map[[] := DirNode, ["a"] := FileNode(content, false)], map[]),
                    Disk(map[[] := DirNode], map["00" := content]), map[], clock)
  {
    var s, local := "00", map[[] := DirNode, ["a"] := FileNode(content, false)];
    assert HexText(s) && Lowered(s) == s;
    assert Parent(["a"]) == [];
    assert Admissible(["a"]) by { assert ["a"][0] != STATE_DIR_NAME; }
    assert forall p | p in local :: p == [] || p == ["a"];
  }

  /** What the outside world answers during one cycle. */
  datatype World = World(found: Option<nat>, greeting: Reply, localScans: bool, remoteScan: Reply, clock: nat -> Name, sameDevice: bool)

  /** The clock told this time. */
  ghost predicate Told(clock: nat -> Name, n: Name) {
    exists i :: clock(i) == n
  }

  /**
   * What a cycle's local removals left in the trash: their content where renames work, nothing where they fail, and all
   * that is new under the times the clock told.
   */
  ghost predicate Sheltering(s: Local, l: seq<Change>, w: World, trash: Nodes) {
    && (forall q | q in trash :: q in s.trash || q == [] || Told(w.clock, q[0]))
    && exists r: Local :: r.trash == trash &&
         if w.sameDevice then Trashed(s, l, Times(w.clock, |l|), r) else Unsheltered(s, r)
  }

  ghost predicate Scans(hash: Hash, local: Nodes, remote: Nodes, ls: seq<Scanned>, rs: seq<Scanned>) {
    && PrintsHex(hash) && Workable(local) && Workable(remote)
    && IsScan(hash, local, ls) && IsScan(hash, remote, rs)
  }

  function Merged(anc: Option<Entry>, ls: seq<Scanned>, rs: seq<Scanned>): Merge.Plan {
    Merge.Reconcile([], anc, Some(TreeOf(ls)), Some(TreeOf(rs)))
  }

  /** What a completed cycle has done to both roots, from the two scans it made. */
  ghost predicate Synced(hash: Hash, anc: Option<Entry>, l0: Nodes, r0: Nodes, l1: Nodes, r1: Nodes, ls: seq<Scanned>, rs: seq<Scanned>) {
    && IsScan(hash, l0, ls) && IsScan(hash, r0, rs)
    && Reached(hash, l0, l1, TreeOf(ls), Merged(anc, ls, rs).alpha)
    && Reached(hash, r0, r1, TreeOf(rs), Merged(anc, ls, rs).beta)
  }

  lemma MergeFacts(hash: Hash, local: Nodes, remote: Nodes, anc: Option<Entry>, ls: seq<Scanned>, rs: seq<Scanned>)
    requires Scans(hash, local, remote, ls, rs)
    ensures var alpha, beta, plan := TreeOf(ls), TreeOf(rs), Merged(anc, ls, rs);
            && alpha.Directory? && beta.Directory? && Holds(hash, local, alpha) && Holds(hash, remote, beta)
            && Reconciled(alpha, plan.alpha) && AllAdmissible(alpha, plan.alpha)
            && Reconciled(beta, plan.beta) && AllAdmissible(beta, plan.beta)
            && Merge.Side(plan, Merge.ToAlpha) == plan.alpha && Merge.Side(plan, Merge.ToBeta) == plan.beta
  {
    ScanGivesTree(hash, local, ls);
    ScanGivesTree(hash, remote, rs);
    Merge.MergeIsReconciled(anc, TreeOf(ls), TreeOf(rs));
    WorkableIsAdmissible(hash, local, TreeOf(ls));
    WorkableIsAdmissible(hash, remote, TreeOf(rs));
    MergeAdmissible(anc, TreeOf(ls), TreeOf(rs));
  }

  /** What the sandbox needs can be read locally. */
  lemma RemoteReady(hash: Hash, local: Nodes, remote: Nodes, anc: Option<Entry>, ls: seq<Scanned>, rs: seq<Scanned>)
    requires Scans(hash, local, remote, ls, rs)
    ensures Available(hash, local, ChangesFrom(Merged(anc, ls, rs).beta))
  {
    MergeFacts(hash, local, remote, anc, ls, rs);
    var alpha, beta := TreeOf(ls), TreeOf(rs);
    forall p | Fate(anc, Some(alpha), Some(beta), p) == Merge.ToBeta ensures MetaAt(hash, local, p) == Look(Some(alpha), p) {}
    MovedIsAvailable(hash, anc, alpha, beta, Merge.ToBeta, remote, local);
  }

  /** What the local side needs can still be read in the sandbox once that has been changed. */
  lemma LocalReady(hash: Hash, local: Nodes, remote: Nodes, changed: Nodes, anc: Option<Entry>, ls: seq<Scanned>, rs: seq<Scanned>)
    requires Scans(hash, local, remote, ls, rs)
    requires Reached(hash, remote, changed, TreeOf(rs), Merged(anc, ls, rs).beta)
    ensures Available(hash, changed, ChangesFrom(Merged(anc, ls, rs).alpha))
  {
    MergeFacts(hash, local, remote, anc, ls, rs);
    var alpha, beta := TreeOf(ls), TreeOf(rs);
    forall p | Fate(anc, Some(alpha), Some(beta), p) == Merge.ToAlpha ensures MetaAt(hash, changed, p) == Look(Some(beta), p) {
      WinnerKeepsItsOwn(hash, anc, alpha, beta, remote, changed, p);
    }
    MovedIsAvailable(hash, anc, alpha, beta, Merge.ToAlpha, local, changed);
  }

  lemma RemoteReaches(hash: Hash, local: Nodes, remote: Disk, anc: Option<Entry>, ls: seq<Scanned>, rs: seq<Scanned>)
    requires Scans(hash, local, remote.nodes, ls, rs) && Genuine(hash, remote.staged)
    requires DigestSet(ChangesFrom(Merged(anc, ls, rs).beta)) <= remote.staged.Keys
    ensures var r := Run(remote, ChangesFrom(Merged(anc, ls, rs).beta)).0;
            InShape(hash, r) && Reached(hash, remote.nodes, r.nodes, TreeOf(rs), Merged(anc, ls, rs).beta)
  {
    MergeFacts(hash, local, remote.nodes, anc, ls, rs);
    RunReaches(hash, remote, TreeOf(rs), Merged(anc, ls, rs).beta);
  }

  /** The local apply: trashing works under fresh stamps, and whether or not renames do, the root ends the same. */
  lemma LocalReaches(hash: Hash, local: Disk, remote: Nodes, trash: Nodes, anc: Option<Entry>, ls: seq<Scanned>, rs: seq<Scanned>,
                     w: World)
    requires Scans(hash, local.nodes, remote, ls, rs) && Genuine(hash, local.staged)
    requires Unused(trash, w.clock)
    requires DigestSet(ChangesFrom(Merged(anc, ls, rs).alpha)) <= local.staged.Keys
    ensures var l := ChangesFrom(Merged(anc, ls, rs).alpha);
            var r := TrashAll(Local(local.nodes, trash), l, Times(w.clock, |l|), w.sameDevice);
            && r.Some? && Sheltering(Local(local.nodes, trash), l, w, r.value.trash)
            && InShape(hash, Run(Disk(r.value.nodes, local.staged), l).0)
            && Reached(hash, local.nodes, Run(Disk(r.value.nodes, local.staged), l).0.nodes, TreeOf(ls), Merged(anc, ls, rs).alpha)
  {
    MergeFacts(hash, local.nodes, remote, anc, ls, rs);
    RunReaches(hash, local, TreeOf(ls), Merged(anc, ls, rs).alpha);
    TrashingReaches(hash, local, trash, TreeOf(ls), Merged(anc, ls, rs).alpha, w);
  }

  lemma TrashingReaches(hash: Hash, local: Disk, trash: Nodes, t: Entry, cs: seq<TreeChange>, w: World)
    requires WellFormed(local.nodes) && Holds(hash, local.nodes, t) && Reconciled(t, cs) && AllAdmissible(t, cs)
    requires Unused(trash, w.clock)
    ensures var l := ChangesFrom(cs);
            var r := TrashAll(Local(local.nodes, trash), l, Times(w.clock, |l|), w.sameDevice);
            && r.Some? && Sheltering(Local(local.nodes, trash), l, w, r.value.trash)
            && Run(Disk(r.value.nodes, local.staged), l).0 == Run(local, l).0
  {
    var stamps := Times(w.clock, |ChangesFrom(cs)|);
    if w.sameDevice {
      Undelete.TrashThenRun(hash, local, trash, t, cs, stamps);
    } else {
      NoneUnderStamps(trash, stamps);
      FailedRenamesShelterNothing(Local(local.nodes, trash), ChangesFrom(cs), stamps);
    }
    TrashedUnderClock(Local(local.nodes, trash), ChangesFrom(cs), w);
  }

  lemma TrashedUnderClock(s: Local, l: seq<Change>, w: World)
    requires TrashAll(s, l, Times(w.clock, |l|), w.sameDevice).Some?
    ensures forall q | q in TrashAll(s, l, Times(w.clock, |l|), w.sameDevice).value.trash :: q in s.trash || q == [] || Told(w.clock, q[0])
  {
    var stamps := Times(w.clock, |l|);
    TrashAllStamps(s, l, stamps, w.sameDevice);
    forall n | n in stamps ensures Told(w.clock, n) {
      var i: nat :| i < |stamps| && stamps[i] == n;
      assert w.clock(i) == n;
    }
  }

  lemma NoneUnderStamps(trash: Nodes, stamps: seq<Name>)
    requires WellFormed(trash) && forall s | s in stamps :: [s] !in trash
    ensures forall q | q in trash && q != [] :: q[0] !in stamps
  {
    forall q | q in trash && q != [] ensures q[0] !in stamps {
      assert [q[0]] <= q;
      WellFormedPrefix(trash, [q[0]], q);
    }
  }

  /**
   * A synced cycle leaves both roots agreeing at every path but clashes, having lost nothing the ancestor did not
   * hold; only files whose content an earlier file took are left, on their side, as they were.
   */
  lemma SyncedAgrees(hash: Hash, anc: Option<Entry>, l0: Nodes, r0: Nodes, l1: Nodes, r1: Nodes, ls: seq<Scanned>, rs: seq<Scanned>, p: Path)
    requires Scans(hash, l0, r0, ls, rs) && Synced(hash, anc, l0, r0, l1, r1, ls, rs)
    requires !Late(PlanPass(anc, ls, rs).toLocal, p) && !Late(PlanPass(anc, ls, rs).toRemote, p)
    ensures PathAgrees(hash, l0, r0, l1, r1, anc, TreeOf(ls), TreeOf(rs), p)
  {
    MergeFacts(hash, l0, r0, anc, ls, rs);
    MergeAgrees(anc, TreeOf(ls), TreeOf(rs), p);
    assert MetaAt(hash, l0, p) == Look(Some(TreeOf(ls)), p);
    assert MetaAt(hash, r0, p) == Look(Some(TreeOf(rs)), p);
  }

  /** The local root is still the directory the session was made for, as far as that was recorded. */
  predicate Stands(inode: nat, found: Option<nat>) {
    found.Some? && (inode == 0 || found.value == inode)
  }

  /** What stops a cycle before anything is scanned. */
  function Barrier(id: string, inode: nat, marker: string, found: Option<nat>, greeting: Reply): Option<Verdict> {
    if found.None? || (inode != 0 && found.value != inode) then Some(Halt(RootReplaced))
    else if greeting.Refused? then Some(Classify(greeting.code))
    else if greeting.Unreachable? then Some(Retry)
    else if marker != "" && marker != id then Some(Halt(RootReplaced))
    else None
  }

  /** A scan that fails. */
  function ScanFailure(localScans: bool, remoteScan: Reply): Option<Verdict> {
    if !localScans || remoteScan.Unreachable? then Some(Retry)
    else if remoteScan.Refused? then Some(Classify(remoteScan.code))
    else None
  }

  /** A cycle ends as a request deserves that was not answered. */
  predicate Answering(reply: Reply, end: CycleEnd) {
    && (reply.Refused? ==> end.Stopped? && Deserves(reply.code, end.verdict))
    && (reply.Unreachable? ==> end == Stopped(Retry))
  }

  /** What stops a cycle for which cause, in the order they are met: the root, the greeting, the marker, the scans, the guard. */
  predicate Ruled(id: string, inode: nat, marker: string, w: World, lostMost: bool, end: CycleEnd) {
    if !Stands(inode, w.found) then end == Stopped(Halt(RootReplaced))
    else
      && Answering(w.greeting, end)
      && (w.greeting.Answered? ==>
            if marker != "" && marker != id then end == Stopped(Halt(RootReplaced))
            else if !w.localScans then end == Stopped(Retry)
            else Answering(w.remoteScan, end) && (w.remoteScan.Answered? ==> (lostMost <==> end == Stopped(Halt(ContentLost)))))
  }

  /** Nothing stops it before either side is changed. */
  predicate Unhindered(id: string, inode: nat, marker: string, w: World, lostMost: bool) {
    && Stands(inode, w.found) && w.greeting.Answered? && (marker == "" || marker == id)
    && w.localScans && w.remoteScan.Answered? && !lostMost
  }

  /** What a session has between cycles. */
  datatype Holding = Holding(local: Nodes, remote: Nodes, ancestor: Option<Entry>, trash: Nodes)

  /** What every completed cycle has recorded and reported, from what the roots held when it scanned them. */
  ghost predicate Reported(hash: Hash, before: Holding, ancestor: Option<Entry>, end: CycleEnd) {
    end.Completed? ==>
      var plan := PlanPass(before.ancestor, end.local, end.remote);
      && IsScan(hash, before.local, end.local) && IsScan(hash, before.remote, end.remote)
      && ancestor == plan.ancestor && end.outcome == Outcome(|plan.toLocal|, |plan.toRemote|, plan.conflicts)
  }

  /** A list was executed from its first change to its last, on what was there and what had been staged. */
  ghost predicate Executed(before: Disk, l: seq<Change>, after: Disk) {
    exists staged :: Grown(before.staged, staged) && after == Tree.Run(Disk(before.nodes, staged), l).0
  }

  /** And a local one, with all that it removes moved aside first. */
  ghost predicate ExecutedAside(before: Disk, trash: Nodes, l: seq<Change>, w: World, after: Disk, trashed: Nodes) {
    var aside := TrashAll(Local(before.nodes, trash), l, Times(w.clock, |l|), w.sameDevice);
    aside.Some? && trashed == aside.value.trash && Executed(Disk(aside.value.nodes, before.staged), l, after)
  }

  /** What stops a cycle that is to change the sandbox: a local file that can no longer be sent. */
  ghost predicate NotSent(hash: Hash, source: Nodes, l: seq<Change>) {
    exists c :: c in l && c.kind.CreateFile? && Unsendable(hash, source, c.path, c.kind.digest)
  }

  /** And one that is to change the local root: a file it does not get, with nothing touched, or no room in the trash. */
  ghost predicate NotApplied(hash: Hash, source: Nodes, before: Local, l: seq<Change>, w: World, after: Local, verdict: Verdict) {
    || (after == before && exists c :: c in l && NotSupplied(hash, source, c, verdict))
    || (verdict == Retry && TrashAll(before, l, Times(w.clock, |l|), w.sameDevice).None?)
  }

  /**
   * How a cycle past the guard goes, whatever it finds: it ends with the whole sandbox list and then the whole local list
   * executed; or it stops at a file it cannot send, with neither begun; or with the first done, where the second cannot be.
   */
  ghost predicate Went(hash: Hash, plan: PassPlan, w: World, l0: Disk, r0: Disk, trash: Nodes, l1: Disk, r1: Disk, trashed: Nodes, stop: Option<Verdict>) {
    match stop
    case None => Executed(r0, plan.toRemote, r1) && ExecutedAside(l0, trash, plan.toLocal, w, l1, trashed)
    case Some(verdict) =>
      || (verdict == Retry && NotSent(hash, l0.nodes, plan.toRemote) && r1.nodes == r0.nodes && l1 == l0 && trashed == trash)
      || (Executed(r0, plan.toRemote, r1)
          && NotApplied(hash, r1.nodes, Local(l0.nodes, trash), plan.toLocal, w, Local(l1.nodes, trashed), verdict))
  }

  ghost predicate WentFromScans(hash: Hash, anc: Option<Entry>, w: World, l0: Disk, r0: Disk, trash: Nodes, l1: Disk, r1: Disk,
                                trashed: Nodes, stop: Option<Verdict>) {
    exists ls, rs :: IsScan(hash, l0.nodes, ls) && IsScan(hash, r0.nodes, rs)
                     && Went(hash, PlanPass(anc, ls, rs), w, l0, r0, trash, l1, r1, trashed, stop)
  }

  /** What a cycle past the guard comes to: on any roots as `Went` says, and from roots in order it completes, both in shape. */
  ghost predicate Came(hash: Hash, w: World, anc: Option<Entry>, l0: Disk, r0: Disk, trash: Nodes,
                       next: Option<Entry>, l1: Disk, r1: Disk, trashed: Nodes, end: CycleEnd) {
    && WentFromScans(hash, anc, w, l0, r0, trash, l1, r1, trashed, StopOf(end))
    && (InOrder(hash, l0, r0, trash, w.clock) ==>
          && Finished(hash, w, Holding(l0.nodes, r0.nodes, anc, trash), Holding(l1.nodes, r1.nodes, next, trashed), end)
          && InShape(hash, l1) && InShape(hash, r1))
  }

  function StopOf(end: CycleEnd): Option<Verdict> {
    if end.Stopped? then Some(end.verdict) else None
  }

  /** A completed cycle: both roots synced, the new ancestor stored, the local removals sheltered. */
  ghost predicate Finished(hash: Hash, w: World, before: Holding, after: Holding, end: CycleEnd) {
    && end.Completed?
    && Synced(hash, before.ancestor, before.local, before.remote, after.local, after.remote, end.local, end.remote)
    && Reported(hash, before, after.ancestor, end)
    && Sheltering(Local(before.local, before.trash), PlanPass(before.ancestor, end.local, end.remote).toLocal, w, after.trash)
  }

  lemma Finishes(hash: Hash, w: World, before: Holding, after: Holding, ls: seq<Scanned>, rs: seq<Scanned>, outcome: Outcome)
    requires IsScan(hash, before.local, ls) && IsScan(hash, before.remote, rs)
    requires Reached(hash, before.local, after.local, TreeOf(ls), Merged(before.ancestor, ls, rs).alpha)
    requires Reached(hash, before.remote, after.remote, TreeOf(rs), Merged(before.ancestor, ls, rs).beta)
    requires Sheltering(Local(before.local, before.trash), ChangesFrom(Merged(before.ancestor, ls, rs).alpha), w, after.trash)
    requires Reported(hash, before, after.ancestor, Completed(ls, rs, outcome))
    ensures Finished(hash, w, before, after, Completed(ls, rs, outcome))
  {}

  // ---- the cycle ------------------------------------------------------------------------------------------

  class Session {
    const id: string
    const local: Root
    const remote: Root

    var inode: nat
    var marker: string
    var stored: Option<Entry>
    var trash: Nodes

    constructor (id: string, local: Root, remote: Root, inode: nat)
      ensures this.id == id && this.local == local && this.remote == remote && this.inode == inode
      ensures stored == None && marker == "" && trash == map[]
    {
      this.id, this.local, this.remote, this.inode := id, local, remote, inode;
      stored, marker, trash := None, "", map[];
    }

    /** The local root must still be the directory the session was made for. */
    method CheckLocalIdentity(found: Option<nat>) returns (ok: bool)
      ensures ok <==> found.Some? && (inode == 0 || found.value == inode)
    {
      if found.None? { return false; }
      ok := inode == 0 || found.value == inode;
    }

    /** The path last named for each digest. */
    method PathByDigest(changes: seq<Change>) returns (byDigest: map<Digest, Path>)
      ensures NamesLast(byDigest, changes)
      ensures forall g | g in byDigest :: exists c :: c in changes && Creates(c, g) && c.path == byDigest[g]
    {
      byDigest := map[];
      for i := 0 to |changes|
        invariant NamesLast(byDigest, changes[..i])
      {
        NamesOneMore(byDigest, changes, i);
        if changes[i].kind.CreateFile? { byDigest := byDigest[changes[i].kind.digest := changes[i].path]; }
      }
      assert changes[..|changes|] == changes;
      forall g | g in byDigest ensures exists c :: c in changes && Creates(c, g) && c.path == byDigest[g] {
        var i :| LastNamed(changes, g, i) && changes[i].path == byDigest[g];
        assert changes[i] in changes;
      }
    }

    /** Sends one file, unless it moved since the scan; the endpoint keeps it only if it is what was promised. */
    method StageOne(hash: Hash, digest: Digest, path: Path) returns (ok: bool)
      requires local != remote
      modifies remote`staged
      ensures Grown(old(remote.staged), remote.staged)
      ensures Genuine(hash, old(remote.staged)) ==> Genuine(hash, remote.staged)
      ensures path in local.nodes && local.nodes[path].FileNode? && hash(local.nodes[path].content) == digest ==>
                ok && digest in remote.staged
      ensures Gone(local.nodes, path) ==> ok && remote.staged == old(remote.staged)
      ensures !ok <==> Unsendable(hash, local.nodes, path, digest)
      ensures !ok ==> remote.staged == old(remote.staged)
    {
      if path !in local.nodes || local.nodes[path].LinkNode? { return true; }
      if local.nodes[path].DirNode? { return false; }
      var content := local.nodes[path].content;
      if PutAnswer(hash, content, |content|) != Stored(digest) { return false; }
      if digest !in remote.staged { remote.staged := remote.staged[digest := content]; }
      ok := true;
    }

    /** Stages, for each digest the endpoint lacks, the local file last named for it. */
    method StageRemote(hash: Hash, changes: seq<Change>) returns (ok: bool)
      requires local != remote
      modifies remote`staged
      ensures Grown(old(remote.staged), remote.staged)
      ensures Genuine(hash, old(remote.staged)) ==> Genuine(hash, remote.staged)
      ensures Available(hash, local.nodes, changes) ==> ok && DigestSet(changes) <= remote.staged.Keys
      ensures ok ==> forall g | g in DigestSet(changes) ::
                g in remote.staged || exists i :: LastNamed(changes, g, i) && Gone(local.nodes, changes[i].path)
      ensures !ok ==> NotSent(hash, local.nodes, changes)
    {
      var byDigest := PathByDigest(changes);
      var digests := DigestsNeeded(changes);
      NamedAreReadable(hash, local.nodes, changes, byDigest);
      ok := StageMissing(hash, digests, byDigest);
    }

    method StageMissing(hash: Hash, digests: seq<Digest>, byDigest: map<Digest, Path>) returns (ok: bool)
      requires local != remote
      requires forall g | g in digests :: g in byDigest
      modifies remote`staged
      ensures Grown(old(remote.staged), remote.staged)
      ensures Genuine(hash, old(remote.staged)) ==> Genuine(hash, remote.staged)
      ensures Offered(hash, local.nodes, byDigest) ==> ok && forall g | g in digests :: g in remote.staged
      ensures ok ==> forall g | g in digests :: g in remote.staged || Gone(local.nodes, byDigest[g])
      ensures !ok ==> exists g :: g in digests && Unsendable(hash, local.nodes, byDigest[g], g)
    {
      for k := 0 to |digests|
        invariant Grown(old(remote.staged), remote.staged)
        invariant Genuine(hash, old(remote.staged)) ==> Genuine(hash, remote.staged)
        invariant Offered(hash, local.nodes, byDigest) ==> forall j | 0 <= j < k :: digests[j] in remote.staged
        invariant forall j | 0 <= j < k :: digests[j] in remote.staged || Gone(local.nodes, byDigest[digests[j]])
      {
        var g := digests[k];
        assert g in digests;
        if g !in remote.staged {
          var sent := StageOne(hash, g, byDigest[g]);
          if !sent { return false; }
        }
      }
      ok := true;
    }

    /** Fetches, for each file the local side lacks content for, that file from the sandbox. */
    method StageLocal(hash: Hash, changes: seq<Change>) returns (failed: Option<Verdict>)
      requires local != remote
      modifies local`staged
      ensures Grown(old(local.staged), local.staged)
      ensures Genuine(hash, old(local.staged)) ==> Genuine(hash, local.staged)
      ensures Available(hash, remote.nodes, changes) ==> failed.None? && DigestSet(changes) <= local.staged.Keys
      ensures failed.Some? ==> exists c :: c in changes && NotSupplied(hash, remote.nodes, c, failed.value)
    {
      for i := 0 to |changes|
        invariant Grown(old(local.staged), local.staged)
        invariant Genuine(hash, old(local.staged)) ==> Genuine(hash, local.staged)
        invariant Available(hash, remote.nodes, changes) ==> DigestSet(changes[..i]) <= local.staged.Keys
      {
        assert changes[..i + 1] == changes[..i] + [changes[i]];
        var c := changes[i];
        if c.kind.CreateFile? && c.kind.digest !in local.staged {
          assert c in changes;
          var refusal := Refusal(hash, remote.nodes, c.path, c.kind.digest);
          if refusal.Some? {
            assert NotSupplied(hash, remote.nodes, c, Classify(refusal.value));
            return Some(Classify(refusal.value));
          }
          var content := remote.nodes[c.path].content;
          local.staged := local.staged[c.kind.digest := content];
        }
      }
      assert changes[..|changes|] == changes;
      failed := None;
    }

    /** Stages what the sandbox lacks, then has it apply; `d` is the sandbox once staged. */
    method ApplyRemote(hash: Hash, changes: seq<Change>) returns (ok: bool, ghost d: Disk)
      requires local != remote
      modifies remote
      ensures d.nodes == old(remote.nodes) && Grown(old(remote.staged), d.staged)
      ensures Genuine(hash, old(remote.staged)) ==> Genuine(hash, d.staged)
      ensures remote.State() == if ok then Tree.Run(d, changes).0 else d
      ensures !ok ==> NotSent(hash, local.nodes, changes)
      ensures Available(hash, local.nodes, changes) ==> ok && DigestSet(changes) <= d.staged.Keys
    {
      d := remote.State();
      if changes == [] { return true, d; }
      ok := StageRemote(hash, changes);
      d := remote.State();
      if !ok { return; }
      var results := remote.Transition(changes);
    }

    /** Fetches what the local side lacks, moves its removals to the trash, then applies. */
    method ApplyLocal(hash: Hash, changes: seq<Change>, clock: nat -> Name, sameDevice: bool) returns (failed: Option<Verdict>, ghost d: Disk)
      requires local != remote
      modifies local, this`trash
      ensures d.nodes == old(local.nodes) && Grown(old(local.staged), d.staged)
      ensures Genuine(hash, old(local.staged)) ==> Genuine(hash, d.staged)
      ensures Available(hash, remote.nodes, changes) ==> DigestSet(changes) <= d.staged.Keys
      ensures var r := TrashAll(Local(d.nodes, old(trash)), changes, Times(clock, |changes|), sameDevice);
              if failed.None? then
                r.Some? && trash == r.value.trash && local.State() == Tree.Run(Disk(r.value.nodes, d.staged), changes).0
              else (failed == Some(Retry) && r.None?)
                   || (Local(local.nodes, trash) == old(Local(local.nodes, trash))
                       && exists c :: c in changes && NotSupplied(hash, remote.nodes, c, failed.value))
    {
      d := local.State();
      failed := None;
      if changes == [] { return; }
      failed := StageLocal(hash, changes);
      d := local.State();
      if failed.Some? { return; }
      var ok := TrashRemovals(changes, Times(clock, |changes|), sameDevice);
      if !ok { return Some(Retry), d; }
      var results := local.Transition(changes);
    }

    /** Moves every path a list removes aside; stops only when a trash directory cannot be made. */
    method TrashRemovals(cs: seq<Change>, stamps: seq<Name>, sameDevice: bool) returns (ok: bool)
      requires |stamps| == |cs|
      modifies local`nodes, this`trash
      ensures var r := TrashAll(old(Local(local.nodes, trash)), cs, stamps, sameDevice);
              ok == r.Some? && (ok ==> Local(local.nodes, trash) == r.value)
    {
      assert cs[0..] == cs && stamps[0..] == stamps;
      for i := 0 to |cs|
        invariant TrashAll(old(Local(local.nodes, trash)), cs, stamps, sameDevice) ==
                  TrashAll(Local(local.nodes, trash), cs[i..], stamps[i..], sameDevice)
      {
        assert cs[i..][0] == cs[i] && cs[i..][1..] == cs[i + 1..];
        assert stamps[i..][0] == stamps[i] && stamps[i..][1..] == stamps[i + 1..];
        if cs[i].kind.Remove? {
          var moved := TrashPath(Local(local.nodes, trash), cs[i].path, stamps[i], sameDevice);
          if moved.None? { return false; }
          local.nodes, trash := moved.value.nodes, moved.value.trash;
        }
      }
      ok := true;
    }

    /** The handshake: the sandbox root's marker, planted if it has none. */
    method Greet(greeting: Reply) returns (stop: Option<Verdict>)
      modifies this`marker
      ensures stop == if greeting.Refused? then Some(Classify(greeting.code))
                      else if greeting.Unreachable? then Some(Retry)
                      else if old(marker) != "" && old(marker) != id then Some(Halt(RootReplaced))
                      else None
      ensures greeting.Refused? ==> Deserves(greeting.code, stop.value)
      ensures marker == if old(marker) == "" && (greeting.Answered? || greeting == Refused(NoSpace)) then id else old(marker)
    {
      match greeting {
        case Unreachable => return Some(Retry);
        case Refused(code) =>
          if code.NoSpace? && marker == "" { marker := id; }
          return Some(Classify(code));
        case Answered =>
          if marker == "" { marker := id; }
          if marker != "" && marker != id { return Some(Halt(RootReplaced)); }
          return None;
      }
    }

    /** Identity, then the handshake. */
    method Begin(w: World) returns (stop: Option<Verdict>)
      modifies this`marker
      ensures stop == Barrier(id, inode, old(marker), w.found, w.greeting)
      ensures stop.None? ==> marker == id
      ensures Stands(inode, w.found) && w.greeting.Refused? ==> stop.Some? && Deserves(w.greeting.code, stop.value)
    {
      var sameRoot := CheckLocalIdentity(w.found);
      if !sameRoot { return Some(Halt(RootReplaced)); }
      stop := Greet(w.greeting);
    }

    /**
     * One cycle. It stops early exactly when identity, greeting, marker, a scan or the guard say so, and then nothing
     * but the marker has changed; otherwise, with everything in order, it completes, has synced both roots and leaves
     * them in shape. However it goes, it records and reports what its scans came to if it completes, and records
     * nothing if it stops.
     */
    method Run(hash: Hash, w: World) returns (end: CycleEnd)
      requires local != remote
      modifies this`stored, this`marker, this`trash, local, remote
      ensures end.Stopped? ==> stored == old(stored)
      ensures Reported(hash, old(Now()), stored, end)
      ensures Ruled(id, inode, old(marker), w, LostMost(old(stored), SizeOf(old(local.nodes)), SizeOf(old(remote.nodes))), end)
      ensures if Unhindered(id, inode, old(marker), w, LostMost(old(stored), SizeOf(old(local.nodes)), SizeOf(old(remote.nodes))))
              then
                && marker == id
                && Came(hash, w, old(stored), old(local.State()), old(remote.State()), old(trash), stored, local.State(), remote.State(), trash, end)
              else Untouched(old(local.State()), old(remote.State()), old(trash))
    {
      var stop := Begin(w);
      if stop.Some? { return Stopped(stop.value); }
      var failure := ScanFailure(w.localScans, w.remoteScan);
      if failure.Some? { return Stopped(failure.value); }
      end := SyncFromScans(hash, w);
    }

    /** Past the greeting: a cycle halts for lost content exactly when a side has lost most of what is tracked, and else goes on. */
    method SyncFromScans(hash: Hash, w: World) returns (end: CycleEnd)
      requires local != remote
      modifies this`stored, this`trash, local, remote
      ensures end.Stopped? ==> stored == old(stored)
      ensures Reported(hash, old(Now()), stored, end)
      ensures end == Stopped(Halt(ContentLost)) <==> LostMost(old(stored), SizeOf(old(local.nodes)), SizeOf(old(remote.nodes)))
      ensures end == Stopped(Halt(ContentLost)) ==> Untouched(old(local.State()), old(remote.State()), old(trash))
      ensures end != Stopped(Halt(ContentLost)) ==>
                Came(hash, w, old(stored), old(local.State()), old(remote.State()), old(trash), stored, local.State(), remote.State(), trash, end)
    {
      var ls := Scan(local, hash);
      var rs := Scan(remote, hash);
      ScanSize(hash, local.nodes, ls);
      ScanSize(hash, remote.nodes, rs);
      GuardPassesExactly(stored, |ls|, |rs|);
      if GuardContentLoss(stored, |ls|, |rs|).Some? { return Stopped(Halt(ContentLost)); }
      end := Sync(hash, w, ls, rs);
    }

    ghost predicate Untouched(l: Disk, r: Disk, t: Nodes)
      reads this, local, remote
    {
      local.State() == l && remote.State() == r && trash == t
    }

    ghost function Now(): Holding
      reads this, local, remote
    {
      Holding(local.nodes, remote.nodes, stored, trash)
    }

    /** Merges two scans and brings both sides to what comes of it; the ancestor is recorded last. */
    method Sync(hash: Hash, w: World, ls: seq<Scanned>, rs: seq<Scanned>) returns (end: CycleEnd)
      requires local != remote && IsScan(hash, local.nodes, ls) && IsScan(hash, remote.nodes, rs)
      modifies this`stored, this`trash, local, remote
      ensures end.Stopped? ==> stored == old(stored)
      ensures end.Completed? ==> end.local == ls && end.remote == rs
      ensures Reported(hash, old(Now()), stored, end)
      ensures Went(hash, PlanPass(old(stored), ls, rs), w, old(local.State()), old(remote.State()), old(trash),
                   local.State(), remote.State(), trash, StopOf(end))
      ensures InOrder(hash, old(local.State()), old(remote.State()), old(trash), w.clock) ==>
                Finished(hash, w, old(Now()), Now(), end) && InShape(hash, local.State()) && InShape(hash, remote.State())
    {
      ghost var fine := InOrder(hash, local.State(), remote.State(), trash, w.clock);
      var alpha := TreeFrom(ls);
      var beta := TreeFrom(rs);
      var plan := Merge.Reconcile([], stored, Some(alpha), Some(beta));
      var toLocal, toRemote := ChangesFrom(plan.alpha), ChangesFrom(plan.beta);
      var failed := Move(hash, w, toLocal, toRemote, ls, rs);
      if failed.Some? { return Stopped(failed.value); }
      stored := NextAncestor(stored, alpha, beta);
      end := Completed(ls, rs, Outcome(|toLocal|, |toRemote|, ConflictsFrom(plan.conflicts)));
      if fine { Finishes(hash, w, old(Now()), Now(), ls, rs, end.outcome); }
    }

    /** The sandbox is changed first, and the local root only once that is done. */
    method Move(hash: Hash, w: World, toLocal: seq<Change>, toRemote: seq<Change>, ghost ls: seq<Scanned>, ghost rs: seq<Scanned>)
      returns (failed: Option<Verdict>)
      requires local != remote && IsScan(hash, local.nodes, ls) && IsScan(hash, remote.nodes, rs)
      requires toLocal == ChangesFrom(Merged(stored, ls, rs).alpha) && toRemote == ChangesFrom(Merged(stored, ls, rs).beta)
      modifies this`trash, local, remote
      ensures Went(hash, PlanPass(stored, ls, rs), w, old(local.State()), old(remote.State()), old(trash),
                   local.State(), remote.State(), trash, failed)
      ensures InOrder(hash, old(local.State()), old(remote.State()), old(trash), w.clock) ==>
                && failed.None? && InShape(hash, local.State()) && InShape(hash, remote.State())
                && Synced(hash, stored, old(local.nodes), old(remote.nodes), local.nodes, remote.nodes, ls, rs)
                && Sheltering(old(Local(local.nodes, trash)), toLocal, w, trash)
    {
      ghost var r0 := remote.nodes;
      var ok := SyncRemote(hash, toRemote, ls, rs);
      if !ok { return Some(Retry); }
      failed := SyncLocal(hash, w, toLocal, ls, rs, r0);
    }

    /** The sandbox side of a cycle, which goes first. */
    method SyncRemote(hash: Hash, changes: seq<Change>, ghost ls: seq<Scanned>, ghost rs: seq<Scanned>) returns (ok: bool)
      requires local != remote && changes == ChangesFrom(Merged(stored, ls, rs).beta)
      modifies remote
      ensures if ok then Executed(old(remote.State()), changes, remote.State())
              else remote.nodes == old(remote.nodes) && NotSent(hash, local.nodes, changes)
      ensures Scans(hash, local.nodes, old(remote.nodes), ls, rs) && Genuine(hash, old(remote.staged)) ==>
                ok && InShape(hash, remote.State()) && Reached(hash, old(remote.nodes), remote.nodes, TreeOf(rs), Merged(stored, ls, rs).beta)
    {
      ghost var fine := Scans(hash, local.nodes, remote.nodes, ls, rs) && Genuine(hash, remote.staged);
      if fine { RemoteReady(hash, local.nodes, remote.nodes, stored, ls, rs); }
      ghost var d: Disk;
      ok, d := ApplyRemote(hash, changes);
      if fine { RemoteReaches(hash, local.nodes, d, stored, ls, rs); }
    }

    /** The local side, from a sandbox that was `before` and has been changed. */
    method SyncLocal(hash: Hash, w: World, changes: seq<Change>, ghost ls: seq<Scanned>, ghost rs: seq<Scanned>, ghost before: Nodes)
      returns (failed: Option<Verdict>)
      requires local != remote && changes == ChangesFrom(Merged(stored, ls, rs).alpha)
      modifies local, this`trash
      ensures if failed.None? then ExecutedAside(old(local.State()), old(trash), changes, w, local.State(), trash)
              else NotApplied(hash, remote.nodes, old(Local(local.nodes, trash)), changes, w, Local(local.nodes, trash), failed.value)
      ensures Scans(hash, old(local.nodes), before, ls, rs) && Genuine(hash, old(local.staged))
              && Reached(hash, before, remote.nodes, TreeOf(rs), Merged(stored, ls, rs).beta)
              && Unused(old(trash), w.clock) ==>
                && failed.None? && InShape(hash, local.State()) && Sheltering(old(Local(local.nodes, trash)), changes, w, trash)
                && Reached(hash, old(local.nodes), local.nodes, TreeOf(ls), Merged(stored, ls, rs).alpha)
    {
      ghost var fine := && Scans(hash, local.nodes, before, ls, rs) && Genuine(hash, local.staged)
                        && Reached(hash, before, remote.nodes, TreeOf(rs), Merged(stored, ls, rs).beta)
                        && Unused(trash, w.clock);
      if fine { LocalReady(hash, local.nodes, before, remote.nodes, stored, ls, rs); }
      ghost var d: Disk;
      failed, d := ApplyLocal(hash, changes, w.clock, w.sameDevice);
      if fine { LocalReaches(hash, d, before, old(trash), stored, ls, rs, w); }
    }
  }
}
