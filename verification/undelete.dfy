/** Trashing before a transition, and bringing back what it removed. */
module Undelete {
  import opened Lists
  import opened Entries
  import opened Changes
  import opened Splice
  import opened Reconcile
  import opened Tree
  import opened Execution
  import opened Meaning
  import opened Ordering
  import opened Trash

  // ---- trash first, then execute -----------------------------------------------------------------------

  /** A pass's removals can all be trashed under fresh stamps. */
  lemma RemovalsReady(hash: Hash, nodes: Nodes, trash: Nodes, t: Entry, cs: seq<TreeChange>, stamps: seq<Name>)
    requires WellFormed(nodes) && Holds(hash, nodes, t) && Reconciled(t, cs) && AllAdmissible(t, cs)
    requires WellFormed(trash) && |stamps| == |ChangesFrom(cs)| && forall s | s in stamps :: [s] !in trash
    ensures Trashable(Local(nodes, trash), ChangesFrom(cs), stamps)
  {
    var l := ChangesFrom(cs);
    forall i | 0 <= i < |l| && l[i].kind.Remove? ensures l[i].path in nodes && Open(trash, [stamps[i]] + l[i].path) {
      RemovalFacts(t, cs, l[i]);
      assert MetaAt(hash, nodes, l[i].path) == Look(Some(t), l[i].path);
      FreshStampIsOpen(trash, stamps[i], l[i].path);
    }
    ChangesFromNoRepeats(cs);
    forall i, j | 0 <= i < j < |l| && l[i].kind.Remove? && l[j].kind.Remove? ensures !Comparable(l[i].path, l[j].path) {
      assert l[i] != l[j];
      if l[i].path <= l[j].path { RemovalsApart(cs, l[i], l[j]); } else if l[j].path <= l[i].path { RemovalsApart(cs, l[j], l[i]); }
    }
  }

  /** Executing after trashing ends as executing without it: the removals find nothing left to remove. */
  lemma RunAfterTrash(hash: Hash, d: Disk, trash: Nodes, t: Entry, cs: seq<TreeChange>, r: Local)
    requires WellFormed(d.nodes) && Holds(hash, d.nodes, t) && Reconciled(t, cs) && AllAdmissible(t, cs)
    requires Emptied(Local(d.nodes, trash), ChangesFrom(cs), r)
    ensures Run(Disk(r.nodes, d.staged), ChangesFrom(cs)).0 == Run(d, ChangesFrom(cs)).0
    ensures Run(Disk(r.nodes, d.staged), ChangesFrom(cs)).1 == Run(d, ChangesFrom(cs)).1
  {
    var l := ChangesFrom(cs);
    RemovalsAgain(hash, d, Disk(r.nodes, d.staged), t, cs);
    SameAfterRemovals(d, Disk(r.nodes, d.staged), l, LeadingRemovals(l));
  }

  /** A whole local apply: the removed content is in the trash, and the root ends as a plain transition leaves it. */
  lemma TrashThenRun(hash: Hash, d: Disk, trash: Nodes, t: Entry, cs: seq<TreeChange>, stamps: seq<Name>)
    requires WellFormed(d.nodes) && Holds(hash, d.nodes, t) && Reconciled(t, cs) && AllAdmissible(t, cs)
    requires WellFormed(trash) && |stamps| == |ChangesFrom(cs)| && forall s | s in stamps :: [s] !in trash
    ensures TrashAll(Local(d.nodes, trash), ChangesFrom(cs), stamps, true).Some?
    ensures var r := TrashAll(Local(d.nodes, trash), ChangesFrom(cs), stamps, true).value;
            && Trashed(Local(d.nodes, trash), ChangesFrom(cs), stamps, r)
            && Run(Disk(r.nodes, d.staged), ChangesFrom(cs)).0 == Run(d, ChangesFrom(cs)).0
            && Run(Disk(r.nodes, d.staged), ChangesFrom(cs)).1 == Run(d, ChangesFrom(cs)).1
  {
    RemovalsReady(hash, d.nodes, trash, t, cs, stamps);
    TrashKeepsContent(Local(d.nodes, trash), ChangesFrom(cs), stamps);
    RunAfterTrash(hash, d, trash, t, cs, TrashAll(Local(d.nodes, trash), ChangesFrom(cs), stamps, true).value);
  }

  lemma SameAfterRemovals(d: Disk, d': Disk, l: seq<Change>, k: nat)
    requires k <= |l| && Run(d', l[..k]).0 == Run(d, l[..k]).0
    requires forall i | 0 <= i < k :: Run(d', l[..k]).1[i] == Run(d, l[..k]).1[i]
    ensures Run(d', l).0 == Run(d, l).0 && Run(d', l).1 == Run(d, l).1
  {
    assert l == l[..k] + l[k..];
    RunConcat(d, l[..k], l[k..]);
    RunConcat(d', l[..k], l[k..]);
    assert Run(d, l[..k]).1 == Run(d', l[..k]).1;
  }

  lemma RemovalsAgain(hash: Hash, d: Disk, d': Disk, t: Entry, cs: seq<TreeChange>)
    requires WellFormed(d.nodes) && Holds(hash, d.nodes, t) && Reconciled(t, cs) && AllAdmissible(t, cs)
    requires WellFormed(d'.nodes) && d'.staged == d.staged
    requires forall q :: q in d'.nodes <==> q in d.nodes && !RemovedBy(ChangesFrom(cs), q)
    requires forall q | q in d'.nodes :: d'.nodes[q] == d.nodes[q]
    ensures var l := ChangesFrom(cs); var rs := l[..LeadingRemovals(l)];
            && Run(d', rs).0 == Run(d, rs).0
            && forall i | 0 <= i < |rs| :: Run(d', rs).1[i] == Run(d, rs).1[i]
  {
    var l := ChangesFrom(cs);
    var rs := l[..LeadingRemovals(l)];
    RemovalsRun(hash, d, t, cs);
    StillReachable(hash, d, d', t, cs);
    RemovePhase(d', rs);
    RemovalsFirst(cs);
    RemovedByLeading(l, LeadingRemovals(l));
    SameDisk(Run(d', rs).0, Run(d, rs).0);
  }

  lemma SameDisk(a: Disk, b: Disk)
    requires a.staged == b.staged && (forall q :: q in a.nodes <==> q in b.nodes) && forall q | q in a.nodes :: a.nodes[q] == b.nodes[q]
    ensures a == b
  {
    assert a.nodes == b.nodes;
  }

  lemma StillReachable(hash: Hash, d: Disk, d': Disk, t: Entry, cs: seq<TreeChange>)
    requires Holds(hash, d.nodes, t) && Reconciled(t, cs) && AllAdmissible(t, cs)
    requires forall q | q in d'.nodes :: q in d.nodes && d'.nodes[q] == d.nodes[q]
    ensures var l := ChangesFrom(cs);
            forall c | c in l[..LeadingRemovals(l)] :: c.kind.Remove? && Reachable(c) && !Blocked(d'.nodes, c.path)
  {
    var l := ChangesFrom(cs);
    forall c | c in l[..LeadingRemovals(l)] ensures c.kind.Remove? && Reachable(c) && !Blocked(d'.nodes, c.path) {
      RemovalFacts(t, cs, c);
      forall j | 0 <= j < |c.path| && c.path[..j] in d'.nodes ensures d'.nodes[c.path[..j]].DirNode? {
        AboveIsDirectory(Some(t), c.path[..j], c.path);
        assert MetaAt(hash, d.nodes, c.path[..j]) == Look(Some(t), c.path[..j]);
      }
    }
  }

  lemma RemovedByLeading(l: seq<Change>, k: nat)
    requires k <= |l| && (forall i | 0 <= i < k :: l[i].kind.Remove?) && forall i | k <= i < |l| :: !l[i].kind.Remove?
    ensures forall q :: RemovedBy(l, q) <==> CoveredBy(l[..k], q)
  {
    forall q ensures RemovedBy(l, q) <==> CoveredBy(l[..k], q) {
      if c :| c in l && c.kind.Remove? && c.path <= q {
        var i :| 0 <= i < |l| && l[i] == c;
        assert l[..k][i] == c;
      }
      if c :| c in l[..k] && c.path <= q { assert c in l; }
    }
  }

  // ---- restoring ------------------------------------------------------------------------------------------

  /** What reading a trashed link finds, by its trash path; None when the read fails. */
  type Follow = Path -> Option<Bytes>

  function ContentAt(trash: Nodes, item: Path, follow: Follow): Option<Bytes>
    requires item in trash
  {
    if trash[item].FileNode? then Some(trash[item].content) else follow(item)
  }

  datatype Restored = Restored(nodes: Nodes, count: nat, ok: bool)

  /** Copies one trashed file back unless something is there; fails when its directories or content cannot be had. */
  function RestoreOne(nodes: Nodes, rel: Path, content: Option<Bytes>): Restored {
    if rel in nodes then Restored(nodes, 0, true)
    else
      var made := MkdirAll(nodes, Parent(rel));
      if made.None? then Restored(nodes, 0, false)
      else if content.None? then Restored(made.value, 0, false)
      else Restored(made.value[rel := FileNode(content.value, false)], 1, true)
  }

  /** The walk over the trashed files, stopping at the first failure. */
  function RestoreAll(nodes: Nodes, trash: Nodes, items: seq<Path>, follow: Follow): Restored
    requires forall i | i in items :: i in trash && i != []
    decreases |items|
  {
    if items == [] then Restored(nodes, 0, true)
    else
      assert items[0] in items;
      var one := RestoreOne(nodes, items[0][1..], ContentAt(trash, items[0], follow));
      if !one.ok then one
      else
        var rest := RestoreAll(one.nodes, trash, items[1..], follow);
        Restored(rest.nodes, one.count + rest.count, rest.ok)
  }

  /** The trashed files under the stamps a walk looks at. */
  function Within(items: seq<Path>, recent: Name -> bool): seq<Path> {
    Filter(items, (i: Path) => i != [] && recent(i[0]))
  }

  lemma WithinStep(items: seq<Path>, k: nat, recent: Name -> bool)
    requires k < |items| && items[k] != []
    ensures Within(items[k..], recent) ==
            if recent(items[k][0]) then [items[k]] + Within(items[k + 1..], recent) else Within(items[k + 1..], recent)
  {
    assert items[k..][0] == items[k] && items[k..][1..] == items[k + 1..];
  }

  class Workspace {
    var nodes: Nodes
    var trash: Nodes

    /** Copies the trashed files of recent stamps back out, leaving the trash as it is. */
    method RestoreTrash(items: seq<Path>, follow: Follow, recent: Name -> bool) returns (restored: nat, ok: bool)
      requires forall i | i in items :: i in trash && i != []
      modifies this`nodes
      ensures Restored(nodes, restored, ok) == RestoreAll(old(nodes), trash, Within(items, recent), follow)
    {
      restored := 0;
      ghost var all := RestoreAll(nodes, trash, Within(items, recent), follow);
      assert items[0..] == items;
      for k := 0 to |items|
        invariant var rest := RestoreAll(nodes, trash, Within(items[k..], recent), follow);
                  all == Restored(rest.nodes, restored + rest.count, rest.ok)
      {
        assert items[k] in items;
        WithinStep(items, k, recent);
        HeadOf(items[k], Within(items[k + 1..], recent));
        if !recent(items[k][0]) { continue; }
        var rel := items[k][1..];
        if rel in nodes { continue; }
        var made := MkdirAll(nodes, Parent(rel));
        if made.None? { return restored, false; }
        nodes := made.value;
        var content := ContentAt(trash, items[k], follow);
        if content.None? { return restored, false; }
        nodes := nodes[rel := FileNode(content.value, false)];
        restored := restored + 1;
      }
      ok := true;
    }
  }

  lemma HeadOf<T>(x: T, s: seq<T>)
    ensures ([x] + s)[0] == x && ([x] + s)[1..] == s
  {}

  // ---- what restoring brings back ------------------------------------------------------------------------------

  /** Where a trashed file belongs. */
  function Place(item: Path): Path {
    if item == [] then [] else item[1..]
  }

  /** Nothing is at the item's place yet, and no earlier item puts anything there. */
  ghost predicate Needed(nodes: Nodes, items: seq<Path>, i: nat)
  {
    i < |items| && Place(items[i]) !in nodes && forall k | 0 <= k < i :: !(Place(items[i]) <= Place(items[k]))
  }

  /** The item can be put in its place: it can be read, and only directories, none of them a restored file, stand above. */
  ghost predicate Restorable(nodes: Nodes, trash: Nodes, items: seq<Path>, follow: Follow, i: nat)
    requires i < |items| && forall x | x in items :: x in trash
  {
    && ContentAt(trash, items[i], follow).Some?
    && ClearTo(nodes, Parent(Place(items[i])))
    && forall k | 0 <= k < i && Needed(nodes, items, k) :: !(Place(items[k]) < Place(items[i]))
  }

  /** What can be said before restoring of whether it will complete. */
  ghost predicate Completes(nodes: Nodes, trash: Nodes, items: seq<Path>, follow: Follow)
    requires forall x | x in items :: x in trash
  {
    forall i | 0 <= i < |items| && Needed(nodes, items, i) :: Restorable(nodes, trash, items, follow, i)
  }

  /** What restoring comes to when it is not stopped. */
  ghost predicate BroughtBack(before: Nodes, after: Nodes, trash: Nodes, items: seq<Path>, follow: Follow)
    requires forall x | x in items :: x in trash
  {
    && WellFormed(after)
    && (forall p | p in before :: p in after && after[p] == before[p])
    && (forall i | 0 <= i < |items| :: Place(items[i]) in after)
    && (forall i | 0 <= i < |items| && Needed(before, items, i) :: Some(after[Place(items[i])]) == Back(trash, items[i], follow))
    && (forall p | p in after && p !in before :: NewIsDirOrFile(before, after, items, p))
  }

  ghost predicate NewIsDirOrFile(before: Nodes, after: Nodes, items: seq<Path>, p: Path)
    requires p in after
  {
    after[p] == DirNode || exists i: nat :: Needed(before, items, i) && Place(items[i]) == p
  }

  ghost function Back(trash: Nodes, item: Path, follow: Follow): Option<Node>
    requires item in trash
  {
    var c := ContentAt(trash, item, follow);
    if c.None? then None else Some(FileNode(c.value, false))
  }

  /** One item's turn. */
  ghost predicate Placed(nodes: Nodes, after: Nodes, rel: Path, content: Option<Bytes>) {
    && WellFormed(after)
    && (forall p :: p in after <==> p in nodes || p <= rel)
    && (forall p | p in nodes :: after[p] == nodes[p])
    && (forall p | p in after && p !in nodes && p != rel :: after[p] == DirNode)
    && (rel !in nodes ==> content.Some? && after[rel] == FileNode(content.value, false))
  }

  lemma RestoreStep(nodes: Nodes, rel: Path, content: Option<Bytes>)
    requires WellFormed(nodes) && rel != []
    ensures var r := RestoreOne(nodes, rel, content);
            && r.ok == (rel in nodes || (content.Some? && ClearTo(nodes, Parent(rel))))
            && (r.ok ==> Placed(nodes, r.nodes, rel, content))
  {
    if rel in nodes {
      forall p | p <= rel ensures p in nodes { WellFormedPrefix(nodes, p, rel); }
    } else {
      MkdirAllSucceeds(nodes, Parent(rel));
      if content.Some? && ClearTo(nodes, Parent(rel)) {
        MkdirAllMakes(nodes, Parent(rel));
        MkdirAllWellFormed(nodes, Parent(rel));
        var made := MkdirAll(nodes, Parent(rel)).value;
        NoChildren(made, rel);
        ReplaceLeaf(made, made[rel := FileNode(content.value, false)], rel);
        var after := made[rel := FileNode(content.value, false)];
        forall p ensures p in after <==> p in nodes || p <= rel { PrefixOfParent(p, rel); }
      }
    }
  }

  lemma NeededLater(nodes: Nodes, mid: Nodes, items: seq<Path>, i: nat)
    requires 0 < i < |items| && forall p :: p in mid <==> p in nodes || p <= Place(items[0])
    ensures Needed(mid, items[1..], i - 1) <==> Needed(nodes, items, i)
  {
    var rest := items[1..];
    if Needed(mid, rest, i - 1) {
      forall k | 0 <= k < i ensures !(Place(items[i]) <= Place(items[k])) {
        if k > 0 { assert !(Place(rest[i - 1]) <= Place(rest[k - 1])); }
      }
    }
    if Needed(nodes, items, i) {
      assert !(Place(items[i]) <= Place(items[0]));
      forall k | 0 <= k < i - 1 ensures !(Place(rest[i - 1]) <= Place(rest[k])) {
        assert !(Place(items[i]) <= Place(items[k + 1]));
      }
    }
  }

  lemma ClearLater(nodes: Nodes, mid: Nodes, rel: Path, content: Option<Bytes>, p: Path)
    requires Placed(nodes, mid, rel, content) && p != []
    ensures ClearTo(mid, Parent(p)) <==> ClearTo(nodes, Parent(p)) && (rel !in nodes ==> !(rel < p))
  {
    assert rel <= Parent(p) <==> rel < p by { PrefixOfParent(rel, p); }
    if ClearTo(mid, Parent(p)) {
      forall q | q in nodes && q <= Parent(p) ensures nodes[q].DirNode? { assert mid[q] == nodes[q]; }
    }
    if ClearTo(nodes, Parent(p)) && (rel !in nodes ==> !(rel < p)) {
      forall q | q in mid && q <= Parent(p) ensures mid[q].DirNode? {
        if q in nodes { assert mid[q] == nodes[q]; }
      }
    }
  }

  lemma RestorableLater(nodes: Nodes, mid: Nodes, trash: Nodes, items: seq<Path>, follow: Follow, i: nat)
    requires 0 < i < |items| && forall x | x in items :: x in trash && |x| > 1
    requires Placed(nodes, mid, Place(items[0]), ContentAt(trash, items[0], follow))
    ensures Restorable(mid, trash, items[1..], follow, i - 1) <==> Restorable(nodes, trash, items, follow, i)
  {
    var rest := items[1..];
    var rel, p := Place(items[0]), Place(items[i]);
    assert items[i] in items && p != [];
    ClearLater(nodes, mid, rel, ContentAt(trash, items[0], follow), p);
    if Restorable(mid, trash, rest, follow, i - 1) {
      forall k | 0 <= k < i && Needed(nodes, items, k) ensures !(Place(items[k]) < p) {
        if k > 0 {
          NeededLater(nodes, mid, items, k);
          assert !(Place(rest[k - 1]) < p);
        }
      }
    }
    if Restorable(nodes, trash, items, follow, i) {
      assert rel !in nodes ==> Needed(nodes, items, 0);
      forall k | 0 <= k < i - 1 && Needed(mid, rest, k) ensures !(Place(rest[k]) < Place(rest[i - 1])) {
        NeededLater(nodes, mid, items, k + 1);
        assert !(Place(items[k + 1]) < p);
      }
    }
  }

  lemma CompletesLater(nodes: Nodes, mid: Nodes, trash: Nodes, items: seq<Path>, follow: Follow)
    requires items != [] && forall x | x in items :: x in trash && |x| > 1
    requires Placed(nodes, mid, Place(items[0]), ContentAt(trash, items[0], follow))
    requires Place(items[0]) !in nodes ==> ClearTo(nodes, Parent(Place(items[0])))
    ensures Completes(mid, trash, items[1..], follow) <==> Completes(nodes, trash, items, follow)
  {
    forall i | 0 < i < |items|
      ensures Needed(mid, items[1..], i - 1) <==> Needed(nodes, items, i)
      ensures Restorable(mid, trash, items[1..], follow, i - 1) <==> Restorable(nodes, trash, items, follow, i)
    {
      NeededLater(nodes, mid, items, i);
      RestorableLater(nodes, mid, trash, items, follow, i);
    }
    if Completes(mid, trash, items[1..], follow) {
      forall i | 0 <= i < |items| && Needed(nodes, items, i) ensures Restorable(nodes, trash, items, follow, i) {
        if i > 0 { assert Needed(mid, items[1..], i - 1); }
      }
    }
    if Completes(nodes, trash, items, follow) {
      forall i | 0 <= i < |items[1..]| && Needed(mid, items[1..], i) ensures Restorable(mid, trash, items[1..], follow, i) {
        assert Needed(nodes, items, i + 1);
      }
    }
  }

  /**
   * Restoring completes exactly when every trashed file whose place is still free can be read and has only directories
   * above it, none of them the place of a file restored earlier; then it has overwritten nothing and put every such
   * file in its place.
   */
  lemma {:induction false} RestoreBrings(nodes: Nodes, trash: Nodes, items: seq<Path>, follow: Follow)
    requires WellFormed(nodes) && forall i | i in items :: i in trash && |i| > 1
    ensures RestoreAll(nodes, trash, items, follow).ok <==> Completes(nodes, trash, items, follow)
    ensures Completes(nodes, trash, items, follow) ==> BroughtBack(nodes, RestoreAll(nodes, trash, items, follow).nodes, trash, items, follow)
    decreases |items|
  {
    if items != [] {
      var rel, content := Place(items[0]), ContentAt(trash, items[0], follow);
      assert items[0] in items;
      RestoreStep(nodes, rel, content);
      var one := RestoreOne(nodes, rel, content);
      if one.ok {
        RestoreBrings(one.nodes, trash, items[1..], follow);
        CompletesLater(nodes, one.nodes, trash, items, follow);
        if Completes(nodes, trash, items, follow) {
          BroughtBackJoin(nodes, one.nodes, RestoreAll(one.nodes, trash, items[1..], follow).nodes, trash, items, follow);
        }
      } else {
        assert Needed(nodes, items, 0) && !Restorable(nodes, trash, items, follow, 0);
      }
    }
  }

  /** The files one root has and another lacks. */
  ghost function NewFiles(before: Nodes, after: Nodes): set<Path> {
    set p | p in after && p !in before && after[p].FileNode?
  }

  /** The root has gained directories, and nothing else has changed. */
  ghost predicate OnlyDirectories(before: Nodes, after: Nodes) {
    && (forall p | p in before :: p in after && after[p] == before[p])
    && (forall p | p in after && p !in before :: after[p].DirNode?)
  }

  lemma FailedStep(nodes: Nodes, rel: Path, content: Option<Bytes>)
    requires WellFormed(nodes) && rel != [] && !RestoreOne(nodes, rel, content).ok
    ensures OnlyDirectories(nodes, RestoreOne(nodes, rel, content).nodes) && RestoreOne(nodes, rel, content).count == 0
  {
    if MkdirAll(nodes, Parent(rel)).Some? { MkdirAllMakes(nodes, Parent(rel)); }
  }

  /**
   * Restoring that stops has put back the files before the first it could not, whole, and added at most directories.
   */
  lemma {:induction false} RestoreStops(nodes: Nodes, trash: Nodes, items: seq<Path>, follow: Follow) returns (i: nat)
    requires WellFormed(nodes) && (forall x | x in items :: x in trash && |x| > 1) && !RestoreAll(nodes, trash, items, follow).ok
    ensures i < |items| && forall x | x in items[..i] :: x in trash && |x| > 1
    ensures Completes(nodes, trash, items[..i], follow) && !Completes(nodes, trash, items[..i + 1], follow)
    ensures var r, done := RestoreAll(nodes, trash, items, follow), RestoreAll(nodes, trash, items[..i], follow);
            OnlyDirectories(done.nodes, r.nodes) && r.count == done.count
    decreases |items|
  {
    assert items[0] in items;
    var rel, content := Place(items[0]), ContentAt(trash, items[0], follow);
    var one := RestoreOne(nodes, rel, content);
    RestoreStep(nodes, rel, content);
    if !one.ok {
      i := 0;
      assert items[..0] == [];
      RestoreBrings(nodes, trash, items[..1], follow);
      FailedStep(nodes, rel, content);
    } else {
      var k := RestoreStops(one.nodes, trash, items[1..], follow);
      i := k + 1;
      HeadRestored(nodes, trash, items, follow, k);
      HeadRestored(nodes, trash, items, follow, k + 1);
    }
  }

  /** With the first item put back, restoring a prefix goes as restoring the rest of it does. */
  lemma HeadRestored(nodes: Nodes, trash: Nodes, items: seq<Path>, follow: Follow, k: nat)
    requires WellFormed(nodes) && k < |items| && forall x | x in items :: x in trash && |x| > 1
    requires RestoreOne(nodes, items[0][1..], ContentAt(trash, items[0], follow)).ok
    ensures forall x | x in items[..k + 1] || x in items[1..][..k] :: x in trash && |x| > 1
    ensures var one := RestoreOne(nodes, items[0][1..], ContentAt(trash, items[0], follow));
            var rest := RestoreAll(one.nodes, trash, items[1..][..k], follow);
            && RestoreAll(nodes, trash, items[..k + 1], follow) == Restored(rest.nodes, one.count + rest.count, rest.ok)
            && (Completes(one.nodes, trash, items[1..][..k], follow) <==> Completes(nodes, trash, items[..k + 1], follow))
  {
    var l := items[..k + 1];
    assert l[0] == items[0] && l[1..] == items[1..][..k];
    assert items[0] in items;
    RestoreStep(nodes, Place(l[0]), ContentAt(trash, l[0], follow));
    CompletesLater(nodes, RestoreOne(nodes, Place(l[0]), ContentAt(trash, l[0], follow)).nodes, trash, l, follow);
  }

  /** However it ends, it has counted the files it has put back. */
  lemma {:induction false} RestoredCount(nodes: Nodes, trash: Nodes, items: seq<Path>, follow: Follow)
    requires WellFormed(nodes) && forall x | x in items :: x in trash && |x| > 1
    ensures var r := RestoreAll(nodes, trash, items, follow);
            r.count == |NewFiles(nodes, r.nodes)| && forall p | p in nodes :: p in r.nodes && r.nodes[p] == nodes[p]
    decreases |items|
  {
    if items == [] {
      assert NewFiles(nodes, nodes) == {};
    } else {
      var rel, content := Place(items[0]), ContentAt(trash, items[0], follow);
      assert items[0] in items;
      RestoreStep(nodes, rel, content);
      var one := RestoreOne(nodes, rel, content);
      if !one.ok {
        FailedStep(nodes, rel, content);
        assert NewFiles(nodes, one.nodes) == {};
      } else {
        RestoredCount(one.nodes, trash, items[1..], follow);
        NewFilesAdd(nodes, one.nodes, RestoreAll(one.nodes, trash, items[1..], follow).nodes, rel, content);
      }
    }
  }

  lemma NewFilesAdd(nodes: Nodes, mid: Nodes, after: Nodes, rel: Path, content: Option<Bytes>)
    requires Placed(nodes, mid, rel, content) && forall p | p in mid :: p in after && after[p] == mid[p]
    ensures |NewFiles(nodes, after)| == |NewFiles(mid, after)| + if rel in nodes then 0 else 1
  {
    var now := NewFiles(nodes, after);
    if rel in nodes {
      assert now == NewFiles(mid, after);
    } else {
      assert mid[rel].FileNode?;
      assert now == NewFiles(mid, after) + {rel};
    }
  }

  lemma BroughtBackJoin(before: Nodes, mid: Nodes, after: Nodes, trash: Nodes, items: seq<Path>, follow: Follow)
    requires items != [] && forall x | x in items :: x in trash && |x| > 1
    requires Placed(before, mid, Place(items[0]), ContentAt(trash, items[0], follow))
    requires BroughtBack(mid, after, trash, items[1..], follow)
    ensures BroughtBack(before, after, trash, items, follow)
  {
    NeededBack(before, mid, after, trash, items, follow);
    forall i | 0 <= i < |items| ensures Place(items[i]) in after {
      if i > 0 { assert Place(items[1..][i - 1]) in after; }
    }
    forall p | p in after && p !in before ensures NewIsDirOrFile(before, after, items, p) {
      NewJoin(before, mid, after, items, p);
    }
  }

  lemma NeededBack(before: Nodes, mid: Nodes, after: Nodes, trash: Nodes, items: seq<Path>, follow: Follow)
    requires items != [] && forall x | x in items :: x in trash && |x| > 1
    requires Placed(before, mid, items[0][1..], ContentAt(trash, items[0], follow))
    requires BroughtBack(mid, after, trash, items[1..], follow)
    ensures forall i | 0 <= i < |items| && Needed(before, items, i) ::
              Place(items[i]) in after && Some(after[Place(items[i])]) == Back(trash, items[i], follow)
  {
    forall i | 0 <= i < |items| && Needed(before, items, i)
      ensures Place(items[i]) in after && Some(after[Place(items[i])]) == Back(trash, items[i], follow)
    {
      if i > 0 {
        NeededLater(before, mid, items, i);
        assert Some(after[Place(items[1..][i - 1])]) == Back(trash, items[1..][i - 1], follow);
      }
    }
  }

  lemma NewJoin(before: Nodes, mid: Nodes, after: Nodes, items: seq<Path>, p: Path)
    requires items != [] && items[0] != [] && p in after && p !in before && forall q | q in mid :: q in after && after[q] == mid[q]
    requires forall q :: q in mid <==> q in before || q <= items[0][1..]
    requires p in mid && p != items[0][1..] ==> mid[p] == DirNode
    requires p !in mid ==> NewIsDirOrFile(mid, after, items[1..], p)
    ensures NewIsDirOrFile(before, after, items, p)
  {
    if p == items[0][1..] {
      assert Needed(before, items, 0) && Place(items[0]) == p;
    } else if p !in mid && after[p] != DirNode {
      var i: nat :| Needed(mid, items[1..], i) && Place(items[1..][i]) == p;
      NeededLater(before, mid, items, i + 1);
      assert Needed(before, items, i + 1) && Place(items[i + 1]) == p;
    }
  }

  // ---- the round trip ------------------------------------------------------------------------------------------

  /** The walk lists every trashed file of a recent stamp once, each below its stamp. */
  ghost predicate Walks(trash: Nodes, items: seq<Path>, recent: Name -> bool) {
    && NoRepeats(items)
    && (forall i :: i in items <==> i != [] && i in trash && !trash[i].DirNode? && recent(i[0]))
    && (forall i | i in items :: |i| > 1)
  }

  /** No other stamp has a trashed file at or below the path. */
  ghost predicate Alone(items: seq<Path>, stamp: Name, p: Path) {
    forall i | i in items && i != [] && i[0] != stamp :: !(p <= i[1..])
  }

  /** Then nothing earlier takes its place: files of one stamp never lie below each other. */
  lemma AloneIsNeeded(nodes: Nodes, trash: Nodes, items: seq<Path>, recent: Name -> bool, stamp: Name, p: Path) returns (i: nat)
    requires WellFormed(trash) && Walks(trash, items, recent) && [stamp] + p in items && p !in nodes && Alone(items, stamp, p)
    ensures Needed(nodes, items, i) && items[i] == [stamp] + p
  {
    i :| 0 <= i < |items| && items[i] == [stamp] + p;
    assert Place(items[i]) == p;
    forall k | 0 <= k < i ensures !(p <= Place(items[k])) {
      assert items[k] in items && items[k] != items[i];
      if p <= Place(items[k]) {
        assert items[k] == [items[k][0]] + Place(items[k]);
        assert items[i] <= items[k];
        WellFormedPrefix(trash, items[i], items[k]);
      }
    }
  }

  /**
   * Undelete after a local apply, whatever was in the trash and however far back it looks: it completes exactly when
   * every trashed file whose place is free fits there; then everything that was there is as it was, and at the place
   * of every removed file there is something again: its own content, if no other stamp has a file at or below it.
   */
  lemma UndeleteRestores(hash: Hash, d: Disk, trash: Nodes, t: Entry, cs: seq<TreeChange>, stamps: seq<Name>, r: Local,
                         items: seq<Path>, follow: Follow, recent: Name -> bool)
    requires WellFormed(d.nodes) && Holds(hash, d.nodes, t) && Genuine(hash, d.staged) && Reconciled(t, cs) && AllAdmissible(t, cs)
    requires WellFormed(trash) && |stamps| == |ChangesFrom(cs)| && forall s | s in stamps :: [s] !in trash
    requires TrashAll(Local(d.nodes, trash), ChangesFrom(cs), stamps, true) == Some(r)
    requires Walks(r.trash, items, recent) && forall s | s in stamps :: recent(s)
    ensures var after := Run(Disk(r.nodes, d.staged), ChangesFrom(cs)).0.nodes;
            var back := RestoreAll(after, r.trash, items, follow);
            && (back.ok <==> Completes(after, r.trash, items, follow))
            && (back.ok ==> Undeleted(d.nodes, ChangesFrom(cs), stamps, items, after, back.nodes))
  {
    var l := ChangesFrom(cs);
    TrashThenRun(hash, d, trash, t, cs, stamps);
    ExactOutcome(hash, d, t, cs);
    var after := Run(Disk(r.nodes, d.staged), l).0.nodes;
    RestoreBrings(after, r.trash, items, follow);
    if Completes(after, r.trash, items, follow) {
      var back := RestoreAll(after, r.trash, items, follow).nodes;
      forall k, p | 0 <= k < |l| && l[k].kind.Remove? && l[k].path <= p && p !in after
        ensures Returns(d.nodes, items, stamps[k], p, back)
      {
        FileComesBack(d.nodes, l, stamps, r, after, back, items, follow, recent, k, p);
      }
    }
  }

  ghost predicate Undeleted(nodes: Nodes, l: seq<Change>, stamps: seq<Name>, items: seq<Path>, after: Nodes, back: Nodes)
    requires |stamps| == |l|
  {
    && (forall p | p in after :: p in back && back[p] == after[p])
    && (forall k, p | 0 <= k < |l| && l[k].kind.Remove? && l[k].path <= p && p !in after :: Returns(nodes, items, stamps[k], p, back))
  }

  /** The place of the removed regular file is taken again, and by its own content if it is alone. */
  ghost predicate Returns(nodes: Nodes, items: seq<Path>, stamp: Name, p: Path, back: Nodes) {
    p in nodes && nodes[p].FileNode? ==>
      p in back && (Alone(items, stamp, p) ==> back[p] == FileNode(nodes[p].content, false))
  }

  lemma FileComesBack(nodes: Nodes, l: seq<Change>, stamps: seq<Name>, r: Local, after: Nodes, back: Nodes,
                      items: seq<Path>, follow: Follow, recent: Name -> bool, k: nat, p: Path)
    requires |stamps| == |l| && Walks(r.trash, items, recent)
    requires WellFormed(r.trash) && AllSheltered(Local(nodes, map[]), l, stamps, r) && BroughtBack(after, back, r.trash, items, follow)
    requires k < |l| && l[k].kind.Remove? && l[k].path <= p && p !in after && recent(stamps[k])
    ensures Returns(nodes, items, stamps[k], p, back)
  {
    if p in nodes && nodes[p].FileNode? {
      assert Sheltered(Local(nodes, map[]), l[k], stamps[k], p, r);
      var item := [stamps[k]] + p;
      assert item in items && item[1..] == p;
      var i :| 0 <= i < |items| && items[i] == item;
      assert Place(items[i]) in back;
      if Alone(items, stamps[k], p) {
        var o := AloneIsNeeded(after, r.trash, items, recent, stamps[k], p);
        assert Some(back[Place(items[o])]) == Back(r.trash, items[o], follow);
      }
    }
  }

  function Stamps(cs: seq<TreeChange>, stamp: Name): (r: seq<Name>)
    ensures |r| == |ChangesFrom(cs)| && forall s | s in r :: s == stamp
  {
    seq(|ChangesFrom(cs)|, _ => stamp)
  }

  /**
   * The round trip, within one second and whatever was in the trash before: when undelete completes, every removed
   * file whose place is free and which no older trashed file lies at or below is back with its content, so all of
   * them are if the trash was empty.
   */
  lemma UndeleteRoundTrip(hash: Hash, d: Disk, trash: Nodes, t: Entry, cs: seq<TreeChange>, stamp: Name, r: Local,
                          items: seq<Path>, follow: Follow, recent: Name -> bool)
    requires WellFormed(d.nodes) && Holds(hash, d.nodes, t) && Genuine(hash, d.staged) && Reconciled(t, cs) && AllAdmissible(t, cs)
    requires WellFormed(trash) && [stamp] !in trash
    requires TrashAll(Local(d.nodes, trash), ChangesFrom(cs), Stamps(cs, stamp), true) == Some(r)
    requires Walks(r.trash, items, recent) && recent(stamp)
    ensures var l := ChangesFrom(cs);
            var after := Run(Disk(r.nodes, d.staged), l).0.nodes;
            var back := RestoreAll(after, r.trash, items, follow);
            && (back.ok <==> Completes(after, r.trash, items, follow))
            && (back.ok ==> forall p | p in d.nodes && d.nodes[p].FileNode? && RemovedBy(l, p) && p !in after && NoneOlder(trash, p) ::
                  p in back.nodes && back.nodes[p] == FileNode(d.nodes[p].content, false))
  {
    var l, stamps := ChangesFrom(cs), Stamps(cs, stamp);
    UndeleteRestores(hash, d, trash, t, cs, stamps, r, items, follow, recent);
    RemovalsReady(hash, d.nodes, trash, t, cs, stamps);
    var after := Run(Disk(r.nodes, d.staged), l).0.nodes;
    var back := RestoreAll(after, r.trash, items, follow);
    if back.ok {
      forall p | p in d.nodes && d.nodes[p].FileNode? && RemovedBy(l, p) && p !in after && NoneOlder(trash, p)
        ensures p in back.nodes && back.nodes[p] == FileNode(d.nodes[p].content, false)
      {
        ComesBackWhole(Local(d.nodes, trash), l, stamps, stamp, r, items, recent, after, back.nodes, p);
      }
    }
  }

  lemma ComesBackWhole(s: Local, l: seq<Change>, stamps: seq<Name>, stamp: Name, r: Local, items: seq<Path>, recent: Name -> bool,
                       after: Nodes, back: Nodes, p: Path)
    requires |stamps| == |l| && Trashable(s, l, stamps) && (forall x | x in stamps :: x == stamp)
    requires TrashAll(s, l, stamps, true) == Some(r) && Walks(r.trash, items, recent) && NoneOlder(s.trash, p)
    requires Undeleted(s.nodes, l, stamps, items, after, back)
    requires p in s.nodes && s.nodes[p].FileNode? && RemovedBy(l, p) && p !in after
    ensures p in back && back[p] == FileNode(s.nodes[p].content, false)
  {
    var c :| c in l && c.kind.Remove? && c.path <= p;
    var k :| 0 <= k < |l| && l[k] == c;
    assert stamps[k] in stamps && Returns(s.nodes, items, stamps[k], p, back);
    NoneOlderIsAlone(s, l, stamps, stamp, r, items, recent, p);
  }

  /** No trashed file lies at or below the path, under any stamp. */
  ghost predicate NoneOlder(trash: Nodes, p: Path) {
    forall q | q in trash && q != [] && p <= q[1..] :: trash[q].DirNode?
  }

  lemma NoneOlderIsAlone(s: Local, l: seq<Change>, stamps: seq<Name>, stamp: Name, r: Local, items: seq<Path>, recent: Name -> bool, p: Path)
    requires |stamps| == |l| && Trashable(s, l, stamps) && (forall x | x in stamps :: x == stamp)
    requires TrashAll(s, l, stamps, true) == Some(r) && Walks(r.trash, items, recent) && NoneOlder(s.trash, p)
    ensures Alone(items, stamp, p)
  {
    TrashElsewhere(s, l, stamps, stamp);
    forall i | i in items && i != [] && i[0] != stamp ensures !(p <= i[1..]) {
      assert i in s.trash && s.trash[i] == r.trash[i];
    }
  }

  /** What is under other stamps was there before. */
  lemma {:induction false} TrashElsewhere(s: Local, cs: seq<Change>, stamps: seq<Name>, stamp: Name)
    requires |stamps| == |cs| && Trashable(s, cs, stamps) && forall x | x in stamps :: x == stamp
    ensures TrashAll(s, cs, stamps, true).Some?
    ensures forall q | q in TrashAll(s, cs, stamps, true).value.trash && q != [] && q[0] != stamp ::
              q in s.trash && s.trash[q] == TrashAll(s, cs, stamps, true).value.trash[q]
    decreases |cs|
  {
    if cs != [] {
      assert stamps[0] in stamps && forall x | x in stamps[1..] :: x in stamps;
      if cs[0].kind.Remove? {
        ReadyStep(s, cs, stamps);
        TrashOne(s, cs[0].path, stamps[0]);
        var s1 := TrashPath(s, cs[0].path, stamps[0], true).value;
        TrashElsewhere(s1, cs[1..], stamps[1..], stamp);
        forall q | q in s1.trash && q != [] && q[0] != stamp ensures q in s.trash && s.trash[q] == s1.trash[q] {
          assert ([stamps[0]] + cs[0].path)[0] == stamp;
        }
      } else {
        ReadyTail(s, cs, stamps);
        TrashElsewhere(s, cs[1..], stamps[1..], stamp);
      }
    }
  }

  /** Undelete does not always complete: a directory replaced by a file leaves no way back for what was in it. */
  lemma UndeleteCanFail()
    ensures var root: Nodes := map[[] := DirNode, ["d"] := FileNode([], false)];
            var trash: Nodes := map[[] := DirNode, ["s"] := DirNode, ["s", "d"] := DirNode, ["s", "d", "x"] := FileNode([], false)];
            && WellFormed(root) && WellFormed(trash)
            && !RestoreAll(root, trash, [["s", "d", "x"]], _ => None).ok
  {
    var root: Nodes := map[[] := DirNode, ["d"] := FileNode([], false)];
    assert Parent(["d", "x"]) == ["d"];
    assert ["s", "d", "x"][1..] == ["d", "x"];
    assert Parent(["s", "d", "x"]) == ["s", "d"] && Parent(["s", "d"]) == ["s"] && Parent(["s"]) == [] && Parent(["d"]) == [];
    assert MkdirAll(root, ["d"]).None?;
  }

  function OneBelow(d: Name, x: Name, content: Bytes): Nodes {
    map[[] := DirNode, [d] := DirNode, [d, x] := FileNode(content, false)]
  }

  /**
   * Nor does it with nothing in its way: a file was trashed, a directory took its place, and that was trashed too. The
   * file comes back first, and then what was in the directory cannot.
   */
  lemma TwoPassesCanFail(d: Name, x: Name, s1: Name, s2: Name, a: Bytes, b: Bytes, follow: Follow)
    requires s1 != s2 && Leq(s1, s2)
    ensures var first := TrashPath(Local(OneFile(d, a), map[]), [d], s1, true);
            && first.Some?
            && var second := TrashPath(Local(OneBelow(d, x, b), first.value.trash), [d], s2, true);
               second.Some? && FailsThough(second.value.nodes, second.value.trash, [[s1, d], [s2, d, x]], follow)
  {
    FirstTrash(d, s1, a);
    var t1 := TrashPath(Local(OneFile(d, a), map[]), [d], s1, true).value.trash;
    SecondTrash(d, x, s1, s2, a, b, t1);
    var second := TrashPath(Local(OneBelow(d, x, b), t1), [d], s2, true).value;
    FileBlocksDirectory(d, x, s1, s2, second.nodes, second.trash, a, follow);
    TwoItems(d, x, s1, s2, second.trash);
  }

  /** The walk is right, nothing is in the root, and still restoring stops. */
  ghost predicate FailsThough(nodes: Nodes, trash: Nodes, items: seq<Path>, follow: Follow) {
    && nodes == map[[] := DirNode]
    && (forall i :: i in items <==> i in trash && !trash[i].DirNode?)
    && (forall i | i in items :: i in trash && i != [])
    && !RestoreAll(nodes, trash, items, follow).ok
  }

  lemma FirstTrash(d: Name, s1: Name, a: Bytes)
    ensures var r := TrashPath(Local(OneFile(d, a), map[]), [d], s1, true);
            && r.Some? && WellFormed(r.value.trash)
            && (forall q :: q in r.value.trash <==> q <= [s1, d])
            && (forall q | q in r.value.trash :: r.value.trash[q] == if q == [s1, d] then FileNode(a, false) else DirNode)
  {
    var root := OneFile(d, a);
    assert Parent([d]) == [] && WellFormed(root);
    FreshStampIsOpen(map[], s1, [d]);
    assert [s1] + [d] == [s1, d];
    TrashOne(Local(root, map[]), [d], s1);
    var t := TrashPath(Local(root, map[]), [d], s1, true).value.trash;
    forall q ensures q in t <==> q <= [s1, d] ensures q in t ==> t[q] == if q == [s1, d] then FileNode(a, false) else DirNode {
      UnderFirst(root, d, s1, a, q);
    }
  }

  lemma UnderFirst(root: Nodes, d: Name, s1: Name, a: Bytes, q: Path)
    requires root == OneFile(d, a)
    ensures q < [s1, d] || ([s1, d] <= q && [d] + q[2..] in root) <==> q <= [s1, d]
    ensures [s1, d] <= q && [d] + q[2..] in root ==> q == [s1, d] && root[[d] + q[2..]] == FileNode(a, false)
  {
    if [s1, d] <= q {
      assert q == [s1, d] + q[2..];
      assert ([d] + q[2..])[1..] == q[2..] && [d][1..] == [];
      assert [d] + [] == [d] && [s1, d] + [] == [s1, d];
    }
  }

  lemma SecondTrash(d: Name, x: Name, s1: Name, s2: Name, a: Bytes, b: Bytes, t1: Nodes)
    requires s1 != s2 && WellFormed(t1) && (forall q :: q in t1 <==> q <= [s1, d])
    requires forall q | q in t1 :: t1[q] == if q == [s1, d] then FileNode(a, false) else DirNode
    ensures var r := TrashPath(Local(OneBelow(d, x, b), t1), [d], s2, true);
            && r.Some? && r.value.nodes == map[[] := DirNode]
            && (forall q :: q in r.value.trash <==> q <= [s1, d] || q <= [s2, d, x])
            && (forall q | q in r.value.trash ::
                  r.value.trash[q] == if q == [s1, d] then FileNode(a, false) else if q == [s2, d, x] then FileNode(b, false) else DirNode)
  {
    var root := OneBelow(d, x, b);
    assert Parent([d]) == [] && Parent([d, x]) == [d] && WellFormed(root);
    assert [s2][0] != [s1, d][0] && !([s2] <= [s1, d]);
    FreshStampIsOpen(t1, s2, [d]);
    assert [s2] + [d] == [s2, d];
    TrashOne(Local(root, t1), [d], s2);
    var t := TrashPath(Local(root, t1), [d], s2, true).value;
    assert t.nodes == map[[] := DirNode];
    forall q ensures q in t.trash <==> q <= [s1, d] || q <= [s2, d, x]
      ensures q in t.trash ==> t.trash[q] == if q == [s1, d] then FileNode(a, false) else if q == [s2, d, x] then FileNode(b, false) else DirNode
    {
      UnderSecond(root, d, x, s2, b, q);
    }
  }

  lemma UnderSecond(root: Nodes, d: Name, x: Name, s2: Name, b: Bytes, q: Path)
    requires root == OneBelow(d, x, b)
    ensures q < [s2, d] || ([s2, d] <= q && [d] + q[2..] in root) <==> q <= [s2, d, x]
    ensures [s2, d] <= q && [d] + q[2..] in root ==> root[[d] + q[2..]] == if q == [s2, d, x] then FileNode(b, false) else DirNode
  {
    if [s2, d] <= q {
      assert q == [s2, d] + q[2..];
      assert ([d] + q[2..])[1..] == q[2..] && [d, x][1..] == [x] && [d][1..] == [];
      assert [d] + [x] == [d, x] && [d] + [] == [d] && [s2, d] + [x] == [s2, d, x] && [s2, d] + [] == [s2, d];
      var r := q[2..];
      assert [d] + r in root <==> r == [] || r == [x];
      assert [s2, d, x][..2] == [s2, d] && [s2, d, x][..3] == [s2, d, x];
      assert q <= [s2, d, x] ==> q == [s2, d, x][..|q|] && (|q| == 2 || |q| == 3);
    } else {
      assert [s2, d, x][..2] == [s2, d];
      assert q <= [s2, d, x] ==> q == [s2, d, x][..|q|] && |q| < 2;
    }
  }

  lemma TwoItems(d: Name, x: Name, s1: Name, s2: Name, trash: Nodes)
    requires s1 != s2 && forall q :: q in trash <==> q <= [s1, d] || q <= [s2, d, x]
    requires forall q | q in trash :: !trash[q].DirNode? <==> q == [s1, d] || q == [s2, d, x]
    ensures forall i :: i in [[s1, d], [s2, d, x]] <==> i in trash && !trash[i].DirNode?
  {}

  lemma FileBlocksDirectory(d: Name, x: Name, s1: Name, s2: Name, nodes: Nodes, trash: Nodes, a: Bytes, follow: Follow)
    requires nodes == map[[] := DirNode]
    requires [s1, d] in trash && trash[[s1, d]] == FileNode(a, false) && [s2, d, x] in trash
    ensures !RestoreAll(nodes, trash, [[s1, d], [s2, d, x]], follow).ok
  {
    var items := [[s1, d], [s2, d, x]];
    assert items[0][1..] == [d] && items[1..] == [[s2, d, x]] && items[1..][0][1..] == [d, x];
    assert Parent([d]) == [] && Parent([d, x]) == [d];
    var one := RestoreOne(nodes, [d], Some(a));
    assert one.ok && one.nodes[[d]] == FileNode(a, false) && [d, x] !in one.nodes;
    assert MkdirAll(one.nodes, [d]).None?;
  }
}
