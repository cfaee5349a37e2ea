/** Local deletions go to the trash, and undelete copies them back. */
module Trash {
  import opened Entries
  import opened Changes
  import opened Reconcile
  import opened Tree
  import opened Execution

  /** The local root and the session's trash. Trash paths begin with the stamp they were trashed under. */
  datatype Local = Local(nodes: Nodes, trash: Nodes)

  // ---- trashing ---------------------------------------------------------------------------------------

  /** The subtree at `from`, as it looks once renamed to `to`. */
  function Moved(nodes: Nodes, from: Path, to: Path): Nodes {
    map k | k in (set q | q in nodes && from <= q :: to + q[|from|..]) && to <= k && from + k[|to|..] in nodes ::
      nodes[from + k[|to|..]]
  }

  /** Whether a rename may put `source` where `to` is. */
  predicate RenameFits(source: Node, trash: Nodes, to: Path) {
    to !in trash || (if source.DirNode? then trash[to].DirNode? && !HasChildren(trash, to) else !trash[to].DirNode?)
  }

  /**
   * Moves what is at `rel` aside. A rename that fails leaves it in place and is not an error; only a
   * trash directory that cannot be made is.
   */
  function TrashPath(s: Local, rel: Path, stamp: Name, sameDevice: bool): Option<Local> {
    if rel !in s.nodes then Some(s)
    else
      var to := [stamp] + rel;
      var made := MkdirAll(s.trash, Parent(to));
      if made.None? then None
      else if sameDevice && RenameFits(s.nodes[rel], made.value, to) then
        Some(Local(Without(s.nodes, rel), Without(made.value, to) + Moved(s.nodes, rel, to)))
      else Some(s.(trash := made.value))
  }

  /** The trashing loop of one pass; `stamps` are the times of day its calls saw. */
  function TrashAll(s: Local, cs: seq<Change>, stamps: seq<Name>, sameDevice: bool): Option<Local>
    requires |stamps| == |cs|
    decreases |cs|
  {
    if cs == [] then Some(s)
    else
      var next := if cs[0].kind.Remove? then TrashPath(s, cs[0].path, stamps[0], sameDevice) else Some(s);
      if next.None? then None else TrashAll(next.value, cs[1..], stamps[1..], sameDevice)
  }

  /** Nothing at or below `to`, and nothing but directories above it. */
  ghost predicate Open(trash: Nodes, to: Path) {
    WellFormed(trash) && to !in trash && forall q | q in trash && q <= to :: trash[q].DirNode?
  }

  lemma FreshStampIsOpen(trash: Nodes, stamp: Name, rel: Path)
    requires WellFormed(trash) && [stamp] !in trash
    ensures Open(trash, [stamp] + rel)
  {
    var to := [stamp] + rel;
    forall q | q in trash && q <= to ensures q == [] {
      if q != [] {
        assert [stamp] <= q;
        WellFormedPrefix(trash, [stamp], q);
      }
    }
    if to in trash { WellFormedPrefix(trash, [stamp], to); }
  }

  /** What trashing one path does to the trash. */
  ghost predicate Received(before: Nodes, after: Nodes, nodes: Nodes, rel: Path, to: Path) {
    && WellFormed(after)
    && (forall q :: q in after <==> q in before || q < to || (to <= q && rel + q[|to|..] in nodes))
    && (forall q | q in after ::
          if to <= q then rel + q[|to|..] in nodes && after[q] == nodes[rel + q[|to|..]]
          else after[q] == if q in before then before[q] else DirNode)
  }

  lemma MovedShape(nodes: Nodes, from: Path, to: Path)
    ensures forall k :: k in Moved(nodes, from, to) <==> to <= k && from + k[|to|..] in nodes
    ensures forall k | k in Moved(nodes, from, to) :: Moved(nodes, from, to)[k] == nodes[from + k[|to|..]]
  {
    forall k ensures k in Moved(nodes, from, to) <==> to <= k && from + k[|to|..] in nodes {
      if k in Moved(nodes, from, to) {
        var q :| q in nodes && from <= q && k == to + q[|from|..];
        assert from + k[|to|..] == q;
      }
      if to <= k && from + k[|to|..] in nodes {
        var q := from + k[|to|..];
        assert from <= q && to + q[|from|..] == k;
      }
    }
  }

  lemma TrashOne(s: Local, rel: Path, stamp: Name)
    requires WellFormed(s.nodes) && rel in s.nodes && Open(s.trash, [stamp] + rel)
    ensures var r := TrashPath(s, rel, stamp, true);
            && r.Some? && r.value.nodes == Without(s.nodes, rel)
            && Received(s.trash, r.value.trash, s.nodes, rel, [stamp] + rel)
  {
    var to := [stamp] + rel;
    assert Parent(to) < to;
    assert ClearTo(s.trash, Parent(to));
    MkdirAllSucceeds(s.trash, Parent(to));
    MkdirAllMakes(s.trash, Parent(to));
    MkdirAllWellFormed(s.trash, Parent(to));
    var made := MkdirAll(s.trash, Parent(to)).value;
    assert to !in made;
    NoChildren(made, to);
    MovedShape(s.nodes, rel, to);
    var after := Without(made, to) + Moved(s.nodes, rel, to);
    assert TrashPath(s, rel, stamp, true) == Some(Local(Without(s.nodes, rel), after));
    ReceivedFrom(s, rel, to, made, after);
  }

  lemma ReceivedFrom(s: Local, rel: Path, to: Path, made: Nodes, after: Nodes)
    requires WellFormed(s.nodes) && rel in s.nodes && WellFormed(made) && to != [] && to !in made && !HasChildren(made, to)
    requires forall q :: q in made <==> q in s.trash || q <= Parent(to)
    requires forall q | q in made :: made[q] == if q in s.trash then s.trash[q] else DirNode
    requires MkdirAll(s.trash, Parent(to)) == Some(made) && made[Parent(to)].DirNode?
    requires after == Without(made, to) + Moved(s.nodes, rel, to)
    ensures Received(s.trash, after, s.nodes, rel, to)
  {
    MovedShape(s.nodes, rel, to);
    forall q
      ensures q in after <==> q in s.trash || q < to || (to <= q && rel + q[|to|..] in s.nodes)
      ensures q in after ==> if to <= q then rel + q[|to|..] in s.nodes && after[q] == s.nodes[rel + q[|to|..]]
                             else after[q] == if q in s.trash then s.trash[q] else DirNode
    {
      PrefixOfParent(q, to);
    }
    forall q | q in after && q != [] ensures Parent(q) in after && after[Parent(q)].DirNode? {
      if to < q {
        var inside := rel + q[|to|..];
        assert inside in s.nodes && Parent(inside) == rel + Parent(q)[|to|..];
      } else if q == to {
        assert !(to <= Parent(q));
      } else {
        assert q in made;
        PrefixOfParent(to, q);
      }
    }
  }

  ghost predicate Trashable(s: Local, cs: seq<Change>, stamps: seq<Name>)
    requires |stamps| == |cs|
  {
    && WellFormed(s.nodes) && WellFormed(s.trash)
    && (forall i | 0 <= i < |cs| && cs[i].kind.Remove? :: cs[i].path in s.nodes && Open(s.trash, [stamps[i]] + cs[i].path))
    && (forall i, j | 0 <= i < j < |cs| && cs[i].kind.Remove? && cs[j].kind.Remove? :: !Comparable(cs[i].path, cs[j].path))
  }

  lemma ReadyStep(s: Local, cs: seq<Change>, stamps: seq<Name>)
    requires |stamps| == |cs| > 0 && Trashable(s, cs, stamps) && cs[0].kind.Remove?
    ensures TrashPath(s, cs[0].path, stamps[0], true).Some?
    ensures Trashable(TrashPath(s, cs[0].path, stamps[0], true).value, cs[1..], stamps[1..])
  {
    var rel, to := cs[0].path, [stamps[0]] + cs[0].path;
    TrashOne(s, rel, stamps[0]);
    var s1 := TrashPath(s, rel, stamps[0], true).value;
    WithoutWellFormed(s.nodes, rel);
    forall i | 0 <= i < |cs[1..]| && cs[1..][i].kind.Remove?
      ensures cs[1..][i].path in s1.nodes && Open(s1.trash, [stamps[1..][i]] + cs[1..][i].path)
    {
      var other := [stamps[i + 1]] + cs[i + 1].path;
      assert !Comparable(cs[0].path, cs[i + 1].path);
      ApartWithStamps(cs[0].path, cs[i + 1].path, stamps[0], stamps[i + 1]);
      forall q | q in s1.trash && q <= other ensures s1.trash[q].DirNode? {
        if to <= q { PrefixesCompare(to, other, other); }
      }
    }
    forall i, j | 0 <= i < j < |cs[1..]| && cs[1..][i].kind.Remove? && cs[1..][j].kind.Remove?
      ensures !Comparable(cs[1..][i].path, cs[1..][j].path)
    {
      assert !Comparable(cs[i + 1].path, cs[j + 1].path);
    }
  }

  lemma ApartWithStamps(p: Path, q: Path, a: Name, b: Name)
    requires !Comparable(p, q)
    ensures !Comparable([a] + p, [b] + q)
  {
    assert ([a] + p)[1..] == p && ([b] + q)[1..] == q;
  }

  lemma WithoutWellFormed(nodes: Nodes, p: Path)
    requires WellFormed(nodes)
    ensures WellFormed(Without(nodes, p))
  {
    var after := Without(nodes, p);
    forall q | q in after && q != [] ensures Parent(q) in after && after[Parent(q)].DirNode? {
      PrefixOfParent(p, q);
    }
  }

  ghost predicate RemovedBy(cs: seq<Change>, q: Path) {
    exists c :: c in cs && c.kind.Remove? && c.path <= q
  }

  /** What trashing the removals of a list comes to. */
  ghost predicate Trashed(s: Local, cs: seq<Change>, stamps: seq<Name>, r: Local)
    requires |stamps| == |cs|
  {
    Emptied(s, cs, r) && AllSheltered(s, cs, stamps, r)
  }

  /** What the removals cover is gone from the root, and nothing else changed in root or trash. */
  ghost predicate Emptied(s: Local, cs: seq<Change>, r: Local) {
    && WellFormed(r.nodes) && WellFormed(r.trash)
    && (forall q :: q in r.nodes <==> q in s.nodes && !RemovedBy(cs, q))
    && (forall q | q in r.nodes :: r.nodes[q] == s.nodes[q])
    && (forall q | q in s.trash :: q in r.trash && r.trash[q] == s.trash[q])
  }

  ghost predicate AllSheltered(s: Local, cs: seq<Change>, stamps: seq<Name>, r: Local)
    requires |stamps| == |cs|
  {
    forall i, q | 0 <= i < |cs| && q in s.nodes :: Sheltered(s, cs[i], stamps[i], q, r)
  }

  /** If the change removes `q`, the trash has it under the stamp. */
  ghost predicate Sheltered(s: Local, c: Change, stamp: Name, q: Path, r: Local)
    requires q in s.nodes
  {
    c.kind.Remove? && c.path <= q ==> [stamp] + q in r.trash && r.trash[[stamp] + q] == s.nodes[q]
  }

  /**
   * Trashing a pass's removals moves exactly what they cover, with its content, under the stamps of the
   * pass, and leaves everything that was in the trash as it was.
   */
  lemma {:induction false} TrashKeepsContent(s: Local, cs: seq<Change>, stamps: seq<Name>)
    requires |stamps| == |cs| && Trashable(s, cs, stamps)
    ensures TrashAll(s, cs, stamps, true).Some?
    ensures Trashed(s, cs, stamps, TrashAll(s, cs, stamps, true).value)
    decreases |cs|
  {
    if cs != [] {
      var c := cs[0];
      if c.kind.Remove? {
        ReadyStep(s, cs, stamps);
        var s1 := TrashPath(s, c.path, stamps[0], true).value;
        TrashKeepsContent(s1, cs[1..], stamps[1..]);
        var r := TrashAll(s1, cs[1..], stamps[1..], true).value;
        assert TrashAll(s, cs, stamps, true) == Some(r);
        assert Trashed(s, cs, stamps, r) by {
          TrashOne(s, c.path, stamps[0]);
          TrashJoin(s, s1, cs, stamps, r);
        }
      } else {
        ReadyTail(s, cs, stamps);
        TrashKeepsContent(s, cs[1..], stamps[1..]);
        TrashSkip(s, cs, stamps, TrashAll(s, cs[1..], stamps[1..], true).value);
      }
    }
  }

  lemma ReadyTail(s: Local, cs: seq<Change>, stamps: seq<Name>)
    requires |stamps| == |cs| > 0 && Trashable(s, cs, stamps)
    ensures Trashable(s, cs[1..], stamps[1..])
  {
    var ct, st := cs[1..], stamps[1..];
    forall i | 0 <= i < |ct| && ct[i].kind.Remove? ensures ct[i].path in s.nodes && Open(s.trash, [st[i]] + ct[i].path) {
      assert ct[i] == cs[i + 1] && st[i] == stamps[i + 1];
    }
    forall i, j | 0 <= i < j < |ct| && ct[i].kind.Remove? && ct[j].kind.Remove? ensures !Comparable(ct[i].path, ct[j].path) {
      assert !Comparable(cs[i + 1].path, cs[j + 1].path);
    }
  }

  lemma RemovedByTail(cs: seq<Change>, q: Path)
    requires cs != []
    ensures RemovedBy(cs, q) <==> (cs[0].kind.Remove? && cs[0].path <= q) || RemovedBy(cs[1..], q)
  {
    if c :| c in cs && c.kind.Remove? && c.path <= q { assert c == cs[0] || c in cs[1..]; }
    if c :| c in cs[1..] && c.kind.Remove? && c.path <= q { assert c in cs; }
  }

  lemma TrashSkip(s: Local, cs: seq<Change>, stamps: seq<Name>, r: Local)
    requires |stamps| == |cs| > 0 && !cs[0].kind.Remove? && Trashed(s, cs[1..], stamps[1..], r)
    ensures Trashed(s, cs, stamps, r)
  {
    forall q ensures RemovedBy(cs, q) <==> RemovedBy(cs[1..], q) { RemovedByTail(cs, q); }
    forall i, q | 0 <= i < |cs| && q in s.nodes ensures Sheltered(s, cs[i], stamps[i], q, r) {
      if i > 0 { assert Sheltered(s, cs[1..][i - 1], stamps[1..][i - 1], q, r); }
    }
  }

  lemma TrashJoin(s: Local, s1: Local, cs: seq<Change>, stamps: seq<Name>, r: Local)
    requires |stamps| == |cs| > 0 && Trashable(s, cs, stamps) && cs[0].kind.Remove?
    requires s1.nodes == Without(s.nodes, cs[0].path) && Received(s.trash, s1.trash, s.nodes, cs[0].path, [stamps[0]] + cs[0].path)
    requires Trashed(s1, cs[1..], stamps[1..], r)
    ensures Trashed(s, cs, stamps, r)
  {
    assert Open(s.trash, [stamps[0]] + cs[0].path);
    EmptiedJoin(s, s1, cs, r, [stamps[0]] + cs[0].path);
    forall i, q | 0 <= i < |cs| && q in s.nodes ensures Sheltered(s, cs[i], stamps[i], q, r) {
      LaterSheltered(s, s1, cs, stamps, r, i, q);
    }
  }

  lemma EmptiedJoin(s: Local, s1: Local, cs: seq<Change>, r: Local, to: Path)
    requires cs != [] && cs[0].kind.Remove? && Open(s.trash, to)
    requires s1.nodes == Without(s.nodes, cs[0].path) && Received(s.trash, s1.trash, s.nodes, cs[0].path, to)
    requires Emptied(s1, cs[1..], r)
    ensures Emptied(s, cs, r)
  {
    forall q ensures RemovedBy(cs, q) <==> cs[0].path <= q || RemovedBy(cs[1..], q) { RemovedByTail(cs, q); }
    OldTrashStays(s, s1, cs[0].path, to);
  }

  lemma OldTrashStays(s: Local, s1: Local, rel: Path, to: Path)
    requires Open(s.trash, to) && Received(s.trash, s1.trash, s.nodes, rel, to)
    ensures forall q | q in s.trash :: q in s1.trash && s1.trash[q] == s.trash[q]
  {
    forall q | q in s.trash ensures q in s1.trash && s1.trash[q] == s.trash[q] {
      if to <= q { WellFormedPrefix(s.trash, to, q); }
    }
  }

  lemma LaterSheltered(s: Local, s1: Local, cs: seq<Change>, stamps: seq<Name>, r: Local, i: nat, q: Path)
    requires |stamps| == |cs| > 0 && Trashable(s, cs, stamps) && cs[0].kind.Remove? && i < |cs| && q in s.nodes
    requires s1.nodes == Without(s.nodes, cs[0].path) && Received(s.trash, s1.trash, s.nodes, cs[0].path, [stamps[0]] + cs[0].path)
    requires Trashed(s1, cs[1..], stamps[1..], r)
    ensures Sheltered(s, cs[i], stamps[i], q, r)
  {
    if cs[i].kind.Remove? && cs[i].path <= q {
      if i == 0 {
        FirstSheltered(s, s1, cs[0], stamps[0], q, r);
      } else {
        assert !Comparable(cs[0].path, cs[i].path);
        if cs[0].path <= q { PrefixesCompare(cs[0].path, cs[i].path, q); }
        assert Sheltered(s1, cs[1..][i - 1], stamps[1..][i - 1], q, r);
      }
    }
  }

  lemma FirstSheltered(s: Local, s1: Local, c: Change, stamp: Name, q: Path, r: Local)
    requires q in s.nodes && c.path <= q && Received(s.trash, s1.trash, s.nodes, c.path, [stamp] + c.path)
    requires forall k | k in s1.trash :: k in r.trash && r.trash[k] == s1.trash[k]
    ensures Sheltered(s, c, stamp, q, r)
  {
    var to, k := [stamp] + c.path, [stamp] + q;
    assert to <= k && c.path + k[|to|..] == q;
    assert k in s1.trash;
  }

  /** Trashing where renames fail: the root is untouched and the trash gains directories only. */
  ghost predicate Unsheltered(s: Local, r: Local) {
    && r.nodes == s.nodes && WellFormed(r.trash)
    && (forall q | q in s.trash :: q in r.trash && r.trash[q] == s.trash[q])
    && (forall q | q in r.trash && q !in s.trash :: r.trash[q].DirNode?)
  }

  lemma FailedRename(s: Local, rel: Path, stamp: Name)
    requires WellFormed(s.trash) && forall q | q in s.trash && q != [] && q[0] == stamp :: s.trash[q].DirNode?
    ensures TrashPath(s, rel, stamp, false).Some? && Unsheltered(s, TrashPath(s, rel, stamp, false).value)
  {
    if rel in s.nodes {
      var above := Parent([stamp] + rel);
      forall q | q in s.trash && q <= above ensures s.trash[q].DirNode? {
        if q != [] { assert q[0] == above[0] == stamp; }
      }
      MkdirAllSucceeds(s.trash, above);
      MkdirAllMakes(s.trash, above);
      MkdirAllWellFormed(s.trash, above);
    }
  }

  /** What a rename that fails leaves: the directory it was to go to, made with those above it, and nothing else. */
  lemma FailedRenameLeaves(s: Local, rel: Path, stamp: Name)
    requires WellFormed(s.trash) && rel in s.nodes && TrashPath(s, rel, stamp, false).Some?
    ensures var r := TrashPath(s, rel, stamp, false).value;
            && r.nodes == s.nodes
            && (forall q :: q in r.trash <==> q in s.trash || q < [stamp] + rel)
            && (forall q | q in r.trash :: r.trash[q] == if q in s.trash then s.trash[q] else DirNode)
  {
    var to, r := [stamp] + rel, TrashPath(s, rel, stamp, false).value;
    MkdirAllMakes(s.trash, Parent(to));
    forall q ensures q in r.trash <==> q in s.trash || q < to { PrefixOfParent(q, to); }
  }

  /** Where renames fail, trashing under fresh stamps still reports success, and keeps nothing. */
  lemma {:induction false} FailedRenamesShelterNothing(s: Local, cs: seq<Change>, stamps: seq<Name>)
    requires |stamps| == |cs| && WellFormed(s.trash)
    requires forall q | q in s.trash && q != [] && q[0] in stamps :: s.trash[q].DirNode?
    ensures TrashAll(s, cs, stamps, false).Some? && Unsheltered(s, TrashAll(s, cs, stamps, false).value)
    decreases |cs|
  {
    if cs != [] {
      var s1 := s;
      if cs[0].kind.Remove? {
        FailedRename(s, cs[0].path, stamps[0]);
        s1 := TrashPath(s, cs[0].path, stamps[0], false).value;
      }
      assert Unsheltered(s, s1);
      FailedRenamesShelterNothing(s1, cs[1..], stamps[1..]);
    }
  }

  // ---- a place that is taken ------------------------------------------------------------------------------------

  /** A rename puts a file or link over another, and a directory over an empty one. */
  predicate Displaces(source: Node, trash: Nodes, to: Path)
    requires to in trash
  {
    (!source.DirNode? && !trash[to].DirNode?) || (source.DirNode? && trash[to].DirNode? && forall q | q in trash :: !(to < q))
  }

  /**
   * Trashing a path twice under one stamp: a file takes the place of the one trashed before it, which is lost, and
   * likewise an empty directory; anything else stays where it is, and trashing reports success.
   */
  lemma TakenPlace(s: Local, rel: Path, stamp: Name)
    requires WellFormed(s.nodes) && WellFormed(s.trash) && rel in s.nodes && [stamp] + rel in s.trash
    ensures var to, r := [stamp] + rel, TrashPath(s, rel, stamp, true);
            && r.Some?
            && (!Displaces(s.nodes[rel], s.trash, to) ==> r.value == s)
            && (Displaces(s.nodes[rel], s.trash, to) ==>
                  && r.value.nodes == Without(s.nodes, rel) && to in r.value.trash && r.value.trash[to] == s.nodes[rel]
                  && forall q | !(to <= q) :: (q in r.value.trash <==> q in s.trash) && (q in s.trash ==> r.value.trash[q] == s.trash[q]))
  {
    var to := [stamp] + rel;
    assert Parent(to) < to;
    WellFormedPrefix(s.trash, Parent(to), to);
    assert MkdirAll(s.trash, Parent(to)) == Some(s.trash);
    MovedShape(s.nodes, rel, to);
    assert rel + to[|to|..] == rel;
  }

  // ---- where things come in the trash -------------------------------------------------------------------------

  /** Everything new in the trash lies under one of the stamps. */
  ghost predicate OnlyUnder(before: Nodes, after: Nodes, stamps: seq<Name>) {
    forall q | q in after :: q in before || q == [] || q[0] in stamps
  }

  lemma TrashPathStamps(s: Local, rel: Path, stamp: Name, sameDevice: bool)
    requires TrashPath(s, rel, stamp, sameDevice).Some?
    ensures OnlyUnder(s.trash, TrashPath(s, rel, stamp, sameDevice).value.trash, [stamp])
  {
    var r, to := TrashPath(s, rel, stamp, sameDevice).value, [stamp] + rel;
    forall q | q in r.trash ensures q in s.trash || q == [] || q[0] in [stamp] {
      if rel in s.nodes {
        MkdirAdds(s.trash, Parent(to), q);
        MovedShape(s.nodes, rel, to);
        assert q != [] && (q <= Parent(to) || to <= q) ==> q[0] == to[0] == stamp;
      }
    }
  }

  lemma {:induction false} TrashAllStamps(s: Local, cs: seq<Change>, stamps: seq<Name>, sameDevice: bool)
    requires |stamps| == |cs| && TrashAll(s, cs, stamps, sameDevice).Some?
    ensures OnlyUnder(s.trash, TrashAll(s, cs, stamps, sameDevice).value.trash, stamps)
    decreases |cs|
  {
    if cs != [] {
      var next := if cs[0].kind.Remove? then TrashPath(s, cs[0].path, stamps[0], sameDevice).value else s;
      if cs[0].kind.Remove? { TrashPathStamps(s, cs[0].path, stamps[0], sameDevice); }
      TrashAllStamps(next, cs[1..], stamps[1..], sameDevice);
      var after := TrashAll(s, cs, stamps, sameDevice).value.trash;
      forall q | q in after ensures q in s.trash || q == [] || q[0] in stamps {
        assert q in next.trash || q == [] || q[0] in stamps[1..];
      }
    }
  }
}
