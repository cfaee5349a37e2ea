/** What running a transition does, phase by phase, against the state it should reach. */
module Execution {
  import opened Entries
  import opened Changes
  import opened Reconcile
  import opened Tree

  type Hash = Bytes -> Digest

  function MetaOfNode(hash: Hash, n: Node): Meta {
    match n
    case DirNode => DirectoryMeta
    case FileNode(content, x) => FileMeta(hash(content), x)
    case LinkNode(t) => LinkMeta(t)
  }

  /** What a scan reports at `p`. */
  function MetaAt(hash: Hash, nodes: Nodes, p: Path): Option<Meta> {
    if p in nodes then Some(MetaOfNode(hash, nodes[p])) else None
  }

  /** Every staged file hashes to its own name. */
  ghost predicate Genuine(hash: Hash, staged: map<Digest, Bytes>) {
    forall n | n in staged :: hash(staged[n]) == n
  }

  // ---- removals ------------------------------------------------------------------------------

  ghost predicate CoveredBy(cs: seq<Change>, q: Path) {
    exists c :: c in cs && c.path <= q
  }

  ghost predicate Reachable(c: Change) {
    c.path != [] && ResolveWithin(c.path) == Some(c.path)
  }

  lemma {:induction false} RemovePhase(d: Disk, cs: seq<Change>)
    requires WellFormed(d.nodes)
    requires forall c | c in cs :: c.kind.Remove? && Reachable(c) && !Blocked(d.nodes, c.path)
    ensures var r := Run(d, cs);
            && r.0.staged == d.staged && WellFormed(r.0.nodes)
            && (forall q :: q in r.0.nodes <==> q in d.nodes && !CoveredBy(cs, q))
            && (forall q | q in r.0.nodes :: r.0.nodes[q] == d.nodes[q])
            && (forall i | 0 <= i < |cs| :: r.1[i] == Applied)
    decreases |cs|
  {
    if cs != [] {
      var c := cs[0];
      var (d1, o) := Apply(d, c);
      assert c in cs;
      assert d1.nodes == Without(d.nodes, c.path) && o == Applied;
      forall q | q in d1.nodes && q != [] ensures Parent(q) in d1.nodes && d1.nodes[Parent(q)].DirNode? {
        PrefixOfParent(c.path, q);
      }
      RemovePhase(d1, cs[1..]);
      forall q ensures CoveredBy(cs, q) <==> c.path <= q || CoveredBy(cs[1..], q) {
        if x :| x in cs && x.path <= q { assert x == c || x in cs[1..]; }
        if x :| x in cs[1..] && x.path <= q { assert x in cs; }
      }
    }
  }

  // ---- creations -----------------------------------------------------------------------------

  /** The state a batch is meant to reach: what every path should hold. */
  type Wanted = Path -> Option<Meta>

  ghost predicate Closed(w: Wanted) {
    && w([]) == Some(DirectoryMeta)
    && forall p {:trigger Parent(p)} | p != [] && w(p).Some? :: w(Parent(p)) == Some(DirectoryMeta)
  }

  lemma {:induction false} ClosedAbove(w: Wanted, q: Path, p: Path)
    requires Closed(w) && w(p).Some? && q < p
    ensures w(q) == Some(DirectoryMeta)
    decreases |p|
  {
    PrefixOfParent(q, p);
    if q != Parent(p) { ClosedAbove(w, q, Parent(p)); }
  }

  /** Whatever is there is wanted, as the same kind of thing. */
  ghost predicate OnCourse(hash: Hash, nodes: Nodes, w: Wanted) {
    forall p | p in nodes :: w(p).Some? && SameKind(MetaOfNode(hash, nodes[p]), w(p).value)
  }

  /** The change makes what is wanted at its path. */
  ghost predicate Makeable(hash: Hash, nodes: Nodes, w: Wanted, c: Change) {
    && Reachable(c)
    && w(c.path).Some? && Makes(c.kind, w(c.path).value)
    && (c.kind.SetExecutable? ==> c.path in nodes && nodes[c.path].FileNode? &&
                                  hash(nodes[c.path].content) == w(c.path).value.digest)
  }

  ghost predicate DistinctPaths(cs: seq<Change>) {
    forall i, j | 0 <= i < j < |cs| :: cs[i].path != cs[j].path
  }

  /** A path nothing was done to: unchanged, or a directory made on the way to something wanted. */
  ghost predicate LeftAlone(before: Nodes, after: Nodes, w: Wanted, p: Path) {
    if p in before then p in after && after[p] == before[p]
    else p in after ==> after[p] == DirNode && w(p) == Some(DirectoryMeta)
  }

  predicate Creates(c: Change, digest: Digest) {
    c.kind.CreateFile? && c.kind.digest == digest
  }

  /** Making the directories on the way to something wanted. */
  lemma MkdirStep(hash: Hash, nodes: Nodes, w: Wanted, top: Path)
    requires WellFormed(nodes) && Closed(w) && OnCourse(hash, nodes, w) && w(top) == Some(DirectoryMeta)
    ensures MkdirAll(nodes, top).Some?
    ensures var made := MkdirAll(nodes, top).value;
            && WellFormed(made) && OnCourse(hash, made, w) && top in made && made[top] == DirNode
            && (forall q :: LeftAlone(nodes, made, w, q))
            && (forall q | q in made :: q in nodes || q <= top)
  {
    forall q | q <= top ensures w(q) == Some(DirectoryMeta) {
      if q != top { ClosedAbove(w, q, top); }
    }
    assert ClearTo(nodes, top);
    MkdirAllSucceeds(nodes, top);
    MkdirAllMakes(nodes, top);
    MkdirAllWellFormed(nodes, top);
  }

  /** Putting what is wanted at a path that holds nothing or something of the same kind. */
  lemma LeafStep(hash: Hash, nodes: Nodes, w: Wanted, p: Path, leaf: Node)
    requires WellFormed(nodes) && Closed(w) && OnCourse(hash, nodes, w)
    requires p != [] && Parent(p) in nodes
    requires w(p) == Some(MetaOfNode(hash, leaf)) && !leaf.DirNode?
    ensures p in nodes ==> !nodes[p].DirNode?
    ensures !HasChildren(nodes, p)
    ensures WellFormed(nodes[p := leaf]) && OnCourse(hash, nodes[p := leaf], w)
    ensures MetaAt(hash, nodes[p := leaf], p) == w(p)
  {
    NoChildren(nodes, p);
    assert w(Parent(p)) == Some(DirectoryMeta);
    ReplaceLeaf(nodes, nodes[p := leaf], p);
  }

  lemma LeafLeavesAlone(before: Nodes, made: Nodes, w: Wanted, p: Path, leaf: Node, after: Nodes)
    requires after == made[p := leaf] && forall q :: LeftAlone(before, made, w, q)
    ensures forall q | q != p :: LeftAlone(before, after, w, q)
  {
    forall q | q != p ensures LeftAlone(before, after, w, q) {
      assert LeftAlone(before, made, w, q);
    }
  }

  /** What one creation promises about the disk and the outcome it leaves. */
  ghost predicate StepDone(hash: Hash, d: Disk, c: Change, w: Wanted, d1: Disk, o: Outcome) {
    && (if c.kind.CreateFile? && c.kind.digest !in d.staged then d1 == d && o == Failed(NotStaged)
        else o == Applied && MetaAt(hash, d1.nodes, c.path) == w(c.path))
    && (forall p | p != c.path :: LeftAlone(d.nodes, d1.nodes, w, p))
    && d1.staged == if c.kind.CreateFile? then d.staged - {c.kind.digest} else d.staged
  }

  ghost predicate Ready(hash: Hash, d: Disk, w: Wanted) {
    WellFormed(d.nodes) && Closed(w) && OnCourse(hash, d.nodes, w) && Genuine(hash, d.staged)
  }

  lemma FileStep(hash: Hash, d: Disk, c: Change, w: Wanted)
    requires Ready(hash, d, w) && Makeable(hash, d.nodes, w, c) && c.kind.CreateFile?
    ensures var (d1, o) := Apply(d, c); Ready(hash, d1, w) && StepDone(hash, d, c, w, d1, o)
  {
    var p, g := c.path, c.kind.digest;
    if g !in d.staged {
      assert d.staged - {g} == d.staged;
    } else {
      MkdirStep(hash, d.nodes, w, Parent(p));
      var made, leaf := MkdirAll(d.nodes, Parent(p)).value, FileNode(d.staged[g], c.kind.executable);
      LeafStep(hash, made, w, p, leaf);
      LeafLeavesAlone(d.nodes, made, w, p, leaf, made[p := leaf]);
      assert Apply(d, c) == (Disk(made[p := leaf], d.staged - {g}), Applied);
    }
  }

  lemma LinkStep(hash: Hash, d: Disk, c: Change, w: Wanted)
    requires Ready(hash, d, w) && Makeable(hash, d.nodes, w, c) && c.kind.CreateSymlink?
    ensures var (d1, o) := Apply(d, c); Ready(hash, d1, w) && StepDone(hash, d, c, w, d1, o)
  {
    var p := c.path;
    MkdirStep(hash, d.nodes, w, Parent(p));
    var made, leaf := MkdirAll(d.nodes, Parent(p)).value, LinkNode(c.kind.target);
    LeafStep(hash, made, w, p, leaf);
    LeafLeavesAlone(d.nodes, made, w, p, leaf, made[p := leaf]);
    assert Apply(d, c) == (d.(nodes := made[p := leaf]), Applied);
  }

  lemma ChmodStep(hash: Hash, d: Disk, c: Change, w: Wanted)
    requires Ready(hash, d, w) && Makeable(hash, d.nodes, w, c) && c.kind.SetExecutable?
    ensures var (d1, o) := Apply(d, c); Ready(hash, d1, w) && StepDone(hash, d, c, w, d1, o)
  {
    var p := c.path;
    var leaf := d.nodes[p].(executable := c.kind.executable);
    LeafStep(hash, d.nodes, w, p, leaf);
    assert Apply(d, c) == (d.(nodes := d.nodes[p := leaf]), Applied);
  }

  lemma CreationStep(hash: Hash, d: Disk, c: Change, w: Wanted)
    requires Ready(hash, d, w) && Makeable(hash, d.nodes, w, c)
    ensures var (d1, o) := Apply(d, c); Ready(hash, d1, w) && StepDone(hash, d, c, w, d1, o)
  {
    match c.kind {
      case CreateDirectory => MkdirStep(hash, d.nodes, w, c.path);
      case CreateFile(_, _) => FileStep(hash, d, c, w);
      case CreateSymlink(_) => LinkStep(hash, d, c, w);
      case SetExecutable(_) => ChmodStep(hash, d, c, w);
    }
  }

  lemma NoChildren(nodes: Nodes, p: Path)
    requires WellFormed(nodes) && (p in nodes ==> !nodes[p].DirNode?)
    ensures !HasChildren(nodes, p)
  {
    if q :| q in nodes && p < q { WellFormedPrefix(nodes, p, q); }
  }

  /** Replacing or adding something without children keeps the rest in directories. */
  lemma ReplaceLeaf(before: Nodes, after: Nodes, p: Path)
    requires WellFormed(before) && p != [] && Parent(p) in before && before[Parent(p)].DirNode?
    requires !HasChildren(before, p)
    requires after.Keys == before.Keys + {p} && forall q | q in before && q != p :: after[q] == before[q]
    ensures WellFormed(after)
  {
    forall q | q in after && q != [] ensures Parent(q) in after && after[Parent(q)].DirNode? {
      assert q in before || q == p;
      assert Parent(q) < q;
      assert Parent(q) != p;
    }
  }

  /** Whether the i-th change finds what it needs: content staged, and not taken by an earlier file. */
  ghost predicate Succeeds(staged: map<Digest, Bytes>, cs: seq<Change>, i: nat)
    requires i < |cs|
  {
    cs[i].kind.CreateFile? ==>
      cs[i].kind.digest in staged && forall j | 0 <= j < i :: !Creates(cs[j], cs[i].kind.digest)
  }

  ghost predicate SomeSuccessAt(staged: map<Digest, Bytes>, cs: seq<Change>, p: Path) {
    exists i :: 0 <= i < |cs| && cs[i].path == p && Succeeds(staged, cs, i)
  }

  ghost predicate Consumed(cs: seq<Change>, n: Digest) {
    exists c :: c in cs && Creates(c, n)
  }

  lemma SucceedsTail(staged: map<Digest, Bytes>, cs: seq<Change>, i: nat)
    requires 0 < i < |cs|
    ensures var c := cs[0];
            var left := if c.kind.CreateFile? then staged - {c.kind.digest} else staged;
            Succeeds(staged, cs, i) <==> Succeeds(left, cs[1..], i - 1)
  {
    var c := cs[0];
    var left := if c.kind.CreateFile? then staged - {c.kind.digest} else staged;
    if cs[i].kind.CreateFile? {
      var g := cs[i].kind.digest;
      if Succeeds(staged, cs, i) {
        assert !Creates(cs[0], g);
        forall j | 0 <= j < i - 1 ensures !Creates(cs[1..][j], g) { assert cs[1..][j] == cs[j + 1]; }
      }
      if Succeeds(left, cs[1..], i - 1) {
        assert cs[1..][i - 1] == cs[i];
        forall j | 0 <= j < i ensures !Creates(cs[j], g) {
          if j > 0 { assert cs[1..][j - 1] == cs[j]; }
        }
      }
    }
  }

  /** The exact outcome of a run of creations. */
  ghost predicate PhaseDone(hash: Hash, d: Disk, cs: seq<Change>, w: Wanted, d1: Disk, os: seq<Outcome>) {
    && |os| == |cs|
    && (forall i | 0 <= i < |cs| :: os[i] == if Succeeds(d.staged, cs, i) then Applied else Failed(NotStaged))
    && (forall i | 0 <= i < |cs| && Succeeds(d.staged, cs, i) :: MetaAt(hash, d1.nodes, cs[i].path) == w(cs[i].path))
    && (forall p | !SomeSuccessAt(d.staged, cs, p) :: LeftAlone(d.nodes, d1.nodes, w, p))
    && (forall n :: n in d1.staged <==> n in d.staged && !Consumed(cs, n))
  }

  lemma {:induction false} CreatePhase(hash: Hash, d: Disk, cs: seq<Change>, w: Wanted)
    requires Ready(hash, d, w)
    requires DistinctPaths(cs) && forall c | c in cs :: Makeable(hash, d.nodes, w, c)
    ensures var r := Run(d, cs); Ready(hash, r.0, w) && PhaseDone(hash, d, cs, w, r.0, r.1)
    decreases |cs|
  {
    if cs != [] {
      var c, rest := cs[0], cs[1..];
      var (d1, o) := Apply(d, c);
      assert c in cs;
      CreationStep(hash, d, c, w);
      forall x | x in rest ensures Makeable(hash, d1.nodes, w, x) {
        assert x in cs;
        var k :| 0 <= k < |rest| && rest[k] == x;
        assert cs[0].path != cs[k + 1].path;
        assert LeftAlone(d.nodes, d1.nodes, w, x.path);
      }
      forall i, j | 0 <= i < j < |rest| ensures rest[i].path != rest[j].path {
        assert cs[i + 1].path != cs[j + 1].path;
      }
      CreatePhase(hash, d1, rest, w);
      CreatePhaseJoin(hash, d, cs, w, d1, o);
    }
  }

  /** The first change and the run of the others, put together. */
  lemma CreatePhaseJoin(hash: Hash, d: Disk, cs: seq<Change>, w: Wanted, d1: Disk, o: Outcome)
    requires cs != [] && DistinctPaths(cs) && Apply(d, cs[0]) == (d1, o)
    requires StepDone(hash, d, cs[0], w, d1, o)
    requires PhaseDone(hash, d1, cs[1..], w, Run(d1, cs[1..]).0, Run(d1, cs[1..]).1)
    ensures PhaseDone(hash, d, cs, w, Run(d, cs).0, Run(d, cs).1)
  {
    var c, rest := cs[0], cs[1..];
    var r := Run(d, cs);
    var t := Run(d1, rest);
    assert r.0 == t.0 && r.1 == [o] + t.1;
    forall i | 0 < i < |cs| ensures Succeeds(d.staged, cs, i) <==> Succeeds(d1.staged, rest, i - 1) {
      SucceedsTail(d.staged, cs, i);
    }
    forall i | 0 <= i < |cs| ensures r.1[i] == if Succeeds(d.staged, cs, i) then Applied else Failed(NotStaged) {
      if i > 0 { assert r.1[i] == t.1[i - 1]; }
    }
    forall p ensures SomeSuccessAt(d1.staged, rest, p) ==> SomeSuccessAt(d.staged, cs, p) && p != c.path {
      if SomeSuccessAt(d1.staged, rest, p) {
        var k :| 0 <= k < |rest| && rest[k].path == p && Succeeds(d1.staged, rest, k);
        assert cs[k + 1] == rest[k] && Succeeds(d.staged, cs, k + 1);
        assert cs[0].path != cs[k + 1].path;
      }
    }
    forall i | 0 <= i < |cs| && Succeeds(d.staged, cs, i) ensures MetaAt(hash, r.0.nodes, cs[i].path) == w(cs[i].path) {
      if i == 0 {
        assert LeftAlone(d1.nodes, t.0.nodes, w, c.path);
      } else {
        assert cs[i] == rest[i - 1];
      }
    }
    forall p | !SomeSuccessAt(d.staged, cs, p) ensures LeftAlone(d.nodes, r.0.nodes, w, p) {
      assert LeftAlone(d1.nodes, t.0.nodes, w, p);
      if p == c.path {
        assert !Succeeds(d.staged, cs, 0);
        assert d1 == d;
      } else {
        assert LeftAlone(d.nodes, d1.nodes, w, p);
      }
    }
    forall n ensures Consumed(cs, n) <==> Creates(c, n) || Consumed(rest, n) {
      if x :| x in cs && Creates(x, n) { assert x == c || x in rest; }
      if x :| x in rest && Creates(x, n) { assert x in cs; }
      if Creates(c, n) { assert c in cs; }
    }
  }
}
