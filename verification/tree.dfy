/** The filesystem side of sync: one root, its staging area, and applying changes to them. */
module Tree {
  import opened Entries
  import opened Changes

  const STATE_DIR_NAME: Name := ".agyn-sync"

  datatype Node = DirNode | FileNode(content: Bytes, executable: bool) | LinkNode(target: string)

  type Nodes = map<Path, Node>

  /** A root with one file in it. */
  function OneFile(n: Name, content: Bytes): Nodes {
    map[[] := DirNode, [n] := FileNode(content, false)]
  }

  /** A root's nodes by path, and the fully staged content beside them by digest. */
  datatype Disk = Disk(nodes: Nodes, staged: map<Digest, Bytes>)

  datatype Failure = BadPath | NotStaged | NotDirectory | IsDirectory | NotEmpty | Missing | UnsupportedKind

  datatype Outcome = Applied | Failed(why: Failure)

  datatype Result = Result(path: Path, outcome: Outcome)

  // ---- path confinement ---------------------------------------------------------------

  /** `filepath.Clean` on the components of a relative path, `done` being the ones already cleaned. */
  function Clean(done: seq<string>, parts: seq<string>): seq<string>
    decreases |parts|
  {
    if parts == [] then done
    else if parts[0] == "" || parts[0] == "." then Clean(done, parts[1..])
    else if parts[0] == ".." && done != [] && done[|done| - 1] != ".." then Clean(done[..|done| - 1], parts[1..])
    else Clean(done + [parts[0]], parts[1..])
  }

  /** Where a change's path lands under the root; None when it is refused. */
  function ResolveWithin(parts: Path): Option<Path> {
    if parts == [] || parts[0] == "" then None
    else
      var cleaned := Clean([], parts);
      if cleaned != [] && (cleaned[0] == ".." || cleaned[0] == STATE_DIR_NAME) then None else Some(cleaned)
  }

  predicate Proper(name: Name) {
    name != "" && name != "." && name != ".."
  }

  predicate AllProper(p: Path) {
    forall n | n in p :: Proper(n)
  }

  /** Everything after the leading ".." components is a proper name. */
  ghost predicate Cleaned(p: seq<string>, ups: nat) {
    ups <= |p| && (forall i | 0 <= i < ups :: p[i] == "..") && forall i | ups <= i < |p| :: Proper(p[i])
  }

  lemma {:induction false} CleanShape(done: seq<string>, parts: seq<string>, ups: nat)
    requires Cleaned(done, ups)
    ensures exists k :: Cleaned(Clean(done, parts), k)
    decreases |parts|
  {
    if parts == [] {
      assert Cleaned(Clean(done, parts), ups);
    } else if parts[0] == "" || parts[0] == "." {
      CleanShape(done, parts[1..], ups);
      assert Clean(done, parts) == Clean(done, parts[1..]);
    } else if parts[0] == ".." && done != [] && done[|done| - 1] != ".." {
      CleanShape(done[..|done| - 1], parts[1..], ups);
      assert Clean(done, parts) == Clean(done[..|done| - 1], parts[1..]);
    } else if parts[0] == ".." {
      CleanShape(done + [".."], parts[1..], |done| + 1);
      assert Clean(done, parts) == Clean(done + [".."], parts[1..]);
    } else {
      CleanShape(done + [parts[0]], parts[1..], ups);
      assert Clean(done, parts) == Clean(done + [parts[0]], parts[1..]);
    }
  }

  /** No accepted path, whatever was sent, leaves the root or enters sync's own state. */
  lemma ResolveConfines(parts: Path)
    requires ResolveWithin(parts).Some?
    ensures AllProper(ResolveWithin(parts).value)
    ensures !([STATE_DIR_NAME] <= ResolveWithin(parts).value)
  {
    CleanShape([], parts, 0);
    var p := Clean([], parts);
    var k :| Cleaned(p, k);
    assert k == 0;
  }

  lemma {:induction false} CleanKeepsProper(done: seq<string>, parts: seq<string>)
    requires AllProper(parts)
    ensures Clean(done, parts) == done + parts
    decreases |parts|
  {
    if parts != [] {
      assert parts[0] in parts;
      CleanKeepsProper(done + [parts[0]], parts[1..]);
      assert done + [parts[0]] + parts[1..] == done + parts;
    }
  }

  /** A path made of names and outside sync's state is accepted as it is. */
  lemma ResolveKeeps(p: Path)
    requires p != [] && AllProper(p) && p[0] != STATE_DIR_NAME
    ensures ResolveWithin(p) == Some(p)
  {
    assert p[0] in p;
    CleanKeepsProper([], p);
    assert [] + p == p;
    assert Clean([], p) == p;
  }

  /** Cleaning a path with something more at its end. */
  lemma {:induction false} CleanMore(done: seq<string>, a: seq<string>, b: seq<string>)
    ensures Clean(done, a + b) == Clean(Clean(done, a), b)
    decreases |a|
  {
    if a == [] {
      assert a + b == b;
    } else {
      assert (a + b)[1..] == a[1..] + b;
      if a[0] == "" || a[0] == "." {
        CleanMore(done, a[1..], b);
      } else if a[0] == ".." && done != [] && done[|done| - 1] != ".." {
        CleanMore(done[..|done| - 1], a[1..], b);
      } else {
        CleanMore(done + [a[0]], a[1..], b);
      }
    }
  }

  /** Empty and "." components are nothing, and ".." takes away the name before it. */
  lemma DotsMean(a: seq<string>, n: string, b: seq<string>)
    requires Proper(n)
    ensures Clean([], a + [""] + b) == Clean([], a + ["."] + b) == Clean([], a + b)
    ensures Clean([], a + [n, ".."] + b) == Clean([], a + b)
  {
    var done := Clean([], a);
    CleanMore([], a, b);
    CleanMore([], a + [""], b);
    CleanMore([], a, [""]);
    CleanMore([], a + ["."], b);
    CleanMore([], a, ["."]);
    CleanMore([], a + [n, ".."], b);
    CleanMore([], a, [n, ".."]);
    assert [""][1..] == [] && ["."][1..] == [];
    assert [n, ".."][1..] == [".."] && [".."][1..] == [];
    assert (done + [n])[..|done + [n]| - 1] == done;
  }

  lemma {:induction false} CleanKeepsUp(done: seq<string>, parts: seq<string>)
    requires done != [] && done[0] == ".."
    ensures Clean(done, parts) != [] && Clean(done, parts)[0] == ".."
    decreases |parts|
  {
    if parts != [] {
      if parts[0] == "" || parts[0] == "." {
        CleanKeepsUp(done, parts[1..]);
      } else if parts[0] == ".." && done[|done| - 1] != ".." {
        CleanKeepsUp(done[..|done| - 1], parts[1..]);
      } else {
        CleanKeepsUp(done + [parts[0]], parts[1..]);
      }
    }
  }

  /** How far names and ".." have come from the root; the path has been above it once that is below nothing. */
  function Level(parts: seq<string>): int {
    if parts == [] then 0
    else
      var k := |parts| - 1;
      Level(parts[..k]) + if parts[k] == "" || parts[k] == "." then 0 else if parts[k] == ".." then -1 else 1
  }

  ghost predicate Escapes(parts: seq<string>) {
    exists k :: 0 <= k <= |parts| && Level(parts[..k]) < 0
  }

  lemma {:induction false} CleanLevel(parts: seq<string>)
    ensures if Escapes(parts) then Clean([], parts) != [] && Clean([], parts)[0] == ".."
            else |Clean([], parts)| == Level(parts) && AllProper(Clean([], parts))
    decreases |parts|
  {
    if parts != [] {
      var k := |parts| - 1;
      var before, last := parts[..k], parts[k];
      CleanLevel(before);
      assert parts == before + [last];
      CleanMore([], before, [last]);
      EscapesMore(parts);
      assert [last][1..] == [];
      var done := Clean([], before);
      if Escapes(before) {
        CleanKeepsUp(done, [last]);
      } else if done != [] {
        assert done[|done| - 1] in done;
      }
    } else {
      assert forall j | 0 <= j <= |parts| :: parts[..j] == [];
    }
  }

  lemma EscapesMore(parts: seq<string>)
    requires parts != []
    ensures Escapes(parts) <==> Escapes(parts[..|parts| - 1]) || Level(parts) < 0
  {
    var before := parts[..|parts| - 1];
    assert forall j | 0 <= j < |parts| :: before[..j] == parts[..j];
    assert parts[..|parts|] == parts;
  }

  /** A path is refused exactly when it is empty, starts at the filesystem's root, goes above the root it is under, or enters sync's state. */
  lemma RefusedExactly(parts: Path)
    ensures ResolveWithin(parts).None? <==>
            parts == [] || parts[0] == "" || Escapes(parts) || [STATE_DIR_NAME] <= Clean([], parts)
  {
    CleanLevel(parts);
    var p := Clean([], parts);
    if !Escapes(parts) && p != [] { assert p[0] in p; }
    assert [STATE_DIR_NAME] <= p <==> p != [] && p[0] == STATE_DIR_NAME;
  }

  // ---- filesystem operations -------------------------------------------------------------

  /** Every node but the root lies in a directory. */
  ghost predicate WellFormed(nodes: Nodes) {
    && ([] in nodes ==> nodes[[]].DirNode?)
    && forall p {:trigger Parent(p)} | p in nodes && p != [] :: Parent(p) in nodes && nodes[Parent(p)].DirNode?
  }

  /** Creates `p` and whatever directories it lacks; None when something else is in the way. */
  function MkdirAll(nodes: Nodes, p: Path): Option<Nodes>
    decreases |p|
  {
    if p in nodes then (if nodes[p].DirNode? then Some(nodes) else None)
    else if p == [] then Some(nodes[[] := DirNode])
    else
      var above := MkdirAll(nodes, Parent(p));
      if above.None? then None else Some(above.value[p := DirNode])
  }

  /** Whether something other than a directory stands strictly above `p`. */
  predicate Blocked(nodes: Nodes, p: Path) {
    exists k | 0 <= k < |p| :: p[..k] in nodes && !nodes[p[..k]].DirNode?
  }

  function Without(nodes: Nodes, p: Path): Nodes {
    map q | q in nodes && !(p <= q) :: nodes[q]
  }

  predicate HasChildren(nodes: Nodes, p: Path) {
    exists q | q in nodes :: p < q
  }

  function RemoveAll(d: Disk, p: Path): (Disk, Outcome) {
    if Blocked(d.nodes, p) then (d, Failed(NotDirectory))
    else (Disk(Without(d.nodes, p), if p == [] then map[] else d.staged), Applied)
  }

  function CreateDirectoryAt(d: Disk, p: Path): (Disk, Outcome) {
    var made := MkdirAll(d.nodes, p);
    if made.None? then (d, Failed(NotDirectory)) else (d.(nodes := made.value), Applied)
  }

  /** Renames staged content into place, so the content leaves the staging area. */
  function CreateFileAt(d: Disk, p: Path, digest: Digest, executable: bool): (Disk, Outcome) {
    if digest !in d.staged then (d, Failed(NotStaged))
    else
      var made := MkdirAll(d.nodes, Parent(p));
      if made.None? then (d, Failed(NotDirectory))
      else if p in made.value && made.value[p].DirNode? then (d.(nodes := made.value), Failed(IsDirectory))
      else (Disk(made.value[p := FileNode(d.staged[digest], executable)], d.staged - {digest}), Applied)
  }

  function CreateSymlinkAt(d: Disk, p: Path, target: string): (Disk, Outcome) {
    var made := MkdirAll(d.nodes, Parent(p));
    if made.None? then (d, Failed(NotDirectory))
    else if p == [] || HasChildren(made.value, p) then (d.(nodes := made.value), Failed(NotEmpty))
    else (d.(nodes := made.value[p := LinkNode(target)]), Applied)
  }

  function ChmodAt(d: Disk, p: Path, executable: bool): (Disk, Outcome) {
    if p !in d.nodes then (d, Failed(Missing))
    else if d.nodes[p].FileNode? then (d.(nodes := d.nodes[p := d.nodes[p].(executable := executable)]), Applied)
    else (d, Applied)
  }

  function Apply(d: Disk, c: Change): (Disk, Outcome) {
    match ResolveWithin(c.path)
    case None => (d, Failed(BadPath))
    case Some(p) =>
      match c.kind
      case CreateDirectory => CreateDirectoryAt(d, p)
      case CreateFile(digest, executable) => CreateFileAt(d, p, digest, executable)
      case CreateSymlink(target) => CreateSymlinkAt(d, p, target)
      case Remove => RemoveAll(d, p)
      case SetExecutable(executable) => ChmodAt(d, p, executable)
      case Unspecified => (d, Failed(UnsupportedKind))
  }

  /** What a list of changes does: the final disk and one outcome per change. */
  function Run(d: Disk, cs: seq<Change>): (r: (Disk, seq<Outcome>))
    ensures |r.1| == |cs|
    decreases |cs|
  {
    if cs == [] then (d, [])
    else
      var (d1, o) := Apply(d, cs[0]);
      var (d2, os) := Run(d1, cs[1..]);
      (d2, [o] + os)
  }

  lemma {:induction false} RunConcat(d: Disk, a: seq<Change>, b: seq<Change>)
    ensures Run(d, a + b).0 == Run(Run(d, a).0, b).0
    ensures Run(d, a + b).1 == Run(d, a).1 + Run(Run(d, a).0, b).1
    decreases |a|
  {
    if a == [] {
      assert a + b == b;
    } else {
      assert (a + b)[1..] == a[1..] + b;
      var (d1, o) := Apply(d, a[0]);
      var tail := Run(d1, a[1..]);
      RunConcat(d1, a[1..], b);
      assert Run(d, a) == (tail.0, [o] + tail.1);
      assert Run(d, a + b) == (Run(d1, a[1..] + b).0, [o] + Run(d1, a[1..] + b).1);
      assert [o] + (tail.1 + Run(tail.0, b).1) == ([o] + tail.1) + Run(tail.0, b).1;
    }
  }

  /** Nothing but directories stands at or above `p`. */
  ghost predicate ClearTo(nodes: Nodes, p: Path) {
    forall q | q in nodes && q <= p :: nodes[q].DirNode?
  }

  lemma {:induction false} MkdirAllSucceeds(nodes: Nodes, p: Path)
    requires WellFormed(nodes)
    ensures MkdirAll(nodes, p).Some? <==> ClearTo(nodes, p)
    decreases |p|
  {
    if p in nodes {
      forall q | q in nodes && q <= p && q != p ensures nodes[q].DirNode? {
        WellFormedPrefix(nodes, q, p);
      }
    } else if p != [] {
      MkdirAllSucceeds(nodes, Parent(p));
      forall q | q in nodes ensures q <= p <==> q <= Parent(p) { PrefixOfParent(q, p); }
    }
  }

  /** Whatever is there stays, and nothing is made but at and above `p`. */
  lemma {:induction false} MkdirAdds(nodes: Nodes, p: Path, q: Path)
    requires MkdirAll(nodes, p).Some?
    ensures var made := MkdirAll(nodes, p).value;
            && (q in nodes ==> q in made && made[q] == nodes[q])
            && (q in made && q !in nodes ==> q <= p)
    decreases |p|
  {
    if p !in nodes && p != [] {
      MkdirAdds(nodes, Parent(p), q);
      PrefixOfParent(q, p);
    }
  }

  /** Success adds exactly the missing directories at and above `p`. */
  lemma {:induction false} MkdirAllMakes(nodes: Nodes, p: Path)
    requires WellFormed(nodes) && MkdirAll(nodes, p).Some?
    ensures var made := MkdirAll(nodes, p).value;
            && (forall q :: q in made <==> q in nodes || q <= p)
            && (forall q | q in made :: made[q] == if q in nodes then nodes[q] else DirNode)
    decreases |p|
  {
    var made := MkdirAll(nodes, p).value;
    if p in nodes {
      forall q | q <= p ensures q in nodes { WellFormedPrefix(nodes, q, p); }
    } else if p == [] {
      forall q ensures q in made <==> q in nodes || q <= p { assert q <= p <==> q == []; }
    } else {
      MkdirAllMakes(nodes, Parent(p));
      forall q ensures q in made <==> q in nodes || q <= p { PrefixOfParent(q, p); }
    }
  }

  lemma MkdirAllWellFormed(nodes: Nodes, p: Path)
    requires WellFormed(nodes) && MkdirAll(nodes, p).Some?
    ensures WellFormed(MkdirAll(nodes, p).value)
  {
    MkdirAllMakes(nodes, p);
    MkdirAllSucceeds(nodes, p);
    var made := MkdirAll(nodes, p).value;
    forall q | q in made && q != [] ensures Parent(q) in made && made[Parent(q)].DirNode? {
      if q !in nodes { assert Parent(q) <= p; }
    }
  }

  lemma {:induction false} WellFormedPrefix(nodes: Nodes, q: Path, p: Path)
    requires WellFormed(nodes) && p in nodes && q <= p
    ensures q in nodes && (q != p ==> nodes[q].DirNode?)
    decreases |p|
  {
    if q != p {
      assert q <= Parent(p);
      WellFormedPrefix(nodes, q, Parent(p));
    }
  }

  // ---- exactly when a change applies ------------------------------------------------------------------------

  /** Something other than a directory stands above the path. */
  ghost predicate CutOff(nodes: Nodes, p: Path) {
    exists q :: q in nodes && q < p && !nodes[q].DirNode?
  }

  lemma BlockedIsCutOff(nodes: Nodes, p: Path)
    ensures Blocked(nodes, p) <==> CutOff(nodes, p)
  {
    if Blocked(nodes, p) {
      var k :| 0 <= k < |p| && p[..k] in nodes && !nodes[p[..k]].DirNode?;
      assert p[..k] < p;
    }
    if q :| q in nodes && q < p && !nodes[q].DirNode? { assert q == p[..|q|]; }
  }

  lemma MkdirAboveExactly(nodes: Nodes, p: Path)
    requires WellFormed(nodes)
    ensures MkdirAll(nodes, p).Some? <==> !CutOff(nodes, p) && (p in nodes ==> nodes[p].DirNode?)
    ensures p != [] ==> (MkdirAll(nodes, Parent(p)).Some? <==> !CutOff(nodes, p))
  {
    MkdirAllSucceeds(nodes, p);
    if p != [] {
      MkdirAllSucceeds(nodes, Parent(p));
      forall q | q in nodes ensures q < p <==> q <= Parent(p) { PrefixOfParent(q, p); }
    }
  }

  /** What stands at the path, whatever directories were made above it. */
  lemma MkdirAboveLeaves(nodes: Nodes, p: Path)
    requires WellFormed(nodes) && p != [] && MkdirAll(nodes, Parent(p)).Some?
    ensures var made := MkdirAll(nodes, Parent(p)).value;
            && (p in made <==> p in nodes) && (p in nodes ==> made[p] == nodes[p]) && (HasChildren(made, p) <==> HasChildren(nodes, p))
  {
    MkdirAllMakes(nodes, Parent(p));
    var made := MkdirAll(nodes, Parent(p)).value;
    assert !(p <= Parent(p));
    if q :| q in made && p < q { assert q in nodes; }
    if q :| q in nodes && p < q { assert q in made; }
  }

  /** How one change must end, by what stands at its path and above it and what is staged. */
  ghost predicate EndsAs(d: Disk, p: Path, kind: ChangeKind, outcome: Outcome) {
    match kind
    case Remove => outcome == if CutOff(d.nodes, p) then Failed(NotDirectory) else Applied
    case CreateDirectory =>
      outcome == if CutOff(d.nodes, p) || (p in d.nodes && !d.nodes[p].DirNode?) then Failed(NotDirectory) else Applied
    case CreateFile(digest, _) =>
      outcome == if digest !in d.staged then Failed(NotStaged)
                 else if CutOff(d.nodes, p) then Failed(NotDirectory)
                 else if p in d.nodes && d.nodes[p].DirNode? then Failed(IsDirectory)
                 else Applied
    case CreateSymlink(_) =>
      outcome == if CutOff(d.nodes, p) then Failed(NotDirectory)
                 else if exists q :: q in d.nodes && p < q then Failed(NotEmpty)
                 else Applied
    case SetExecutable(_) => outcome == if p in d.nodes then Applied else Failed(Missing)
    case Unspecified => outcome == Failed(UnsupportedKind)
  }

  /** Over any root and any staging, below the root itself. */
  lemma OutcomeExactly(d: Disk, c: Change)
    requires WellFormed(d.nodes)
    ensures var p := ResolveWithin(c.path);
            if p.None? then Apply(d, c) == (d, Failed(BadPath))
            else p.value != [] ==> EndsAs(d, p.value, c.kind, Apply(d, c).1)
  {
    var p := ResolveWithin(c.path);
    if p.Some? && p.value != [] {
      BlockedIsCutOff(d.nodes, p.value);
      MkdirAboveExactly(d.nodes, p.value);
      if MkdirAll(d.nodes, Parent(p.value)).Some? { MkdirAboveLeaves(d.nodes, p.value); }
    }
  }

  /** A change that removes the root itself takes everything, the staging area with it. */
  lemma RootRemoval(d: Disk, c: Change)
    requires ResolveWithin(c.path) == Some([]) && c.kind.Remove?
    ensures Apply(d, c) == (Disk(map[], map[]), Applied)
  {}

  // ---- the executor -------------------------------------------------------------------------

  class Root {
    var nodes: Nodes
    var staged: map<Digest, Bytes>

    function State(): Disk
      reads this
    {
      Disk(nodes, staged)
    }

    constructor (nodes: Nodes, staged: map<Digest, Bytes>)
      ensures State() == Disk(nodes, staged)
    {
      this.nodes, this.staged := nodes, staged;
    }

    method MakeDirectories(p: Path) returns (ok: bool)
      modifies this`nodes
      ensures ok == MkdirAll(old(nodes), p).Some?
      ensures nodes == if ok then MkdirAll(old(nodes), p).value else old(nodes)
      decreases |p|
    {
      if p in nodes { return nodes[p].DirNode?; }
      if p != [] {
        ok := MakeDirectories(Parent(p));
        if !ok { return; }
      }
      nodes := nodes[p := DirNode];
      ok := true;
    }

    method CreateFile(p: Path, digest: Digest, executable: bool) returns (outcome: Outcome)
      modifies this
      ensures (State(), outcome) == CreateFileAt(old(State()), p, digest, executable)
    {
      if digest !in staged { return Failed(NotStaged); }
      var ok := MakeDirectories(Parent(p));
      if !ok { return Failed(NotDirectory); }
      if p in nodes && nodes[p].DirNode? { return Failed(IsDirectory); }
      nodes := nodes[p := FileNode(staged[digest], executable)];
      staged := staged - {digest};
      outcome := Applied;
    }

    method CreateLink(p: Path, target: string) returns (outcome: Outcome)
      modifies this
      ensures (State(), outcome) == CreateSymlinkAt(old(State()), p, target)
    {
      var ok := MakeDirectories(Parent(p));
      if !ok { return Failed(NotDirectory); }
      if p == [] || HasChildren(nodes, p) { return Failed(NotEmpty); }
      nodes := nodes - {p};
      nodes := nodes[p := LinkNode(target)];
      assert nodes == MkdirAll(old(nodes), Parent(p)).value[p := LinkNode(target)];
      outcome := Applied;
    }

    method ApplyChange(c: Change) returns (outcome: Outcome)
      modifies this
      ensures (State(), outcome) == Apply(old(State()), c)
    {
      var resolved := ResolveWithin(c.path);
      if resolved.None? { return Failed(BadPath); }
      var p := resolved.value;
      match c.kind {
        case CreateDirectory =>
          var ok := MakeDirectories(p);
          outcome := if ok then Applied else Failed(NotDirectory);
        case CreateFile(digest, executable) =>
          outcome := CreateFile(p, digest, executable);
        case CreateSymlink(target) =>
          outcome := CreateLink(p, target);
        case Remove =>
          if Blocked(nodes, p) { return Failed(NotDirectory); }
          nodes := Without(nodes, p);
          if p == [] { staged := map[]; }
          outcome := Applied;
        case SetExecutable(executable) =>
          if p !in nodes { return Failed(Missing); }
          if nodes[p].FileNode? { nodes := nodes[p := nodes[p].(executable := executable)]; }
          outcome := Applied;
        case Unspecified =>
          outcome := Failed(UnsupportedKind);
      }
    }

    /** Applies every change in order; a failure on one does not stop the rest. */
    method Transition(changes: seq<Change>) returns (results: seq<Result>)
      modifies this
      ensures State() == Run(old(State()), changes).0
      ensures |results| == |changes|
      ensures forall i | 0 <= i < |changes| ::
                results[i] == Result(changes[i].path, Run(old(State()), changes).1[i])
    {
      results := [];
      ghost var outcomes: seq<Outcome> := [];
      assert changes[0..] == changes;
      for i := 0 to |changes|
        invariant |results| == |outcomes| == i
        invariant forall k | 0 <= k < i :: results[k] == Result(changes[k].path, outcomes[k])
        invariant Run(old(State()), changes).0 == Run(State(), changes[i..]).0
        invariant Run(old(State()), changes).1 == outcomes + Run(State(), changes[i..]).1
      {
        ghost var rest := changes[i..];
        assert rest[0] == changes[i] && rest[1..] == changes[i + 1..];
        ghost var before := Run(State(), rest);
        var outcome := ApplyChange(changes[i]);
        results := results + [Result(changes[i].path, outcome)];
        assert before.1 == [outcome] + Run(State(), changes[i + 1..]).1;
        outcomes := outcomes + [outcome];
      }
    }
  }
}
