/** Turning tree changes into the ordered list of path operations a side applies. */
module Reconcile {
  import opened Lists
  import opened Entries
  import opened Changes

  // ---- flattening one tree change ---------------------------------------------

  /** Whether the old entry has to go before the new one can take its place. */
  predicate OwnRemoval(before: Option<Entry>, after: Option<Entry>) {
    before.Some? && (after.None? || !SameKind(MetaOf(before.value), MetaOf(after.value)))
  }

  /** What has to be done at the path itself, contents left out. */
  function OwnCreation(before: Option<Entry>, after: Option<Entry>): Option<ChangeKind> {
    match after
    case None => None
    case Some(Directory(_)) =>
      if before.Some? && before.value.Directory? then None else Some(CreateDirectory)
    case Some(File(d, x)) =>
      if before.Some? && before.value.File? && before.value.digest == d then
        if before.value.executable != x then Some(SetExecutable(x)) else None
      else Some(CreateFile(d, x))
    case Some(SymbolicLink(t)) =>
      if before == after then None else Some(CreateSymlink(t))
  }

  function OwnChanges(base: Path, before: Option<Entry>, after: Option<Entry>): seq<Change> {
    var removal := if OwnRemoval(before, after) && base != [] then [Change(base, Remove)] else [];
    var creation := OwnCreation(before, after);
    if creation.None? || (creation.value.CreateDirectory? && base == []) then removal
    else removal + [Change(base, creation.value)]
  }

  function Flatten(base: Path, before: Option<Entry>, after: Option<Entry>): seq<Change> {
    if after.None? then OwnChanges(base, before, None) else FlattenEntry(base, before, after.value)
  }

  function FlattenEntry(base: Path, before: Option<Entry>, after: Entry): seq<Change>
    decreases after, 1, 0
  {
    OwnChanges(base, before, Some(after)) +
    if after.Directory? then
      FlattenChildren(base, before, after, SortedNames(after.contents.Keys)) +
      FlattenGone(base, SortedNames(Contents(before).Keys - after.contents.Keys))
    else []
  }

  function FlattenChildren(base: Path, before: Option<Entry>, after: Entry, names: seq<Name>): seq<Change>
    requires after.Directory? && forall n | n in names :: n in after.contents
    decreases after, 0, |names|
  {
    if names == [] then []
    else
      FlattenEntry(base + [names[0]], Child(before, names[0]), after.contents[names[0]]) +
      FlattenChildren(base, before, after, names[1..])
  }

  /** A child the old tree had and the new one does not. */
  function FlattenGone(base: Path, names: seq<Name>): seq<Change> {
    if names == [] then [] else [Change(base + [names[0]], Remove)] + FlattenGone(base, names[1..])
  }

  // ---- what flattening means, path by path ---------------------------------------

  /** Whether a flattened change removes the relative path `r`. */
  predicate Removed(before: Option<Entry>, after: Option<Entry>, r: Path)
    decreases |r|
  {
    if r == [] then OwnRemoval(before, after)
    else after.Some? && after.value.Directory? && Removed(Child(before, r[0]), Child(after, r[0]), r[1..])
  }

  /** What a flattened change creates at the relative path `r`. */
  function Created(before: Option<Entry>, after: Option<Entry>, r: Path): Option<ChangeKind>
    decreases |r|
  {
    if r == [] then OwnCreation(before, after) else Created(Child(before, r[0]), Child(after, r[0]), r[1..])
  }

  ghost predicate Emits(base: Path, before: Option<Entry>, after: Option<Entry>, c: Change) {
    && base <= c.path
    && (if c.kind.Remove? then c.path != [] && Removed(before, after, c.path[|base|..])
        else Created(before, after, c.path[|base|..]) == Some(c.kind) && (c.kind.CreateDirectory? ==> c.path != []))
  }

  lemma {:induction false} CreatedNothing(before: Option<Entry>, r: Path)
    ensures Created(before, None, r) == None
    decreases |r|
  {
    if r != [] { CreatedNothing(Child(before, r[0]), r[1..]); }
  }

  lemma OwnMembers(base: Path, before: Option<Entry>, after: Option<Entry>, c: Change)
    ensures c in OwnChanges(base, before, after) <==> c.path == base && Emits(base, before, after, c)
    ensures NoRepeats(OwnChanges(base, before, after))
  {
    if c.path == base { assert c.path[|base|..] == []; }
  }

  lemma EmitsBelow(base: Path, before: Option<Entry>, after: Option<Entry>, c: Change)
    requires base < c.path
    ensures Emits(base, before, after, c) <==>
            var n := c.path[|base|];
            (c.kind.Remove? ==> after.Some? && after.value.Directory?) &&
            Emits(base + [n], Child(before, n), Child(after, n), c)
  {
    var n := c.path[|base|];
    assert base + [n] <= c.path;
    assert c.path[|base|..][1..] == c.path[|base + [n]|..];
    assert c.path[|base|..][0] == n;
  }

  lemma {:induction false} GoneMembers(base: Path, names: seq<Name>, c: Change)
    ensures c in FlattenGone(base, names) <==>
            base < c.path && |c.path| == |base| + 1 && c.path[|base|] in names && c.kind.Remove?
  {
    if names != [] {
      GoneMembers(base, names[1..], c);
      assert c.path == base + [names[0]] <==> base < c.path && |c.path| == |base| + 1 && c.path[|base|] == names[0];
    }
  }

  lemma {:induction false} FlattenMembers(base: Path, before: Option<Entry>, after: Entry, c: Change)
    ensures c in FlattenEntry(base, before, after) <==> Emits(base, before, Some(after), c)
    decreases after, 1, 0
  {
    OwnMembers(base, before, Some(after), c);
    if after.Directory? {
      ChildrenMembers(base, before, after, SortedNames(after.contents.Keys), c);
      GoneMembers(base, SortedNames(Contents(before).Keys - after.contents.Keys), c);
      if base < c.path {
        DirectoryMembers(base, before, after, c);
      }
    } else if base < c.path {
      EmitsBelow(base, before, Some(after), c);
      CreatedNothing(Child(before, c.path[|base|]), c.path[|base + [c.path[|base|]]|..]);
    }
  }

  lemma DirectoryMembers(base: Path, before: Option<Entry>, after: Entry, c: Change)
    requires after.Directory? && base < c.path
    ensures var n := c.path[|base|];
            Emits(base, before, Some(after), c) <==>
            (n in after.contents && Emits(base + [n], Child(before, n), Child(Some(after), n), c)) ||
            (n in Contents(before).Keys - after.contents.Keys && |c.path| == |base| + 1 && c.kind.Remove?)
  {
    var n := c.path[|base|];
    EmitsBelow(base, before, Some(after), c);
    if n !in after.contents {
      CreatedNothing(Child(before, n), c.path[|base + [n]|..]);
      assert |c.path| == |base| + 1 <==> c.path[|base + [n]|..] == [];
    }
  }

  lemma {:induction false} ChildrenMembers(base: Path, before: Option<Entry>, after: Entry, names: seq<Name>, c: Change)
    requires after.Directory? && forall n | n in names :: n in after.contents
    ensures c in FlattenChildren(base, before, after, names) <==>
            base < c.path && c.path[|base|] in names &&
            Emits(base + [c.path[|base|]], Child(before, c.path[|base|]), Child(Some(after), c.path[|base|]), c)
    decreases after, 0, |names|
  {
    if names != [] {
      var n := names[0];
      FlattenMembers(base + [n], Child(before, n), after.contents[n], c);
      ChildrenMembers(base, before, after, names[1..], c);
      assert Child(Some(after), n) == Some(after.contents[n]);
      assert base + [n] <= c.path <==> base < c.path && c.path[|base|] == n;
    }
  }

  lemma {:induction false} FlattenNoRepeats(base: Path, before: Option<Entry>, after: Entry)
    ensures NoRepeats(FlattenEntry(base, before, after))
    decreases after, 1, 0
  {
    var own := OwnChanges(base, before, Some(after));
    OwnMembers(base, before, Some(after), Change(base, Remove));
    if after.Directory? {
      var names, gone := SortedNames(after.contents.Keys), SortedNames(Contents(before).Keys - after.contents.Keys);
      var children, removals := FlattenChildren(base, before, after, names), FlattenGone(base, gone);
      ChildrenNoRepeats(base, before, after, names);
      GoneNoRepeats(base, gone);
      forall c ensures c in children ==> c !in removals {
        ChildrenMembers(base, before, after, names, c);
        GoneMembers(base, gone, c);
      }
      NoRepeatsConcat(children, removals);
      forall c ensures c in own ==> c !in children + removals {
        OwnMembers(base, before, Some(after), c);
        ChildrenMembers(base, before, after, names, c);
        GoneMembers(base, gone, c);
      }
      NoRepeatsConcat(own, children + removals);
    }
  }

  lemma {:induction false} ChildrenNoRepeats(base: Path, before: Option<Entry>, after: Entry, names: seq<Name>)
    requires after.Directory? && forall n | n in names :: n in after.contents
    requires NoRepeats(names)
    ensures NoRepeats(FlattenChildren(base, before, after, names))
    decreases after, 0, |names|
  {
    if names != [] {
      var n := names[0];
      var first, rest := FlattenEntry(base + [n], Child(before, n), after.contents[n]), FlattenChildren(base, before, after, names[1..]);
      FlattenNoRepeats(base + [n], Child(before, n), after.contents[n]);
      ChildrenNoRepeats(base, before, after, names[1..]);
      forall c ensures c in first ==> c !in rest {
        FlattenMembers(base + [n], Child(before, n), after.contents[n], c);
        ChildrenMembers(base, before, after, names[1..], c);
      }
      NoRepeatsConcat(first, rest);
    }
  }

  lemma {:induction false} GoneNoRepeats(base: Path, names: seq<Name>)
    requires NoRepeats(names)
    ensures NoRepeats(FlattenGone(base, names))
  {
    if names != [] {
      GoneNoRepeats(base, names[1..]);
      GoneMembers(base, names[1..], Change(base + [names[0]], Remove));
      NoRepeatsConcat([Change(base + [names[0]], Remove)], FlattenGone(base, names[1..]));
    }
  }

  // ---- how the removals and creations at each path fit together ---------------------

  /** What a creation leaves at its path. */
  predicate Makes(kind: ChangeKind, m: Meta) {
    match kind
    case CreateDirectory => m.DirectoryMeta?
    case CreateFile(d, x) => m == FileMeta(d, x)
    case CreateSymlink(t) => m == LinkMeta(t)
    case SetExecutable(x) => m.FileMeta? && m.executable == x
    case _ => false
  }

  ghost predicate Covered(before: Option<Entry>, after: Option<Entry>, r: Path) {
    exists p :: p <= r && Removed(before, after, p)
  }

  lemma {:induction false} RemovedWasThere(before: Option<Entry>, after: Option<Entry>, r: Path)
    requires Removed(before, after, r)
    ensures Look(before, r).Some?
    decreases |r|
  {
    if r != [] { RemovedWasThere(Child(before, r[0]), Child(after, r[0]), r[1..]); }
  }

  lemma {:induction false} RemovedAbove(before: Option<Entry>, after: Option<Entry>, p: Path, r: Path)
    requires p <= r && Removed(before, after, p)
    ensures Look(before, r).None? || Look(after, r).None? || (p == r && !SameKind(Look(before, r).value, Look(after, r).value))
    decreases |p|
  {
    if p != [] {
      RemovedAbove(Child(before, p[0]), Child(after, p[0]), p[1..], r[1..]);
    } else if r != [] {
      AtNone(r[1..]);
    }
  }

  /** Removing the root of a subtree is enough, so removals never nest. */
  lemma {:induction false} RemovalsDoNotNest(before: Option<Entry>, after: Option<Entry>, p: Path, r: Path)
    requires Removed(before, after, p) && Removed(before, after, r) && p <= r
    ensures p == r
    decreases |p|
  {
    if p != [] {
      RemovalsDoNotNest(Child(before, p[0]), Child(after, p[0]), p[1..], r[1..]);
      assert p == [p[0]] + p[1..] && r == [r[0]] + r[1..];
    } else if r != [] {
      RemovedWasThere(before, after, r);
      AtNone(r[1..]);
    }
  }

  /** Old content that no removal covers is still wanted, as the same kind of thing. */
  lemma {:induction false} KeptKind(before: Option<Entry>, after: Option<Entry>, r: Path)
    requires Look(before, r).Some? && !Covered(before, after, r)
    ensures Look(after, r).Some? && SameKind(Look(before, r).value, Look(after, r).value)
    decreases |r|
  {
    assert [] <= r && !Removed(before, after, []);
    if r == [] {
    } else {
      AtNone(r[1..]);
      forall p | p <= r[1..] ensures !Removed(Child(before, r[0]), Child(after, r[0]), p) {
        var q := [r[0]] + p;
        assert q <= r && q[1..] == p;
        assert !Removed(before, after, q);
      }
      KeptKind(Child(before, r[0]), Child(after, r[0]), r[1..]);
    }
  }

  /** A creation makes exactly what the new tree has there. */
  lemma {:induction false} CreationIsWanted(before: Option<Entry>, after: Option<Entry>, r: Path)
    requires Created(before, after, r).Some?
    ensures Look(after, r).Some? && Makes(Created(before, after, r).value, Look(after, r).value)
    ensures Created(before, after, r).value.SetExecutable? ==>
              Look(before, r).Some? && Look(before, r).value.FileMeta? && Look(before, r).value.digest == Look(after, r).value.digest
    ensures Created(before, after, r).value.CreateFile? ==>
              !(Look(before, r).Some? && Look(before, r).value.FileMeta? && Look(before, r).value.digest == Look(after, r).value.digest)
    ensures Look(before, r) != Look(after, r)
    decreases |r|
  {
    if r != [] { CreationIsWanted(Child(before, r[0]), Child(after, r[0]), r[1..]); }
  }

  /** New content that nothing creates was there already. */
  lemma {:induction false} UncreatedIsThere(before: Option<Entry>, after: Option<Entry>, r: Path)
    requires Created(before, after, r).None? && Look(after, r).Some?
    ensures Look(before, r) == Look(after, r)
    decreases |r|
  {
    if r != [] { UncreatedIsThere(Child(before, r[0]), Child(after, r[0]), r[1..]); }
  }

  // ---- the whole batch ---------------------------------------------------------------

  function FlattenAll(cs: seq<TreeChange>): seq<Change> {
    if cs == [] then [] else Flatten(cs[0].path, cs[0].before, cs[0].after) + FlattenAll(cs[1..])
  }

  function Depth(p: Path): nat {
    if p == [] then 0 else |p| - 1
  }

  /** Removals first, deepest first; then directories, shallowest first; then the rest. */
  function Rank(c: Change): int {
    match c.kind
    case Remove => -1000000 + (1000 - Depth(c.path))
    case CreateDirectory => Depth(c.path)
    case _ => 0x10_0000
  }

  function ChangesFrom(cs: seq<TreeChange>): seq<Change> {
    Sort(FlattenAll(cs), (a: Change, b: Change) => Rank(a) <= Rank(b))
  }

  ghost predicate EmittedBy(t: TreeChange, c: Change) {
    Emits(t.path, t.before, t.after, c)
  }

  lemma FlattenOne(t: TreeChange)
    ensures forall c :: c in Flatten(t.path, t.before, t.after) <==> EmittedBy(t, c)
    ensures NoRepeats(Flatten(t.path, t.before, t.after))
  {
    forall c ensures c in Flatten(t.path, t.before, t.after) <==> EmittedBy(t, c) {
      if t.after.Some? {
        FlattenMembers(t.path, t.before, t.after.value, c);
      } else {
        OwnMembers(t.path, t.before, None, c);
        if t.path <= c.path {
          CreatedNothing(t.before, c.path[|t.path|..]);
          assert c.path[|t.path|..] == [] <==> c.path == t.path;
        }
      }
    }
    if t.after.Some? {
      FlattenNoRepeats(t.path, t.before, t.after.value);
    } else {
      OwnMembers(t.path, t.before, None, Change(t.path, Remove));
    }
  }

  lemma {:induction false} FlattenAllMembers(cs: seq<TreeChange>)
    ensures forall c :: c in FlattenAll(cs) <==> exists t :: t in cs && EmittedBy(t, c)
  {
    if cs != [] {
      FlattenOne(cs[0]);
      FlattenAllMembers(cs[1..]);
      forall c ensures c in FlattenAll(cs) <==> exists t :: t in cs && EmittedBy(t, c) {
        if c in FlattenAll(cs) {
          if c in Flatten(cs[0].path, cs[0].before, cs[0].after) {
            assert cs[0] in cs && EmittedBy(cs[0], c);
          } else {
            assert c in FlattenAll(cs[1..]);
            var t :| t in cs[1..] && EmittedBy(t, c);
            assert t in cs;
          }
        }
        if t :| t in cs && EmittedBy(t, c) {
          assert t == cs[0] || t in cs[1..];
        }
      }
    }
  }

  lemma {:induction false} FlattenAllNoRepeats(cs: seq<TreeChange>)
    requires NonNested(cs)
    ensures NoRepeats(FlattenAll(cs))
  {
    if cs != [] {
      FlattenOne(cs[0]);
      FlattenAllNoRepeats(cs[1..]);
      FlattenAllMembers(cs[1..]);
      var first, rest := Flatten(cs[0].path, cs[0].before, cs[0].after), FlattenAll(cs[1..]);
      forall c | c in first ensures c !in rest {
        if c in rest {
          var t :| t in cs[1..] && EmittedBy(t, c);
          assert !Comparable(cs[0].path, t.path);
          PrefixesCompare(cs[0].path, t.path, c.path);
        }
      }
      NoRepeatsConcat(first, rest);
    }
  }

  lemma RankIsPreorder()
    ensures TotalPreorder((a: Change, b: Change) => Rank(a) <= Rank(b))
  {}

  /** The sorted list holds exactly what the changes flatten to. */
  lemma ChangesFromMembers(cs: seq<TreeChange>)
    ensures forall c :: c in ChangesFrom(cs) <==> exists t :: t in cs && EmittedBy(t, c)
  {
    FlattenAllMembers(cs);
    SameElements(FlattenAll(cs), ChangesFrom(cs));
  }

  lemma ChangesFromNoRepeats(cs: seq<TreeChange>)
    requires NonNested(cs)
    ensures NoRepeats(ChangesFrom(cs))
  {
    FlattenAllNoRepeats(cs);
    NoRepeatsPermutes(FlattenAll(cs), ChangesFrom(cs));
  }

  ghost predicate Ranked(l: seq<Change>) {
    forall i, j | 0 <= i < j < |l| :: Rank(l[i]) <= Rank(l[j])
  }

  lemma ChangesFromRanked(cs: seq<TreeChange>)
    ensures Ranked(ChangesFrom(cs))
  {
    var le := (a: Change, b: Change) => Rank(a) <= Rank(b);
    RankIsPreorder();
    SortSorted(FlattenAll(cs), le);
    var l := ChangesFrom(cs);
    forall i, j | 0 <= i < j < |l| ensures Rank(l[i]) <= Rank(l[j]) {
      assert le(l[i], l[j]);
    }
  }
}
