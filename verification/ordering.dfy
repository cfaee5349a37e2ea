/** The order a flattened list comes in. */
module Ordering {
  import opened Lists
  import opened Entries
  import opened Changes
  import opened Splice
  import opened Reconcile

  /** No removal lies within another, whatever changes they come from. */
  lemma RemovalsApart(cs: seq<TreeChange>, x: Change, y: Change)
    requires NonNested(cs) && x in ChangesFrom(cs) && y in ChangesFrom(cs) && x.kind.Remove? && y.kind.Remove?
    requires x.path <= y.path
    ensures x == y
  {
    ChangesFromMembers(cs);
    var a :| a in cs && EmittedBy(a, x);
    var b :| b in cs && EmittedBy(b, y);
    SameOwner(cs, a, b, y.path);
    Beyond(a.path, x.path, y.path);
    RemovalsDoNotNest(a.before, a.after, x.path[|a.path|..], y.path[|a.path|..]);
  }

  lemma Beyond(base: Path, p: Path, q: Path)
    requires base <= p <= q
    ensures p[|base|..] <= q[|base|..] && (p[|base|..] == q[|base|..] ==> p == q)
  {
    assert p == base + p[|base|..] && q == base + q[|base|..];
  }

  /** How an earlier change of a list relates to a later one. */
  ghost predicate Precedes(a: Change, b: Change) {
    && (b.kind.Remove? ==> a.kind.Remove? && |b.path| <= |a.path| && !Comparable(a.path, b.path))
    && (b.kind.CreateDirectory? ==>
          || a.kind.Remove?
          || (a.kind.CreateDirectory? && |a.path| <= |b.path| && !(b.path <= a.path))
          || (!a.kind.CreateDirectory? && |b.path| > 0x10_0000))
  }

  lemma OrderOf(cs: seq<TreeChange>, a: Change, b: Change)
    requires NonNested(cs) && a in ChangesFrom(cs) && b in ChangesFrom(cs) && a != b && Rank(a) <= Rank(b)
    ensures Precedes(a, b)
  {
    ChangesFromMembers(cs);
    if b.kind.Remove? && a.kind.Remove? {
      if a.path <= b.path { RemovalsApart(cs, a, b); } else if b.path <= a.path { RemovalsApart(cs, b, a); }
    }
  }

  function OfRank(l: seq<Change>, r: int): seq<Change> {
    Filter(l, (c: Change) => Rank(c) == r)
  }

  /**
   * The order of every list: removals first, deepest first, none within another; then directories, shallowest first,
   * so each comes before those inside it; then everything else, unless a directory lies a million levels down. What
   * ranks the same stays as it was flattened.
   */
  lemma ListIsOrdered(cs: seq<TreeChange>)
    requires NonNested(cs)
    ensures var l := ChangesFrom(cs);
            && (forall i, j | 0 <= i < j < |l| :: Precedes(l[i], l[j]))
            && multiset(l) == multiset(FlattenAll(cs))
            && (forall r :: OfRank(l, r) == OfRank(FlattenAll(cs), r))
  {
    var l := ChangesFrom(cs);
    ChangesFromRanked(cs);
    ChangesFromNoRepeats(cs);
    forall i, j | 0 <= i < j < |l| ensures Precedes(l[i], l[j]) {
      assert l[i] != l[j];
      OrderOf(cs, l[i], l[j]);
    }
    forall r ensures OfRank(l, r) == OfRank(FlattenAll(cs), r) {
      SortStable(FlattenAll(cs), (a: Change, b: Change) => Rank(a) <= Rank(b), (c: Change) => Rank(c) == r);
    }
  }

  // ---- a directory and what is created in it -------------------------------------------------------------

  ghost predicate Before<T>(s: seq<T>, a: T, b: T) {
    exists i, j :: 0 <= i < j < |s| && s[i] == a && s[j] == b
  }

  lemma BeforeIn<T>(s: seq<T>, t: seq<T>, a: T, b: T)
    ensures Before(s, a, b) || Before(t, a, b) || (a in s && b in t) ==> Before(s + t, a, b)
  {
    if Before(s, a, b) {
      var i, j :| 0 <= i < j < |s| && s[i] == a && s[j] == b;
      assert (s + t)[i] == a && (s + t)[j] == b;
    }
    if Before(t, a, b) {
      var i, j :| 0 <= i < j < |t| && t[i] == a && t[j] == b;
      assert (s + t)[|s| + i] == a && (s + t)[|s| + j] == b;
    }
    if a in s && b in t {
      var i :| 0 <= i < |s| && s[i] == a;
      var j :| 0 <= j < |t| && t[j] == b;
      assert (s + t)[i] == a && (s + t)[|s| + j] == b;
    }
  }

  lemma {:induction false} BeforeSurvivesFilter<T(!new)>(s: seq<T>, keep: T -> bool, a: T, b: T)
    requires Before(s, a, b) && keep(a) && keep(b)
    ensures Before(Filter(s, keep), a, b)
  {
    var i, j :| 0 <= i < j < |s| && s[i] == a && s[j] == b;
    var rest := s[1..];
    assert rest[j - 1] == b;
    if i == 0 {
      BeforeIn([a], Filter(rest, keep), a, b);
    } else {
      assert rest[i - 1] == a;
      BeforeSurvivesFilter(rest, keep, a, b);
      BeforeIn([s[0]], Filter(rest, keep), a, b);
    }
  }

  lemma {:induction false} BeforeWasBefore<T(!new)>(s: seq<T>, keep: T -> bool, a: T, b: T)
    requires Before(Filter(s, keep), a, b)
    ensures Before(s, a, b)
  {
    var rest := s[1..];
    assert s == [s[0]] + rest;
    BeforeIn([s[0]], rest, a, b);
    var f := Filter(s, keep);
    var i, j :| 0 <= i < j < |f| && f[i] == a && f[j] == b;
    if keep(s[0]) {
      assert Filter(rest, keep)[j - 1] == b;
      if i == 0 {
        assert a in [s[0]] && b in rest;
      } else {
        assert Filter(rest, keep)[i - 1] == a;
        BeforeWasBefore(rest, keep, a, b);
      }
    } else {
      BeforeWasBefore(rest, keep, a, b);
    }
  }

  lemma OnlyOneIsBefore<T>(s: seq<T>, a: T, b: T)
    requires NoRepeats(s) && a in s && b in s && a != b
    ensures Before(s, a, b) <==> !Before(s, b, a)
  {
    var i :| 0 <= i < |s| && s[i] == a;
    var j :| 0 <= j < |s| && s[j] == b;
  }

  /** Creating a directory and creating something in it. */
  predicate Inside(a: Change, b: Change) {
    a.kind.CreateDirectory? && !b.kind.Remove? && a.path < b.path
  }

  lemma {:induction false} EntryParentFirst(base: Path, before: Option<Entry>, after: Entry, a: Change, b: Change)
    requires Inside(a, b) && a in FlattenEntry(base, before, after) && b in FlattenEntry(base, before, after)
    ensures Before(FlattenEntry(base, before, after), a, b)
    decreases after, 1, 0
  {
    var own := OwnChanges(base, before, Some(after));
    OwnMembers(base, before, Some(after), a);
    OwnMembers(base, before, Some(after), b);
    FlattenMembers(base, before, after, a);
    if after.Directory? {
      var names, gone := SortedNames(after.contents.Keys), SortedNames(Contents(before).Keys - after.contents.Keys);
      var children, removals := FlattenChildren(base, before, after, names), FlattenGone(base, gone);
      GoneMembers(base, gone, a);
      GoneMembers(base, gone, b);
      BeforeIn(own, children + removals, a, b);
      BeforeIn(children, removals, a, b);
      if a.path != base { ChildrenParentFirst(base, before, after, names, a, b); }
    }
  }

  lemma {:induction false} ChildrenParentFirst(base: Path, before: Option<Entry>, after: Entry, names: seq<Name>, a: Change, b: Change)
    requires after.Directory? && forall n | n in names :: n in after.contents
    requires Inside(a, b) && a in FlattenChildren(base, before, after, names) && b in FlattenChildren(base, before, after, names)
    ensures Before(FlattenChildren(base, before, after, names), a, b)
    decreases after, 0, |names|
  {
    var n := names[0];
    var first, rest := FlattenEntry(base + [n], Child(before, n), after.contents[n]), FlattenChildren(base, before, after, names[1..]);
    ChildrenMembers(base, before, after, names, a);
    ChildrenMembers(base, before, after, names, b);
    ChildrenMembers(base, before, after, names[1..], a);
    ChildrenMembers(base, before, after, names[1..], b);
    FlattenMembers(base + [n], Child(before, n), after.contents[n], a);
    FlattenMembers(base + [n], Child(before, n), after.contents[n], b);
    assert a.path[|base|] == b.path[|base|] && Child(Some(after), n) == Some(after.contents[n]);
    BeforeIn(first, rest, a, b);
    if a.path[|base|] == n {
      EntryParentFirst(base + [n], Child(before, n), after.contents[n], a, b);
    } else {
      ChildrenParentFirst(base, before, after, names[1..], a, b);
    }
  }

  lemma {:induction false} FlattenedParentFirst(cs: seq<TreeChange>, a: Change, b: Change)
    requires NonNested(cs) && Inside(a, b) && a in FlattenAll(cs) && b in FlattenAll(cs)
    ensures Before(FlattenAll(cs), a, b)
    decreases |cs|
  {
    var t := OneOwner(cs, a, b);
    BeforeIn(Flatten(cs[0].path, cs[0].before, cs[0].after), FlattenAll(cs[1..]), a, b);
    if t == cs[0] {
      OneParentFirst(t, a, b);
    } else {
      assert t in cs[1..];
      FlattenAllMembers(cs[1..]);
      FlattenedParentFirst(cs[1..], a, b);
    }
  }

  /** Both come of the same change. */
  lemma OneOwner(cs: seq<TreeChange>, a: Change, b: Change) returns (t: TreeChange)
    requires NonNested(cs) && Inside(a, b) && a in FlattenAll(cs) && b in FlattenAll(cs)
    ensures t in cs && EmittedBy(t, a) && EmittedBy(t, b)
  {
    FlattenAllMembers(cs);
    t :| t in cs && EmittedBy(t, a);
    var u :| u in cs && EmittedBy(u, b);
    SameOwner(cs, t, u, b.path);
  }

  lemma OneParentFirst(t: TreeChange, a: Change, b: Change)
    requires Inside(a, b) && EmittedBy(t, a) && EmittedBy(t, b)
    ensures Before(Flatten(t.path, t.before, t.after), a, b)
  {
    FlattenOne(t);
    if t.after.Some? {
      EntryParentFirst(t.path, t.before, t.after.value, a, b);
    } else {
      CreatedNothing(t.before, a.path[|t.path|..]);
    }
  }

  /** Changes of one rank come in the order they were flattened in. */
  lemma TiesKeepOrder(cs: seq<TreeChange>, a: Change, b: Change)
    requires Before(FlattenAll(cs), a, b) && Rank(a) == Rank(b)
    ensures Before(ChangesFrom(cs), a, b)
  {
    var keep := (c: Change) => Rank(c) == Rank(a);
    SortStable(FlattenAll(cs), (x: Change, y: Change) => Rank(x) <= Rank(y), keep);
    BeforeSurvivesFilter(FlattenAll(cs), keep, a, b);
    BeforeWasBefore(ChangesFrom(cs), keep, a, b);
  }

  lemma LowerRankFirst(cs: seq<TreeChange>, a: Change, b: Change)
    requires a in ChangesFrom(cs) && b in ChangesFrom(cs) && Rank(a) < Rank(b)
    ensures Before(ChangesFrom(cs), a, b)
  {
    var l := ChangesFrom(cs);
    ChangesFromRanked(cs);
    var i :| 0 <= i < |l| && l[i] == a;
    var j :| 0 <= j < |l| && l[j] == b;
    assert i < j;
  }

  /**
   * A directory is created before something in it exactly when that is a directory too or the directory lies no more
   * than 2^20 levels down.
   */
  lemma DirectoryBeforeContents(cs: seq<TreeChange>, a: Change, b: Change)
    requires NonNested(cs) && Inside(a, b) && a in ChangesFrom(cs) && b in ChangesFrom(cs)
    ensures Before(ChangesFrom(cs), a, b) <==> b.kind.CreateDirectory? || |a.path| - 1 <= 0x10_0000
  {
    ChangesFromNoRepeats(cs);
    OnlyOneIsBefore(ChangesFrom(cs), a, b);
    SameElements(FlattenAll(cs), ChangesFrom(cs));
    if Rank(a) < Rank(b) {
      LowerRankFirst(cs, a, b);
    } else if Rank(a) == Rank(b) {
      FlattenedParentFirst(cs, a, b);
      TiesKeepOrder(cs, a, b);
    } else {
      LowerRankFirst(cs, b, a);
    }
  }

  /** Below that depth it happens: a new directory with one file in it is made after the file. */
  lemma DeepDirectoryComesLate(p: Path, n: Name, digest: Digest)
    requires |p| - 1 > 0x10_0000
    ensures var cs := [TreeChange(p, None, Some(Directory(map[n := File(digest, false)])))];
            NonNested(cs) && Before(ChangesFrom(cs), Change(p + [n], CreateFile(digest, false)), Change(p, CreateDirectory))
  {
    var t := TreeChange(p, None, Some(Directory(map[n := File(digest, false)])));
    var a, b := Change(p, CreateDirectory), Change(p + [n], CreateFile(digest, false));
    NewDirectoryEmits(p, n, digest);
    ChangesFromMembers([t]);
    assert t in [t];
    DirectoryBeforeContents([t], a, b);
    ChangesFromNoRepeats([t]);
    OnlyOneIsBefore(ChangesFrom([t]), a, b);
  }

  lemma NewDirectoryEmits(p: Path, n: Name, digest: Digest)
    requires p != []
    ensures var t := TreeChange(p, None, Some(Directory(map[n := File(digest, false)])));
            EmittedBy(t, Change(p, CreateDirectory)) && EmittedBy(t, Change(p + [n], CreateFile(digest, false)))
  {
    var t := TreeChange(p, None, Some(Directory(map[n := File(digest, false)])));
    assert p[|p|..] == [] && (p + [n])[|p|..] == [n];
    assert [n][0] == n && [n][1..] == [];
    assert Child(t.after, n) == Some(File(digest, false)) && Child(t.before, n) == None;
    assert Created(t.before, t.after, [n]) == Created(None, Some(File(digest, false)), []);
  }
}
