/** A tree with some of its subtrees replaced. */
module Splice {
  import opened Entries
  import opened Changes

  /** The tree `t` with each change's subtree put in place, path by path. */
  function Want(t: Entry, cs: seq<TreeChange>, p: Path): Option<Meta> {
    if cs == [] then Look(Some(t), p)
    else if cs[0].path <= p then Look(cs[0].after, p[|cs[0].path|..])
    else Want(t, cs[1..], p)
  }

  /** What the reconciler owes: each change starts from the subtree that is there, in an existing directory. */
  ghost predicate StartsFrom(t: Entry, c: TreeChange) {
    && c.before == At(Some(t), c.path)
    && if c.path == [] then c.after.Some? && c.after.value.Directory?
       else Look(Some(t), Parent(c.path)) == Some(DirectoryMeta)
  }

  ghost predicate Reconciled(t: Entry, cs: seq<TreeChange>) {
    t.Directory? && NonNested(cs) && forall c | c in cs :: StartsFrom(t, c)
  }

  // ---- which change a path belongs to ------------------------------------------------------

  lemma {:induction false} WantInside(t: Entry, cs: seq<TreeChange>, c: TreeChange, p: Path)
    requires NonNested(cs) && c in cs && c.path <= p
    ensures Want(t, cs, p) == Look(c.after, p[|c.path|..])
  {
    if cs[0] != c {
      var k :| 0 <= k < |cs| && cs[k] == c;
      assert !Comparable(cs[0].path, cs[k].path);
      assert c in cs[1..];
      if cs[0].path <= p { PrefixesCompare(cs[0].path, c.path, p); }
      assert NonNested(cs[1..]);
      WantInside(t, cs[1..], c, p);
    }
  }

  lemma {:induction false} WantOutside(t: Entry, cs: seq<TreeChange>, p: Path)
    requires forall c | c in cs :: !(c.path <= p)
    ensures Want(t, cs, p) == Look(Some(t), p)
  {
    if cs != [] { WantOutside(t, cs[1..], p); }
  }

  lemma SameOwner(cs: seq<TreeChange>, a: TreeChange, b: TreeChange, p: Path)
    requires NonNested(cs) && a in cs && b in cs && a.path <= p && b.path <= p
    ensures a == b
  {
    var i :| 0 <= i < |cs| && cs[i] == a;
    var j :| 0 <= j < |cs| && cs[j] == b;
    PrefixesCompare(a.path, b.path, p);
  }

  lemma BeforeInside(t: Entry, c: TreeChange, p: Path)
    requires StartsFrom(t, c) && c.path <= p
    ensures Look(c.before, p[|c.path|..]) == Look(Some(t), p)
  {
    assert p == c.path + p[|c.path|..];
    AtJoin(Some(t), c.path, p[|c.path|..]);
  }
}
