/** What one merge achieves: agreement, nothing new lost, an honest ancestor, and quiet afterwards. */
module Agreement {
  import opened Entries
  import opened Changes
  import opened Splice
  import opened Merge

  /** The ruling that governs the relative path `r`, made at it or above it. */
  ghost function Fate(anc: Option<Entry>, alpha: Option<Entry>, beta: Option<Entry>, r: Path): Ruling
    decreases |r|
  {
    if alpha.None? && beta.None? then Agreed
    else if Shallow(alpha) == Shallow(beta) then
      if r == [] then Agreed else Fate(Child(Base(anc, alpha), r[0]), Child(alpha, r[0]), Child(beta, r[0]), r[1..])
    else Judge(anc, alpha, beta)
  }

  lemma {:induction false} FateFromAbove(anc: Option<Entry>, alpha: Option<Entry>, beta: Option<Entry>, q: Path, r: Path)
    requires q <= r && RulingAt(anc, alpha, beta, q) != Agreed
    ensures Fate(anc, alpha, beta, r) == RulingAt(anc, alpha, beta, q)
    decreases |q|
  {
    if q != [] {
      FateFromAbove(Child(Base(anc, alpha), q[0]), Child(alpha, q[0]), Child(beta, q[0]), q[1..], r[1..]);
    }
  }

  /** Where the governing ruling was made. */
  lemma {:induction false} FateHasOwner(anc: Option<Entry>, alpha: Option<Entry>, beta: Option<Entry>, r: Path) returns (q: Path)
    requires Fate(anc, alpha, beta, r) != Agreed
    ensures q <= r && RulingAt(anc, alpha, beta, q) == Fate(anc, alpha, beta, r)
    decreases |r|
  {
    q := [];
    if Shallow(alpha) == Shallow(beta) {
      var s := FateHasOwner(Child(Base(anc, alpha), r[0]), Child(alpha, r[0]), Child(beta, r[0]), r[1..]);
      q := [r[0]] + s;
      assert q[1..] == s && r == [r[0]] + r[1..];
    }
  }

  // ---- agreement and safety ------------------------------------------------------------------------

  lemma {:induction false} AgreedMeansSame(anc: Option<Entry>, alpha: Option<Entry>, beta: Option<Entry>, r: Path)
    requires Fate(anc, alpha, beta, r) == Agreed
    ensures Look(alpha, r) == Look(beta, r)
    decreases |r|
  {
    if alpha.None? && beta.None? {
    } else if Shallow(alpha) == Shallow(beta) {
      if r != [] {
        AgreedMeansSame(Child(Base(anc, alpha), r[0]), Child(alpha, r[0]), Child(beta, r[0]), r[1..]);
      }
    }
  }

  /** The side that gives way held nothing there that the ancestor did not. */
  lemma {:induction false} LoserHadNothingNew(anc: Option<Entry>, alpha: Option<Entry>, beta: Option<Entry>, r: Path)
    ensures Fate(anc, alpha, beta, r).ToAlpha? && Look(alpha, r).Some? ==> Look(anc, r) == Look(alpha, r)
    ensures Fate(anc, alpha, beta, r).ToBeta? && Look(beta, r).Some? ==> Look(anc, r) == Look(beta, r)
    decreases |r|
  {
    if alpha.None? && beta.None? {
    } else if Shallow(alpha) == Shallow(beta) {
      if r != [] {
        LoserHadNothingNew(Child(Base(anc, alpha), r[0]), Child(alpha, r[0]), Child(beta, r[0]), r[1..]);
        AtNone(r[1..]);
      }
    }
  }

  /** A clash is declared exactly where both sides hold something new. */
  lemma ClashMeansBothNew(anc: Option<Entry>, alpha: Option<Entry>, beta: Option<Entry>)
    requires Shallow(alpha) != Shallow(beta)
    ensures Judge(anc, alpha, beta) == Clash <==> !Within(alpha, anc) && !Within(beta, anc)
  {}

  function Loser(alpha: Entry, beta: Entry, to: Ruling): Entry {
    if to.ToAlpha? then alpha else beta
  }

  function Winner(alpha: Entry, beta: Entry, to: Ruling): Entry {
    if to.ToAlpha? then beta else alpha
  }

  lemma SideWantMoved(anc: Option<Entry>, alpha: Entry, beta: Entry, to: Ruling, p: Path)
    requires alpha.Directory? && beta.Directory? && (to.ToBeta? || to.ToAlpha?)
    requires Fate(anc, Some(alpha), Some(beta), p) == to
    ensures Want(Loser(alpha, beta, to), Side(Reconcile([], anc, Some(alpha), Some(beta)), to), p)
            == Look(Some(Winner(alpha, beta, to)), p)
  {
    var a, b := Some(alpha), Some(beta);
    var q := FateHasOwner(anc, a, b, p);
    assert q[0..] == q;
    SideMembers([], anc, a, b, to, Move(q, At(a, q), At(b, q), to));
    SideNonNested([], anc, a, b, to);
    WantMoved(alpha, beta, to, Side(Reconcile([], anc, a, b), to), q, p);
  }

  lemma WantMoved(alpha: Entry, beta: Entry, to: Ruling, cs: seq<TreeChange>, q: Path, p: Path)
    requires (to.ToBeta? || to.ToAlpha?) && NonNested(cs) && q <= p
    requires Move(q, At(Some(alpha), q), At(Some(beta), q), to) in cs
    ensures Want(Loser(alpha, beta, to), cs, p) == Look(Some(Winner(alpha, beta, to)), p)
  {
    WantInside(Loser(alpha, beta, to), cs, Move(q, At(Some(alpha), q), At(Some(beta), q), to), p);
    assert p == q + p[|q|..];
    AtJoin(Some(Winner(alpha, beta, to)), q, p[|q|..]);
  }

  lemma SideWantStays(anc: Option<Entry>, alpha: Entry, beta: Entry, to: Ruling, p: Path)
    requires alpha.Directory? && beta.Directory? && (to.ToBeta? || to.ToAlpha?)
    requires Fate(anc, Some(alpha), Some(beta), p) != to
    ensures Want(Loser(alpha, beta, to), Side(Reconcile([], anc, Some(alpha), Some(beta)), to), p)
            == Look(Some(Loser(alpha, beta, to)), p)
  {
    var a, b := Some(alpha), Some(beta);
    var cs := Side(Reconcile([], anc, a, b), to);
    forall c | c in cs ensures !(c.path <= p) {
      SideMembers([], anc, a, b, to, c);
      assert c.path[0..] == c.path;
      if c.path <= p { FateFromAbove(anc, a, b, c.path, p); }
    }
    WantOutside(Loser(alpha, beta, to), cs, p);
  }

  lemma SideWant(anc: Option<Entry>, alpha: Entry, beta: Entry, to: Ruling, p: Path)
    requires alpha.Directory? && beta.Directory? && (to.ToBeta? || to.ToAlpha?)
    ensures Want(Loser(alpha, beta, to), Side(Reconcile([], anc, Some(alpha), Some(beta)), to), p) ==
            if Fate(anc, Some(alpha), Some(beta), p) == to then Look(Some(Winner(alpha, beta, to)), p)
            else Look(Some(Loser(alpha, beta, to)), p)
  {
    if Fate(anc, Some(alpha), Some(beta), p) == to {
      SideWantMoved(anc, alpha, beta, to, p);
    } else {
      SideWantStays(anc, alpha, beta, to, p);
    }
  }

  /**
   * Applying both lists leaves the two sides agreeing on every path but those under a clash,
   * where both stay as they were; and a side only loses what the ancestor held as well.
   */
  lemma MergeAgrees(anc: Option<Entry>, alpha: Entry, beta: Entry, p: Path)
    requires alpha.Directory? && beta.Directory?
    ensures var a, b := Some(alpha), Some(beta);
            var plan := Reconcile([], anc, a, b);
            var a', b' := Want(alpha, plan.alpha, p), Want(beta, plan.beta, p);
            && (Fate(anc, a, b, p) != Clash ==> a' == b')
            && (Fate(anc, a, b, p) == Clash ==> a' == Look(a, p) && b' == Look(b, p))
            && (a' != Look(a, p) && Look(a, p).Some? ==> Look(anc, p) == Look(a, p))
            && (b' != Look(b, p) && Look(b, p).Some? ==> Look(anc, p) == Look(b, p))
            && (Look(a, p) == Look(b, p) && Fate(anc, a, b, p) == Agreed ==> a' == Look(a, p))
  {
    var a, b := Some(alpha), Some(beta);
    var plan := Reconcile([], anc, a, b);
    assert Side(plan, ToAlpha) == plan.alpha && Side(plan, ToBeta) == plan.beta;
    SideWant(anc, alpha, beta, ToAlpha, p);
    SideWant(anc, alpha, beta, ToBeta, p);
    LoserHadNothingNew(anc, a, b, p);
    if Fate(anc, a, b, p) == Agreed { AgreedMeansSame(anc, a, b, p); }
  }

  // ---- applying changes to a tree --------------------------------------------------------------------

  /** Puts `after` at a path below `e`; None when the way there is missing. */
  function SetAt(e: Entry, path: Path, after: Option<Entry>): Option<Entry>
    requires path != []
    decreases |path|
  {
    if !e.Directory? then None
    else if |path| == 1 then
      Some(Directory(if after.None? then e.contents - {path[0]} else e.contents[path[0] := after.value]))
    else if path[0] !in e.contents then None
    else
      var below := SetAt(e.contents[path[0]], path[1..], after);
      if below.None? then None else Some(Directory(e.contents[path[0] := below.value]))
  }

  function ApplyOne(e: Option<Entry>, c: TreeChange): Option<Option<Entry>> {
    if c.path == [] then Some(c.after)
    else if e.None? then None
    else
      var r := SetAt(e.value, c.path, c.after);
      if r.None? then None else Some(r)
  }

  /** The changes applied in order; None when a parent path cannot be resolved. */
  function ApplyAll(e: Option<Entry>, cs: seq<TreeChange>): Option<Option<Entry>>
    decreases |cs|
  {
    if cs == [] then Some(e)
    else
      var r := ApplyOne(e, cs[0]);
      if r.None? then None else ApplyAll(r.value, cs[1..])
  }

  lemma {:induction false} ApplyAllConcat(e: Option<Entry>, a: seq<TreeChange>, b: seq<TreeChange>)
    ensures ApplyAll(e, a + b) == (if ApplyAll(e, a).None? then None else ApplyAll(ApplyAll(e, a).value, b))
    decreases |a|
  {
    if a == [] {
      assert a + b == b;
    } else {
      assert (a + b)[1..] == a[1..] + b;
      var r := ApplyOne(e, a[0]);
      if r.Some? { ApplyAllConcat(r.value, a[1..], b); }
    }
  }

  lemma {:induction false} SetAtLook(e: Entry, path: Path, after: Option<Entry>, q: Path)
    requires path != [] && Look(Some(e), Parent(path)) == Some(DirectoryMeta)
    ensures SetAt(e, path, after).Some?
    ensures Look(SetAt(e, path, after), q) == if path <= q then Look(after, q[|path|..]) else Look(Some(e), q)
    decreases |path|
  {
    AboveIsDirectoryOrSelf(Some(e), [], Parent(path));
    var n := path[0];
    if |path| == 1 {
      if q != [] { assert path <= q <==> q[0] == n; }
    } else {
      assert Parent(path)[1..] == Parent(path[1..]) && Parent(path)[0] == n;
      AtNone(Parent(path[1..]));
      if q == [] {
        SetAtLook(e.contents[n], path[1..], after, []);
      } else {
        SetAtLook(e.contents[n], path[1..], after, q[1..]);
        assert path == [n] + path[1..] && q == [q[0]] + q[1..];
        assert path <= q <==> q[0] == n && path[1..] <= q[1..];
        if path <= q { assert q[1..][|path[1..]|..] == q[|path|..]; }
      }
    }
  }

  /** A change can be put in place exactly where its parent is a directory. */
  lemma {:induction false} SetAtExactly(e: Entry, path: Path, after: Option<Entry>)
    requires path != []
    ensures SetAt(e, path, after).Some? <==> Look(Some(e), Parent(path)) == Some(DirectoryMeta)
    decreases |path|
  {
    var above := Parent(path);
    if |path| > 1 {
      assert above[1..] == Parent(path[1..]) && above[0] == path[0];
      AtNone(Parent(path[1..]));
      if e.Directory? && path[0] in e.contents { SetAtExactly(e.contents[path[0]], path[1..], after); }
    }
  }

  lemma ApplyExactly(e: Option<Entry>, c: TreeChange)
    ensures ApplyOne(e, c).Some? <==> c.path == [] || Look(e, Parent(c.path)) == Some(DirectoryMeta)
  {
    if c.path != [] {
      AtNone(Parent(c.path));
      if e.Some? { SetAtExactly(e.value, c.path, c.after); }
    }
  }

  lemma AboveIsDirectoryOrSelf(e: Option<Entry>, p: Path, q: Path)
    requires p <= q && Look(e, q) == Some(DirectoryMeta)
    ensures Look(e, p) == Some(DirectoryMeta)
  {
    if p != q { AboveIsDirectory(e, p, q); }
  }
}
