/** The new ancestor, and what the next merge finds. */
module Ancestor {
  import opened Entries
  import opened Changes
  import opened Splice
  import opened Merge
  import opened Agreement

  /** What the ancestor records at the relative path `r` once its changes are applied. */
  ghost function Recorded(anc: Option<Entry>, alpha: Option<Entry>, beta: Option<Entry>, r: Path): Option<Meta>
    decreases |r|
  {
    if alpha.None? && beta.None? then None
    else if Shallow(alpha) == Shallow(beta) then
      if r == [] then Shallow(alpha)
      else Recorded(Child(Base(anc, alpha), r[0]), Child(alpha, r[0]), Child(beta, r[0]), r[1..])
    else Look(anc, r)
  }

  /** Below `path`, `root` holds what `e` holds. */
  ghost predicate Held(root: Option<Entry>, path: Path, e: Option<Entry>) {
    forall p :: Look(root, path + p) == Look(e, p)
  }

  lemma HeldStep(root: Option<Entry>, path: Path, e: Option<Entry>, n: Name)
    requires Held(root, path, e)
    ensures Held(root, path + [n], Child(e, n))
  {
    forall p ensures Look(root, path + [n] + p) == Look(Child(e, n), p) {
      assert path + [n] + p == path + ([n] + p);
      LookStep(e, n, p);
    }
  }

  lemma ApplyOneLook(root: Option<Entry>, c: TreeChange, q: Path)
    requires c.path != [] ==> Look(root, Parent(c.path)) == Some(DirectoryMeta)
    ensures ApplyOne(root, c).Some?
    ensures Look(ApplyOne(root, c).value, q) == if c.path <= q then Look(c.after, q[|c.path|..]) else Look(root, q)
  {
    if c.path != [] {
      AboveIsDirectoryOrSelf(root, [], Parent(c.path));
      SetAtLook(root.value, c.path, c.after, q);
    } else {
      assert q[0..] == q;
    }
  }

  /** What applying the ancestor changes of one merge, rooted at `path`, must come to. */
  ghost predicate Updated(root: Option<Entry>, path: Path, anc: Option<Entry>, alpha: Option<Entry>, beta: Option<Entry>, after: Option<Option<Entry>>) {
    && after.Some?
    && (forall p :: Look(after.value, path + p) == Recorded(anc, alpha, beta, p))
    && (forall q | !(path <= q) :: Look(after.value, q) == Look(root, q))
  }

  lemma {:induction false} AncestorUpdated(root: Option<Entry>, path: Path, anc: Option<Entry>, alpha: Option<Entry>, beta: Option<Entry>)
    requires Held(root, path, anc)
    requires path != [] ==> Look(root, Parent(path)) == Some(DirectoryMeta)
    ensures Updated(root, path, anc, alpha, beta, ApplyAll(root, Reconcile(path, anc, alpha, beta).ancestor))
    decreases HeightOf(alpha), 2, 0
  {
    if alpha.None? && beta.None? {
      NeitherUpdated(root, path, anc);
    } else if Shallow(alpha) == Shallow(beta) {
      AgreedUpdated(root, path, anc, alpha, beta);
    } else {
      DisagreementMeaning(path, anc, alpha, beta);
    }
  }

  function OwnUpdates(path: Path, anc: Option<Entry>, alpha: Entry): seq<TreeChange> {
    if Shallow(anc) != Some(MetaOf(alpha)) then [TreeChange(path, None, Some(if alpha.Directory? then Directory(map[]) else alpha))]
    else []
  }

  lemma NamesFit(anc: Option<Entry>, alpha: Option<Entry>, beta: Option<Entry>)
    requires alpha.Some? && Shallow(alpha) == Shallow(beta)
    ensures var base := Base(anc, alpha);
            var names := Names(base, alpha, beta);
            Covers(names, base, alpha, beta) && NoRepeats(names) && (names != [] ==> Shallow(alpha) == Some(DirectoryMeta))
  {
    var names := Names(Base(anc, alpha), alpha, beta);
    assert names != [] ==> names[0] in names;
  }

  lemma {:induction false} AgreedUpdated(root: Option<Entry>, path: Path, anc: Option<Entry>, alpha: Option<Entry>, beta: Option<Entry>)
    requires alpha.Some? && Shallow(alpha) == Shallow(beta)
    requires Held(root, path, anc)
    requires path != [] ==> Look(root, Parent(path)) == Some(DirectoryMeta)
    ensures var base := Base(anc, alpha);
            Updated(root, path, anc, alpha, beta,
                    ApplyAll(root, OwnUpdates(path, anc, alpha.value) +
                                   ReconcileNames(path, base, alpha, beta, Names(base, alpha, beta)).ancestor))
    decreases HeightOf(alpha), 1, 0
  {
    var own := OwnUpdates(path, anc, alpha.value);
    var base := Base(anc, alpha);
    var names := Names(base, alpha, beta);
    NamesFit(anc, alpha, beta);
    OwnUpdate(root, path, anc, base, alpha);
    var mid := ApplyAll(root, own).value;
    var rest := ReconcileNames(path, base, alpha, beta, names).ancestor;
    assert NamesDone(mid, path, base, alpha, beta, names, ApplyAll(mid, rest)) by {
      NamesUpdated(mid, path, base, alpha, beta, names);
    }
    assert ApplyAll(root, own + rest) == ApplyAll(mid, rest) by {
      ApplyAllConcat(root, own, rest);
    }
    UpdatedJoin(root, path, anc, alpha, beta, base, names, mid, ApplyAll(root, own + rest));
  }

  lemma NeitherUpdated(root: Option<Entry>, path: Path, anc: Option<Entry>)
    requires Held(root, path, anc)
    requires path != [] ==> Look(root, Parent(path)) == Some(DirectoryMeta)
    ensures Updated(root, path, anc, None, None, ApplyAll(root, Reconcile(path, anc, None, None).ancestor))
  {
    if anc.Some? {
      var c := TreeChange(path, None, None);
      forall q ensures ApplyOne(root, c).Some? && Look(ApplyOne(root, c).value, q) == if path <= q then None else Look(root, q) {
        ApplyOneLook(root, c, q);
        if path <= q { AtNone(q[|path|..]); }
      }
      assert [c][1..] == [];
      assert ApplyAll(root, [c]) == ApplyOne(root, c);
      forall p ensures Look(ApplyOne(root, c).value, path + p) == None { assert path <= path + p; }
    } else {
      forall p ensures Look(root, path + p) == None { AtNone(p); }
    }
  }

  /** The change at the path itself leaves the agreed entry there and the comparable contents below. */
  lemma OwnUpdate(root: Option<Entry>, path: Path, anc: Option<Entry>, base: Option<Entry>, alpha: Option<Entry>)
    requires Held(root, path, anc) && alpha.Some? && base == Base(anc, alpha)
    requires path != [] ==> Look(root, Parent(path)) == Some(DirectoryMeta)
    ensures var r := ApplyAll(root, OwnUpdates(path, anc, alpha.value));
            && r.Some? && Look(r.value, path) == Shallow(alpha)
            && (forall n :: Held(r.value, path + [n], Child(base, n)))
            && (forall q | !(path <= q) :: Look(r.value, q) == Look(root, q))
  {
    var own := OwnUpdates(path, anc, alpha.value);
    if Shallow(anc) != Shallow(alpha) {
      var c := own[0];
      var slim := c.after.value;
      assert own[1..] == [];
      assert ApplyAll(root, own) == ApplyOne(root, c);
      forall q ensures ApplyOne(root, c).Some? &&
                       Look(ApplyOne(root, c).value, q) == if path <= q then Look(Some(slim), q[|path|..]) else Look(root, q)
      {
        ApplyOneLook(root, c, q);
      }
      forall n ensures Held(ApplyOne(root, c).value, path + [n], Child(base, n)) {
        forall p ensures Look(ApplyOne(root, c).value, path + [n] + p) == Look(None, p) {
          assert (path + [n] + p)[|path|..] == [n] + p;
          LookStep(Some(slim), n, p);
        }
      }
      assert path[|path|..] == [];
    } else {
      assert path + [] == path;
      assert Look(root, path + []) == Look(anc, []);
      forall n ensures Held(root, path + [n], Child(base, n)) { HeldStep(root, path, anc, n); }
    }
  }

  /** The child `n` below `path` has been updated. */
  ghost predicate ChildUpdated(after: Option<Entry>, path: Path, base: Option<Entry>, alpha: Option<Entry>, beta: Option<Entry>, n: Name) {
    forall p :: Look(after, path + [n] + p) == Recorded(Child(base, n), Child(alpha, n), Child(beta, n), p)
  }

  ghost predicate NamesDone(root: Option<Entry>, path: Path, base: Option<Entry>, alpha: Option<Entry>, beta: Option<Entry>,
                            names: seq<Name>, after: Option<Option<Entry>>) {
    && after.Some?
    && (forall n | n in names :: ChildUpdated(after.value, path, base, alpha, beta, n))
    && (forall q | !(path < q && q[|path|] in names) :: Look(after.value, q) == Look(root, q))
  }

  lemma {:induction false} NamesUpdated(root: Option<Entry>, path: Path, base: Option<Entry>, alpha: Option<Entry>, beta: Option<Entry>, names: seq<Name>)
    requires alpha.Some? && NoRepeats(names)
    requires names != [] ==> Look(root, path) == Some(DirectoryMeta)
    requires forall n | n in names :: Held(root, path + [n], Child(base, n))
    ensures NamesDone(root, path, base, alpha, beta, names, ApplyAll(root, ReconcileNames(path, base, alpha, beta, names).ancestor))
    decreases HeightOf(alpha), 0, |names|
  {
    if names != [] {
      var n := names[0];
      ChildIsLower(alpha, n);
      var first := Reconcile(path + [n], Child(base, n), Child(alpha, n), Child(beta, n)).ancestor;
      var rest := ReconcileNames(path, base, alpha, beta, names[1..]).ancestor;
      assert Parent(path + [n]) == path;
      AncestorUpdated(root, path + [n], Child(base, n), Child(alpha, n), Child(beta, n));
      var mid := ApplyAll(root, first).value;
      assert Look(mid, path) == Look(root, path);
      forall m | m in names[1..] ensures Held(mid, path + [m], Child(base, m)) {
        OtherChildHeld(root, mid, path, n, m, Child(base, m));
      }
      NamesUpdated(mid, path, base, alpha, beta, names[1..]);
      ApplyAllConcat(root, first, rest);
      NamesDoneJoin(root, mid, path, base, alpha, beta, names, ApplyAll(mid, rest).value);
    }
  }

  lemma OtherChildHeld(root: Option<Entry>, mid: Option<Entry>, path: Path, n: Name, m: Name, e: Option<Entry>)
    requires n != m && Held(root, path + [m], e)
    requires forall q | !(path + [n] <= q) :: Look(mid, q) == Look(root, q)
    ensures Held(mid, path + [m], e)
  {
    forall p ensures Look(mid, path + [m] + p) == Look(e, p) {
      var q := path + [m] + p;
      assert q[|path|] == m;
      ChildPrefix(path, n, q);
    }
  }

  lemma NamesDoneJoin(root: Option<Entry>, mid: Option<Entry>, path: Path, base: Option<Entry>, alpha: Option<Entry>, beta: Option<Entry>,
                      names: seq<Name>, r: Option<Entry>)
    requires names != [] && NoRepeats(names)
    requires var n := names[0];
             Updated(root, path + [n], Child(base, n), Child(alpha, n), Child(beta, n), Some(mid))
    requires NamesDone(mid, path, base, alpha, beta, names[1..], Some(r))
    ensures NamesDone(root, path, base, alpha, beta, names, Some(r))
  {
    var n := names[0];
    assert n !in names[1..];
    forall m | m in names ensures ChildUpdated(r, path, base, alpha, beta, m) {
      if m == n {
        forall p ensures Look(r, path + [n] + p) == Recorded(Child(base, n), Child(alpha, n), Child(beta, n), p) {
          assert (path + [n] + p)[|path|] == n;
        }
      }
    }
    forall q | !(path < q && q[|path|] in names) ensures Look(r, q) == Look(root, q) {
      ChildPrefix(path, n, q);
    }
  }

  ghost predicate Covers(names: seq<Name>, base: Option<Entry>, alpha: Option<Entry>, beta: Option<Entry>) {
    forall n | n !in names :: Child(base, n) == None && Child(alpha, n) == None && Child(beta, n) == None
  }

  lemma UpdatedJoin(root: Option<Entry>, path: Path, anc: Option<Entry>, alpha: Option<Entry>, beta: Option<Entry>,
                    base: Option<Entry>, names: seq<Name>, mid: Option<Entry>, after: Option<Option<Entry>>)
    requires alpha.Some? && Shallow(alpha) == Shallow(beta) && base == Base(anc, alpha) && Covers(names, base, alpha, beta)
    requires Look(mid, path) == Shallow(alpha)
    requires forall n :: Held(mid, path + [n], Child(base, n))
    requires forall q | !(path <= q) :: Look(mid, q) == Look(root, q)
    requires NamesDone(mid, path, base, alpha, beta, names, after)
    ensures Updated(root, path, anc, alpha, beta, after)
  {
    forall p ensures Look(after.value, path + p) == Recorded(anc, alpha, beta, p) {
      if p == [] {
        assert path + p == path;
      } else {
        var n, s := p[0], p[1..];
        assert path + p == path + [n] + s;
        assert Held(mid, path + [n], Child(base, n));
        ChildRecorded(path, base, alpha, beta, names, mid, after.value, n, s);
      }
    }
    forall q | !(path <= q) ensures Look(after.value, q) == Look(root, q) {
      assert !(path < q);
    }
  }

  lemma ChildRecorded(path: Path, base: Option<Entry>, alpha: Option<Entry>, beta: Option<Entry>, names: seq<Name>,
                      mid: Option<Entry>, after: Option<Entry>, n: Name, s: Path)
    requires Covers(names, base, alpha, beta)
    requires Held(mid, path + [n], Child(base, n))
    requires NamesDone(mid, path, base, alpha, beta, names, Some(after))
    ensures Look(after, path + [n] + s) == Recorded(Child(base, n), Child(alpha, n), Child(beta, n), s)
  {
    if n in names {
      assert ChildUpdated(after, path, base, alpha, beta, n);
    } else {
      UnnamedChild(path, base, alpha, beta, names, mid, after, n, s);
    }
  }

  /** A child neither side nor the comparable ancestor has stays absent. */
  lemma UnnamedChild(path: Path, base: Option<Entry>, alpha: Option<Entry>, beta: Option<Entry>, names: seq<Name>,
                     mid: Option<Entry>, after: Option<Entry>, n: Name, s: Path)
    requires Covers(names, base, alpha, beta) && n !in names
    requires Held(mid, path + [n], Child(base, n))
    requires NamesDone(mid, path, base, alpha, beta, names, Some(after))
    ensures Look(after, path + [n] + s) == Recorded(Child(base, n), Child(alpha, n), Child(beta, n), s)
  {
    assert (path + [n] + s)[|path|] == n;
    assert Child(base, n) == None && Child(alpha, n) == None && Child(beta, n) == None;
    AtNone(s);
  }

  // ---- what the new ancestor says ------------------------------------------------------------------

  /** The ancestor to store after a merge. */
  function NextAncestor(anc: Option<Entry>, alpha: Entry, beta: Entry): Option<Entry> {
    var applied := ApplyAll(anc, Reconcile([], anc, Some(alpha), Some(beta)).ancestor);
    if applied.None? then anc else applied.value
  }

  lemma {:induction false} RecordedIsAgreedOrOld(anc: Option<Entry>, alpha: Option<Entry>, beta: Option<Entry>, r: Path)
    ensures Fate(anc, alpha, beta, r) == Agreed ==> Recorded(anc, alpha, beta, r) == Look(alpha, r) == Look(beta, r)
    ensures Fate(anc, alpha, beta, r) != Agreed && Recorded(anc, alpha, beta, r).Some? ==> Recorded(anc, alpha, beta, r) == Look(anc, r)
    decreases |r|
  {
    if alpha.None? && beta.None? {
      AtNone(r);
    } else if Shallow(alpha) == Shallow(beta) {
      if r != [] {
        RecordedIsAgreedOrOld(Child(Base(anc, alpha), r[0]), Child(alpha, r[0]), Child(beta, r[0]), r[1..]);
        AtNone(r[1..]);
      }
    }
  }

  /**
   * The ancestor changes always apply, and the new ancestor records a path's content exactly when
   * both sides hold it; under any other ruling it records nothing it did not hold before.
   */
  lemma AncestorIsHonest(anc: Option<Entry>, alpha: Entry, beta: Entry, p: Path)
    requires alpha.Directory? && beta.Directory?
    ensures var a, b := Some(alpha), Some(beta); var next := NextAncestor(anc, alpha, beta);
            && ApplyAll(anc, Reconcile([], anc, a, b).ancestor) == Some(next)
            && Look(next, p) == Recorded(anc, a, b, p)
            && (Fate(anc, a, b, p) == Agreed ==> Look(next, p) == Look(a, p) == Look(b, p))
            && (Fate(anc, a, b, p) != Agreed && Look(next, p).Some? ==> Look(next, p) == Look(anc, p))
  {
    forall q ensures Look(anc, [] + q) == Look(anc, q) { assert [] + q == q; }
    AncestorUpdated(anc, [], anc, Some(alpha), Some(beta));
    assert [] + p == p;
    RecordedIsAgreedOrOld(anc, Some(alpha), Some(beta), p);
  }

  // ---- the next merge is quiet ------------------------------------------------------------------------

  /** What a side holds after its list is applied. */
  ghost function AfterSide(anc: Option<Entry>, alpha: Option<Entry>, beta: Option<Entry>, to: Ruling, r: Path): Option<Meta> {
    if Fate(anc, alpha, beta, r) == to then Look(if to.ToAlpha? then beta else alpha, r)
    else Look(if to.ToAlpha? then alpha else beta, r)
  }

  ghost predicate Settled(anc: Option<Entry>, alpha: Option<Entry>, beta: Option<Entry>,
                          anc': Option<Entry>, alpha': Option<Entry>, beta': Option<Entry>) {
    && (forall p :: Look(anc', p) == Recorded(anc, alpha, beta, p))
    && (forall p :: Look(alpha', p) == AfterSide(anc, alpha, beta, ToAlpha, p))
    && (forall p :: Look(beta', p) == AfterSide(anc, alpha, beta, ToBeta, p))
  }

  lemma SettledStep(anc: Option<Entry>, alpha: Option<Entry>, beta: Option<Entry>,
                    anc': Option<Entry>, alpha': Option<Entry>, beta': Option<Entry>, n: Name)
    requires Settled(anc, alpha, beta, anc', alpha', beta')
    requires alpha.Some? && Shallow(alpha) == Shallow(beta)
    ensures Settled(Child(Base(anc, alpha), n), Child(alpha, n), Child(beta, n), Child(anc', n), Child(alpha', n), Child(beta', n))
  {
    var base := Base(anc, alpha);
    forall p
      ensures Look(Child(anc', n), p) == Recorded(Child(base, n), Child(alpha, n), Child(beta, n), p)
      ensures Look(Child(alpha', n), p) == AfterSide(Child(base, n), Child(alpha, n), Child(beta, n), ToAlpha, p)
      ensures Look(Child(beta', n), p) == AfterSide(Child(base, n), Child(alpha, n), Child(beta, n), ToBeta, p)
    {
      LookStep(anc', n, p);
      LookStep(alpha', n, p);
      LookStep(beta', n, p);
      LookStep(alpha, n, p);
      LookStep(beta, n, p);
      var q := [n] + p;
      assert q[0] == n && q[1..] == p;
      assert Look(anc', q) == Recorded(anc, alpha, beta, q);
      assert Look(alpha', q) == AfterSide(anc, alpha, beta, ToAlpha, q);
      assert Look(beta', q) == AfterSide(anc, alpha, beta, ToBeta, q);
    }
  }

  lemma {:induction false} SameSidesAgree(anc: Option<Entry>, e: Option<Entry>, r: Path)
    ensures RulingAt(anc, e, e, r) == Agreed
    decreases |r|
  {
    if e.Some? && r != [] { SameSidesAgree(Child(Base(anc, e), r[0]), Child(e, r[0]), r[1..]); }
  }

  lemma SettledAtDisagreement(anc: Option<Entry>, alpha: Option<Entry>, beta: Option<Entry>,
                              anc': Option<Entry>, alpha': Option<Entry>, beta': Option<Entry>)
    requires Settled(anc, alpha, beta, anc', alpha', beta')
    requires Shallow(alpha) != Shallow(beta)
    ensures var j := Judge(anc, alpha, beta);
            && (j.ToAlpha? ==> alpha' == beta && beta' == beta)
            && (j.ToBeta? ==> alpha' == alpha && beta' == alpha)
            && (j.Clash? ==> alpha' == alpha && beta' == beta && anc' == anc)
  {
    var j := Judge(anc, alpha, beta);
    SameTree(alpha', if j.ToAlpha? then beta else alpha);
    SameTree(beta', if j.ToBeta? then alpha else beta);
    SameTree(anc', anc);
  }

  lemma {:induction false} SettledRulings(anc: Option<Entry>, alpha: Option<Entry>, beta: Option<Entry>,
                                          anc': Option<Entry>, alpha': Option<Entry>, beta': Option<Entry>, r: Path)
    requires Settled(anc, alpha, beta, anc', alpha', beta')
    ensures RulingAt(anc', alpha', beta', r) == if RulingAt(anc, alpha, beta, r) == Clash then Clash else Agreed
    decreases |r|
  {
    if alpha.None? && beta.None? {
      assert Look(alpha', []) == Shallow(alpha') && Look(beta', []) == Shallow(beta');
    } else if Shallow(alpha) == Shallow(beta) {
      assert Look(alpha', []) == Shallow(alpha') && Look(beta', []) == Shallow(beta') && Look(anc', []) == Shallow(anc');
      assert Look(alpha, []) == Shallow(alpha) && Look(beta, []) == Shallow(beta);
      if r != [] {
        SettledStep(anc, alpha, beta, anc', alpha', beta', r[0]);
        SettledRulings(Child(Base(anc, alpha), r[0]), Child(alpha, r[0]), Child(beta, r[0]),
                       Child(anc', r[0]), Child(alpha', r[0]), Child(beta', r[0]), r[1..]);
      }
    } else {
      SettledAtDisagreement(anc, alpha, beta, anc', alpha', beta');
      if !Judge(anc, alpha, beta).Clash? { SameSidesAgree(anc', alpha', r); }
    }
  }

  /** Two roots that hold what the lists asked for, with the ancestor recorded, have nothing left to exchange. */
  lemma NextMergeIsQuiet(anc: Option<Entry>, alpha: Entry, beta: Entry, alpha': Entry, beta': Entry)
    requires alpha.Directory? && beta.Directory? && alpha'.Directory? && beta'.Directory?
    requires forall p :: Look(Some(alpha'), p) == Want(alpha, Reconcile([], anc, Some(alpha), Some(beta)).alpha, p)
    requires forall p :: Look(Some(beta'), p) == Want(beta, Reconcile([], anc, Some(alpha), Some(beta)).beta, p)
    ensures var next := Reconcile([], NextAncestor(anc, alpha, beta), Some(alpha'), Some(beta'));
            next.alpha == [] && next.beta == []
    ensures forall p :: RulingAt(NextAncestor(anc, alpha, beta), Some(alpha'), Some(beta'), p) ==
                        if RulingAt(anc, Some(alpha), Some(beta), p) == Clash then Clash else Agreed
  {
    var a, b, a', b', anc' := Some(alpha), Some(beta), Some(alpha'), Some(beta'), NextAncestor(anc, alpha, beta);
    var plan := Reconcile([], anc, a, b);
    assert Side(plan, ToAlpha) == plan.alpha && Side(plan, ToBeta) == plan.beta;
    forall p
      ensures Look(anc', p) == Recorded(anc, a, b, p)
      ensures Look(a', p) == AfterSide(anc, a, b, ToAlpha, p)
      ensures Look(b', p) == AfterSide(anc, a, b, ToBeta, p)
    {
      AncestorIsHonest(anc, alpha, beta, p);
      SideWant(anc, alpha, beta, ToAlpha, p);
      SideWant(anc, alpha, beta, ToBeta, p);
    }
    forall p ensures RulingAt(anc', a', b', p) == if RulingAt(anc, a, b, p) == Clash then Clash else Agreed {
      SettledRulings(anc, a, b, anc', a', b', p);
    }
    NoRulingNoMoves(anc', a', b', ToAlpha);
    NoRulingNoMoves(anc', a', b', ToBeta);
  }

  lemma NoRulingNoMoves(anc: Option<Entry>, alpha: Option<Entry>, beta: Option<Entry>, to: Ruling)
    requires (to.ToBeta? || to.ToAlpha?) && forall p :: RulingAt(anc, alpha, beta, p) != to
    ensures Side(Reconcile([], anc, alpha, beta), to) == []
  {
    var cs := Side(Reconcile([], anc, alpha, beta), to);
    if cs != [] {
      SideMembers([], anc, alpha, beta, to, cs[0]);
    }
  }
}
