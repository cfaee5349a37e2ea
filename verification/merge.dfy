/** The three-way merge of two trees against their ancestor, in two-way-safe mode. */
module Merge {
  import opened Lists
  import opened Entries
  import opened Changes
  import opened Splice

  function HeightOf(e: Option<Entry>): nat {
    if e.None? then 0 else Height(e.value)
  }

  function Height(e: Entry): nat
    ensures Height(e) > 0
    decreases e, 1, 0
  {
    1 + if e.Directory? then HeightAmong(e, SortedNames(e.contents.Keys)) else 0
  }

  function HeightAmong(e: Entry, names: seq<Name>): (h: nat)
    requires e.Directory? && forall n | n in names :: n in e.contents
    ensures forall n | n in names :: Height(e.contents[n]) <= h
    decreases e, 0, |names|
  {
    if names == [] then 0
    else
      var first, rest := Height(e.contents[names[0]]), HeightAmong(e, names[1..]);
      if first < rest then rest else first
  }

  lemma ChildIsLower(e: Option<Entry>, name: Name)
    requires e.Some?
    ensures HeightOf(Child(e, name)) < HeightOf(e)
  {
    if name in Contents(e) {
      assert name in SortedNames(e.value.contents.Keys);
    }
  }

  function Names(a: Option<Entry>, b: Option<Entry>, c: Option<Entry>): (r: seq<Name>)
    ensures forall n :: n in r <==> n in Contents(a) || n in Contents(b) || n in Contents(c)
    ensures NoRepeats(r)
  {
    SortedNames(Contents(a).Keys + Contents(b).Keys + Contents(c).Keys)
  }

  // ---- diff ----------------------------------------------------------------------------------

  /** The replacements that turn `base` into `target`, both rooted at `path`. */
  function Diff(path: Path, base: Option<Entry>, target: Option<Entry>): seq<TreeChange>
    decreases HeightOf(target), 1, 0
  {
    if Shallow(base) != Shallow(target) then [TreeChange(path, base, target)]
    else if target.None? then []
    else DiffNames(path, base, target, Names(base, target, None))
  }

  function DiffNames(path: Path, base: Option<Entry>, target: Option<Entry>, names: seq<Name>): seq<TreeChange>
    requires target.Some?
    decreases HeightOf(target), 0, |names|
  {
    if names == [] then []
    else
      ChildIsLower(target, names[0]);
      Diff(path + [names[0]], Child(base, names[0]), Child(target, names[0])) +
      DiffNames(path, base, target, names[1..])
  }

  function NonDeletions(cs: seq<TreeChange>): seq<TreeChange> {
    if cs == [] then []
    else if cs[0].after.Some? then [cs[0]] + NonDeletions(cs[1..])
    else NonDeletions(cs[1..])
  }

  lemma {:induction false} NonDeletionsConcat(a: seq<TreeChange>, b: seq<TreeChange>)
    ensures NonDeletions(a + b) == NonDeletions(a) + NonDeletions(b)
  {
    if a == [] {
      assert a + b == b;
    } else {
      assert (a + b)[1..] == a[1..] + b;
      NonDeletionsConcat(a[1..], b);
    }
  }

  /** Everything `part` holds, `whole` holds at the same path. */
  ghost predicate Within(part: Option<Entry>, whole: Option<Entry>) {
    forall p :: Look(part, p).Some? ==> Look(whole, p) == Look(part, p)
  }

  lemma WithinChildren(part: Option<Entry>, whole: Option<Entry>)
    ensures Within(part, whole) <==>
            (part.Some? ==> Shallow(part) == Shallow(whole)) && forall n :: Within(Child(part, n), Child(whole, n))
  {
    if Within(part, whole) {
      assert Look(part, []) == Shallow(part) && Look(whole, []) == Shallow(whole);
      forall n ensures Within(Child(part, n), Child(whole, n)) {
        forall p | Look(Child(part, n), p).Some? ensures Look(Child(whole, n), p) == Look(Child(part, n), p) {
          LookStep(part, n, p);
          LookStep(whole, n, p);
          assert Look(part, [n] + p).Some?;
        }
      }
    }
    if (part.Some? ==> Shallow(part) == Shallow(whole)) && forall n :: Within(Child(part, n), Child(whole, n)) {
      forall p | Look(part, p).Some? ensures Look(whole, p) == Look(part, p) {
        if p != [] {
          assert p == [p[0]] + p[1..];
          assert Within(Child(part, p[0]), Child(whole, p[0]));
          assert Look(Child(part, p[0]), p[1..]).Some?;
        } else {
          assert part.Some?;
        }
      }
    }
  }

  lemma SameByChildren(a: Option<Entry>, b: Option<Entry>, names: seq<Name>)
    requires forall n | n in Contents(a) || n in Contents(b) :: n in names
    ensures a == b <==> Shallow(a) == Shallow(b) && forall n | n in names :: Child(a, n) == Child(b, n)
  {
    if Shallow(a) == Shallow(b) && forall n | n in names :: Child(a, n) == Child(b, n) {
      forall n ensures Child(a, n) == Child(b, n) {
        if n !in names { assert Child(a, n) == None == Child(b, n); }
      }
      assert forall n :: n in Contents(a) <==> Child(a, n).Some?;
      assert forall n :: n in Contents(b) <==> Child(b, n).Some?;
      assert Contents(a) == Contents(b);
    }
  }

  lemma WithinByNames(part: Option<Entry>, whole: Option<Entry>, names: seq<Name>)
    requires part.Some? && Shallow(part) == Shallow(whole) && forall n | n in Contents(part) :: n in names
    ensures Within(part, whole) <==> forall n | n in names :: Within(Child(part, n), Child(whole, n))
  {
    WithinChildren(part, whole);
    forall n | n !in names ensures Within(Child(part, n), Child(whole, n)) { NoneWithin(Child(whole, n)); }
  }

  /** No difference exactly when the trees are the same; none but deletions exactly when nothing is new. */
  lemma {:induction false} DiffMeaning(path: Path, base: Option<Entry>, target: Option<Entry>)
    ensures Diff(path, base, target) == [] <==> base == target
    ensures NonDeletions(Diff(path, base, target)) == [] <==> Within(target, base)
    decreases HeightOf(target), 1, 0
  {
    if target.None? {
      NoneWithin(base);
    } else if Shallow(base) != Shallow(target) {
      assert Look(target, []) == Shallow(target) && Look(base, []) == Shallow(base);
    } else {
      var names := Names(base, target, None);
      DiffNamesMeaning(path, base, target, names);
      SameByChildren(base, target, names);
      WithinByNames(target, base, names);
    }
  }

  lemma NoneWithin(whole: Option<Entry>)
    ensures Within(None, whole)
  {
    forall p ensures Look(None, p) == None { AtNone(p); }
  }

  lemma {:induction false} DiffNamesMeaning(path: Path, base: Option<Entry>, target: Option<Entry>, names: seq<Name>)
    requires target.Some?
    ensures DiffNames(path, base, target, names) == [] <==> forall n | n in names :: Child(base, n) == Child(target, n)
    ensures NonDeletions(DiffNames(path, base, target, names)) == [] <==>
            forall n | n in names :: Within(Child(target, n), Child(base, n))
    decreases HeightOf(target), 0, |names|
  {
    if names != [] {
      var n := names[0];
      ChildIsLower(target, n);
      DiffMeaning(path + [n], Child(base, n), Child(target, n));
      DiffNamesMeaning(path, base, target, names[1..]);
      NonDeletionsConcat(Diff(path + [n], Child(base, n), Child(target, n)), DiffNames(path, base, target, names[1..]));
      assert forall m :: m in names <==> m == n || m in names[1..];
    }
  }

  // ---- reconcile -------------------------------------------------------------------------------

  datatype Conflict = Conflict(root: Path, alphaChanges: seq<TreeChange>, betaChanges: seq<TreeChange>)

  datatype Plan = Plan(ancestor: seq<TreeChange>, alpha: seq<TreeChange>, beta: seq<TreeChange>, conflicts: seq<Conflict>)

  const NOTHING := Plan([], [], [], [])

  function Append(a: Plan, b: Plan): Plan {
    Plan(a.ancestor + b.ancestor, a.alpha + b.alpha, a.beta + b.beta, a.conflicts + b.conflicts)
  }

  /** The ancestor as its contents are to be compared: emptied when the sides agree against it. */
  function Base(anc: Option<Entry>, alpha: Option<Entry>): Option<Entry> {
    if Shallow(anc) == Shallow(alpha) then anc else None
  }

  function Reconcile(path: Path, anc: Option<Entry>, alpha: Option<Entry>, beta: Option<Entry>): Plan
    decreases HeightOf(alpha), 1, 0
  {
    if alpha.None? && beta.None? then
      if anc.Some? then NOTHING.(ancestor := [TreeChange(path, None, None)]) else NOTHING
    else if Shallow(alpha) == Shallow(beta) then
      var slim := if alpha.value.Directory? then Directory(map[]) else alpha.value;
      var own := if Shallow(anc) != Shallow(alpha) then [TreeChange(path, None, Some(slim))] else [];
      var base := Base(anc, alpha);
      Append(NOTHING.(ancestor := own), ReconcileNames(path, base, alpha, beta, Names(base, alpha, beta)))
    else Disagreement(path, anc, alpha, beta)
  }

  function ReconcileNames(path: Path, base: Option<Entry>, alpha: Option<Entry>, beta: Option<Entry>, names: seq<Name>): Plan
    requires alpha.Some?
    decreases HeightOf(alpha), 0, |names|
  {
    if names == [] then NOTHING
    else
      ChildIsLower(alpha, names[0]);
      Append(Reconcile(path + [names[0]], Child(base, names[0]), Child(alpha, names[0]), Child(beta, names[0])),
             ReconcileNames(path, base, alpha, beta, names[1..]))
  }

  function Disagreement(path: Path, anc: Option<Entry>, alpha: Option<Entry>, beta: Option<Entry>): Plan {
    var alphaDiff, betaDiff := Diff(path, anc, alpha), Diff(path, anc, beta);
    if betaDiff == [] then NOTHING.(beta := [TreeChange(path, anc, alpha)])
    else if alphaDiff == [] then NOTHING.(alpha := [TreeChange(path, anc, beta)])
    else
      var alphaNew, betaNew := NonDeletions(alphaDiff), NonDeletions(betaDiff);
      if alphaNew == [] && betaNew == [] then
        if alpha.None? then NOTHING.(beta := [TreeChange(path, beta, None)])
        else NOTHING.(alpha := [TreeChange(path, alpha, None)])
      else if betaNew == [] then NOTHING.(beta := [TreeChange(path, beta, alpha)])
      else if alphaNew == [] then NOTHING.(alpha := [TreeChange(path, alpha, beta)])
      else NOTHING.(conflicts := [Conflict(path, alphaNew, betaNew)])
  }

  // ---- what reconciling decides, path by path --------------------------------------------------

  datatype Ruling = Agreed | ToBeta | ToAlpha | Clash

  /** Which side gives way at a disagreement: one with nothing new of its own, or neither. */
  ghost function Judge(anc: Option<Entry>, alpha: Option<Entry>, beta: Option<Entry>): Ruling {
    if beta == anc then ToBeta
    else if alpha == anc then ToAlpha
    else if Within(beta, anc) && (!Within(alpha, anc) || alpha.None?) then ToBeta
    else if Within(alpha, anc) then ToAlpha
    else Clash
  }

  /** The ruling made exactly at the relative path `r`. */
  ghost function RulingAt(anc: Option<Entry>, alpha: Option<Entry>, beta: Option<Entry>, r: Path): Ruling
    decreases |r|
  {
    if alpha.None? && beta.None? then Agreed
    else if Shallow(alpha) == Shallow(beta) then
      if r == [] then Agreed else RulingAt(Child(Base(anc, alpha), r[0]), Child(alpha, r[0]), Child(beta, r[0]), r[1..])
    else if r == [] then Judge(anc, alpha, beta)
    else Agreed
  }

  lemma DisagreementMeaning(path: Path, anc: Option<Entry>, alpha: Option<Entry>, beta: Option<Entry>)
    requires Shallow(alpha) != Shallow(beta)
    ensures var plan := Disagreement(path, anc, alpha, beta);
            && plan.ancestor == []
            && plan.beta == (if Judge(anc, alpha, beta).ToBeta? then [TreeChange(path, beta, alpha)] else [])
            && plan.alpha == (if Judge(anc, alpha, beta).ToAlpha? then [TreeChange(path, alpha, beta)] else [])
            && |plan.conflicts| == (if Judge(anc, alpha, beta).Clash? then 1 else 0)
            && (Judge(anc, alpha, beta).Clash? ==> plan.conflicts[0].root == path)
  {
    DiffMeaning(path, anc, alpha);
    DiffMeaning(path, anc, beta);
    if Within(alpha, anc) && Within(beta, anc) {
      assert Look(alpha, []) == Shallow(alpha) && Look(beta, []) == Shallow(beta);
      assert alpha.None? || beta.None?;
    }
  }

  // ---- the contract of the lists ------------------------------------------------------------------

  /** The list for the side that gives way under a ruling. */
  function Side(plan: Plan, to: Ruling): seq<TreeChange> {
    if to.ToBeta? then plan.beta else plan.alpha
  }

  function Move(path: Path, alpha: Option<Entry>, beta: Option<Entry>, to: Ruling): TreeChange {
    if to.ToBeta? then TreeChange(path, beta, alpha) else TreeChange(path, alpha, beta)
  }

  ghost predicate Moves(path: Path, anc: Option<Entry>, alpha: Option<Entry>, beta: Option<Entry>, to: Ruling, c: TreeChange) {
    && path <= c.path
    && var r := c.path[|path|..];
       RulingAt(anc, alpha, beta, r) == to && c == Move(c.path, At(alpha, r), At(beta, r), to)
  }

  lemma MovesBelow(path: Path, anc: Option<Entry>, alpha: Option<Entry>, beta: Option<Entry>, names: seq<Name>, to: Ruling, c: TreeChange)
    requires alpha.Some? && Shallow(alpha) == Shallow(beta) && (to.ToBeta? || to.ToAlpha?)
    requires forall n | n in Contents(alpha) || n in Contents(beta) :: n in names
    ensures Moves(path, anc, alpha, beta, to, c) <==>
            path < c.path && c.path[|path|] in names &&
            var n := c.path[|path|];
            Moves(path + [n], Child(Base(anc, alpha), n), Child(alpha, n), Child(beta, n), to, c)
  {
    if path < c.path {
      var r, n := c.path[|path|..], c.path[|path|];
      assert r[0] == n && r[1..] == c.path[|path + [n]|..];
      assert path + [n] <= c.path;
      if n !in names {
        assert Child(alpha, n) == None == Child(beta, n);
        assert RulingAt(anc, alpha, beta, r) == RulingAt(Child(Base(anc, alpha), n), None, None, r[1..]) == Agreed;
      }
    } else if path <= c.path {
      assert c.path[|path|..] == [];
    }
  }

  lemma {:induction false} SideMembers(path: Path, anc: Option<Entry>, alpha: Option<Entry>, beta: Option<Entry>, to: Ruling, c: TreeChange)
    requires to.ToBeta? || to.ToAlpha?
    ensures c in Side(Reconcile(path, anc, alpha, beta), to) <==> Moves(path, anc, alpha, beta, to, c)
    decreases HeightOf(alpha), 1, 0
  {
    if alpha.None? && beta.None? {
    } else if Shallow(alpha) == Shallow(beta) {
      var base := Base(anc, alpha);
      var names := Names(base, alpha, beta);
      SideNamesMembers(path, base, alpha, beta, names, to, c);
      MovesBelow(path, anc, alpha, beta, names, to, c);
      SideOfAgreed(path, anc, alpha, beta, to);
    } else {
      SideOfDisagreement(path, anc, alpha, beta, to, c);
    }
  }

  lemma SideOfAgreed(path: Path, anc: Option<Entry>, alpha: Option<Entry>, beta: Option<Entry>, to: Ruling)
    requires alpha.Some? && Shallow(alpha) == Shallow(beta) && (to.ToBeta? || to.ToAlpha?)
    ensures var base := Base(anc, alpha);
            Side(Reconcile(path, anc, alpha, beta), to) == Side(ReconcileNames(path, base, alpha, beta, Names(base, alpha, beta)), to)
  {
    var base := Base(anc, alpha);
    SideOfAppend(ReconcileNames(path, base, alpha, beta, Names(base, alpha, beta)), to);
  }

  lemma SideOfAppend(rest: Plan, to: Ruling)
    ensures forall own :: Side(Append(NOTHING.(ancestor := own), rest), to) == Side(rest, to)
  {
    NothingBefore(rest.alpha);
    NothingBefore(rest.beta);
  }

  lemma SideOfDisagreement(path: Path, anc: Option<Entry>, alpha: Option<Entry>, beta: Option<Entry>, to: Ruling, c: TreeChange)
    requires Shallow(alpha) != Shallow(beta) && (to.ToBeta? || to.ToAlpha?)
    ensures c in Side(Reconcile(path, anc, alpha, beta), to) <==> Moves(path, anc, alpha, beta, to, c)
  {
    DisagreementMeaning(path, anc, alpha, beta);
    assert path <= c.path && c.path[|path|..] == [] <==> c.path == path;
  }

  lemma {:induction false} SideNamesMembers(path: Path, base: Option<Entry>, alpha: Option<Entry>, beta: Option<Entry>, names: seq<Name>,
                                            to: Ruling, c: TreeChange)
    requires alpha.Some? && (to.ToBeta? || to.ToAlpha?)
    ensures c in Side(ReconcileNames(path, base, alpha, beta, names), to) <==>
            path < c.path && c.path[|path|] in names &&
            var n := c.path[|path|]; Moves(path + [n], Child(base, n), Child(alpha, n), Child(beta, n), to, c)
    decreases HeightOf(alpha), 0, |names|
  {
    if names != [] {
      var n := names[0];
      ChildIsLower(alpha, n);
      SideMembers(path + [n], Child(base, n), Child(alpha, n), Child(beta, n), to, c);
      SideNamesMembers(path, base, alpha, beta, names[1..], to, c);
      assert path + [n] <= c.path <==> path < c.path && c.path[|path|] == n;
    }
  }

  // ---- the conflicts --------------------------------------------------------------------------------

  /** Where conflicts were declared. */
  function Roots(cs: seq<Conflict>): seq<Path> {
    if cs == [] then [] else [cs[0].root] + Roots(cs[1..])
  }

  lemma {:induction false} RootsConcat(a: seq<Conflict>, b: seq<Conflict>)
    ensures Roots(a + b) == Roots(a) + Roots(b)
  {
    if a == [] {
      assert a + b == b;
    } else {
      assert (a + b)[1..] == a[1..] + b;
      RootsConcat(a[1..], b);
    }
  }

  /** Exactly the paths ruled a clash are reported as conflicts. */
  lemma {:induction false} ConflictMembers(path: Path, anc: Option<Entry>, alpha: Option<Entry>, beta: Option<Entry>, p: Path)
    ensures p in Roots(Reconcile(path, anc, alpha, beta).conflicts) <==>
            path <= p && RulingAt(anc, alpha, beta, p[|path|..]) == Clash
    decreases HeightOf(alpha), 1, 0
  {
    if alpha.None? && beta.None? {
    } else if Shallow(alpha) == Shallow(beta) {
      var base := Base(anc, alpha);
      var names := Names(base, alpha, beta);
      ConflictNames(path, base, alpha, beta, names, p);
      ClashBelow(path, anc, alpha, beta, names, p);
      NothingBefore(ReconcileNames(path, base, alpha, beta, names).conflicts);
    } else {
      ConflictHere(path, anc, alpha, beta, p);
    }
  }

  lemma ConflictHere(path: Path, anc: Option<Entry>, alpha: Option<Entry>, beta: Option<Entry>, p: Path)
    requires Shallow(alpha) != Shallow(beta)
    ensures p in Roots(Reconcile(path, anc, alpha, beta).conflicts) <==>
            path <= p && RulingAt(anc, alpha, beta, p[|path|..]) == Clash
  {
    DisagreementMeaning(path, anc, alpha, beta);
    var cs := Reconcile(path, anc, alpha, beta).conflicts;
    assert path <= p && p[|path|..] == [] <==> p == path;
    if Judge(anc, alpha, beta).Clash? {
      assert cs[1..] == [] && Roots(cs) == [path] + [];
    }
  }

  lemma ClashBelow(path: Path, anc: Option<Entry>, alpha: Option<Entry>, beta: Option<Entry>, names: seq<Name>, p: Path)
    requires (alpha.Some? || beta.Some?) && Shallow(alpha) == Shallow(beta)
    requires forall n | n in Contents(alpha) || n in Contents(beta) :: n in names
    ensures path <= p && RulingAt(anc, alpha, beta, p[|path|..]) == Clash <==>
            path < p && p[|path|] in names &&
            var n := p[|path|]; RulingAt(Child(Base(anc, alpha), n), Child(alpha, n), Child(beta, n), p[|path + [n]|..]) == Clash
  {
    if path < p {
      var r := p[|path|..];
      assert r[0] == p[|path|] && r[1..] == p[|path| + 1..];
    }
  }

  lemma {:induction false} ConflictNames(path: Path, base: Option<Entry>, alpha: Option<Entry>, beta: Option<Entry>, names: seq<Name>, p: Path)
    requires alpha.Some?
    ensures p in Roots(ReconcileNames(path, base, alpha, beta, names).conflicts) <==>
            path < p && p[|path|] in names &&
            var n := p[|path|]; RulingAt(Child(base, n), Child(alpha, n), Child(beta, n), p[|path + [n]|..]) == Clash
    decreases HeightOf(alpha), 0, |names|
  {
    if names != [] {
      var n := names[0];
      ChildIsLower(alpha, n);
      ConflictMembers(path + [n], Child(base, n), Child(alpha, n), Child(beta, n), p);
      ConflictNames(path, base, alpha, beta, names[1..], p);
      RootsConcat(Reconcile(path + [n], Child(base, n), Child(alpha, n), Child(beta, n)).conflicts,
                  ReconcileNames(path, base, alpha, beta, names[1..]).conflicts);
      assert path + [n] <= p <==> path < p && p[|path|] == n;
    }
  }

  /** No path is reported twice. */
  lemma {:induction false} ConflictsOnce(path: Path, anc: Option<Entry>, alpha: Option<Entry>, beta: Option<Entry>)
    ensures NoRepeats(Roots(Reconcile(path, anc, alpha, beta).conflicts))
    decreases HeightOf(alpha), 1, 0
  {
    if alpha.None? && beta.None? {
    } else if Shallow(alpha) == Shallow(beta) {
      var base := Base(anc, alpha);
      var names := Names(base, alpha, beta);
      ConflictsOnceNames(path, base, alpha, beta, names);
      NothingBefore(ReconcileNames(path, base, alpha, beta, names).conflicts);
    } else {
      DisagreementMeaning(path, anc, alpha, beta);
      assert |Roots(Reconcile(path, anc, alpha, beta).conflicts)| <= 1;
    }
  }

  lemma {:induction false} ConflictsOnceNames(path: Path, base: Option<Entry>, alpha: Option<Entry>, beta: Option<Entry>, names: seq<Name>)
    requires alpha.Some? && NoRepeats(names)
    ensures NoRepeats(Roots(ReconcileNames(path, base, alpha, beta, names).conflicts))
    decreases HeightOf(alpha), 0, |names|
  {
    if names != [] {
      var n := names[0];
      ChildIsLower(alpha, n);
      var first := Reconcile(path + [n], Child(base, n), Child(alpha, n), Child(beta, n)).conflicts;
      var rest := ReconcileNames(path, base, alpha, beta, names[1..]).conflicts;
      ConflictsOnce(path + [n], Child(base, n), Child(alpha, n), Child(beta, n));
      ConflictsOnceNames(path, base, alpha, beta, names[1..]);
      forall p | p in Roots(first) ensures p !in Roots(rest) {
        ConflictMembers(path + [n], Child(base, n), Child(alpha, n), Child(beta, n), p);
        ConflictNames(path, base, alpha, beta, names[1..], p);
        assert p[|path|] == n;
      }
      RootsConcat(first, rest);
      NoRepeatsConcat(Roots(first), Roots(rest));
    }
  }

  // ---- what a conflict tells ------------------------------------------------------------------------------

  /** Somewhere below `path` one tree has one thing and the other another, as a change says, with nothing told apart above. */
  ghost predicate TellsApart(path: Path, base: Option<Entry>, target: Option<Entry>, c: TreeChange) {
    && path <= c.path
    && var r := c.path[|path|..];
       && c.before == At(base, r) && c.after == At(target, r) && Shallow(c.before) != Shallow(c.after)
       && forall q | q < r :: Look(base, q) == Look(target, q)
  }

  /** A diff is exactly the highest differences. */
  lemma {:induction false} DiffMembers(path: Path, base: Option<Entry>, target: Option<Entry>, c: TreeChange)
    ensures c in Diff(path, base, target) <==> TellsApart(path, base, target, c)
    decreases HeightOf(target), 1, 0
  {
    var r := if path <= c.path then c.path[|path|..] else [];
    if Shallow(base) != Shallow(target) {
      assert Look(base, []) == Shallow(base) && Look(target, []) == Shallow(target);
      if TellsApart(path, base, target, c) {
        assert c.path == path + r;
        assert r != [] ==> [] < r;
        assert r == [] ==> c == TreeChange(path, base, target);
      }
      assert path[|path|..] == [];
    } else if target.None? {
      AtNone(r);
    } else {
      DiffNamesMembers(path, base, target, Names(base, target, None), c);
      if path <= c.path && r != [] && r[0] !in Names(base, target, None) { AtNone(r[1..]); }
    }
  }

  lemma {:induction false} DiffNamesMembers(path: Path, base: Option<Entry>, target: Option<Entry>, names: seq<Name>, c: TreeChange)
    requires target.Some? && Shallow(base) == Shallow(target)
    ensures c in DiffNames(path, base, target, names) <==>
            path < c.path && c.path[|path|] in names && TellsApart(path, base, target, c)
    decreases HeightOf(target), 0, |names|
  {
    if names != [] {
      var n := names[0];
      ChildIsLower(target, n);
      DiffMembers(path + [n], Child(base, n), Child(target, n), c);
      DiffNamesMembers(path, base, target, names[1..], c);
      assert path + [n] <= c.path <==> path < c.path && c.path[|path|] == n;
      if path + [n] <= c.path { TellsApartBelow(path, base, target, n, c); }
    }
  }

  lemma TellsApartBelow(path: Path, base: Option<Entry>, target: Option<Entry>, n: Name, c: TreeChange)
    requires path + [n] <= c.path && Shallow(base) == Shallow(target)
    ensures TellsApart(path, base, target, c) <==> TellsApart(path + [n], Child(base, n), Child(target, n), c)
  {
    var r, s := c.path[|path|..], c.path[|path + [n]|..];
    assert r == [n] + s;
    LookStep(base, n, s);
    LookStep(target, n, s);
    if TellsApart(path, base, target, c) {
      forall q | q < s ensures Look(Child(base, n), q) == Look(Child(target, n), q) {
        LookStep(base, n, q);
        LookStep(target, n, q);
        assert [n] + q < r;
      }
    }
    if TellsApart(path + [n], Child(base, n), Child(target, n), c) {
      forall q | q < r ensures Look(base, q) == Look(target, q) {
        if q != [] {
          assert q == [n] + q[1..] && q[1..] < s;
          LookStep(base, n, q[1..]);
          LookStep(target, n, q[1..]);
        }
      }
    }
  }

  lemma {:induction false} NonDeletionMembers(cs: seq<TreeChange>, c: TreeChange)
    ensures c in NonDeletions(cs) <==> c in cs && c.after.Some?
  {
    if cs != [] { NonDeletionMembers(cs[1..], c); }
  }

  /** A conflict tells, of either side, exactly what that side has put where the ancestor had something else or nothing. */
  lemma ConflictTells(path: Path, anc: Option<Entry>, alpha: Option<Entry>, beta: Option<Entry>, c: TreeChange)
    requires Shallow(alpha) != Shallow(beta) && Judge(anc, alpha, beta) == Clash
    ensures var cs := Reconcile(path, anc, alpha, beta).conflicts;
            && |cs| == 1 && cs[0].root == path
            && (c in cs[0].alphaChanges <==> TellsApart(path, anc, alpha, c) && c.after.Some?)
            && (c in cs[0].betaChanges <==> TellsApart(path, anc, beta, c) && c.after.Some?)
  {
    DiffMeaning(path, anc, alpha);
    DiffMeaning(path, anc, beta);
    DiffMembers(path, anc, alpha, c);
    DiffMembers(path, anc, beta, c);
    NonDeletionMembers(Diff(path, anc, alpha), c);
    NonDeletionMembers(Diff(path, anc, beta), c);
  }

  // ---- lists that do not nest -------------------------------------------------------------------------

  lemma NonNestedConcat(a: seq<TreeChange>, b: seq<TreeChange>)
    requires NonNested(a) && NonNested(b)
    requires forall x, y | x in a && y in b :: !Comparable(x.path, y.path)
    ensures NonNested(a + b)
  {
    forall i, j | 0 <= i < j < |a + b| ensures !Comparable((a + b)[i].path, (a + b)[j].path) {
      if i < |a| <= j {
        assert a[i] in a && b[j - |a|] in b;
      }
    }
  }

  lemma {:induction false} SideNonNested(path: Path, anc: Option<Entry>, alpha: Option<Entry>, beta: Option<Entry>, to: Ruling)
    requires to.ToBeta? || to.ToAlpha?
    ensures NonNested(Side(Reconcile(path, anc, alpha, beta), to))
    decreases HeightOf(alpha), 1, 0
  {
    if alpha.None? && beta.None? {
    } else if Shallow(alpha) == Shallow(beta) {
      var base := Base(anc, alpha);
      SideNamesNonNested(path, base, alpha, beta, Names(base, alpha, beta), to);
      var rest := Side(ReconcileNames(path, base, alpha, beta, Names(base, alpha, beta)), to);
      assert [] + rest == rest;
    } else {
      DisagreementMeaning(path, anc, alpha, beta);
    }
  }

  lemma {:induction false} SideNamesNonNested(path: Path, base: Option<Entry>, alpha: Option<Entry>, beta: Option<Entry>, names: seq<Name>, to: Ruling)
    requires alpha.Some? && NoRepeats(names) && (to.ToBeta? || to.ToAlpha?)
    ensures NonNested(Side(ReconcileNames(path, base, alpha, beta, names), to))
    decreases HeightOf(alpha), 0, |names|
  {
    if names != [] {
      var n := names[0];
      ChildIsLower(alpha, n);
      SideNonNested(path + [n], Child(base, n), Child(alpha, n), Child(beta, n), to);
      SideNamesNonNested(path, base, alpha, beta, names[1..], to);
      var first := Side(Reconcile(path + [n], Child(base, n), Child(alpha, n), Child(beta, n)), to);
      var rest := Side(ReconcileNames(path, base, alpha, beta, names[1..]), to);
      forall x, y | x in first && y in rest ensures !Comparable(x.path, y.path) {
        SideMembers(path + [n], Child(base, n), Child(alpha, n), Child(beta, n), to, x);
        SideNamesMembers(path, base, alpha, beta, names[1..], to, y);
        assert x.path[|path|] == n != y.path[|path|];
      }
      NonNestedConcat(first, rest);
    }
  }

  /** A ruling is only ever made where both sides have a directory above it. */
  lemma {:induction false} RulingHasParent(anc: Option<Entry>, alpha: Option<Entry>, beta: Option<Entry>, r: Path)
    requires r != [] && RulingAt(anc, alpha, beta, r) != Agreed
    ensures Look(alpha, r[..|r| - 1]) == Some(DirectoryMeta) == Look(beta, r[..|r| - 1])
    decreases |r|
  {
    var n := r[0];
    if |r| == 1 {
      assert r[1..] == [] && r[..0] == [];
    } else {
      RulingHasParent(Child(Base(anc, alpha), n), Child(alpha, n), Child(beta, n), r[1..]);
      assert r[..|r| - 1] == [n] + r[1..][..|r| - 2];
      LookStep(alpha, n, r[1..][..|r| - 2]);
      LookStep(beta, n, r[1..][..|r| - 2]);
    }
  }

  lemma SideStartsFrom(anc: Option<Entry>, alpha: Entry, beta: Entry, to: Ruling, c: TreeChange)
    requires alpha.Directory? && beta.Directory? && (to.ToBeta? || to.ToAlpha?)
    requires c in Side(Reconcile([], anc, Some(alpha), Some(beta)), to)
    ensures StartsFrom(if to.ToAlpha? then alpha else beta, c)
  {
    SideMembers([], anc, Some(alpha), Some(beta), to, c);
    assert c.path[0..] == c.path;
    assert c.path != [];
    RulingHasParent(anc, Some(alpha), Some(beta), c.path);
  }

  /** The merge keeps what a transition needs of its changes: non-nested, from what is there, in directories. */
  lemma MergeIsReconciled(anc: Option<Entry>, alpha: Entry, beta: Entry)
    requires alpha.Directory? && beta.Directory?
    ensures Reconciled(alpha, Reconcile([], anc, Some(alpha), Some(beta)).alpha)
    ensures Reconciled(beta, Reconcile([], anc, Some(alpha), Some(beta)).beta)
  {
    var plan := Reconcile([], anc, Some(alpha), Some(beta));
    SideNonNested([], anc, Some(alpha), Some(beta), ToAlpha);
    SideNonNested([], anc, Some(alpha), Some(beta), ToBeta);
    assert Side(plan, ToAlpha) == plan.alpha && Side(plan, ToBeta) == plan.beta;
    forall c | c in plan.alpha ensures StartsFrom(alpha, c) { SideStartsFrom(anc, alpha, beta, ToAlpha, c); }
    forall c | c in plan.beta ensures StartsFrom(beta, c) { SideStartsFrom(anc, alpha, beta, ToBeta, c); }
  }

  /** What is recorded of the ancestor: that something is gone, or what both sides hold, each entry by itself. */
  ghost predicate Records(alpha: Option<Entry>, beta: Option<Entry>, c: TreeChange, r: Path) {
    && c.before == None && Contents(c.after) == map[]
    && Shallow(c.after) == Look(alpha, r) == Look(beta, r)
  }

  /** So every change of the ancestor does. */
  lemma {:induction false} AncestorRecords(path: Path, anc: Option<Entry>, alpha: Option<Entry>, beta: Option<Entry>, c: TreeChange)
    requires c in Reconcile(path, anc, alpha, beta).ancestor
    ensures path <= c.path && Records(alpha, beta, c, c.path[|path|..])
    decreases HeightOf(alpha), 1, 0
  {
    if alpha.None? && beta.None? {
      assert c.path[|path|..] == [];
    } else if Shallow(alpha) == Shallow(beta) {
      var base := Base(anc, alpha);
      var names := Names(base, alpha, beta);
      if c in ReconcileNames(path, base, alpha, beta, names).ancestor {
        NamesRecord(path, base, alpha, beta, names, c);
      } else {
        OwnRecord(path, anc, alpha, beta, c);
      }
    } else {
      NothingRecorded(path, anc, alpha, beta);
    }
  }

  lemma OwnRecord(path: Path, anc: Option<Entry>, alpha: Option<Entry>, beta: Option<Entry>, c: TreeChange)
    requires alpha.Some? && Shallow(alpha) == Shallow(beta) && c in Reconcile(path, anc, alpha, beta).ancestor
    requires c !in ReconcileNames(path, Base(anc, alpha), alpha, beta, Names(Base(anc, alpha), alpha, beta)).ancestor
    ensures path <= c.path && Records(alpha, beta, c, c.path[|path|..])
  {
    assert c.path == path && c.path[|path|..] == [];
  }

  lemma NothingRecorded(path: Path, anc: Option<Entry>, alpha: Option<Entry>, beta: Option<Entry>)
    ensures Disagreement(path, anc, alpha, beta).ancestor == []
  {}

  lemma BelowName(path: Path, n: Name, p: Path)
    requires path + [n] <= p
    ensures path <= p && p[|path + [n]|..] == p[|path| + 1..] && p[|path|..] == [n] + p[|path| + 1..]
  {}

  lemma RecordsBelow(alpha: Option<Entry>, beta: Option<Entry>, n: Name, c: TreeChange, r: Path)
    requires Records(Child(alpha, n), Child(beta, n), c, r)
    ensures Records(alpha, beta, c, [n] + r)
  {
    assert ([n] + r)[1..] == r;
  }

  lemma {:induction false} NamesRecord(path: Path, base: Option<Entry>, alpha: Option<Entry>, beta: Option<Entry>, names: seq<Name>, c: TreeChange)
    requires alpha.Some? && c in ReconcileNames(path, base, alpha, beta, names).ancestor
    ensures path <= c.path && Records(alpha, beta, c, c.path[|path|..])
    decreases HeightOf(alpha), 0, |names|
  {
    var n := names[0];
    ChildIsLower(alpha, n);
    if c in Reconcile(path + [n], Child(base, n), Child(alpha, n), Child(beta, n)).ancestor {
      AncestorRecords(path + [n], Child(base, n), Child(alpha, n), Child(beta, n), c);
      BelowName(path, n, c.path);
      RecordsBelow(alpha, beta, n, c, c.path[|path| + 1..]);
    } else {
      NamesRecord(path, base, alpha, beta, names[1..], c);
    }
  }
}
