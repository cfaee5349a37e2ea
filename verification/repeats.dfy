/** Undisturbed cycles one after another: what a cycle leaves undone, the next ones take up. */
module Repeats {
  import opened Lists
  import opened Entries
  import opened Changes
  import opened Splice
  import opened Reconcile
  import opened Tree
  import opened Execution
  import opened Meaning
  import opened Snapshot
  import opened Agreement
  import opened Ancestor
  import opened Pass
  import opened Convergence
  import opened Trash
  import opened Cycle
  import Guard
  import Merge

  // ---- the merge after a cycle that left files behind ----------------------------------------------------

  function Other(to: Merge.Ruling): Merge.Ruling {
    match to
    case ToAlpha => Merge.ToBeta
    case ToBeta => Merge.ToAlpha
    case _ => to
  }

  /** What a side may hold once its list is executed: what it was to hold, or at a missed file what was left there. */
  ghost predicate Trails(anc: Option<Entry>, alpha: Option<Entry>, beta: Option<Entry>, to: Merge.Ruling, p: Path, now: Option<Meta>) {
    || now == AfterSide(anc, alpha, beta, to, p)
    || (Fate(anc, alpha, beta, p) == to && IsFile(Look(if to.ToAlpha? then beta else alpha, p))
        && now == Leftover(Look(if to.ToAlpha? then alpha else beta, p)))
  }

  ghost predicate Behind(anc: Option<Entry>, alpha: Option<Entry>, beta: Option<Entry>,
                         anc': Option<Entry>, alpha': Option<Entry>, beta': Option<Entry>) {
    && (forall p :: Look(anc', p) == Recorded(anc, alpha, beta, p))
    && (forall p :: Trails(anc, alpha, beta, Merge.ToAlpha, p, Look(alpha', p)))
    && (forall p :: Trails(anc, alpha, beta, Merge.ToBeta, p, Look(beta', p)))
  }

  lemma BehindStep(anc: Option<Entry>, alpha: Option<Entry>, beta: Option<Entry>,
                   anc': Option<Entry>, alpha': Option<Entry>, beta': Option<Entry>, n: Name)
    requires Behind(anc, alpha, beta, anc', alpha', beta')
    requires alpha.Some? && Shallow(alpha) == Shallow(beta)
    ensures Behind(Child(Merge.Base(anc, alpha), n), Child(alpha, n), Child(beta, n), Child(anc', n), Child(alpha', n), Child(beta', n))
  {
    var base := Merge.Base(anc, alpha);
    forall p
      ensures Look(Child(anc', n), p) == Recorded(Child(base, n), Child(alpha, n), Child(beta, n), p)
      ensures Trails(Child(base, n), Child(alpha, n), Child(beta, n), Merge.ToAlpha, p, Look(Child(alpha', n), p))
      ensures Trails(Child(base, n), Child(alpha, n), Child(beta, n), Merge.ToBeta, p, Look(Child(beta', n), p))
    {
      LookStep(anc', n, p);
      LookStep(alpha', n, p);
      LookStep(beta', n, p);
      LookStep(alpha, n, p);
      LookStep(beta, n, p);
      var q := [n] + p;
      assert q[0] == n && q[1..] == p;
      assert Look(anc', q) == Recorded(anc, alpha, beta, q);
      assert Trails(anc, alpha, beta, Merge.ToAlpha, q, Look(alpha', q));
      assert Trails(anc, alpha, beta, Merge.ToBeta, q, Look(beta', q));
    }
  }

  /** A side that gives way is as the winner, but for files it has nothing for, or still the ancestor's. */
  ghost predicate Near(anc: Option<Entry>, winner: Option<Entry>, p: Path, now: Option<Meta>) {
    || now == Look(winner, p)
    || (IsFile(Look(winner, p)) && (now.None? || (IsFile(now) && now == Look(anc, p))))
  }

  /** The ruling at a path that gave way: the same again where a file was missed, or the opposite if the ancestor has it. */
  ghost function Again(to: Merge.Ruling, recorded: Option<Meta>, winner: Option<Meta>, now: Option<Meta>): Merge.Ruling {
    if now == winner then Merge.Agreed else if recorded == winner then Other(to) else to
  }

  lemma BaseLook(anc: Option<Entry>, e: Option<Entry>, n: Name, p: Path)
    requires Shallow(e) == Some(DirectoryMeta)
    ensures Look(Child(Merge.Base(anc, e), n), p) == Look(anc, [n] + p)
  {
    LookStep(anc, n, p);
    if Shallow(anc) != Shallow(e) { AtNone(p); }
  }

  lemma {:induction false} NearRuling(anc: Option<Entry>, winner: Option<Entry>, side: Option<Entry>, to: Merge.Ruling, r: Path)
    requires to.ToAlpha? || to.ToBeta?
    requires forall p :: Near(anc, winner, p, Look(side, p))
    ensures Merge.RulingAt(anc, if to.ToAlpha? then side else winner, if to.ToAlpha? then winner else side, r) ==
            Again(to, Look(anc, r), Look(winner, r), Look(side, r))
    decreases |r|
  {
    assert Near(anc, winner, [], Look(side, []));
    if Shallow(side) != Shallow(winner) {
      FileBehind(anc, winner, side, to, r);
    } else if r != [] && Shallow(winner) == Some(DirectoryMeta) {
      var n := r[0];
      var base := Child(Merge.Base(anc, winner), n);
      forall p ensures Near(base, Child(winner, n), p, Look(Child(side, n), p)) {
        LookStep(winner, n, p);
        LookStep(side, n, p);
        BaseLook(anc, winner, n, p);
        assert Near(anc, winner, [n] + p, Look(side, [n] + p));
      }
      NearRuling(base, Child(winner, n), Child(side, n), to, r[1..]);
      BaseLook(anc, winner, n, r[1..]);
      assert r == [n] + r[1..];
    } else if r != [] {
      AtNone(r[1..]);
    }
  }

  lemma FileBehind(anc: Option<Entry>, winner: Option<Entry>, side: Option<Entry>, to: Merge.Ruling, r: Path)
    requires (to.ToAlpha? || to.ToBeta?) && Shallow(side) != Shallow(winner)
    requires Near(anc, winner, [], Look(side, []))
    ensures Merge.RulingAt(anc, if to.ToAlpha? then side else winner, if to.ToAlpha? then winner else side, r) ==
            Again(to, Look(anc, r), Look(winner, r), Look(side, r))
  {
    if r != [] {
      AtNone(r[1..]);
    } else {
      NothingNewBehind(anc, winner, side);
    }
  }

  lemma NothingNewBehind(anc: Option<Entry>, winner: Option<Entry>, side: Option<Entry>)
    requires Shallow(side) != Shallow(winner) && IsFile(Shallow(winner)) && (side.None? || (IsFile(Shallow(side)) && Shallow(side) == Shallow(anc)))
    ensures (winner == anc <==> Shallow(winner) == Shallow(anc)) && (Merge.Within(winner, anc) ==> winner == anc)
    ensures Merge.Within(side, anc) && (side == anc <==> Shallow(side) == Shallow(anc))
  {
    assert Look(winner, []) == Shallow(winner) && Look(anc, []) == Shallow(anc);
    if side.None? { Merge.NoneWithin(anc); }
  }

  lemma BehindAtDisagreement(anc: Option<Entry>, alpha: Option<Entry>, beta: Option<Entry>,
                             anc': Option<Entry>, alpha': Option<Entry>, beta': Option<Entry>)
    requires Behind(anc, alpha, beta, anc', alpha', beta') && Shallow(alpha) != Shallow(beta)
    ensures anc' == anc
    ensures var j := Merge.Judge(anc, alpha, beta);
            && (j.ToAlpha? ==> beta' == beta && forall p :: Near(anc, beta, p, Look(alpha', p)))
            && (j.ToBeta? ==> alpha' == alpha && forall p :: Near(anc, alpha, p, Look(beta', p)))
            && (j.Clash? ==> alpha' == alpha && beta' == beta)
  {
    var j := Merge.Judge(anc, alpha, beta);
    SameTree(anc', anc);
    forall p
      ensures j.ToAlpha? ==> Look(beta', p) == Look(beta, p) && Near(anc, beta, p, Look(alpha', p))
      ensures j.ToBeta? ==> Look(alpha', p) == Look(alpha, p) && Near(anc, alpha, p, Look(beta', p))
      ensures j.Clash? ==> Look(alpha', p) == Look(alpha, p) && Look(beta', p) == Look(beta, p)
    {
      assert Trails(anc, alpha, beta, Merge.ToAlpha, p, Look(alpha', p));
      assert Trails(anc, alpha, beta, Merge.ToBeta, p, Look(beta', p));
      LoserHadNothingNew(anc, alpha, beta, p);
    }
    if !j.ToAlpha? { SameTree(alpha', alpha); }
    if !j.ToBeta? { SameTree(beta', beta); }
  }

  /** What the next merge rules at each path: clashes stay, and only missed files are still to be moved, one way or the other. */
  ghost function Next(anc: Option<Entry>, alpha: Option<Entry>, beta: Option<Entry>, alpha': Option<Entry>, beta': Option<Entry>, r: Path): Merge.Ruling {
    match Fate(anc, alpha, beta, r)
    case Agreed => Merge.Agreed
    case Clash => if Merge.RulingAt(anc, alpha, beta, r) == Merge.Clash then Merge.Clash else Merge.Agreed
    case ToAlpha => Again(Merge.ToAlpha, Look(anc, r), Look(beta, r), Look(alpha', r))
    case ToBeta => Again(Merge.ToBeta, Look(anc, r), Look(alpha, r), Look(beta', r))
  }

  lemma {:induction false} NextRulings(anc: Option<Entry>, alpha: Option<Entry>, beta: Option<Entry>,
                                       anc': Option<Entry>, alpha': Option<Entry>, beta': Option<Entry>, r: Path)
    requires Behind(anc, alpha, beta, anc', alpha', beta')
    ensures Merge.RulingAt(anc', alpha', beta', r) == Next(anc, alpha, beta, alpha', beta', r)
    decreases |r|
  {
    assert Trails(anc, alpha, beta, Merge.ToAlpha, [], Look(alpha', []));
    assert Trails(anc, alpha, beta, Merge.ToBeta, [], Look(beta', []));
    if alpha.None? && beta.None? {
    } else if Shallow(alpha) != Shallow(beta) {
      BehindAtDisagreement(anc, alpha, beta, anc', alpha', beta');
      match Merge.Judge(anc, alpha, beta) {
        case ToAlpha => NearRuling(anc, beta, alpha', Merge.ToAlpha, r);
        case ToBeta => NearRuling(anc, alpha, beta', Merge.ToBeta, r);
        case _ =>
      }
    } else if r != [] {
      NextRulingsBelow(anc, alpha, beta, anc', alpha', beta', r);
    }
  }

  lemma NextRulingsBelow(anc: Option<Entry>, alpha: Option<Entry>, beta: Option<Entry>,
                         anc': Option<Entry>, alpha': Option<Entry>, beta': Option<Entry>, r: Path)
    requires Behind(anc, alpha, beta, anc', alpha', beta')
    requires alpha.Some? && Shallow(alpha) == Shallow(beta) && r != []
    ensures Merge.RulingAt(anc', alpha', beta', r) == Next(anc, alpha, beta, alpha', beta', r)
    decreases |r|, 0
  {
    var n, s := r[0], r[1..];
    assert r == [n] + s;
    assert Look(anc', []) == Recorded(anc, alpha, beta, []);
    assert Trails(anc, alpha, beta, Merge.ToAlpha, [], Look(alpha', []));
    assert Trails(anc, alpha, beta, Merge.ToBeta, [], Look(beta', []));
    BehindStep(anc, alpha, beta, anc', alpha', beta', n);
    NextRulings(Child(Merge.Base(anc, alpha), n), Child(alpha, n), Child(beta, n), Child(anc', n), Child(alpha', n), Child(beta', n), s);
    if Shallow(alpha) == Some(DirectoryMeta) {
      BaseLook(anc, alpha, n, s);
    }
  }

  // ---- what is still to be created ---------------------------------------------------------------------------

  function List(anc: Option<Entry>, alpha: Entry, beta: Entry, to: Merge.Ruling): seq<Change> {
    ChangesFrom(Merge.Side(Merge.Reconcile([], anc, Some(alpha), Some(beta)), to))
  }

  lemma SideFacts(anc: Option<Entry>, alpha: Entry, beta: Entry, to: Merge.Ruling)
    requires alpha.Directory? && beta.Directory? && HoldsAdmissible(alpha) && HoldsAdmissible(beta) && (to.ToAlpha? || to.ToBeta?)
    ensures var cs := Merge.Side(Merge.Reconcile([], anc, Some(alpha), Some(beta)), to);
            Reconciled(Loser(alpha, beta, to), cs) && AllAdmissible(Loser(alpha, beta, to), cs)
  {
    var plan := Merge.Reconcile([], anc, Some(alpha), Some(beta));
    Merge.MergeIsReconciled(anc, alpha, beta);
    MergeAdmissible(anc, alpha, beta);
    assert Merge.Side(plan, Merge.ToAlpha) == plan.alpha && Merge.Side(plan, Merge.ToBeta) == plan.beta;
  }

  /** A file is created where a side gives way, of what the winner has and it has not. */
  lemma FileFacts(anc: Option<Entry>, alpha: Entry, beta: Entry, to: Merge.Ruling, c: Change)
    requires alpha.Directory? && beta.Directory? && HoldsAdmissible(alpha) && HoldsAdmissible(beta) && (to.ToAlpha? || to.ToBeta?)
    requires c in List(anc, alpha, beta, to) && c.kind.CreateFile?
    ensures Fate(anc, Some(alpha), Some(beta), c.path) == to
    ensures var gets := Look(Some(Winner(alpha, beta, to)), c.path);
            IsFile(gets) && gets.value.digest == c.kind.digest && Look(Some(Loser(alpha, beta, to)), c.path) != gets
  {
    SideFacts(anc, alpha, beta, to);
    CreationFacts(Loser(alpha, beta, to), Merge.Side(Merge.Reconcile([], anc, Some(alpha), Some(beta)), to), c);
    SideWant(anc, alpha, beta, to, c.path);
  }

  /** The next merge creates only files that were missed. */
  lemma NextCreations(anc: Option<Entry>, alpha: Entry, beta: Entry, anc': Option<Entry>, alpha': Entry, beta': Entry, to: Merge.Ruling, c: Change)
    requires alpha'.Directory? && beta'.Directory? && HoldsAdmissible(alpha') && HoldsAdmissible(beta') && (to.ToAlpha? || to.ToBeta?)
    requires Behind(anc, Some(alpha), Some(beta), anc', Some(alpha'), Some(beta'))
    requires c in List(anc', alpha', beta', to) && c.kind.CreateFile?
    ensures Fate(anc, Some(alpha), Some(beta), c.path) == to
    ensures var gets := Look(Some(Winner(alpha, beta, to)), c.path);
            IsFile(gets) && gets.value.digest == c.kind.digest && Look(Some(Loser(alpha', beta', to)), c.path) != gets
  {
    FileFacts(anc', alpha', beta', to, c);
    var q := FateHasOwner(anc', Some(alpha'), Some(beta'), c.path);
    MovedIsMissed(anc, alpha, beta, anc', alpha', beta', to, q, c.path);
  }

  /** Content the next merge moves is a file at the path of its ruling, which gave way before. */
  lemma MovedIsMissed(anc: Option<Entry>, alpha: Entry, beta: Entry, anc': Option<Entry>, alpha': Entry, beta': Entry,
                      to: Merge.Ruling, q: Path, p: Path)
    requires Behind(anc, Some(alpha), Some(beta), anc', Some(alpha'), Some(beta')) && (to.ToAlpha? || to.ToBeta?)
    requires q <= p && Merge.RulingAt(anc', Some(alpha'), Some(beta'), q) == to && Look(Some(Winner(alpha', beta', to)), p).Some?
    ensures p == q && Fate(anc, Some(alpha), Some(beta), p) == to
    ensures var gets := Look(Some(Winner(alpha, beta, to)), p);
            IsFile(gets) && Look(Some(Winner(alpha', beta', to)), p) == gets && Look(Some(Loser(alpha', beta', to)), p) != gets
  {
    NextRulings(anc, Some(alpha), Some(beta), anc', Some(alpha'), Some(beta'), q);
    assert Trails(anc, Some(alpha), Some(beta), Merge.ToAlpha, q, Look(Some(alpha'), q));
    assert Trails(anc, Some(alpha), Some(beta), Merge.ToBeta, q, Look(Some(beta'), q));
    LoserHadNothingNew(anc, Some(alpha), Some(beta), q);
    if q != p { AboveIsDirectory(Some(Winner(alpha', beta', to)), q, p); }
  }

  // ---- one cycle ---------------------------------------------------------------------------------------------

  /** What a cycle finds, and the two scans it makes of it. */
  datatype Round = Round(on: Holding, ls: seq<Scanned>, rs: seq<Scanned>)

  ghost predicate Fine(hash: Hash, a: Round) {
    Scans(hash, a.on.local, a.on.remote, a.ls, a.rs)
  }

  function PlanOf(a: Round): PassPlan {
    PlanPass(a.on.ancestor, a.ls, a.rs)
  }

  /** The cycle that found `a` has synced both roots and recorded the ancestor, and left `h`. */
  ghost predicate Made(hash: Hash, a: Round, h: Holding) {
    && Fine(hash, a)
    && Synced(hash, a.on.ancestor, a.on.local, a.on.remote, h.local, h.remote, a.ls, a.rs)
    && h.ancestor == PlanOf(a).ancestor
  }

  /** And the next one finds `b`. */
  ghost predicate Follows(hash: Hash, a: Round, b: Round) {
    Made(hash, a, b.on) && IsScan(hash, b.on.local, b.ls) && IsScan(hash, b.on.remote, b.rs)
  }

  /** So it is when a cycle finishes. */
  lemma FinishedMade(hash: Hash, w: World, h: Holding, after: Holding, end: CycleEnd)
    requires PrintsHex(hash) && Workable(h.local) && Workable(h.remote) && Finished(hash, w, h, after, end)
    ensures Made(hash, Round(h, end.local, end.remote), after)
  {}

  lemma FineFacts(hash: Hash, a: Round)
    requires Fine(hash, a)
    ensures var alpha, beta, plan := TreeOf(a.ls), TreeOf(a.rs), Merged(a.on.ancestor, a.ls, a.rs);
            && alpha.Directory? && beta.Directory? && Holds(hash, a.on.local, alpha) && Holds(hash, a.on.remote, beta)
            && HoldsAdmissible(alpha) && HoldsAdmissible(beta)
            && Reconciled(alpha, plan.alpha) && AllAdmissible(alpha, plan.alpha)
            && Reconciled(beta, plan.beta) && AllAdmissible(beta, plan.beta)
            && Merge.Side(plan, Merge.ToAlpha) == plan.alpha && Merge.Side(plan, Merge.ToBeta) == plan.beta
  {
    MergeFacts(hash, a.on.local, a.on.remote, a.on.ancestor, a.ls, a.rs);
    WorkableIsAdmissible(hash, a.on.local, TreeOf(a.ls));
    WorkableIsAdmissible(hash, a.on.remote, TreeOf(a.rs));
  }

  /** The two scans after a cycle find trees behind what the two before it found. */
  lemma CycleBehind(hash: Hash, a: Round, b: Round)
    requires Follows(hash, a, b)
    ensures Fine(hash, b)
    ensures Behind(a.on.ancestor, Some(TreeOf(a.ls)), Some(TreeOf(a.rs)), b.on.ancestor, Some(TreeOf(b.ls)), Some(TreeOf(b.rs)))
  {
    FineFacts(hash, a);
    var plan := Merged(a.on.ancestor, a.ls, a.rs);
    ReachedIsWorkable(hash, a.on.local, b.on.local, TreeOf(a.ls), plan.alpha);
    ReachedIsWorkable(hash, a.on.remote, b.on.remote, TreeOf(a.rs), plan.beta);
    SideTrails(hash, a.on.ancestor, TreeOf(a.ls), TreeOf(a.rs), Merge.ToAlpha, a.on.local, b.on.local, b.ls);
    SideTrails(hash, a.on.ancestor, TreeOf(a.ls), TreeOf(a.rs), Merge.ToBeta, a.on.remote, b.on.remote, b.rs);
    forall p ensures Look(b.on.ancestor, p) == Recorded(a.on.ancestor, Some(TreeOf(a.ls)), Some(TreeOf(a.rs)), p) {
      AncestorIsHonest(a.on.ancestor, TreeOf(a.ls), TreeOf(a.rs), p);
    }
  }

  lemma SideTrails(hash: Hash, anc: Option<Entry>, alpha: Entry, beta: Entry, to: Merge.Ruling, before: Nodes, after: Nodes, scan: seq<Scanned>)
    requires PrintsHex(hash) && alpha.Directory? && beta.Directory? && (to.ToAlpha? || to.ToBeta?)
    requires var t, cs := Loser(alpha, beta, to), Merge.Side(Merge.Reconcile([], anc, Some(alpha), Some(beta)), to);
             Holds(hash, before, t) && Reconciled(t, cs) && AllAdmissible(t, cs) && Reached(hash, before, after, t, cs)
    requires Workable(after) && IsScan(hash, after, scan)
    ensures forall p :: Trails(anc, Some(alpha), Some(beta), to, p, Look(Some(TreeOf(scan)), p))
  {
    var t, cs := Loser(alpha, beta, to), Merge.Side(Merge.Reconcile([], anc, Some(alpha), Some(beta)), to);
    ScanGivesTree(hash, after, scan);
    forall p ensures Trails(anc, Some(alpha), Some(beta), to, p, Look(Some(TreeOf(scan)), p)) {
      assert MetaAt(hash, after, p) == Look(Some(TreeOf(scan)), p);
      assert MetaAt(hash, before, p) == Look(Some(t), p);
      SideWant(anc, alpha, beta, to, p);
      if Late(ChangesFrom(cs), p) { LateIsFile(t, cs, p); }
    }
  }

  /** Where a list creates files of one content. */
  ghost function FilesOf(l: seq<Change>, g: Digest): set<Path> {
    set c | c in l && Creates(c, g) :: c.path
  }

  function ListOf(plan: PassPlan, to: Merge.Ruling): seq<Change> {
    if to.ToAlpha? then plan.toLocal else plan.toRemote
  }

  /** The files the next pass is to create were late in this one, of the same content. */
  lemma OnlyLateIsCreated(hash: Hash, a: Round, b: Round, to: Merge.Ruling, c: Change)
    requires Follows(hash, a, b) && (to.ToAlpha? || to.ToBeta?)
    requires c in ListOf(PlanOf(b), to) && c.kind.CreateFile?
    ensures var l := ListOf(PlanOf(a), to);
            Late(l, c.path) && forall x | x in l && x.path == c.path && x.kind.CreateFile? :: x.kind.digest == c.kind.digest
  {
    CycleBehind(hash, a, b);
    FineFacts(hash, a);
    FineFacts(hash, b);
    var alpha, beta, alpha', beta' := TreeOf(a.ls), TreeOf(a.rs), TreeOf(b.ls), TreeOf(b.rs);
    NextCreations(a.on.ancestor, alpha, beta, b.on.ancestor, alpha', beta', to, c);
    SideWant(a.on.ancestor, alpha, beta, to, c.path);
    assert MetaAt(hash, b.on.local, c.path) == Look(Some(alpha'), c.path) && MetaAt(hash, b.on.remote, c.path) == Look(Some(beta'), c.path);
    var l := ListOf(PlanOf(a), to);
    forall x | x in l && x.path == c.path && x.kind.CreateFile? ensures x.kind.digest == c.kind.digest {
      FileFacts(a.on.ancestor, alpha, beta, to, x);
    }
  }

  /** Each cycle leaves at least one file fewer of every content to be created. */
  lemma OneFewerLeft(hash: Hash, a: Round, b: Round, to: Merge.Ruling, g: Digest)
    requires Follows(hash, a, b) && (to.ToAlpha? || to.ToBeta?)
    ensures var before, after := FilesOf(ListOf(PlanOf(a), to), g), FilesOf(ListOf(PlanOf(b), to), g);
            after <= before && (before != {} ==> |after| < |before|)
  {
    var l, l' := ListOf(PlanOf(a), to), ListOf(PlanOf(b), to);
    FineFacts(hash, a);
    CreationsDistinct(Merge.Side(Merged(a.on.ancestor, a.ls, a.rs), to));
    forall p | p in FilesOf(l', g) ensures p in FilesOf(l, g) && !IsFirst(l, p, g) {
      var c :| c in l' && Creates(c, g) && c.path == p;
      OnlyLateIsCreated(hash, a, b, to, c);
      LateIsSecond(l, p, g);
    }
    if FilesOf(l, g) != {} {
      var q := First(l, g);
      SmallerWithout(FilesOf(l', g), FilesOf(l, g), q);
    }
  }

  lemma LateIsSecond(l: seq<Change>, p: Path, g: Digest)
    requires Late(l, p) && forall x | x in l && x.path == p && x.kind.CreateFile? :: x.kind.digest == g
    requires forall i, j | 0 <= i < j < |l| && !l[i].kind.Remove? && !l[j].kind.Remove? :: l[i].path != l[j].path
    ensures p in FilesOf(l, g) && !IsFirst(l, p, g)
    ensures exists q :: q in FilesOf(l, g) && q != p
  {
    var i, j :| 0 <= j < i < |l| && l[i].path == p && l[i].kind.CreateFile? && Creates(l[j], l[i].kind.digest);
    assert l[i] in l && l[j] in l;
    LateIsNotFirst(l, i, p, g);
    assert l[j].path in FilesOf(l, g);
  }

  lemma First(l: seq<Change>, g: Digest) returns (q: Path)
    requires FilesOf(l, g) != {}
    ensures q in FilesOf(l, g) && IsFirst(l, q, g)
  {
    var p :| p in FilesOf(l, g);
    var i := FirstIndex(l, g);
    q := l[i].path;
    assert l[i] in l;
  }

  lemma SmallerWithout(a: set<Path>, b: set<Path>, q: Path)
    requires a <= b && q in b && q !in a
    ensures |a| < |b|
  {
    Guard.SubsetSize(a, b - {q});
  }

  // ---- what becomes of a late file ---------------------------------------------------------------------------

  /** What the side that wins holds. */
  ghost function Offer(a: Round, to: Merge.Ruling, p: Path): Option<Meta> {
    Look(Some(Winner(TreeOf(a.ls), TreeOf(a.rs), to)), p)
  }

  lemma LateFacts(hash: Hash, a: Round, b: Round, to: Merge.Ruling, p: Path)
    requires Follows(hash, a, b) && (to.ToAlpha? || to.ToBeta?)
    requires Late(ListOf(PlanOf(a), to), p)
    ensures var gets, has := Offer(a, to, p), Look(Some(Loser(TreeOf(b.ls), TreeOf(b.rs), to)), p);
            && IsFile(gets) && Offer(b, to, p) == gets
            && (has.None? || (IsFile(has) && has.value.digest != gets.value.digest && has == Look(a.on.ancestor, p)))
    ensures Merge.RulingAt(b.on.ancestor, Some(TreeOf(b.ls)), Some(TreeOf(b.rs)), p) ==
            if Look(a.on.ancestor, p) == Offer(a, to, p) then Other(to) else to
  {
    CycleBehind(hash, a, b);
    FineFacts(hash, a);
    FineFacts(hash, b);
    var alpha, beta, alpha', beta' := TreeOf(a.ls), TreeOf(a.rs), TreeOf(b.ls), TreeOf(b.rs);
    var l := ListOf(PlanOf(a), to);
    var i :| 0 <= i < |l| && l[i].path == p && l[i].kind.CreateFile?;
    FileFacts(a.on.ancestor, alpha, beta, to, l[i]);
    CreationFacts(Loser(alpha, beta, to), Merge.Side(Merged(a.on.ancestor, a.ls, a.rs), to), l[i]);
    SideWant(a.on.ancestor, alpha, beta, to, p);
    LoserHadNothingNew(a.on.ancestor, Some(alpha), Some(beta), p);
    NextRulings(a.on.ancestor, Some(alpha), Some(beta), b.on.ancestor, Some(alpha'), Some(beta'), p);
    assert Trails(a.on.ancestor, Some(alpha), Some(beta), Merge.ToAlpha, p, Look(Some(alpha'), p));
    assert Trails(a.on.ancestor, Some(alpha), Some(beta), Merge.ToBeta, p, Look(Some(beta'), p));
    assert MetaAt(hash, a.on.local, p) == Look(Some(alpha), p) && MetaAt(hash, a.on.remote, p) == Look(Some(beta), p);
    assert MetaAt(hash, b.on.local, p) == Look(Some(alpha'), p) && MetaAt(hash, b.on.remote, p) == Look(Some(beta'), p);
  }

  ghost predicate MakesFile(l: seq<Change>, p: Path, m: Option<Meta>) {
    IsFile(m) && p in FilesOf(l, m.value.digest)
  }

  /** A late file is created by the next pass, unless the ancestor has it: then the side that had it loses it. */
  lemma LateComesNext(hash: Hash, a: Round, b: Round, to: Merge.Ruling, p: Path)
    requires Follows(hash, a, b) && (to.ToAlpha? || to.ToBeta?)
    requires Late(ListOf(PlanOf(a), to), p)
    ensures var next := PlanOf(b);
            if Look(a.on.ancestor, p) == Offer(a, to, p) then Change(p, Remove) in ListOf(next, Other(to))
            else MakesFile(ListOf(next, to), p, Offer(a, to, p))
  {
    LateFacts(hash, a, b, to, p);
    CycleBehind(hash, a, b);
    var alpha', beta' := TreeOf(b.ls), TreeOf(b.rs);
    ScannedSides(hash, b, to);
    if Look(a.on.ancestor, p) == Offer(a, to, p) {
      TakenBack(b.on.ancestor, alpha', beta', Other(to), p);
    } else {
      FateFromAbove(b.on.ancestor, Some(alpha'), Some(beta'), p, p);
      MadeNext(b.on.ancestor, alpha', beta', to, p);
    }
  }

  lemma ScannedSides(hash: Hash, a: Round, to: Merge.Ruling)
    requires Fine(hash, a) && (to.ToAlpha? || to.ToBeta?)
    ensures TreeOf(a.ls).Directory? && TreeOf(a.rs).Directory?
    ensures ListOf(PlanOf(a), to) == List(a.on.ancestor, TreeOf(a.ls), TreeOf(a.rs), to)
    ensures ListOf(PlanOf(a), Other(to)) == List(a.on.ancestor, TreeOf(a.ls), TreeOf(a.rs), Other(to))
    ensures var cs, t := Merge.Side(Merged(a.on.ancestor, a.ls, a.rs), to), Loser(TreeOf(a.ls), TreeOf(a.rs), to);
            Reconciled(t, cs) && AllAdmissible(t, cs)
  {
    FineFacts(hash, a);
  }

  lemma TakenBack(anc: Option<Entry>, alpha: Entry, beta: Entry, to: Merge.Ruling, p: Path)
    requires alpha.Directory? && beta.Directory? && (to.ToAlpha? || to.ToBeta?)
    requires Merge.RulingAt(anc, Some(alpha), Some(beta), p) == to
    requires Look(Some(Winner(alpha, beta, to)), p).None? && Look(Some(Loser(alpha, beta, to)), p).Some?
    ensures Change(p, Remove) in List(anc, alpha, beta, to)
  {
    var cs := Merge.Side(Merge.Reconcile([], anc, Some(alpha), Some(beta)), to);
    var move := Merge.Move(p, At(Some(alpha), p), At(Some(beta), p), to);
    assert p[0..] == p;
    Merge.SideMembers([], anc, Some(alpha), Some(beta), to, move);
    GoneIsRemoved(cs, move);
  }

  lemma GoneIsRemoved(cs: seq<TreeChange>, move: TreeChange)
    requires move in cs && move.path != [] && move.before.Some? && move.after.None?
    ensures Change(move.path, Remove) in ChangesFrom(cs)
  {
    var p := move.path;
    assert p[|p|..] == [];
    assert EmittedBy(move, Change(p, Remove));
    ChangesFromMembers(cs);
  }

  lemma MadeNext(anc: Option<Entry>, alpha: Entry, beta: Entry, to: Merge.Ruling, p: Path)
    requires alpha.Directory? && beta.Directory? && (to.ToAlpha? || to.ToBeta?)
    requires var cs, t := Merge.Side(Merge.Reconcile([], anc, Some(alpha), Some(beta)), to), Loser(alpha, beta, to);
             Reconciled(t, cs) && AllAdmissible(t, cs)
    requires Fate(anc, Some(alpha), Some(beta), p) == to
    requires var gets, has := Look(Some(Winner(alpha, beta, to)), p), Look(Some(Loser(alpha, beta, to)), p);
             IsFile(gets) && !(IsFile(has) && has.value.digest == gets.value.digest)
    ensures MakesFile(List(anc, alpha, beta, to), p, Look(Some(Winner(alpha, beta, to)), p))
  {
    var cs, t := Merge.Side(Merge.Reconcile([], anc, Some(alpha), Some(beta)), to), Loser(alpha, beta, to);
    SideWant(anc, alpha, beta, to, p);
    WantedIsCreated(t, cs, p);
    var c :| c in ChangesFrom(cs) && !c.kind.Remove? && c.path == p;
    CreationFacts(t, cs, c);
    assert Creates(c, Want(t, cs, p).value.digest);
  }

  // ---- one file fewer, exactly -----------------------------------------------------------------------------------

  /** No file to be created is, as it is to be, already what the ancestor has there. */
  ghost predicate Unrecorded(a: Round, to: Merge.Ruling) {
    forall c | c in ListOf(PlanOf(a), to) && c.kind.CreateFile? :: Look(a.on.ancestor, c.path) != Offer(a, to, c.path)
  }

  lemma FilesAreOffered(hash: Hash, a: Round, to: Merge.Ruling, p: Path, g: Digest)
    requires Fine(hash, a) && (to.ToAlpha? || to.ToBeta?) && p in FilesOf(ListOf(PlanOf(a), to), g)
    ensures IsFile(Offer(a, to, p)) && Offer(a, to, p).value.digest == g
    ensures Fate(a.on.ancestor, Some(TreeOf(a.ls)), Some(TreeOf(a.rs)), p) == to
  {
    FineFacts(hash, a);
    var c :| c in ListOf(PlanOf(a), to) && Creates(c, g) && c.path == p;
    FileFacts(a.on.ancestor, TreeOf(a.ls), TreeOf(a.rs), to, c);
  }

  lemma UnrecordedStays(hash: Hash, a: Round, b: Round, to: Merge.Ruling)
    requires Follows(hash, a, b) && (to.ToAlpha? || to.ToBeta?) && Unrecorded(a, to)
    ensures Unrecorded(b, to)
  {
    var l := ListOf(PlanOf(a), to);
    FineFacts(hash, a);
    forall c | c in ListOf(PlanOf(b), to) && c.kind.CreateFile? ensures Look(b.on.ancestor, c.path) != Offer(b, to, c.path) {
      OnlyLateIsCreated(hash, a, b, to, c);
      LateFacts(hash, a, b, to, c.path);
      var i :| 0 <= i < |l| && l[i].path == c.path && l[i].kind.CreateFile?;
      assert Creates(l[i], l[i].kind.digest) && c.path in FilesOf(l, l[i].kind.digest);
      FilesAreOffered(hash, a, to, c.path, l[i].kind.digest);
      AncestorIsHonest(a.on.ancestor, TreeOf(a.ls), TreeOf(a.rs), c.path);
    }
  }

  lemma LaterIsLate(l: seq<Change>, p: Path, g: Digest)
    requires p in FilesOf(l, g) && !IsFirst(l, p, g)
    ensures Late(l, p)
  {
    var c :| c in l && Creates(c, g) && c.path == p;
    var i :| 0 <= i < |l| && l[i] == c;
    assert exists j :: 0 <= j < i && Creates(l[j], g);
  }

  lemma ExactlyOneFewer(hash: Hash, a: Round, b: Round, to: Merge.Ruling, g: Digest)
    requires Follows(hash, a, b) && (to.ToAlpha? || to.ToBeta?) && Unrecorded(a, to)
    ensures var before, after := |FilesOf(ListOf(PlanOf(a), to), g)|, |FilesOf(ListOf(PlanOf(b), to), g)|;
            after == if before == 0 then 0 else before - 1
  {
    var l, l' := ListOf(PlanOf(a), to), ListOf(PlanOf(b), to);
    OneFewerLeft(hash, a, b, to, g);
    if FilesOf(l, g) != {} {
      var q := First(l, g);
      FirstExists(l, g);
      forall p | p in FilesOf(l, g) && p != q ensures p in FilesOf(l', g) {
        OthersComeNext(hash, a, b, to, g, p, q);
      }
      Guard.SubsetSize(FilesOf(l, g) - {q}, FilesOf(l', g));
    }
  }

  lemma OthersComeNext(hash: Hash, a: Round, b: Round, to: Merge.Ruling, g: Digest, p: Path, q: Path)
    requires Follows(hash, a, b) && (to.ToAlpha? || to.ToBeta?) && Unrecorded(a, to)
    requires var l := ListOf(PlanOf(a), to);
             p in FilesOf(l, g) && p != q && IsFirst(l, q, g) && forall x, y | IsFirst(l, x, g) && IsFirst(l, y, g) :: x == y
    ensures p in FilesOf(ListOf(PlanOf(b), to), g)
  {
    var l := ListOf(PlanOf(a), to);
    LaterIsLate(l, p, g);
    FilesAreOffered(hash, a, to, p, g);
    LateComesNext(hash, a, b, to, p);
  }

  // ---- how far each cycle gets ---------------------------------------------------------------------------------

  ghost function Left(a: Round, to: Merge.Ruling, g: Digest): nat {
    |FilesOf(ListOf(PlanOf(a), to), g)|
  }

  /** No more than `n` files of one content are to be created on either side. */
  ghost predicate AtMost(a: Round, n: nat) {
    forall g :: SomeAtMost(a, n, g)
  }

  ghost predicate SomeAtMost(a: Round, n: nat, g: Digest) {
    Left(a, Merge.ToAlpha, g) <= n && Left(a, Merge.ToBeta, g) <= n
  }

  function Less(n: nat, k: nat): nat {
    if n <= k then 0 else n - k
  }

  lemma FewerLeft(hash: Hash, a: Round, b: Round, to: Merge.Ruling, g: Digest, n: nat, m: nat)
    requires Follows(hash, a, b) && (to.ToAlpha? || to.ToBeta?) && Left(a, to, g) <= n && m == Less(n, 1)
    ensures Left(b, to, g) <= m
  {
    OneFewerLeft(hash, a, b, to, g);
  }

  lemma AtMostNext(hash: Hash, a: Round, b: Round, n: nat, m: nat)
    requires Follows(hash, a, b) && AtMost(a, n) && m == Less(n, 1)
    ensures AtMost(b, m)
  {
    forall g ensures SomeAtMost(b, m, g) {
      assert SomeAtMost(a, n, g);
      FewerLeft(hash, a, b, Merge.ToAlpha, g, n, m);
      FewerLeft(hash, a, b, Merge.ToBeta, g, n, m);
    }
  }

  lemma OneLess(hash: Hash, a: Round, b: Round, to: Merge.Ruling, g: Digest, n: nat, m: nat)
    requires Follows(hash, a, b) && (to.ToAlpha? || to.ToBeta?) && Unrecorded(a, to) && Left(a, to, g) == n && m == Less(n, 1)
    ensures Left(b, to, g) == m
  {
    ExactlyOneFewer(hash, a, b, to, g);
  }

  ghost predicate Clashes(a: Round, p: Path) {
    Fate(a.on.ancestor, Some(TreeOf(a.ls)), Some(TreeOf(a.rs)), p) == Merge.Clash
  }

  lemma ClashFromOwner(a: Round, p: Path)
    ensures Clashes(a, p) <==> exists q :: q <= p && ConflictAt(a, q)
  {
    if Clashes(a, p) {
      var q := FateHasOwner(a.on.ancestor, Some(TreeOf(a.ls)), Some(TreeOf(a.rs)), p);
      assert ConflictAt(a, q);
    }
    if q :| q <= p && ConflictAt(a, q) {
      FateFromAbove(a.on.ancestor, Some(TreeOf(a.ls)), Some(TreeOf(a.rs)), q, p);
    }
  }

  ghost predicate ConflictAt(a: Round, q: Path) {
    Merge.RulingAt(a.on.ancestor, Some(TreeOf(a.ls)), Some(TreeOf(a.rs)), q) == Merge.Clash
  }

  /** Conflicts neither come nor go, and what lies under one stays as it is. */
  lemma ClashStays(hash: Hash, a: Round, b: Round, p: Path)
    requires Follows(hash, a, b)
    ensures ConflictAt(b, p) <==> ConflictAt(a, p)
    ensures Clashes(a, p) ==> AsItWas(hash, a, b, p)
  {
    CycleBehind(hash, a, b);
    ClashNext(a.on.ancestor, Some(TreeOf(a.ls)), Some(TreeOf(a.rs)), b.on.ancestor, Some(TreeOf(b.ls)), Some(TreeOf(b.rs)), p);
    ScansHold(hash, a, p);
    ScansHold(hash, b, p);
  }

  lemma ClashNext(anc: Option<Entry>, alpha: Option<Entry>, beta: Option<Entry>,
                  anc': Option<Entry>, alpha': Option<Entry>, beta': Option<Entry>, p: Path)
    requires Behind(anc, alpha, beta, anc', alpha', beta')
    ensures Merge.RulingAt(anc', alpha', beta', p) == Merge.Clash <==> Merge.RulingAt(anc, alpha, beta, p) == Merge.Clash
    ensures Fate(anc, alpha, beta, p) == Merge.Clash ==> Look(alpha', p) == Look(alpha, p) && Look(beta', p) == Look(beta, p)
  {
    NextRulings(anc, alpha, beta, anc', alpha', beta', p);
    if Merge.RulingAt(anc, alpha, beta, p) == Merge.Clash { FateFromAbove(anc, alpha, beta, p, p); }
    assert Trails(anc, alpha, beta, Merge.ToAlpha, p, Look(alpha', p));
    assert Trails(anc, alpha, beta, Merge.ToBeta, p, Look(beta', p));
  }

  lemma ScansHold(hash: Hash, a: Round, p: Path)
    requires Fine(hash, a)
    ensures MetaAt(hash, a.on.local, p) == Look(Some(TreeOf(a.ls)), p) && MetaAt(hash, a.on.remote, p) == Look(Some(TreeOf(a.rs)), p)
  {
    FineFacts(hash, a);
  }

  ghost predicate AsItWas(hash: Hash, a: Round, b: Round, p: Path) {
    MetaAt(hash, b.on.local, p) == MetaAt(hash, a.on.local, p) && MetaAt(hash, b.on.remote, p) == MetaAt(hash, a.on.remote, p)
  }

  ghost predicate SameConflicts(a: Round, b: Round) {
    forall q :: ConflictAt(a, q) <==> ConflictAt(b, q)
  }

  lemma SameClashes(a: Round, b: Round, p: Path)
    requires SameConflicts(a, b)
    ensures Clashes(a, p) <==> Clashes(b, p)
  {
    ClashFromOwner(a, p);
    ClashFromOwner(b, p);
  }

  lemma ConflictsStay(hash: Hash, a: Round, b: Round)
    requires Follows(hash, a, b)
    ensures SameConflicts(a, b)
  {
    forall q ensures ConflictAt(a, q) <==> ConflictAt(b, q) { ClashStays(hash, a, b, q); }
  }

  /** Nothing is left to do on either side, and both hold the same wherever they do not clash. */
  ghost predicate AtRest(hash: Hash, a: Round) {
    && PlanOf(a).toLocal == [] && PlanOf(a).toRemote == []
    && forall p | !Clashes(a, p) :: MetaAt(hash, a.on.local, p) == MetaAt(hash, a.on.remote, p)
  }

  /** A cycle in which no two files need the same content is the last with anything to do. */
  lemma NothingLate(hash: Hash, a: Round, b: Round)
    requires Follows(hash, a, b) && AtMost(a, 1)
    ensures AtRest(hash, b)
  {
    AllArrive(hash, a, b);
    ArrivedIsQuiet(hash, a, b);
    forall p | !Clashes(b, p) ensures MetaAt(hash, b.on.local, p) == MetaAt(hash, b.on.remote, p) {
      ArrivedAgree(hash, a, b, p);
    }
  }

  lemma AllArrive(hash: Hash, a: Round, b: Round)
    requires Follows(hash, a, b) && AtMost(a, 1)
    ensures forall p :: Arrived(a, b, p)
  {
    CycleBehind(hash, a, b);
    forall p ensures Arrived(a, b, p) {
      NoneLate(hash, a, Merge.ToAlpha, p);
      NoneLate(hash, a, Merge.ToBeta, p);
      ArrivesUnlessLate(hash, a, b, p);
    }
  }

  lemma ArrivesUnlessLate(hash: Hash, a: Round, b: Round, p: Path)
    requires Follows(hash, a, b) && Fine(hash, b) && !Late(PlanOf(a).toLocal, p) && !Late(PlanOf(a).toRemote, p)
    ensures Arrived(a, b, p)
  {
    ScansHold(hash, b, p);
  }

  lemma ArrivedIsQuiet(hash: Hash, a: Round, b: Round)
    requires Follows(hash, a, b) && forall p :: Arrived(a, b, p)
    ensures PlanOf(b).toLocal == [] && PlanOf(b).toRemote == []
  {
    CycleBehind(hash, a, b);
    FineFacts(hash, a);
    FineFacts(hash, b);
    var plan := Merged(a.on.ancestor, a.ls, a.rs);
    forall p
      ensures Look(Some(TreeOf(b.ls)), p) == Want(TreeOf(a.ls), plan.alpha, p) && Look(Some(TreeOf(b.rs)), p) == Want(TreeOf(a.rs), plan.beta, p)
    {
      assert Arrived(a, b, p);
    }
    NextMergeIsQuiet(a.on.ancestor, TreeOf(a.ls), TreeOf(a.rs), TreeOf(b.ls), TreeOf(b.rs));
  }

  lemma ArrivedAgree(hash: Hash, a: Round, b: Round, p: Path)
    requires Follows(hash, a, b) && Arrived(a, b, p) && !Clashes(b, p)
    ensures MetaAt(hash, b.on.local, p) == MetaAt(hash, b.on.remote, p)
  {
    ConflictsStay(hash, a, b);
    SameClashes(a, b, p);
    CycleBehind(hash, a, b);
    FineFacts(hash, a);
    MergeAgrees(a.on.ancestor, TreeOf(a.ls), TreeOf(a.rs), p);
    ScansHold(hash, b, p);
  }

  ghost predicate Arrived(a: Round, b: Round, p: Path) {
    var plan := Merged(a.on.ancestor, a.ls, a.rs);
    Look(Some(TreeOf(b.ls)), p) == Want(TreeOf(a.ls), plan.alpha, p) && Look(Some(TreeOf(b.rs)), p) == Want(TreeOf(a.rs), plan.beta, p)
  }

  lemma NoneLate(hash: Hash, a: Round, to: Merge.Ruling, p: Path)
    requires Fine(hash, a) && (to.ToAlpha? || to.ToBeta?) && AtMost(a, 1)
    ensures !Late(ListOf(PlanOf(a), to), p)
  {
    if Late(ListOf(PlanOf(a), to), p) { LateNeedsTwo(hash, a, to, p); }
  }

  lemma LateNeedsTwo(hash: Hash, a: Round, to: Merge.Ruling, p: Path)
    requires Fine(hash, a) && (to.ToAlpha? || to.ToBeta?) && Late(ListOf(PlanOf(a), to), p)
    ensures !AtMost(a, 1)
  {
    FineFacts(hash, a);
    CreationsDistinct(Merge.Side(Merged(a.on.ancestor, a.ls, a.rs), to));
    var g := TwoOfOne(ListOf(PlanOf(a), to), p);
    assert !SomeAtMost(a, 1, g);
  }

  lemma TwoOfOne(l: seq<Change>, p: Path) returns (g: Digest)
    requires forall i, j | 0 <= i < j < |l| && !l[i].kind.Remove? && !l[j].kind.Remove? :: l[i].path != l[j].path
    requires Late(l, p)
    ensures |FilesOf(l, g)| > 1
  {
    var i, j :| 0 <= j < i < |l| && l[i].path == p && l[i].kind.CreateFile? && Creates(l[j], l[i].kind.digest);
    g := l[i].kind.digest;
    assert l[i] in l && l[j] in l;
    Guard.SubsetSize({l[i].path, l[j].path}, FilesOf(l, g));
  }

  // ---- many cycles -------------------------------------------------------------------------------------------------

  /** Each element of a run comes from the one before it. */
  ghost predicate Linked<T(!new)>(run: seq<T>, step: (T, T) -> bool) {
    run != [] && forall i | 0 < i < |run| :: IsNext(run, step, i)
  }

  ghost predicate IsNext<T(!new)>(run: seq<T>, step: (T, T) -> bool, i: nat)
    requires 0 < i < |run|
  {
    step(run[i - 1], run[i])
  }

  ghost predicate Passes<T(!new)>(step: (T, T) -> bool, holds: (nat, T) -> bool) {
    forall i: nat, a, b | step(a, b) && holds(i, a) :: holds(i + 1, b)
  }

  /** What holds first and passes along each step holds all along. */
  lemma {:induction false} Carried<T(!new)>(run: seq<T>, step: (T, T) -> bool, holds: (nat, T) -> bool, k: nat)
    requires Linked(run, step) && Passes(step, holds) && holds(0, run[0]) && k < |run|
    ensures holds(k, run[k])
  {
    if k > 0 {
      Carried(run, step, holds, k - 1);
      assert IsNext(run, step, k);
    }
  }

  ghost function Following(hash: Hash): (Round, Round) -> bool {
    (a, b) => Follows(hash, a, b)
  }

  /** Undisturbed cycles, each finding what the one before left. */
  ghost predicate Cycles(hash: Hash, rounds: seq<Round>) {
    Linked(rounds, Following(hash)) && Fine(hash, rounds[0])
  }

  /** After `i` cycles. */
  ghost predicate WoundDown(hash: Hash, n: nat, i: nat, a: Round) {
    AtMost(a, Less(n, i)) && (i > 0 && n <= i ==> AtRest(hash, a))
  }

  ghost function WindingDown(hash: Hash, n: nat): (nat, Round) -> bool {
    (i: nat, a: Round) => WoundDown(hash, n, i, a)
  }

  lemma WindsDown(hash: Hash, n: nat)
    ensures Passes(Following(hash), WindingDown(hash, n))
  {
    forall i: nat, a, b | Following(hash)(a, b) && WindingDown(hash, n)(i, a) ensures WindingDown(hash, n)(i + 1, b) {
      WindsOne(hash, n, i, a, b);
    }
  }

  lemma WindsOne(hash: Hash, n: nat, i: nat, a: Round, b: Round)
    requires Follows(hash, a, b) && WoundDown(hash, n, i, a)
    ensures WoundDown(hash, n, i + 1, b)
  {
    AtMostNext(hash, a, b, Less(n, i), Less(n, i + 1));
    if n <= i + 1 {
      AtMostMore(a, Less(n, i), 1);
      NothingLate(hash, a, b);
    }
  }

  lemma AtMostMore(a: Round, n: nat, m: nat)
    requires AtMost(a, n) && n <= m
    ensures AtMost(a, m)
  {
    forall g ensures SomeAtMost(a, m, g) { assert SomeAtMost(a, n, g); }
  }

  ghost predicate Spared(hash: Hash, first: Round, a: Round) {
    forall p | Clashes(first, p) :: AsItWas(hash, first, a, p)
  }

  ghost function Keeping(hash: Hash, first: Round): (nat, Round) -> bool {
    (i: nat, a: Round) => SameConflicts(first, a) && Spared(hash, first, a)
  }

  lemma KeptOn(hash: Hash, first: Round)
    ensures Passes(Following(hash), Keeping(hash, first))
  {
    forall i: nat, a, b | Following(hash)(a, b) && Keeping(hash, first)(i, a) ensures Keeping(hash, first)(i + 1, b) {
      ConflictsStay(hash, a, b);
      Transitive(first, a, b);
      SparedOn(hash, first, a, b);
    }
  }

  lemma Transitive(a: Round, b: Round, c: Round)
    requires SameConflicts(a, b) && SameConflicts(b, c)
    ensures SameConflicts(a, c)
  {
    forall q ensures ConflictAt(a, q) <==> ConflictAt(c, q) { assert ConflictAt(a, q) <==> ConflictAt(b, q); }
  }

  lemma SparedOn(hash: Hash, first: Round, a: Round, b: Round)
    requires Follows(hash, a, b) && SameConflicts(first, a) && Spared(hash, first, a)
    ensures Spared(hash, first, b)
  {
    forall p | Clashes(first, p) ensures AsItWas(hash, first, b, p) {
      SameClashes(first, a, p);
      ClashStays(hash, a, b, p);
      assert AsItWas(hash, first, a, p);
    }
  }

  ghost predicate CountedDown(to: Merge.Ruling, g: Digest, n: nat, i: nat, a: Round) {
    Unrecorded(a, to) && Left(a, to, g) == Less(n, i)
  }

  ghost function CountingDown(to: Merge.Ruling, g: Digest, n: nat): (nat, Round) -> bool {
    (i: nat, a: Round) => CountedDown(to, g, n, i, a)
  }

  lemma CountsDown(hash: Hash, to: Merge.Ruling, g: Digest, n: nat)
    requires to.ToAlpha? || to.ToBeta?
    ensures Passes(Following(hash), CountingDown(to, g, n))
  {
    forall i: nat, a, b | Following(hash)(a, b) && CountingDown(to, g, n)(i, a) ensures CountingDown(to, g, n)(i + 1, b) {
      CountsOne(hash, to, g, n, i, a, b);
    }
  }

  lemma CountsStart(to: Merge.Ruling, g: Digest, a: Round)
    requires Unrecorded(a, to)
    ensures CountingDown(to, g, Left(a, to, g))(0, a)
  {}

  lemma CountsOne(hash: Hash, to: Merge.Ruling, g: Digest, n: nat, i: nat, a: Round, b: Round)
    requires (to.ToAlpha? || to.ToBeta?) && Follows(hash, a, b) && CountedDown(to, g, n, i, a)
    ensures CountedDown(to, g, n, i + 1, b)
  {
    LessAgain(n, i);
    OneLess(hash, a, b, to, g, Less(n, i), Less(Less(n, i), 1));
    UnrecordedStays(hash, a, b, to);
  }

  lemma LessAgain(n: nat, i: nat)
    ensures Less(n, i + 1) == Less(Less(n, i), 1)
  {}

  lemma CountedExactly(hash: Hash, rounds: seq<Round>, k: nat, to: Merge.Ruling, g: Digest)
    requires Cycles(hash, rounds) && k < |rounds| && (to.ToAlpha? || to.ToBeta?) && Unrecorded(rounds[0], to)
    ensures CountedDown(to, g, Left(rounds[0], to, g), k, rounds[k])
  {
    var n := Left(rounds[0], to, g);
    CountsDown(hash, to, g, n);
    CountsStart(to, g, rounds[0]);
    Carried(rounds, Following(hash), CountingDown(to, g, n), k);
  }

  /**
   * Undisturbed cycles come to rest after as many of them as the most files either side first had to create of one
   * content, with the conflicts they began with and nothing else between the sides.
   */
  lemma CyclesComeToRest(hash: Hash, rounds: seq<Round>)
    requires Cycles(hash, rounds) && |rounds| > 1
    requires AtMost(rounds[0], |rounds| - 1)
    ensures AtRest(hash, rounds[|rounds| - 1])
    ensures forall p :: p in PlanOf(rounds[|rounds| - 1]).conflicts <==> p in PlanOf(rounds[0]).conflicts
    ensures Spared(hash, rounds[0], rounds[|rounds| - 1])
  {
    var n := |rounds| - 1;
    LastIsAtRest(hash, rounds);
    ConflictsAreKept(hash, rounds, n);
    forall p ensures p in PlanOf(rounds[n]).conflicts <==> p in PlanOf(rounds[0]).conflicts {
      SameReports(rounds[0], rounds[n], p);
    }
  }

  lemma LastIsAtRest(hash: Hash, rounds: seq<Round>)
    requires Cycles(hash, rounds) && |rounds| > 1 && AtMost(rounds[0], |rounds| - 1)
    ensures AtRest(hash, rounds[|rounds| - 1])
  {
    var n := |rounds| - 1;
    WindsDown(hash, n);
    assert WindingDown(hash, n)(0, rounds[0]);
    Carried(rounds, Following(hash), WindingDown(hash, n), n);
  }

  lemma ConflictsAreKept(hash: Hash, rounds: seq<Round>, k: nat)
    requires Cycles(hash, rounds) && k < |rounds|
    ensures SameConflicts(rounds[0], rounds[k]) && Spared(hash, rounds[0], rounds[k])
  {
    KeptOn(hash, rounds[0]);
    assert Keeping(hash, rounds[0])(0, rounds[0]);
    Carried(rounds, Following(hash), Keeping(hash, rounds[0]), k);
  }

  lemma SameReports(a: Round, b: Round, p: Path)
    requires SameConflicts(a, b)
    ensures p in PlanOf(b).conflicts <==> p in PlanOf(a).conflicts
  {
    assert ConflictAt(a, p) <==> ConflictAt(b, p);
    ConflictsReported(a.on.ancestor, a.ls, a.rs);
    ConflictsReported(b.on.ancestor, b.ls, b.rs);
  }

  lemma NothingLeft(hash: Hash, a: Round, g: Digest)
    requires AtRest(hash, a)
    ensures Left(a, Merge.ToAlpha, g) == 0 && Left(a, Merge.ToBeta, g) == 0
  {
    assert FilesOf([], g) == {};
  }

  /** And no sooner, unless the ancestor already had some of those files as they were to be. */
  lemma RestExactly(hash: Hash, rounds: seq<Round>)
    requires Cycles(hash, rounds) && |rounds| > 1
    requires Unrecorded(rounds[0], Merge.ToAlpha) && Unrecorded(rounds[0], Merge.ToBeta)
    ensures AtRest(hash, rounds[|rounds| - 1]) <==> AtMost(rounds[0], |rounds| - 1)
  {
    var n := |rounds| - 1;
    if AtRest(hash, rounds[n]) {
      var first := rounds[0];
      forall g ensures SomeAtMost(first, n, g) {
        CountedExactly(hash, rounds, n, Merge.ToAlpha, g);
        CountedExactly(hash, rounds, n, Merge.ToBeta, g);
        NothingLeft(hash, rounds[n], g);
      }
    }
    if AtMost(rounds[0], n) { CyclesComeToRest(hash, rounds); }
  }

  // ---- one session, cycle after cycle ---------------------------------------------------------------------------------

  /** Clocks that tell times not yet in the trash, and no time that another of them tells. */
  ghost predicate FreshClocks(ws: seq<World>, trash: Nodes) {
    && (forall i | 0 <= i < |ws| :: Unused(trash, ws[i].clock))
    && forall i, j, n | 0 <= i < j < |ws| && Told(ws[i].clock, n) :: !Told(ws[j].clock, n)
  }

  /** After a cycle that sheltered its removals the later clocks are still fresh. */
  lemma StillFresh(ws: seq<World>, k: nat, before: Local, l: seq<Change>, trash: Nodes)
    requires k < |ws| && FreshClocks(ws[k..], before.trash) && Sheltering(before, l, ws[k], trash)
    ensures FreshClocks(ws[k + 1..], trash)
  {
    var now, later := ws[k..], ws[k + 1..];
    assert forall i | 0 <= i < |later| :: later[i] == now[i + 1];
    forall i | 0 <= i < |later| ensures Unused(trash, later[i].clock) {
      OneStillFresh(before, l, now[0], now[i + 1].clock, trash);
    }
  }

  lemma OneStillFresh(before: Local, l: seq<Change>, w: World, clock: nat -> Name, trash: Nodes)
    requires Sheltering(before, l, w, trash) && Unused(before.trash, clock) && forall n | Told(w.clock, n) :: !Told(clock, n)
    ensures Unused(trash, clock)
  {
    forall a ensures [clock(a)] !in trash {
      assert Told(clock, clock(a)) && [clock(a)][0] == clock(a);
    }
  }

  /** Cycles one after another, the last of which left `h`. */
  ghost predicate InTurn(hash: Hash, done: seq<Round>, h: Holding) {
    done != [] ==> Cycles(hash, done) && Made(hash, done[|done| - 1], h)
  }

  lemma LinkedMore<T(!new)>(run: seq<T>, step: (T, T) -> bool, next: T)
    requires Linked(run, step) && step(run[|run| - 1], next)
    ensures Linked(run + [next], step)
  {
    var all := run + [next];
    forall i | 0 < i < |all| ensures IsNext(all, step, i) {
      if i < |run| { assert IsNext(run, step, i); }
    }
  }

  /** Another cycle, on what they left. */
  lemma OneMoreRound(hash: Hash, done: seq<Round>, next: Round)
    requires InTurn(hash, done, next.on) && Fine(hash, next)
    ensures Cycles(hash, done + [next])
  {
    if done == [] {
      assert done + [next] == [next];
    } else {
      assert Following(hash)(done[|done| - 1], next);
      LinkedMore(done, Following(hash), next);
    }
  }

  /** Whatever two scans find of this, nothing is left to do. */
  ghost predicate RestsAt(hash: Hash, h: Holding) {
    forall ls, rs | IsScan(hash, h.local, ls) && IsScan(hash, h.remote, rs) :: AtRest(hash, Round(h, ls, rs))
  }

  lemma ComeToRestInTurn(hash: Hash, done: seq<Round>, h: Holding)
    requires PrintsHex(hash) && Workable(h.local) && Workable(h.remote)
    requires done != [] && InTurn(hash, done, h) && AtMost(done[0], |done|)
    ensures RestsAt(hash, h)
  {
    forall ls, rs | IsScan(hash, h.local, ls) && IsScan(hash, h.remote, rs) ensures AtRest(hash, Round(h, ls, rs)) {
      OneMoreRound(hash, done, Round(h, ls, rs));
      LastIsAtRest(hash, done + [Round(h, ls, rs)]);
    }
  }

  lemma TurnFacts(hash: Hash, ws: seq<World>, k: nat, before: Holding, after: Holding, end: CycleEnd)
    requires PrintsHex(hash) && Workable(before.local) && Workable(before.remote) && k < |ws|
    requires FreshClocks(ws[k..], before.trash) && Finished(hash, ws[k], before, after, end)
    ensures Made(hash, Round(before, end.local, end.remote), after) && FreshClocks(ws[k + 1..], after.trash)
  {
    FinishedMade(hash, ws[k], before, after, end);
    StillFresh(ws, k, Local(before.local, before.trash), PlanPass(before.ancestor, end.local, end.remote).toLocal, after.trash);
  }

  lemma TurnCame(hash: Hash, ws: seq<World>, k: nat, anc: Option<Entry>, l0: Disk, r0: Disk, trash: Nodes,
                 next: Option<Entry>, l1: Disk, r1: Disk, trashed: Nodes, end: CycleEnd)
    requires PrintsHex(hash) && k < |ws| && ReadyFor(hash, ws, k, l0, r0, trash) && end.Completed?
    requires Came(hash, ws[k], anc, l0, r0, trash, next, l1, r1, trashed, end)
    ensures Made(hash, Round(Holding(l0.nodes, r0.nodes, anc, trash), end.local, end.remote), Holding(l1.nodes, r1.nodes, next, trashed))
    ensures ReadyFor(hash, ws, k + 1, l1, r1, trashed)
  {
    assert ws[k..][0] == ws[k];
    TurnFacts(hash, ws, k, Holding(l0.nodes, r0.nodes, anc, trash), Holding(l1.nodes, r1.nodes, next, trashed), end);
  }

  lemma OneMoreTurn(hash: Hash, done: seq<Round>, a: Round, h: Holding)
    requires InTurn(hash, done, a.on) && Made(hash, a, h)
    ensures InTurn(hash, done + [a], h)
  {
    OneMoreRound(hash, done, a);
    LastOf(done, a);
  }

  lemma LastOf<T>(s: seq<T>, x: T)
    ensures (s + [x])[|s + [x]| - 1] == x
  {}

  /** The cycles left `h`, both sides in shape, and the clocks from the k-th on have yet to tell their times. */
  ghost predicate ReadyFor(hash: Hash, ws: seq<World>, k: nat, local: Disk, remote: Disk, trash: Nodes)
    requires k <= |ws|
  {
    InShape(hash, local) && InShape(hash, remote) && FreshClocks(ws[k..], trash)
  }

  /**
   * One session's cycles one after another, nothing disturbing them: unless one is stopped, after as many as the most
   * files either side first had to create of one content there is nothing left to do on either side, and both hold the
   * same wherever they do not clash, as any two scans then find.
   */
  method CycleInTurn(s: Session, hash: Hash, ws: seq<World>) returns (ends: seq<CycleEnd>)
    requires s.local != s.remote && PrintsHex(hash) && ReadyFor(hash, ws, 0, s.local.State(), s.remote.State(), s.trash)
    modifies s`stored, s`marker, s`trash, s.local, s.remote
    ensures |ends| <= |ws| && forall i | 0 <= i < |ends| - 1 :: ends[i].Completed?
    ensures |ends| < |ws| ==> ends != [] && ends[|ends| - 1].Stopped?
    ensures AllCompleted(ends) ==> InShape(hash, s.local.State()) && InShape(hash, s.remote.State())
    ensures ends != [] && AllCompleted(ends) && AtMost(Round(old(s.Now()), ends[0].local, ends[0].remote), |ends|) ==> RestsAt(hash, s.Now())
  {
    ends := [];
    ghost var done: seq<Round> := [];
    for k := 0 to |ws|
      invariant |ends| == k && TurnsTaken(hash, done, ends, old(s.Now()), s.Now())
      invariant ReadyFor(hash, ws, k, s.local.State(), s.remote.State(), s.trash)
    {
      ghost var before := s.Now();
      var end := NextCycle(s, hash, ws, k);
      if end.Stopped? {
        StoppedAfter(hash, done, ends, old(s.Now()), before, end);
        return ends + [end];
      }
      done := TakeTurn(hash, done, ends, old(s.Now()), before, end, s.Now());
      ends := ends + [end];
    }
    RestAfterTurns(hash, done, ends, old(s.Now()), s.Now(), s.local.State(), s.remote.State());
  }

  /** All these cycles were completed, the first of them on `first`, and the last left `h`. */
  ghost predicate TurnsTaken(hash: Hash, done: seq<Round>, ends: seq<CycleEnd>, first: Holding, h: Holding) {
    && |done| == |ends| && InTurn(hash, done, h) && AllCompleted(ends)
    && if ends == [] then h == first else done[0] == Round(first, ends[0].local, ends[0].remote)
  }

  lemma TakeTurn(hash: Hash, done: seq<Round>, ends: seq<CycleEnd>, first: Holding, before: Holding, end: CycleEnd, h: Holding)
    returns (more: seq<Round>)
    requires TurnsTaken(hash, done, ends, first, before) && end.Completed? && Made(hash, Round(before, end.local, end.remote), h)
    ensures TurnsTaken(hash, more, ends + [end], first, h)
  {
    more := done + [Round(before, end.local, end.remote)];
    OneMoreTurn(hash, done, Round(before, end.local, end.remote), h);
    FirstTurn(done, ends, first, before, end);
  }

  lemma FirstTurn(done: seq<Round>, ends: seq<CycleEnd>, first: Holding, before: Holding, end: CycleEnd)
    requires |done| == |ends| && AllCompleted(ends) && end.Completed?
    requires if ends == [] then before == first else done[0] == Round(first, ends[0].local, ends[0].remote)
    ensures var more, all := done + [Round(before, end.local, end.remote)], ends + [end];
            AllCompleted(all) && more[0] == Round(first, all[0].local, all[0].remote)
  {}

  lemma StoppedAfter(hash: Hash, done: seq<Round>, ends: seq<CycleEnd>, first: Holding, h: Holding, end: CycleEnd)
    requires TurnsTaken(hash, done, ends, first, h) && end.Stopped?
    ensures !AllCompleted(ends + [end]) && forall i | 0 <= i < |ends| :: (ends + [end])[i].Completed?
  {
    assert (ends + [end])[|ends|] == end;
  }

  lemma RestAfterTurns(hash: Hash, done: seq<Round>, ends: seq<CycleEnd>, first: Holding, h: Holding, local: Disk, remote: Disk)
    requires PrintsHex(hash) && TurnsTaken(hash, done, ends, first, h)
    requires InShape(hash, local) && InShape(hash, remote) && h.local == local.nodes && h.remote == remote.nodes
    ensures AllCompleted(ends)
    ensures ends != [] && AtMost(Round(first, ends[0].local, ends[0].remote), |ends|) ==> RestsAt(hash, h)
  {
    if ends != [] && AtMost(Round(first, ends[0].local, ends[0].remote), |ends|) { ComeToRestInTurn(hash, done, h); }
  }

  predicate AllCompleted(ends: seq<CycleEnd>) {
    forall i | 0 <= i < |ends| :: ends[i].Completed?
  }

  /** One of them: it finishes, or is stopped. */
  method NextCycle(s: Session, hash: Hash, ws: seq<World>, k: nat) returns (end: CycleEnd)
    requires s.local != s.remote && PrintsHex(hash) && k < |ws| && ReadyFor(hash, ws, k, s.local.State(), s.remote.State(), s.trash)
    modifies s`stored, s`marker, s`trash, s.local, s.remote
    ensures end.Completed? ==>
              && Made(hash, Round(old(s.Now()), end.local, end.remote), s.Now())
              && ReadyFor(hash, ws, k + 1, s.local.State(), s.remote.State(), s.trash)
  {
    ghost var anc, l0, r0, trash := s.stored, s.local.State(), s.remote.State(), s.trash;
    end := s.Run(hash, ws[k]);
    if end.Completed? { TurnCame(hash, ws, k, anc, l0, r0, trash, s.stored, s.local.State(), s.remote.State(), s.trash, end); }
  }

  // ---- a file the sides had agreed to keep --------------------------------------------------------------------------

  /**
   * Where one side is to be given two files of the same content that the ancestor has already, the next pass removes
   * one of them from the side that had kept both.
   */
  lemma OneOfTwoIsRemoved(hash: Hash, a: Round, b: Round, to: Merge.Ruling, p: Path, q: Path, g: Digest)
    requires Follows(hash, a, b) && (to.ToAlpha? || to.ToBeta?) && p != q
    requires var l := ListOf(PlanOf(a), to); p in FilesOf(l, g) && q in FilesOf(l, g)
    requires Look(a.on.ancestor, p) == Offer(a, to, p) && Look(a.on.ancestor, q) == Offer(a, to, q)
    ensures exists r :: (r == p || r == q) && Change(r, Remove) in ListOf(PlanOf(b), Other(to))
  {
    var l := ListOf(PlanOf(a), to);
    FirstExists(l, g);
    var r := if IsFirst(l, p, g) then q else p;
    LaterIsLate(l, r, g);
    LateComesNext(hash, a, b, to, r);
  }

  /** A directory deleted in the sandbox: locally two of its files, of one content, are as they were, and `x` is new. */
  ghost predicate TwinsDeleted(a: Round, d: Name, m: Name, n: Name, x: Name) {
    var anc, alpha := a.on.ancestor, Some(TreeOf(a.ls));
    && m != n && IsFile(Look(anc, [d, m])) && IsFile(Look(anc, [d, n]))
    && Look(anc, [d, m]).value.digest == Look(anc, [d, n]).value.digest
    && Look(alpha, [d, m]) == Look(anc, [d, m]) && Look(alpha, [d, n]) == Look(anc, [d, n])
    && Look(alpha, [d, x]).Some? && Look(anc, [d, x]).None? && [d] !in a.on.remote
  }

  /** The directory is kept, and then one of the two files is removed after all. */
  lemma DeletedDirectoryLosesOne(hash: Hash, a: Round, b: Round, d: Name, m: Name, n: Name, x: Name)
    requires Follows(hash, a, b) && TwinsDeleted(a, d, m, n, x)
    ensures Change([d, m], Remove) in PlanOf(b).toLocal || Change([d, n], Remove) in PlanOf(b).toLocal
  {
    var g := Look(a.on.ancestor, [d, m]).value.digest;
    CycleBehind(hash, a, b);
    DeletedDirectoryIsRemade(hash, a, d, m, x);
    DeletedDirectoryIsRemade(hash, a, d, n, x);
    OneOfTwoIsRemoved(hash, a, b, Merge.ToBeta, [d, m], [d, n], g);
  }

  lemma DeletedDirectoryIsRemade(hash: Hash, a: Round, d: Name, m: Name, x: Name)
    requires Fine(hash, a)
    requires var anc, alpha := a.on.ancestor, Some(TreeOf(a.ls));
             && IsFile(Look(anc, [d, m])) && Look(alpha, [d, m]) == Look(anc, [d, m])
             && Look(alpha, [d, x]).Some? && Look(anc, [d, x]).None? && [d] !in a.on.remote
    ensures MakesFile(PlanOf(a).toRemote, [d, m], Look(a.on.ancestor, [d, m]))
  {
    FineFacts(hash, a);
    ScansHold(hash, a, [d]);
    DeletionGivesWay(a.on.ancestor, TreeOf(a.ls), TreeOf(a.rs), d, m, x);
    ScannedSides(hash, a, Merge.ToBeta);
    MadeNext(a.on.ancestor, TreeOf(a.ls), TreeOf(a.rs), Merge.ToBeta, [d, m]);
  }

  lemma DeletionGivesWay(anc: Option<Entry>, alpha: Entry, beta: Entry, d: Name, m: Name, x: Name)
    requires alpha.Directory? && beta.Directory? && Look(anc, [d, m]).Some?
    requires Look(Some(alpha), [d, x]).Some? && Look(anc, [d, x]).None? && Look(Some(beta), [d]).None?
    ensures Fate(anc, Some(alpha), Some(beta), [d, m]) == Merge.ToBeta && Look(Some(beta), [d, m]).None?
  {
    var was, kept := Child(anc, d), Child(Some(alpha), d);
    AboveIsDirectory(anc, [], [d, m]);
    LookStep(Some(beta), d, []);
    assert [d] + [] == [d] && Child(Some(beta), d) == None;
    assert [d] + [x] == [d, x] && [d] + [m] == [d, m];
    LookStep(Some(alpha), d, [x]);
    LookStep(anc, d, [x]);
    LookStep(anc, d, [m]);
    LookStep(Some(beta), d, [m]);
    NewIsKept(was, kept, x, m);
    assert Fate(anc, Some(alpha), Some(beta), [d, m]) == Fate(was, kept, None, [m]);
  }

  lemma NewIsKept(was: Option<Entry>, kept: Option<Entry>, x: Name, m: Name)
    requires Look(kept, [x]).Some? && Look(was, [x]).None? && was.Some?
    ensures Fate(was, kept, None, [m]) == Merge.ToBeta && Look(None, [m]) == None
  {
    Merge.NoneWithin(was);
    AtNone([m]);
    assert !Merge.Within(kept, was);
  }

  function TwinRoot(d: Name, m: Name, n: Name, x: Name, content: Bytes): Nodes {
    map[[] := DirNode, [d] := DirNode, [d, m] := FileNode(content, false), [d, n] := FileNode(content, false), [d, x] := FileNode([], false)]
  }

  function TwinTree(hash: Hash, d: Name, m: Name, n: Name, content: Bytes): Entry {
    Directory(map[d := Directory(map[m := File(hash(content), false), n := File(hash(content), false)])])
  }

  /** There are such roots. */
  lemma DeletedDirectoryHappens(hash: Hash, a: Round, d: Name, m: Name, n: Name, x: Name, content: Bytes)
    requires PrintsHex(hash) && Proper(d) && Proper(m) && Proper(n) && Proper(x) && d != STATE_DIR_NAME && m != n && x != m && x != n
    requires a.on.local == TwinRoot(d, m, n, x, content) && a.on.remote == map[[] := DirNode]
    requires a.on.ancestor == Some(TwinTree(hash, d, m, n, content))
    requires IsScan(hash, a.on.local, a.ls) && IsScan(hash, a.on.remote, a.rs)
    ensures Fine(hash, a) && TwinsDeleted(a, d, m, n, x)
  {
    TwinRootWorks(d, m, n, x, content);
    TwinLooks(hash, d, m, n, content, m);
    TwinLooks(hash, d, m, n, content, n);
    TwinLooks(hash, d, m, n, content, x);
    assert [d] != [];
    ScansHold(hash, a, [d, m]);
    ScansHold(hash, a, [d, n]);
    ScansHold(hash, a, [d, x]);
  }

  lemma TwinRootWorks(d: Name, m: Name, n: Name, x: Name, content: Bytes)
    requires Proper(d) && Proper(m) && Proper(n) && Proper(x) && d != STATE_DIR_NAME
    ensures Workable(TwinRoot(d, m, n, x, content)) && Workable(map[[] := DirNode])
  {
    assert Parent([d]) == [] && Parent([d, m]) == [d] && Parent([d, n]) == [d] && Parent([d, x]) == [d];
    assert [d][0] == d && [d, m][0] == d && [d, n][0] == d && [d, x][0] == d && [STATE_DIR_NAME][0] != d;
  }

  lemma TwinLooks(hash: Hash, d: Name, m: Name, n: Name, content: Bytes, q: Name)
    ensures Look(Some(TwinTree(hash, d, m, n, content)), [d, q]) == if q == m || q == n then Some(FileMeta(hash(content), false)) else None
  {
    var t := Some(TwinTree(hash, d, m, n, content));
    assert [d] + [q] == [d, q];
    LookStep(t, d, [q]);
    LookStep(Child(t, d), q, []);
    assert [q] + [] == [q];
  }

  // ---- a halt the session brings on itself --------------------------------------------------------------------------

  function Leaf(there: bool, f: Entry): Option<Entry> {
    if there then Some(f) else None
  }

  /** What becomes of a file the ancestor has, or nobody has. */
  lemma LeafFate(f: Entry, was: bool, a: bool, b: bool, r: Path)
    requires f.File? && (was ==> a || b) && (!was ==> !a && !b)
    ensures Fate(Leaf(was, f), Leaf(a, f), Leaf(b, f), r) == if a == b then Merge.Agreed else if a then Merge.ToAlpha else Merge.ToBeta
    ensures Recorded(Leaf(was, f), Leaf(a, f), Leaf(b, f), r) == Look(Leaf(was, f), r)
  {
    if r == [] || !was { AtNone(r); } else { AtNone(r[1..]); }
  }

  /** And of any name of flat directories both sides have deleted some of. */
  lemma FlatChild(all: set<Name>, x: set<Name>, y: set<Name>, f: Entry, n: Name, r: Path)
    requires f.File? && x <= all && y <= all && x !! y
    ensures var anc, alpha, beta := Some(Guard.Flat(all, f)), Some(Guard.Flat(all - x, f)), Some(Guard.Flat(all - y, f));
            && Fate(anc, alpha, beta, [n] + r) == (if n in x then Merge.ToBeta else if n in y then Merge.ToAlpha else Merge.Agreed)
            && Recorded(anc, alpha, beta, [n] + r) == Look(anc, [n] + r)
  {
    var anc, alpha, beta := Some(Guard.Flat(all, f)), Some(Guard.Flat(all - x, f)), Some(Guard.Flat(all - y, f));
    assert ([n] + r)[0] == n && ([n] + r)[1..] == r;
    LookStep(anc, n, r);
    assert Merge.Base(anc, alpha) == anc;
    assert Child(anc, n) == Leaf(n in all, f) && Child(alpha, n) == Leaf(n in all - x, f) && Child(beta, n) == Leaf(n in all - y, f);
    LeafFate(f, n in all, n in all - x, n in all - y, r);
  }

  /** Where one path goes: what either side has left of it. */
  lemma FlatFate(all: set<Name>, x: set<Name>, y: set<Name>, f: Entry, p: Path)
    requires f.File? && x <= all && y <= all && x !! y
    ensures var anc, alpha, beta := Some(Guard.Flat(all, f)), Some(Guard.Flat(all - x, f)), Some(Guard.Flat(all - y, f));
            var left := Look(Some(Guard.Flat(all - x - y, f)), p);
            && left == (if Fate(anc, alpha, beta, p) == Merge.ToAlpha then Look(beta, p) else Look(alpha, p))
            && left == (if Fate(anc, alpha, beta, p) == Merge.ToBeta then Look(alpha, p) else Look(beta, p))
            && Recorded(anc, alpha, beta, p) == Look(anc, p)
  {
    if p != [] {
      assert p == [p[0]] + p[1..];
      FlatChild(all, x, y, f, p[0], p[1..]);
      FlatLeft(all, x, y, f, p[0], p[1..]);
    }
  }

  /** One path of the merge, and of the ancestor after it. */
  lemma FlatPath(all: set<Name>, x: set<Name>, y: set<Name>, f: Entry, p: Path)
    requires f.File? && x <= all && y <= all && x !! y
    ensures var anc, alpha, beta, left := Some(Guard.Flat(all, f)), Guard.Flat(all - x, f), Guard.Flat(all - y, f), Some(Guard.Flat(all - x - y, f));
            var plan := Merge.Reconcile([], anc, Some(alpha), Some(beta));
            && Want(alpha, plan.alpha, p) == Look(left, p) && Want(beta, plan.beta, p) == Look(left, p)
            && Look(NextAncestor(anc, alpha, beta), p) == Look(anc, p)
  {
    var anc, alpha, beta := Some(Guard.Flat(all, f)), Guard.Flat(all - x, f), Guard.Flat(all - y, f);
    FlatFate(all, x, y, f, p);
    BothWants(anc, alpha, beta, p);
    AncestorIsHonest(anc, alpha, beta, p);
  }

  lemma BothWants(anc: Option<Entry>, alpha: Entry, beta: Entry, p: Path)
    requires alpha.Directory? && beta.Directory?
    ensures var plan, fate := Merge.Reconcile([], anc, Some(alpha), Some(beta)), Fate(anc, Some(alpha), Some(beta), p);
            && Want(alpha, plan.alpha, p) == (if fate == Merge.ToAlpha then Look(Some(beta), p) else Look(Some(alpha), p))
            && Want(beta, plan.beta, p) == (if fate == Merge.ToBeta then Look(Some(alpha), p) else Look(Some(beta), p))
  {
    var plan := Merge.Reconcile([], anc, Some(alpha), Some(beta));
    assert Merge.Side(plan, Merge.ToAlpha) == plan.alpha && Merge.Side(plan, Merge.ToBeta) == plan.beta;
    SideWant(anc, alpha, beta, Merge.ToAlpha, p);
    SideWant(anc, alpha, beta, Merge.ToBeta, p);
  }

  lemma FlatMerge(all: set<Name>, x: set<Name>, y: set<Name>, f: Entry)
    requires f.File? && x <= all && y <= all && x !! y
    ensures var anc, alpha, beta, left := Some(Guard.Flat(all, f)), Guard.Flat(all - x, f), Guard.Flat(all - y, f), Some(Guard.Flat(all - x - y, f));
            var plan := Merge.Reconcile([], anc, Some(alpha), Some(beta));
            && (forall p :: Want(alpha, plan.alpha, p) == Look(left, p) && Want(beta, plan.beta, p) == Look(left, p))
            && NextAncestor(anc, alpha, beta) == anc
  {
    forall p { FlatPath(all, x, y, f, p); }
    SameTree(NextAncestor(Some(Guard.Flat(all, f)), Guard.Flat(all - x, f), Guard.Flat(all - y, f)), Some(Guard.Flat(all, f)));
  }

  lemma FlatLeft(all: set<Name>, x: set<Name>, y: set<Name>, f: Entry, n: Name, r: Path)
    requires f.File? && x <= all && y <= all && x !! y
    ensures var p := [n] + r;
            var a, b, left := Look(Some(Guard.Flat(all - x, f)), p), Look(Some(Guard.Flat(all - y, f)), p), Look(Some(Guard.Flat(all - x - y, f)), p);
            left == (if n in x then a else b) && (n !in x && n !in y ==> a == b)
  {
    LookStep(Some(Guard.Flat(all - x, f)), n, r);
    LookStep(Some(Guard.Flat(all - y, f)), n, r);
    LookStep(Some(Guard.Flat(all - x - y, f)), n, r);
    AtNone(r);
  }

  /**
   * Either side deletes at most half, the two together more: the guard lets the cycle through, which leaves on both sides
   * what neither deleted and the ancestor as it was; the next cycle, with nothing done in between, halts for lost content.
   */
  lemma BothDeletionsHaltNext(all: set<Name>, x: set<Name>, y: set<Name>, digest: Digest)
    requires x <= all && y <= all && x !! y && |all| >= Guard.CONTENT_LOSS_FLOOR
    requires 2 * |all - x| >= |all| && 2 * |all - y| >= |all| && 2 * |all - x - y| < |all|
    ensures var f := File(digest, false);
            var anc, alpha, beta, left := Some(Guard.Flat(all, f)), Guard.Flat(all - x, f), Guard.Flat(all - y, f), Guard.Flat(all - x - y, f);
            var plan := Merge.Reconcile([], anc, Some(alpha), Some(beta));
            && Guard.GuardContentLoss(anc, CountOf(Some(alpha)), CountOf(Some(beta))).None?
            && (forall p :: Want(alpha, plan.alpha, p) == Look(Some(left), p) && Want(beta, plan.beta, p) == Look(Some(left), p))
            && Guard.GuardContentLoss(NextAncestor(anc, alpha, beta), CountOf(Some(left)), CountOf(Some(left))).Some?
  {
    var f := File(digest, false);
    FlatMerge(all, x, y, f);
    Guard.FlatTracks(all, f);
    Guard.FlatTracks(all - x, f);
    Guard.FlatTracks(all - y, f);
    Guard.FlatTracks(all - x - y, f);
    Guard.GuardPassesExactly(Some(Guard.Flat(all, f)), |all - x|, |all - y|);
    Guard.GuardPassesExactly(Some(Guard.Flat(all, f)), |all - x - y|, |all - x - y|);
  }
}
