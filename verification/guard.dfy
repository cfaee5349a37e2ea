/** The content-loss guard, and what it bounds. */
module Guard {
  import opened Entries
  import opened Changes
  import opened Splice
  import opened Reconcile
  import opened Meaning
  import opened Snapshot
  import opened Agreement
  import opened Trash
  import Merge

  const CONTENT_LOSS_FLOOR := 10
  const CONTENT_LOSS_THRESHOLD := 0.5

  datatype LossSide = LocalRoot | SandboxWorkspace

  datatype ContentLoss = ContentLoss(side: LossSide, lost: nat, tracked: nat)

  function LostFraction(tracked: nat, present: nat): real {
    if tracked == 0 || present >= tracked then 0.0 else (tracked - present) as real / tracked as real
  }

  /** Halts a side that lost most of what the ancestor tracks, by count. */
  function GuardContentLoss(anc: Option<Entry>, local: nat, remote: nat): Option<ContentLoss> {
    if anc.None? then None
    else
      var tracked := CountOf(anc);
      if tracked < CONTENT_LOSS_FLOOR then None
      else if LostFraction(tracked, local) > CONTENT_LOSS_THRESHOLD then Some(ContentLoss(LocalRoot, tracked - local, tracked))
      else if LostFraction(tracked, remote) > CONTENT_LOSS_THRESHOLD then Some(ContentLoss(SandboxWorkspace, tracked - remote, tracked))
      else None
  }

  lemma QuotientAboveHalf(l: real, t: real)
    requires t > 0.0
    ensures l / t > 0.5 <==> l > 0.5 * t
  {
    var q := l / t;
    assert q * t == l;
    if q > 0.5 {
      assert (q - 0.5) * t > 0.0;
    } else {
      assert (0.5 - q) * t >= 0.0;
    }
  }

  lemma LostMoreThanHalf(tracked: nat, present: nat)
    ensures LostFraction(tracked, present) > CONTENT_LOSS_THRESHOLD <==> 2 * present < tracked
  {
    if tracked != 0 && present < tracked {
      var t, l := tracked as real, (tracked - present) as real;
      QuotientAboveHalf(l, t);
      assert 2.0 * l == (2 * (tracked - present)) as real;
      assert l > 0.5 * t <==> 2 * (tracked - present) > tracked;
    }
  }

  /** One side has lost more than half of what is tracked, where enough is tracked to tell. */
  ghost predicate LostMost(tracked: Option<Entry>, local: nat, remote: nat) {
    CountOf(tracked) >= 10 && (2 * local < CountOf(tracked) || 2 * remote < CountOf(tracked))
  }

  /** The guard passes exactly when nothing much is tracked or both sides still have half as many entries. */
  lemma GuardPassesExactly(anc: Option<Entry>, local: nat, remote: nat)
    ensures GuardContentLoss(anc, local, remote).None? <==> CountOf(anc) < 10 || (2 * local >= CountOf(anc) && 2 * remote >= CountOf(anc))
    ensures GuardContentLoss(anc, local, remote).Some? <==> LostMost(anc, local, remote)
  {
    LostMoreThanHalf(CountOf(anc), local);
    LostMoreThanHalf(CountOf(anc), remote);
  }

  /** The guard names the local root first, and what the side it names has lost of what is tracked. */
  lemma GuardTells(anc: Option<Entry>, local: nat, remote: nat)
    requires GuardContentLoss(anc, local, remote).Some?
    ensures var loss, n := GuardContentLoss(anc, local, remote).value, CountOf(anc);
            && loss.tracked == n
            && (if 2 * local < n then loss.side == LocalRoot && loss.lost == n - local
                else loss.side == SandboxWorkspace && 2 * remote < n && loss.lost == n - remote)
  {
    LostMoreThanHalf(CountOf(anc), local);
    LostMoreThanHalf(CountOf(anc), remote);
  }

  /** What a side lost of a tracked set, given how many entries it has and how many of them are untracked. */
  lemma LossBound(tracked: set<Path>, present: set<Path>)
    requires 2 * |present| >= |tracked|
    ensures 2 * |tracked - present| <= |tracked| + 2 * |present - tracked|
    ensures present <= tracked ==> 2 * |tracked - present| <= |tracked|
  {
    assert tracked == (tracked - present) + (tracked * present);
    assert present == (present - tracked) + (tracked * present);
    if present <= tracked { assert present - tracked == {}; }
  }

  /** Paths a list takes away from a side altogether. */
  ghost function TakenAway(t: Entry, cs: seq<TreeChange>): set<Path> {
    set p | p in Tracked(t) && Want(t, cs, p).None?
  }

  /** Only what the ancestor tracks and the other side no longer has is taken away. */
  lemma TakenAwayWasLost(anc: Entry, alpha: Entry, beta: Entry)
    requires alpha.Directory? && beta.Directory?
    ensures var plan := Merge.Reconcile([], Some(anc), Some(alpha), Some(beta));
            && TakenAway(beta, plan.beta) <= Tracked(anc) - Tracked(alpha)
            && TakenAway(alpha, plan.alpha) <= Tracked(anc) - Tracked(beta)
  {
    var plan := Merge.Reconcile([], Some(anc), Some(alpha), Some(beta));
    forall p | p in TakenAway(beta, plan.beta) ensures p in Tracked(anc) - Tracked(alpha) {
      MergeAgrees(Some(anc), alpha, beta, p);
      SideWant(Some(anc), alpha, beta, Merge.ToBeta, p);
      assert Merge.Side(plan, Merge.ToBeta) == plan.beta;
    }
    forall p | p in TakenAway(alpha, plan.alpha) ensures p in Tracked(anc) - Tracked(beta) {
      MergeAgrees(Some(anc), alpha, beta, p);
      SideWant(Some(anc), alpha, beta, Merge.ToAlpha, p);
      assert Merge.Side(plan, Merge.ToAlpha) == plan.alpha;
    }
  }

  /** What a side has that the removals of its list sweep away, to be made anew as another kind of thing or not at all. */
  ghost function Swept(t: Entry, cs: seq<TreeChange>): set<Path> {
    set p | p in Tracked(t) && RemovedBy(ChangesFrom(cs), p)
  }

  /** What the ancestor tracks and a side no longer has. */
  ghost function Vanished(anc: Entry, side: Entry): set<Path> {
    Tracked(anc) - Tracked(side)
  }

  /** What the ancestor tracks and a side has as another kind of thing. */
  ghost function Recast(anc: Entry, side: Entry): set<Path> {
    set p | p in Tracked(anc) && p in Tracked(side) && !SameKind(Look(Some(anc), p).value, Look(Some(side), p).value)
  }

  lemma SweptIsReplaced(t: Entry, cs: seq<TreeChange>, p: Path)
    requires Reconciled(t, cs) && p in Tracked(t)
    ensures p in Swept(t, cs) <==> Want(t, cs, p).None? || !SameKind(Look(Some(t), p).value, Want(t, cs, p).value)
  {
    if RemovedBy(ChangesFrom(cs), p) { CoveredIsReplaced(t, cs, p); } else { UncoveredIsKept(t, cs, p); }
  }

  /** Exactly: what gives way to the other side, and is not of a kind with what the other side has there. */
  lemma SweptExactly(anc: Option<Entry>, alpha: Entry, beta: Entry, to: Merge.Ruling, p: Path)
    requires alpha.Directory? && beta.Directory? && (to.ToAlpha? || to.ToBeta?)
    ensures var cs := Merge.Side(Merge.Reconcile([], anc, Some(alpha), Some(beta)), to);
            var had, gets := Look(Some(Loser(alpha, beta, to)), p), Look(Some(Winner(alpha, beta, to)), p);
            p in Swept(Loser(alpha, beta, to), cs) <==>
            p in Tracked(Loser(alpha, beta, to)) && Fate(anc, Some(alpha), Some(beta), p) == to && (gets.None? || !SameKind(had.value, gets.value))
  {
    var plan := Merge.Reconcile([], anc, Some(alpha), Some(beta));
    Merge.MergeIsReconciled(anc, alpha, beta);
    assert Merge.Side(plan, Merge.ToAlpha) == plan.alpha && Merge.Side(plan, Merge.ToBeta) == plan.beta;
    SideWant(anc, alpha, beta, to, p);
    if p in Tracked(Loser(alpha, beta, to)) { SweptIsReplaced(Loser(alpha, beta, to), Merge.Side(plan, to), p); }
  }

  /** So only what the other side lost or recast of the ancestor is swept away. */
  lemma SweptWasLost(anc: Entry, alpha: Entry, beta: Entry)
    requires alpha.Directory? && beta.Directory?
    ensures var plan := Merge.Reconcile([], Some(anc), Some(alpha), Some(beta));
            && Swept(beta, plan.beta) <= Vanished(anc, alpha) + Recast(anc, alpha)
            && Swept(alpha, plan.alpha) <= Vanished(anc, beta) + Recast(anc, beta)
  {
    var plan := Merge.Reconcile([], Some(anc), Some(alpha), Some(beta));
    assert Merge.Side(plan, Merge.ToAlpha) == plan.alpha && Merge.Side(plan, Merge.ToBeta) == plan.beta;
    forall p | p in Swept(beta, plan.beta) ensures p in Vanished(anc, alpha) + Recast(anc, alpha) {
      SweptExactly(Some(anc), alpha, beta, Merge.ToBeta, p);
      LoserHadNothingNew(Some(anc), Some(alpha), Some(beta), p);
    }
    forall p | p in Swept(alpha, plan.alpha) ensures p in Vanished(anc, beta) + Recast(anc, beta) {
      SweptExactly(Some(anc), alpha, beta, Merge.ToAlpha, p);
      LoserHadNothingNew(Some(anc), Some(alpha), Some(beta), p);
    }
  }

  /** Of what the other side lost or recast, what this side still has and gives way at. */
  ghost function Yielded(anc: Entry, alpha: Entry, beta: Entry, to: Merge.Ruling): set<Path> {
    set p | p in Vanished(anc, Winner(alpha, beta, to)) + Recast(anc, Winner(alpha, beta, to))
            && p in Tracked(Loser(alpha, beta, to)) && Fate(Some(anc), Some(alpha), Some(beta), p) == to
  }

  /** Whatever either side did: exactly that is swept away, so a pass is within half of what is tracked just when it is. */
  lemma SweptIsYielded(anc: Entry, alpha: Entry, beta: Entry, to: Merge.Ruling)
    requires alpha.Directory? && beta.Directory? && (to.ToAlpha? || to.ToBeta?)
    ensures Swept(Loser(alpha, beta, to), Merge.Side(Merge.Reconcile([], Some(anc), Some(alpha), Some(beta)), to)) == Yielded(anc, alpha, beta, to)
  {
    var swept := Swept(Loser(alpha, beta, to), Merge.Side(Merge.Reconcile([], Some(anc), Some(alpha), Some(beta)), to));
    forall p ensures p in swept <==> p in Yielded(anc, alpha, beta, to) {
      PathIsYielded(anc, alpha, beta, to, p);
    }
  }

  lemma PathIsYielded(anc: Entry, alpha: Entry, beta: Entry, to: Merge.Ruling, p: Path)
    requires alpha.Directory? && beta.Directory? && (to.ToAlpha? || to.ToBeta?)
    ensures p in Swept(Loser(alpha, beta, to), Merge.Side(Merge.Reconcile([], Some(anc), Some(alpha), Some(beta)), to)) <==>
            p in Yielded(anc, alpha, beta, to)
  {
    SweptExactly(Some(anc), alpha, beta, to, p);
    LoserHadNothingNew(Some(anc), Some(alpha), Some(beta), p);
  }

  lemma SweptBound(anc: Entry, side: Entry, swept: set<Path>)
    requires swept <= Vanished(anc, side) + Recast(anc, side) && 2 * |Tracked(side)| >= |Tracked(anc)|
    ensures 2 * |swept| <= |Tracked(anc)| + 2 * |Tracked(side) - Tracked(anc)| + 2 * |Recast(anc, side)|
  {
    LossBound(Tracked(anc), Tracked(side));
    SubsetSize(swept, Vanished(anc, side) + Recast(anc, side));
    assert Vanished(anc, side) * Recast(anc, side) == {};
  }

  /**
   * A pass the guard lets through leaves at most half of the tracked entries' paths empty on either side, and for every
   * untracked entry on the other side at most one more; its removals sweep away at most that, and what the other side
   * has recast as another kind of thing.
   */
  lemma DeletionBound(anc: Entry, alpha: Entry, beta: Entry)
    requires alpha.Directory? && beta.Directory? && CountOf(Some(anc)) >= CONTENT_LOSS_FLOOR
    requires GuardContentLoss(Some(anc), CountOf(Some(alpha)), CountOf(Some(beta))).None?
    ensures var plan := Merge.Reconcile([], Some(anc), Some(alpha), Some(beta));
            var t, a, b := Tracked(anc), Tracked(alpha), Tracked(beta);
            && 2 * |TakenAway(beta, plan.beta)| <= |t| + 2 * |a - t|
            && 2 * |TakenAway(alpha, plan.alpha)| <= |t| + 2 * |b - t|
            && 2 * |Swept(beta, plan.beta)| <= |t| + 2 * |a - t| + 2 * |Recast(anc, alpha)|
            && 2 * |Swept(alpha, plan.alpha)| <= |t| + 2 * |b - t| + 2 * |Recast(anc, beta)|
            && (a <= t && Recast(anc, alpha) == {} ==> 2 * |Swept(beta, plan.beta)| <= |t|)
            && (b <= t && Recast(anc, beta) == {} ==> 2 * |Swept(alpha, plan.alpha)| <= |t|)
  {
    var plan := Merge.Reconcile([], Some(anc), Some(alpha), Some(beta));
    GuardPassesExactly(Some(anc), CountOf(Some(alpha)), CountOf(Some(beta)));
    CountIsTracked(anc);
    CountIsTracked(alpha);
    CountIsTracked(beta);
    TakenAwayWasLost(anc, alpha, beta);
    SweptWasLost(anc, alpha, beta);
    TakenBound(anc, alpha, TakenAway(beta, plan.beta));
    TakenBound(anc, beta, TakenAway(alpha, plan.alpha));
    SweptBound(anc, alpha, Swept(beta, plan.beta));
    SweptBound(anc, beta, Swept(alpha, plan.alpha));
    NoStrangers(Tracked(anc), Tracked(alpha));
    NoStrangers(Tracked(anc), Tracked(beta));
  }

  lemma NoStrangers(t: set<Path>, a: set<Path>)
    ensures a <= t ==> |a - t| == 0
  {
    if a <= t { assert a - t == {}; }
  }

  lemma TakenBound(anc: Entry, side: Entry, taken: set<Path>)
    requires taken <= Vanished(anc, side) && 2 * |Tracked(side)| >= |Tracked(anc)|
    ensures 2 * |taken| <= |Tracked(anc)| + 2 * |Tracked(side) - Tracked(anc)|
  {
    LossBound(Tracked(anc), Tracked(side));
    SubsetSize(taken, Vanished(anc, side));
  }

  // ---- exactly, when one side is as it was -------------------------------------------------------------

  lemma {:induction false} QuietFate(anc: Option<Entry>, alpha: Option<Entry>, r: Path)
    ensures Fate(anc, alpha, anc, r) == if Look(alpha, r) == Look(anc, r) && Fate(anc, alpha, anc, r) == Merge.Agreed then Merge.Agreed else Merge.ToBeta
    decreases |r|
  {
    if alpha.None? && anc.None? {
      AtNone(r);
    } else if Shallow(alpha) == Shallow(anc) && r != [] {
      QuietFate(Child(anc, r[0]), Child(alpha, r[0]), r[1..]);
    }
  }

  /**
   * When the sandbox is as the ancestor has it, its removals sweep away exactly what vanished locally or was recast
   * there: at most half of what is tracked if and only if those are.
   */
  lemma QuietSideIsSweptExactly(anc: Entry, alpha: Entry)
    requires alpha.Directory? && anc.Directory?
    ensures var cs := Merge.Reconcile([], Some(anc), Some(alpha), Some(anc)).beta;
            && Swept(anc, cs) == Vanished(anc, alpha) + Recast(anc, alpha)
            && (2 * |Swept(anc, cs)| <= |Tracked(anc)| <==> 2 * (|Vanished(anc, alpha)| + |Recast(anc, alpha)|) <= |Tracked(anc)|)
  {
    var cs := Merge.Reconcile([], Some(anc), Some(alpha), Some(anc)).beta;
    forall p ensures p in Swept(anc, cs) <==> p in Vanished(anc, alpha) + Recast(anc, alpha) {
      QuietPathIsSwept(anc, alpha, p);
    }
    DisjointSizes(Swept(anc, cs), Vanished(anc, alpha), Recast(anc, alpha));
  }

  lemma QuietPathIsSwept(anc: Entry, alpha: Entry, p: Path)
    requires alpha.Directory? && anc.Directory?
    ensures p in Swept(anc, Merge.Reconcile([], Some(anc), Some(alpha), Some(anc)).beta) <==> p in Vanished(anc, alpha) + Recast(anc, alpha)
  {
    var plan := Merge.Reconcile([], Some(anc), Some(alpha), Some(anc));
    assert Merge.Side(plan, Merge.ToBeta) == plan.beta;
    SweptExactly(Some(anc), alpha, anc, Merge.ToBeta, p);
    QuietFate(Some(anc), Some(alpha), p);
  }

  lemma DisjointSizes(s: set<Path>, a: set<Path>, b: set<Path>)
    requires a !! b && forall p :: p in s <==> p in a + b
    ensures s == a + b && |s| == |a| + |b|
  {
    assert s == a + b;
  }

  // ---- what slips through ---------------------------------------------------------------------------------

  /** A directory holding the same thing under every one of some names. */
  function Flat(names: set<Name>, e: Entry): Entry {
    Directory(map n | n in names :: e)
  }

  lemma {:induction false} OnePathEach(names: set<Name>)
    ensures |set n | n in names :: [n]| == |names|
    decreases |names|
  {
    if names == {} {
      assert (set n | n in names :: [n]) == {};
    } else {
      var m :| m in names;
      OnePathEach(names - {m});
      assert (set n | n in names :: [n]) == (set n | n in names - {m} :: [n]) + {[m]};
    }
  }

  lemma OneName(names: set<Name>, p: Path)
    ensures p in (set n | n in names :: [n]) <==> p != [] && p[1..] == [] && p[0] in names
  {
    assert p != [] && p[1..] == [] ==> p == [p[0]];
  }

  lemma FlatTracks(names: set<Name>, e: Entry)
    requires !e.Directory?
    ensures Tracked(Flat(names, e)) == (set n | n in names :: [n]) && CountOf(Some(Flat(names, e))) == |names|
    ensures forall n | n in names :: Look(Some(Flat(names, e)), [n]) == Some(MetaOf(e))
  {
    forall p ensures p in Tracked(Flat(names, e)) <==> p in set n | n in names :: [n] {
      OneName(names, p);
      if p != [] { FlatLook(names, e, p); }
    }
    CountIsTracked(Flat(names, e));
    OnePathEach(names);
    forall n | n in names ensures Look(Some(Flat(names, e)), [n]) == Some(MetaOf(e)) { FlatLook(names, e, [n]); }
  }

  lemma FlatLook(names: set<Name>, e: Entry, p: Path)
    requires !e.Directory? && p != []
    ensures Look(Some(Flat(names, e)), p) == if p[0] in names && p[1..] == [] then Some(MetaOf(e)) else None
  {
    LookStep(Some(Flat(names, e)), p[0], p[1..]);
    assert p == [p[0]] + p[1..];
    if p[1..] != [] {
      LookStep(Child(Some(Flat(names, e)), p[0]), p[1], p[2..]);
      assert p[1..] == [p[1]] + p[2..];
      AtNone(p[2..]);
    }
    AtNone(p[1..]);
  }

  /** Ten files or more, each become a link: the guard passes, and every one of them is removed from a quiet sandbox. */
  lemma RecastSlipsThrough(names: set<Name>, digest: Digest, target: string)
    requires |names| >= CONTENT_LOSS_FLOOR
    ensures var anc, alpha := Flat(names, File(digest, false)), Flat(names, SymbolicLink(target));
            && GuardContentLoss(Some(anc), CountOf(Some(alpha)), CountOf(Some(anc))).None?
            && Swept(anc, Merge.Reconcile([], Some(anc), Some(alpha), Some(anc)).beta) == Tracked(anc) && |Tracked(anc)| == |names|
  {
    var anc, alpha := Flat(names, File(digest, false)), Flat(names, SymbolicLink(target));
    FlatTracks(names, File(digest, false));
    FlatTracks(names, SymbolicLink(target));
    CountIsTracked(anc);
    AllRecast(anc, alpha, names);
    SlipsThrough(anc, alpha);
  }

  lemma AllRecast(anc: Entry, alpha: Entry, names: set<Name>)
    requires Tracked(anc) == Tracked(alpha) == set n | n in names :: [n]
    requires forall n | n in names :: Look(Some(anc), [n]).Some? && Look(Some(anc), [n]).value.FileMeta?
    requires forall n | n in names :: Look(Some(alpha), [n]).Some? && Look(Some(alpha), [n]).value.LinkMeta?
    ensures Tracked(anc) <= Vanished(anc, alpha) + Recast(anc, alpha)
  {
    forall p | p in Tracked(anc) ensures p in Recast(anc, alpha) {
      var n :| n in names && p == [n];
    }
  }

  /** A side that kept its count passes the guard, though it kept nothing else. */
  lemma SlipsThrough(anc: Entry, alpha: Entry)
    requires anc.Directory? && alpha.Directory? && 2 * CountOf(Some(alpha)) >= CountOf(Some(anc))
    requires Tracked(anc) <= Vanished(anc, alpha) + Recast(anc, alpha)
    ensures GuardContentLoss(Some(anc), CountOf(Some(alpha)), CountOf(Some(anc))).None?
    ensures Swept(anc, Merge.Reconcile([], Some(anc), Some(alpha), Some(anc)).beta) == Tracked(anc)
  {
    GuardPassesExactly(Some(anc), CountOf(Some(alpha)), CountOf(Some(anc)));
    QuietSideIsSweptExactly(anc, alpha);
    assert Vanished(anc, alpha) + Recast(anc, alpha) == Tracked(anc);
  }

  /** Ten files or more, all gone, with half as many strangers in their place: the same. */
  lemma StrangersSlipThrough(names: set<Name>, others: set<Name>, digest: Digest)
    requires |names| >= CONTENT_LOSS_FLOOR && names !! others && 2 * |others| >= |names|
    ensures var anc, alpha := Flat(names, File(digest, false)), Flat(others, File(digest, false));
            && GuardContentLoss(Some(anc), CountOf(Some(alpha)), CountOf(Some(anc))).None?
            && Swept(anc, Merge.Reconcile([], Some(anc), Some(alpha), Some(anc)).beta) == Tracked(anc) && |Tracked(anc)| == |names|
  {
    var anc, alpha := Flat(names, File(digest, false)), Flat(others, File(digest, false));
    FlatTracks(names, File(digest, false));
    FlatTracks(others, File(digest, false));
    CountIsTracked(anc);
    AllVanished(anc, alpha, names, others);
    SlipsThrough(anc, alpha);
  }

  lemma AllVanished(anc: Entry, alpha: Entry, names: set<Name>, others: set<Name>)
    requires names !! others && Tracked(anc) == (set n | n in names :: [n]) && Tracked(alpha) == set n | n in others :: [n]
    ensures Tracked(anc) <= Vanished(anc, alpha) + Recast(anc, alpha)
  {
    forall p | p in Tracked(anc) ensures p in Vanished(anc, alpha) {
      var n :| n in names && p == [n];
    }
  }

  lemma {:induction false} SubsetSize(a: set<Path>, b: set<Path>)
    requires a <= b
    ensures |a| <= |b|
  {
    assert b == a + (b - a);
    assert |b| == |a| + |b - a|;
  }

  /** Counting is not comparing: a side that lost everything tracked passes when it has as many new entries. */
  lemma GuardComparesCounts(anc: Option<Entry>, entries: nat)
    requires entries >= CountOf(anc)
    ensures GuardContentLoss(anc, entries, entries).None?
  {
    GuardPassesExactly(anc, entries, entries);
  }
}
