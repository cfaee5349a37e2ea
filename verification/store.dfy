/** The sessions of one user: which roots may be synced side by side, and what each session is called. */
module Store {
  import opened Lists
  import opened Entries
  import opened Decimal

  // ---- paths as text -----------------------------------------------------------------------------------

  function Split(s: string): (r: seq<string>)
    ensures r != [] && forall n | n in r :: '/' !in n
  {
    if s == [] then [""]
    else
      var rest := Split(s[1..]);
      if s[0] == '/' then [""] + rest else [[s[0]] + rest[0]] + rest[1..]
  }

  /** Drops empty and "." components; ".." takes one away, and nothing is above the filesystem's root. */
  function CleanRooted(done: Path, parts: seq<string>): Path
    decreases |parts|
  {
    if parts == [] then done
    else if parts[0] == "" || parts[0] == "." then CleanRooted(done, parts[1..])
    else if parts[0] == ".." then CleanRooted(if done == [] then [] else done[..|done| - 1], parts[1..])
    else CleanRooted(done + [parts[0]], parts[1..])
  }

  /** The directory an absolute path names. */
  function Components(s: string): Path {
    CleanRooted([], Split(s))
  }

  function Joined(p: Path): string {
    if p == [] then "" else "/" + p[0] + Joined(p[1..])
  }

  function Render(p: Path): string {
    if p == [] then "/" else Joined(p)
  }

  predicate Absolute(s: string) {
    s != [] && s[0] == '/'
  }

  /** Roots are stored as absolute paths. */
  type Root = s: string | Absolute(s) witness "/"

  function Clean(s: Root): string {
    Render(Components(s))
  }

  /** Whether two roots nest, compared as text. */
  predicate Overlaps(a: Root, b: Root) {
    var x, y := Clean(a), Clean(b);
    x == y || y + "/" <= x || x + "/" <= y
  }

  // ---- what cleaning does ----------------------------------------------------------------------------------------

  lemma {:induction false} CleanMore(done: Path, a: seq<string>, b: seq<string>)
    ensures CleanRooted(done, a + b) == CleanRooted(CleanRooted(done, a), b)
    decreases |a|
  {
    if a == [] {
      assert a + b == b;
    } else {
      assert (a + b)[1..] == a[1..] + b;
      if a[0] == "" || a[0] == "." {
        CleanMore(done, a[1..], b);
      } else if a[0] == ".." {
        CleanMore(if done == [] then [] else done[..|done| - 1], a[1..], b);
      } else {
        CleanMore(done + [a[0]], a[1..], b);
      }
    }
  }

  /** Empty and "." components are nothing, ".." takes away the name before it, and at the filesystem's root nothing. */
  lemma DotsMean(a: seq<string>, n: string, b: seq<string>)
    requires PlainName(n)
    ensures CleanRooted([], a + [""] + b) == CleanRooted([], a + ["."] + b) == CleanRooted([], a + b)
    ensures CleanRooted([], a + [n, ".."] + b) == CleanRooted([], a + b)
    ensures CleanRooted([], a) == [] ==> CleanRooted([], a + [".."] + b) == CleanRooted([], b)
  {
    var done := CleanRooted([], a);
    CleanMore([], a, b);
    CleanMore([], a + [""], b);
    CleanMore([], a, [""]);
    CleanMore([], a + ["."], b);
    CleanMore([], a, ["."]);
    CleanMore([], a + [n, ".."], b);
    CleanMore([], a, [n, ".."]);
    CleanMore([], a + [".."], b);
    CleanMore([], a, [".."]);
    assert [""][1..] == [] && ["."][1..] == [] && [".."][1..] == [];
    assert [n, ".."][1..] == [".."];
    assert (done + [n])[..|done + [n]| - 1] == done;
  }

  // ---- what Overlaps means ---------------------------------------------------------------------------------

  predicate PlainName(n: Name) {
    n != "" && n != "." && n != ".." && '/' !in n
  }

  ghost predicate Plain(p: Path) {
    forall n | n in p :: PlainName(n)
  }

  lemma {:induction false} CleanIsPlain(done: Path, parts: seq<string>)
    requires Plain(done) && forall n | n in parts :: '/' !in n
    ensures Plain(CleanRooted(done, parts))
    decreases |parts|
  {
    if parts != [] {
      assert parts[0] in parts;
      if parts[0] == "" || parts[0] == "." {
        CleanIsPlain(done, parts[1..]);
      } else if parts[0] == ".." {
        CleanIsPlain(if done == [] then [] else done[..|done| - 1], parts[1..]);
      } else {
        CleanIsPlain(done + [parts[0]], parts[1..]);
      }
    }
  }

  lemma FirstNames(m: string, n: string, x: string, y: string)
    requires '/' !in m && '/' !in n && x != [] && x[0] == '/' && (y == [] || y[0] == '/')
    requires m + x <= n + y
    ensures m == n && x <= y
  {
    forall k | 0 <= k < |n| ensures (n + y)[k] != '/' { assert (n + y)[k] == n[k]; }
    forall k | 0 <= k < |m| ensures (m + x)[k] != '/' { assert (m + x)[k] == m[k]; }
    assert (n + y)[|m|] == (m + x)[|m|] == '/';
    assert y != [] ==> (n + y)[|n|] == '/';
    assert |m| == |n|;
    assert m == (m + x)[..|m|] && n == (n + y)[..|n|];
    assert x == (m + x)[|m|..] && y == (n + y)[|n|..];
  }

  lemma PlainTail(p: Path)
    requires Plain(p) && p != []
    ensures Plain(p[1..]) && PlainName(p[0])
  {
    assert p[0] in p;
    forall n | n in p[1..] ensures n in p {}
  }

  /** Written out, one path continues another past a separator exactly when it lies strictly below it. */
  lemma {:induction false} PrefixMeansBelow(q: Path, p: Path)
    requires Plain(q) && Plain(p)
    ensures Joined(q) + "/" <= Joined(p) <==> q < p
    decreases |q|
  {
    if p == [] {
      assert |Joined(q) + "/"| > |Joined(p)|;
    } else if q == [] {
      assert Joined(q) + "/" == "/" && Joined(p)[0] == '/';
    } else {
      var x, y := Joined(q[1..]) + "/", Joined(p[1..]);
      PlainTail(q);
      PlainTail(p);
      AppendAssoc("/", q[0], Joined(q[1..]));
      AppendAssoc("/" + q[0], Joined(q[1..]), "/");
      AppendAssoc("/", q[0], x);
      AppendAssoc("/", p[0], y);
      PrefixMeansBelow(q[1..], p[1..]);
      Step(q[0] + x, p[0] + y);
      HeadAndTail(q, p);
      if q[0] + x <= p[0] + y { FirstNames(q[0], p[0], x, y); }
    }
  }

  lemma Step(a: string, b: string)
    ensures "/" + a <= "/" + b <==> a <= b
  {
    assert ("/" + a)[1..] == a && ("/" + b)[1..] == b;
    if a <= b { assert "/" + b == ("/" + a) + b[|a|..]; }
  }

  lemma NamesEqual(m: string, n: string, x: string, y: string)
    requires '/' !in m && '/' !in n && (x == [] || x[0] == '/') && (y == [] || y[0] == '/')
    requires m + x == n + y
    ensures m == n && x == y
  {
    AppendAssoc(m, x, "/");
    AppendAssoc(n, y, "/");
    FirstNames(m, n, x + "/", y + "/");
    assert x == (m + x)[|m|..] && y == (n + y)[|n|..];
  }

  lemma {:induction false} JoinedInjective(p: Path, q: Path)
    requires Plain(p) && Plain(q) && Joined(p) == Joined(q)
    ensures p == q
  {
    if p != [] && q != [] {
      PlainTail(p);
      PlainTail(q);
      AfterSlash(p);
      AfterSlash(q);
      NamesEqual(p[0], q[0], Joined(p[1..]), Joined(q[1..]));
      JoinedInjective(p[1..], q[1..]);
      HeadAndTail(p, q);
    }
  }

  lemma AfterSlash(p: Path)
    requires p != []
    ensures Joined(p)[0] == '/' && Joined(p)[1..] == p[0] + Joined(p[1..])
  {
    AppendAssoc("/", p[0], Joined(p[1..]));
  }

  lemma HeadAndTail<T>(p: seq<T>, q: seq<T>)
    requires p != [] && q != []
    ensures p == q <==> p[0] == q[0] && p[1..] == q[1..]
    ensures p < q <==> p[0] == q[0] && p[1..] < q[1..]
  {
    assert p == [p[0]] + p[1..] && q == [q[0]] + q[1..];
  }

  predicate Under(r: Path, p: Path) {
    p <= r
  }

  /** Whether some path lies under both directories. */
  ghost predicate ShareAPath(p: Path, q: Path) {
    exists r :: Under(r, p) && Under(r, q)
  }

  lemma ShareMeansComparable(p: Path, q: Path)
    ensures ShareAPath(p, q) <==> Comparable(p, q)
  {
    if Comparable(p, q) {
      var r := if p <= q then q else p;
      assert Under(r, p) && Under(r, q);
    }
    if r :| Under(r, p) && Under(r, q) {
      assert p == r[..|p|] && q == r[..|q|];
      if |p| <= |q| { assert p == q[..|p|]; } else { assert q == p[..|q|]; }
    }
  }

  /**
   * For all absolute paths, clean or not: Overlaps holds exactly when the subtrees share a path, except that it
   * misses the filesystem's root against everything below it.
   */
  lemma OverlapsExactly(a: Root, b: Root)
    ensures var p, q := Components(a), Components(b);
            Overlaps(a, b) <==> ShareAPath(p, q) && (p == [] <==> q == [])
  {
    var p, q := Components(a), Components(b);
    CleanIsPlain([], Split(a));
    CleanIsPlain([], Split(b));
    ShareMeansComparable(p, q);
    if p != [] && q != [] {
      PrefixMeansBelow(p, q);
      PrefixMeansBelow(q, p);
      assert Render(p) == Joined(p) && Render(q) == Joined(q);
      if Render(p) == Render(q) { JoinedInjective(p, q); }
      assert Comparable(p, q) <==> p == q || p < q || q < p;
    } else if p != [] {
      RootMissesAll(p);
    } else if q != [] {
      RootMissesAll(q);
    }
  }

  lemma RootMissesAll(p: Path)
    requires Plain(p) && p != []
    ensures Render(p) != "/" && !("/" + "/" <= Render(p)) && !(Render(p) + "/" <= "/")
  {
    assert p[0] in p;
    assert Render(p) == "/" + p[0] + Joined(p[1..]);
    assert Render(p)[1] == p[0][0] && p[0][0] in p[0];
  }

  lemma {:induction false} SplitName(n: string, rest: string)
    requires '/' !in n
    ensures Split(n + rest) == [n + Split(rest)[0]] + Split(rest)[1..]
  {
    if n == "" {
      NothingBefore(rest);
      NothingBefore(Split(rest)[0]);
    } else {
      assert (n + rest)[0] == n[0] && (n + rest)[1..] == n[1..] + rest && n[0] in n;
      SplitName(n[1..], rest);
      AppendAssoc([n[0]], n[1..], Split(rest)[0]);
      assert [n[0]] + n[1..] == n;
    }
  }

  lemma {:induction false} SplitJoined(p: Path)
    requires Plain(p)
    ensures Split(Joined(p)) == [""] + p
  {
    if p != [] {
      PlainTail(p);
      AfterSlash(p);
      SplitName(p[0], Joined(p[1..]));
      SplitJoined(p[1..]);
      HeadAndTail([p[0]] + p[1..], p);
      assert p[0] + "" == p[0];
    }
  }

  lemma {:induction false} CleanKeepsPlain(done: Path, p: Path)
    requires Plain(p)
    ensures CleanRooted(done, p) == done + p
    decreases |p|
  {
    if p == [] {
      assert done + p == done;
    } else {
      PlainTail(p);
      CleanKeepsPlain(done + [p[0]], p[1..]);
      AppendAssoc(done, [p[0]], p[1..]);
      HeadAndTail([p[0]] + p[1..], p);
    }
  }

  /** A directory written out in full names that directory, and its base is its last name. */
  lemma RenderRoundTrip(p: Path)
    requires Plain(p)
    ensures Absolute(Render(p)) && Components(Render(p)) == p
    ensures Base(Render(p)) == if p == [] then "/" else p[|p| - 1]
  {
    if p == [] {
      assert Split("/") == ["", ""];
    } else {
      AfterSlash(p);
      SplitJoined(p);
      assert ([""] + p)[1..] == p;
      CleanKeepsPlain([], p);
      NothingBefore(p);
    }
  }

  // ---- names -------------------------------------------------------------------------------------------------

  function Candidate(base: string, suffix: nat): string {
    base + "-" + Print(suffix)
  }

  lemma CandidatesDiffer(base: string, i: nat, j: nat)
    requires Candidate(base, i) == Candidate(base, j)
    ensures i == j
  {
    assert Candidate(base, i)[|base| + 1..] == Print(i) && Candidate(base, j)[|base| + 1..] == Print(j);
    PrintInjective(i, j);
  }

  ghost function Tried(base: string, suffix: nat): set<string> {
    set k | 2 <= k < suffix :: Candidate(base, k)
  }

  lemma {:induction false} TriedCount(base: string, suffix: nat)
    requires suffix >= 2
    ensures |Tried(base, suffix)| == suffix - 2
  {
    if suffix > 2 {
      TriedCount(base, suffix - 1);
      assert Tried(base, suffix) == Tried(base, suffix - 1) + {Candidate(base, suffix - 1)};
      if Candidate(base, suffix - 1) in Tried(base, suffix - 1) {
        var k :| 2 <= k < suffix - 1 && Candidate(base, k) == Candidate(base, suffix - 1);
        CandidatesDiffer(base, k, suffix - 1);
      }
    } else {
      assert Tried(base, suffix) == {};
    }
  }

  lemma TriedFit(base: string, suffix: nat, taken: set<string>)
    requires suffix >= 2 && forall k | 2 <= k < suffix :: Candidate(base, k) in taken
    ensures suffix - 2 <= |taken|
  {
    TriedCount(base, suffix);
    assert Tried(base, suffix) <= taken;
    assert taken == Tried(base, suffix) + (taken - Tried(base, suffix));
  }

  function Base(root: string): string {
    var p := Components(root);
    if p == [] then "/" else p[|p| - 1]
  }

  /** The plain label if it is free, or else the first free numbered one. */
  ghost predicate IsName(base: string, taken: set<string>, name: string) {
    if base !in taken then name == base
    else exists k :: 2 <= k <= |taken| + 2 && name == Candidate(base, k) && forall j | 2 <= j < k :: Candidate(base, j) in taken
  }

  /** The first free label: the plain one, or the first numbered one. The search always ends. */
  method NameFor(root: string, sandbox: string, taken: set<string>) returns (name: string)
    ensures name !in taken && IsName(Base(root) + "-" + sandbox, taken, name)
  {
    var base := Base(root) + "-" + sandbox;
    if base !in taken { return base; }
    var suffix := 2;
    while Candidate(base, suffix) in taken
      invariant suffix >= 2 && forall j | 2 <= j < suffix :: Candidate(base, j) in taken
      decreases |taken| + 2 - suffix
    {
      TriedFit(base, suffix + 1, taken);
      suffix := suffix + 1;
    }
    TriedFit(base, suffix, taken);
    name := Candidate(base, suffix);
  }

  // ---- the store ------------------------------------------------------------------------------------------------

  datatype Session = Session(id: string, name: string, root: Root, sandbox: string)

  /** What the platform says of each sandbox: gone for certain, or not known to be. */
  type Gone = string -> bool

  /** No two roots nested; ids and names each used once. */
  ghost predicate Apart(sessions: seq<Session>) {
    forall i, j | 0 <= i < j < |sessions| :: ApartFrom(sessions[i], sessions[j])
  }

  predicate ApartFrom(a: Session, b: Session) {
    !Overlaps(a.root, b.root) && a.name != b.name && a.id != b.id
  }

  function Keep(sessions: seq<Session>, drop: set<Session>): (r: seq<Session>)
    ensures forall s :: s in r <==> s in sessions && s !in drop
  {
    if sessions == [] then []
    else if sessions[0] in drop then Keep(sessions[1..], drop)
    else [sessions[0]] + Keep(sessions[1..], drop)
  }

  lemma {:induction false} KeepIsApart(sessions: seq<Session>, drop: set<Session>)
    requires Apart(sessions)
    ensures Apart(Keep(sessions, drop))
    decreases |sessions|
  {
    if sessions != [] {
      var first, rest := sessions[0], sessions[1..];
      assert Apart(rest) by {
        forall i, j | 0 <= i < j < |rest| ensures ApartFrom(rest[i], rest[j]) { assert rest[i] == sessions[i + 1] && rest[j] == sessions[j + 1]; }
      }
      KeepIsApart(rest, drop);
      var kept := Keep(rest, drop);
      forall j | 0 <= j < |kept|
        ensures ApartFrom(first, kept[j])
      {
        assert first in sessions && kept[j] in kept && kept[j] in rest;
        var k :| 0 <= k < |rest| && rest[k] == kept[j];
        assert sessions[k + 1] == kept[j];
      }
    }
  }

  lemma {:induction false} KeepTwice(sessions: seq<Session>, a: set<Session>, b: set<Session>)
    ensures Keep(Keep(sessions, a), b) == Keep(sessions, a + b)
    decreases |sessions|
  {
    if sessions != [] { KeepTwice(sessions[1..], a, b); }
  }

  lemma {:induction false} KeepAll(sessions: seq<Session>)
    ensures Keep(sessions, {}) == sessions
    decreases |sessions|
  {
    if sessions != [] {
      KeepAll(sessions[1..]);
      assert sessions == [sessions[0]] + sessions[1..];
    }
  }

  lemma OneOfEachId(sessions: seq<Session>, s: Session, t: Session)
    requires Apart(sessions) && s in sessions && t in sessions && s.id == t.id
    ensures s == t
  {
    var i :| 0 <= i < |sessions| && sessions[i] == s;
    var j :| 0 <= j < |sessions| && sessions[j] == t;
  }

  function OfId(sessions: seq<Session>, id: string): set<Session> {
    set s | s in sessions && s.id == id
  }

  /** Among the first `n`, the sessions in the way of a root whose sandbox no longer exists. */
  ghost function Stale(sessions: seq<Session>, n: nat, local: Root, gone: Gone): set<Session>
    requires n <= |sessions|
  {
    set j | 0 <= j < n && IsStale(sessions[j], local, gone) :: sessions[j]
  }

  predicate IsStale(s: Session, local: Root, gone: Gone) {
    Overlaps(local, s.root) && gone(s.sandbox)
  }

  predicate Blocks(s: Session, local: Root, gone: Gone) {
    Overlaps(local, s.root) && !gone(s.sandbox)
  }

  /** The first session that keeps a root from being synced, and those before it. */
  ghost predicate FirstInTheWay(sessions: seq<Session>, local: Root, gone: Gone, i: nat)
    requires i < |sessions|
  {
    && Blocks(sessions[i], local, gone)
    && ClearBefore(sessions, local, gone, i)
  }

  /** Whatever comes before is out of the way, or its sandbox is gone. */
  ghost predicate ClearBefore(sessions: seq<Session>, local: Root, gone: Gone, i: nat)
    requires i <= |sessions|
  {
    forall j | 0 <= j < i :: !Blocks(sessions[j], local, gone)
  }

  /** The check stopped at a live session in the way, having removed the stale ones before it. */
  ghost predicate StoppedAt(sessions: seq<Session>, local: Root, gone: Gone, i: nat, refused: Session, left: seq<Session>)
    requires i < |sessions|
  {
    FirstInTheWay(sessions, local, gone, i) && refused == sessions[i] && left == Keep(sessions, Stale(sessions, i, local, gone))
  }

  lemma WayIsClear(sessions: seq<Session>, local: Root, gone: Gone)
    requires ClearBefore(sessions, local, gone, |sessions|)
    ensures forall s | s in Keep(sessions, Stale(sessions, |sessions|, local, gone)) :: !Overlaps(local, s.root)
  {
    forall s | s in Keep(sessions, Stale(sessions, |sessions|, local, gone)) ensures !Overlaps(local, s.root) {
      var i :| 0 <= i < |sessions| && sessions[i] == s;
      assert !Blocks(sessions[i], local, gone);
    }
  }

  lemma StaleStep(sessions: seq<Session>, local: Root, gone: Gone, i: nat)
    requires i < |sessions|
    ensures var s := sessions[i];
            Stale(sessions, i + 1, local, gone) ==
            if IsStale(s, local, gone) then Stale(sessions, i, local, gone) + {s} else Stale(sessions, i, local, gone)
  {}

  class SessionStore {
    var sessions: seq<Session>

    ghost predicate Valid()
      reads this
    {
      Apart(sessions)
    }

    constructor ()
      ensures sessions == [] && Valid()
    {
      sessions := [];
    }

    method Remove(id: string)
      requires Valid()
      modifies this
      ensures Valid() && sessions == Keep(old(sessions), OfId(old(sessions), id))
    {
      KeepIsApart(sessions, OfId(sessions, id));
      sessions := Keep(sessions, OfId(sessions, id));
    }

    /** Looks at one session: a live one in the way blocks, a stale one is removed. */
    method Examine(local: Root, other: Session, gone: Gone, ghost existing: seq<Session>, ghost before: set<Session>) returns (blocked: bool)
      requires Valid() && Apart(existing) && other in existing && sessions == Keep(existing, before)
      modifies this
      ensures Valid()
      ensures blocked <==> Blocks(other, local, gone)
      ensures sessions == Keep(existing, if IsStale(other, local, gone) then before + {other} else before)
    {
      if !Overlaps(local, other.root) { return false; }
      if !gone(other.sandbox) { return true; }
      Remove(other.id);
      OnlyThatOne(existing, before, other);
      blocked := false;
    }

    /** Refuses a root that overlaps a live session's; sessions in the way whose sandbox is gone are removed. */
    method CheckLocalRoot(local: Root, gone: Gone) returns (refused: Option<Session>)
      requires Valid()
      modifies this
      ensures Valid()
      ensures refused.None? ==> sessions == Keep(old(sessions), Stale(old(sessions), |old(sessions)|, local, gone))
      ensures refused.None? ==> forall s | s in sessions :: !Overlaps(local, s.root)
      ensures refused.Some? ==>
                exists i :: 0 <= i < |old(sessions)| && StoppedAt(old(sessions), local, gone, i, refused.value, sessions)
    {
      var existing := sessions;
      KeepAll(existing);
      assert Stale(existing, 0, local, gone) == {};
      for i := 0 to |existing|
        invariant Valid() && sessions == Keep(existing, Stale(existing, i, local, gone))
        invariant ClearBefore(existing, local, gone, i)
      {
        var other := existing[i];
        assert other in existing;
        StaleStep(existing, local, gone, i);
        var blocked := Examine(local, other, gone, existing, Stale(existing, i, local, gone));
        if blocked {
          assert StoppedAt(existing, local, gone, i, other, sessions);
          return Some(other);
        }
      }
      WayIsClear(existing, local, gone);
      refused := None;
    }

    /** Records a new session under a free name, if its root is free. */
    method Create(id: string, local: Root, sandbox: string, sandboxName: string, gone: Gone) returns (created: Option<Session>)
      requires Valid() && forall s | s in sessions :: s.id != id
      modifies this
      ensures Valid()
      ensures created.Some? <==> forall s | s in old(sessions) :: !Blocks(s, local, gone)
      ensures created.Some? ==>
                var kept := Keep(old(sessions), Stale(old(sessions), |old(sessions)|, local, gone));
                && created.value.id == id && created.value.root == local && created.value.sandbox == sandbox
                && IsName(Base(local) + "-" + sandboxName, set s | s in kept :: s.name, created.value.name)
                && sessions == kept + [created.value]
    {
      var refused := CheckLocalRoot(local, gone);
      if refused.Some? { return None; }
      var taken := set s | s in sessions :: s.name;
      var name := NameFor(local, sandboxName, taken);
      var session := Session(id, name, local, sandbox);
      AddIsApart(sessions, session);
      sessions := sessions + [session];
      created := Some(session);
    }
  }

  lemma OnlyThatOne(existing: seq<Session>, before: set<Session>, other: Session)
    requires Apart(existing) && other in existing
    ensures Keep(Keep(existing, before), OfId(Keep(existing, before), other.id)) == Keep(existing, before + {other})
  {
    var kept := Keep(existing, before);
    KeepTwice(existing, before, OfId(kept, other.id));
    KeepTwice(existing, before, {other});
    forall s | s in kept ensures s in OfId(kept, other.id) <==> s == other {
      if s.id == other.id { OneOfEachId(existing, s, other); }
    }
    KeepSame(kept, OfId(kept, other.id), {other});
  }

  lemma {:induction false} KeepSame(sessions: seq<Session>, a: set<Session>, b: set<Session>)
    requires forall s | s in sessions :: s in a <==> s in b
    ensures Keep(sessions, a) == Keep(sessions, b)
    decreases |sessions|
  {
    if sessions != [] {
      assert sessions[0] in sessions;
      KeepSame(sessions[1..], a, b);
    }
  }

  lemma AddIsApart(sessions: seq<Session>, s: Session)
    requires Apart(sessions)
    requires forall o | o in sessions :: !Overlaps(s.root, o.root) && o.name != s.name && o.id != s.id
    ensures Apart(sessions + [s])
  {
    forall i | 0 <= i < |sessions| ensures ApartFrom(sessions[i], s) {
      assert sessions[i] in sessions;
    }
  }

  /** No two sessions of a store write one directory, unless one of them is at the filesystem's root. */
  lemma RootsShareNothing(sessions: seq<Session>, i: nat, j: nat)
    requires Apart(sessions) && i < |sessions| && j < |sessions| && i != j
    requires ShareAPath(Components(sessions[i].root), Components(sessions[j].root))
    ensures Components(sessions[i].root) == [] <==> Components(sessions[j].root) != []
  {
    OverlapsExactly(sessions[i].root, sessions[j].root);
    assert ApartFrom(sessions[if i < j then i else j], sessions[if i < j then j else i]);
  }
}
