/** From a flat scan to the entry tree, and counting what the tree tracks. */
module Snapshot {
  import opened Lists
  import opened Entries
  import opened Changes
  import opened Merge
  import opened Execution

  datatype ScanKind = DirectoryKind | FileKind | SymlinkKind | UnsupportedKind

  /** One line of a scan. The path is split into its components, so it is never empty. */
  datatype Scanned = Scanned(path: Path, kind: ScanKind, digest: string, executable: bool, target: string)

  // ---- entries ---------------------------------------------------------------------------------

  function HexDigit(c: char): Option<char> {
    if c in "0123456789abcdef" then Some(c)
    else if 'A' <= c <= 'F' then Some("abcdef"[c as int - 'A' as int])
    else None
  }

  /** Decoding hex text and encoding the bytes again, as lower case; None for text that is not hex. */
  function Rehex(s: string): Option<Digest> {
    if s == [] then Some([])
    else if |s| == 1 then None
    else
      var a, b, rest := HexDigit(s[0]), HexDigit(s[1]), Rehex(s[2..]);
      if a.None? || b.None? || rest.None? then None else Some([a.value, b.value] + rest.value)
  }

  /** A character that stands for four bits. */
  predicate IsHex(c: char) {
    '0' <= c <= '9' || 'a' <= c <= 'f' || 'A' <= c <= 'F'
  }

  /** Hex text of whole bytes. */
  predicate HexText(s: string) {
    |s| % 2 == 0 && forall i | 0 <= i < |s| :: IsHex(s[i])
  }

  function Lower(c: char): char {
    if 'A' <= c <= 'Z' then (c as int + 32) as char else c
  }

  function Lowered(s: string): string {
    seq(|s|, i requires 0 <= i < |s| => Lower(s[i]))
  }

  lemma HexDigitIs(c: char)
    ensures HexDigit(c) == if IsHex(c) then Some(Lower(c)) else None
  {
    assert c in "0123456789abcdef" <==> '0' <= c <= '9' || 'a' <= c <= 'f';
    if 'A' <= c <= 'F' {
      var k := c as int - 'A' as int;
      assert "abcdef"[k] as int == 'a' as int + k;
    }
  }

  /** A digest is taken exactly when it is hex text, and then in lower case. */
  lemma {:induction false} RehexExactly(s: string)
    ensures Rehex(s) == if HexText(s) then Some(Lowered(s)) else None
    decreases |s|
  {
    if |s| > 1 {
      RehexExactly(s[2..]);
      HexDigitIs(s[0]);
      HexDigitIs(s[1]);
      HexTextStep(s);
      if HexText(s) { assert Lowered(s) == [Lower(s[0]), Lower(s[1])] + Lowered(s[2..]); }
    } else {
      assert s == [] ==> Lowered(s) == [];
    }
  }

  lemma HexTextStep(s: string)
    requires |s| > 1
    ensures HexText(s) <==> IsHex(s[0]) && IsHex(s[1]) && HexText(s[2..])
  {
    if IsHex(s[0]) && IsHex(s[1]) && HexText(s[2..]) {
      forall i | 0 <= i < |s| ensures IsHex(s[i]) {
        if i > 1 { assert s[i] == s[2..][i - 2]; }
      }
    }
  }

  function EntryFrom(s: Scanned): Option<Entry> {
    match s.kind
    case DirectoryKind => Some(Directory(map[]))
    case FileKind =>
      var digest := Rehex(s.digest);
      if digest.None? then None else Some(File(digest.value, s.executable))
    case SymlinkKind => Some(SymbolicLink(s.target))
    case UnsupportedKind => None
  }

  // ---- building the tree -------------------------------------------------------------------------

  function Join(p: Path): string {
    if p == [] then "" else if |p| == 1 then p[0] else p[0] + "/" + Join(p[1..])
  }

  /** A path is its names with a slash between each two. */
  lemma {:induction false} JoinConcat(p: Path, q: Path)
    requires p != [] && q != []
    ensures Join(p + q) == Join(p) + "/" + Join(q) && (|p| == 1 ==> Join(p) == p[0])
  {
    assert (p + q)[1..] == p[1..] + q;
    if |p| > 1 { JoinConcat(p[1..], q); } else { assert p[1..] + q == q; }
  }

  function ByPath(snapshot: seq<Scanned>): seq<Scanned> {
    Sort(snapshot, (a: Scanned, b: Scanned) => Leq(Join(a.path), Join(b.path)))
  }

  /** Puts an entry into a directory, synthesizing the directories on its way. */
  function Insert(parent: Entry, parts: Path, converted: Entry): Entry
    requires parts != []
    decreases |parts|
  {
    var contents := Contents(Some(parent));
    var name := parts[0];
    if |parts| == 1 then
      if name in contents && converted.Directory? then
        Directory(contents[name := Directory(Contents(Some(contents[name])))])
      else Directory(contents[name := converted])
    else
      var child := if name in contents && contents[name].Directory? then contents[name] else Directory(map[]);
      Directory(contents[name := Insert(child, parts[1..], converted)])
  }

  function InsertScanned(root: Entry, s: Scanned): Entry {
    var converted := EntryFrom(s);
    if converted.None? || s.path == [] then root else Insert(root, s.path, converted.value)
  }

  function InsertAll(root: Entry, ss: seq<Scanned>): Entry
    decreases |ss|
  {
    if ss == [] then root else InsertAll(InsertScanned(root, ss[0]), ss[1..])
  }

  function TreeOf(snapshot: seq<Scanned>): Entry {
    InsertAll(Directory(map[]), ByPath(snapshot))
  }

  method TreeFrom(snapshot: seq<Scanned>) returns (root: Entry)
    ensures root == TreeOf(snapshot)
  {
    root := Directory(map[]);
    var sorted := ByPath(snapshot);
    assert sorted[0..] == sorted;
    for i := 0 to |sorted|
      invariant InsertAll(root, sorted[i..]) == TreeOf(snapshot)
    {
      assert sorted[i..][0] == sorted[i] && sorted[i..][1..] == sorted[i + 1..];
      var converted := EntryFrom(sorted[i]);
      if converted.None? || sorted[i].path == [] { continue; }
      root := Insert(root, sorted[i].path, converted.value);
    }
  }

  // ---- what is built ------------------------------------------------------------------------------

  lemma {:induction false} InsertLook(parent: Entry, parts: Path, converted: Entry, q: Path)
    requires parts != [] && parent.Directory? && Contents(Some(converted)) == map[]
    requires forall p | p < parts && Look(Some(parent), p).Some? :: Look(Some(parent), p) == Some(DirectoryMeta)
    requires !converted.Directory? ==> forall p | parts < p :: Look(Some(parent), p).None?
    ensures Insert(parent, parts, converted).Directory?
    ensures Look(Some(Insert(parent, parts, converted)), q) ==
            if q < parts then Some(DirectoryMeta) else if q == parts then Some(MetaOf(converted)) else Look(Some(parent), q)
    decreases |parts|
  {
    var n := parts[0];
    var e, r := Some(parent), Some(Insert(parent, parts, converted));
    if q == [] {
      assert q < parts;
    } else if q[0] != n {
      assert !(q <= parts);
    } else if |parts| == 1 {
      assert q == [n] + q[1..] && parts == [n];
      LookStep(e, n, q[1..]);
      forall p | p != [] && !converted.Directory? ensures Look(Child(e, n), p).None? {
        LookStep(e, n, p);
        assert parts < [n] + p;
      }
      InsertLeafLook(parent, n, converted, q[1..]);
    } else {
      var child := if n in parent.contents && parent.contents[n].Directory? then parent.contents[n] else Directory(map[]);
      assert q == [n] + q[1..] && parts == [n] + parts[1..];
      ChildOnTheWay(parent, parts, child);
      forall p | parts[1..] < p && !converted.Directory? ensures Look(Some(child), p).None? {
        assert parts < [n] + p;
        assert Look(Some(child), p) == Look(e, [n] + p);
      }
      InsertLook(child, parts[1..], converted, q[1..]);
      assert q < parts <==> q[1..] < parts[1..];
      LookStep(e, n, q[1..]);
      assert Look(Some(child), q[1..]) == Look(e, [n] + q[1..]) || q[1..] == [];
    }
  }

  /** The child the way leads through holds what was below its name, or is fresh. */
  lemma ChildOnTheWay(parent: Entry, parts: Path, child: Entry)
    requires |parts| > 1 && parent.Directory?
    requires child == if parts[0] in parent.contents && parent.contents[parts[0]].Directory? then parent.contents[parts[0]] else Directory(map[])
    requires forall p | p < parts && Look(Some(parent), p).Some? :: Look(Some(parent), p) == Some(DirectoryMeta)
    ensures forall p | p != [] :: Look(Some(child), p) == Look(Some(parent), [parts[0]] + p)
    ensures forall p | p < parts[1..] && Look(Some(child), p).Some? :: Look(Some(child), p) == Some(DirectoryMeta)
  {
    var n := parts[0];
    assert [n] < parts;
    LookStep(Some(parent), n, []);
    assert [n] + [] == [n];
    forall p | p != [] ensures Look(Some(child), p) == Look(Some(parent), [n] + p) {
      LookStep(Some(parent), n, p);
      AtNone(p[1..]);
    }
    forall p | p < parts[1..] && Look(Some(child), p).Some? ensures Look(Some(child), p) == Some(DirectoryMeta) {
      assert parts == [n] + parts[1..];
      assert [n] + p < parts;
    }
  }

  lemma InsertLeafLook(parent: Entry, n: Name, converted: Entry, r: Path)
    requires parent.Directory? && Contents(Some(converted)) == map[]
    requires !converted.Directory? ==> forall p | p != [] :: Look(Child(Some(parent), n), p).None?
    ensures Look(Some(Insert(parent, [n], converted)), [n] + r) ==
            if r == [] then Some(MetaOf(converted)) else Look(Child(Some(parent), n), r)
  {
    LookStep(Some(Insert(parent, [n], converted)), n, r);
    if r != [] { AtNone(r[1..]); }
  }

  // ---- the round trip ---------------------------------------------------------------------------------

  /** A line that is part of the tree: a directory, a file whose digest is hex text, or a link; nothing else is. */
  predicate Supported(s: Scanned) {
    s.path != [] && (s.kind.DirectoryKind? || (s.kind.FileKind? && HexText(s.digest)) || s.kind.SymlinkKind?)
  }

  /** What such a line says is at its path. */
  function Said(s: Scanned): Meta
    requires Supported(s)
  {
    if s.kind.DirectoryKind? then DirectoryMeta
    else if s.kind.FileKind? then FileMeta(Lowered(s.digest), s.executable)
    else LinkMeta(s.target)
  }

  /** A line becomes an entry exactly when it is part of the tree, and then the one it says. */
  lemma EntrySaid(s: Scanned)
    ensures Supported(s) <==> EntryFrom(s).Some? && s.path != []
    ensures Supported(s) ==> MetaOf(EntryFrom(s).value) == Said(s) && Contents(EntryFrom(s)) == map[]
  {
    RehexExactly(s.digest);
  }

  /** Every supported line tells what is at its path, and every path is listed or lies above a listed one. */
  ghost predicate Describes(snapshot: seq<Scanned>, w: Wanted) {
    && (forall s | s in snapshot && Supported(s) :: w(s.path) == Some(Said(s)))
    && (forall p | p != [] && w(p).Some? :: Mentioned(snapshot, p))
  }

  ghost predicate Mentioned(ss: seq<Scanned>, p: Path) {
    exists s :: s in ss && Supported(s) && p <= s.path
  }

  /** The tree holds nothing but what is described. */
  ghost predicate Honest(root: Entry, w: Wanted) {
    root.Directory? && forall p :: Look(Some(root), p).Some? ==> Look(Some(root), p) == w(p)
  }

  lemma InsertHonest(root: Entry, s: Scanned, w: Wanted)
    requires Honest(root, w) && Closed(w)
    requires Supported(s) ==> w(s.path) == Some(Said(s))
    ensures var r := InsertScanned(root, s);
            && Honest(r, w)
            && forall p :: Look(Some(r), p).Some? <==> Look(Some(root), p).Some? || (Supported(s) && p <= s.path)
  {
    EntrySaid(s);
    if Supported(s) {
      var converted := EntryFrom(s).value;
      var r := InsertScanned(root, s);
      forall p | p < s.path ensures w(p) == Some(DirectoryMeta) {
        ClosedAbove(w, p, s.path);
      }
      forall p | s.path < p && !converted.Directory? ensures Look(Some(root), p).None? {
        if w(p).Some? { ClosedAbove(w, s.path, p); }
      }
      forall p
        ensures r.Directory?
        ensures Look(Some(r), p).Some? <==> Look(Some(root), p).Some? || p <= s.path
        ensures Look(Some(r), p).Some? ==> Look(Some(r), p) == w(p)
      {
        InsertLook(root, s.path, converted, p);
      }
    }
  }

  lemma {:induction false} InsertAllHonest(root: Entry, ss: seq<Scanned>, w: Wanted)
    requires Honest(root, w) && Closed(w)
    requires forall s | s in ss && Supported(s) :: w(s.path) == Some(Said(s))
    ensures var r := InsertAll(root, ss);
            && Honest(r, w)
            && forall p :: Look(Some(r), p).Some? <==> Look(Some(root), p).Some? || Mentioned(ss, p)
    decreases |ss|
  {
    if ss != [] {
      assert ss[0] in ss;
      InsertHonest(root, ss[0], w);
      InsertAllHonest(InsertScanned(root, ss[0]), ss[1..], w);
      forall p ensures Mentioned(ss, p) <==> (Supported(ss[0]) && p <= ss[0].path) || Mentioned(ss[1..], p) {
        if s :| s in ss && Supported(s) && p <= s.path { assert s == ss[0] || s in ss[1..]; }
        if s :| s in ss[1..] && Supported(s) && p <= s.path { assert s in ss; }
      }
    }
  }

  /**
   * Building the tree from a scan gives exactly what was scanned, in whatever order the lines come,
   * however often each occurs, and with any directory lines missing that still have a descendant listed.
   */
  lemma TreeOfDescribed(snapshot: seq<Scanned>, w: Wanted)
    requires Closed(w) && Describes(snapshot, w)
    ensures TreeOf(snapshot).Directory?
    ensures forall p :: Look(Some(TreeOf(snapshot)), p) == w(p)
  {
    var sorted := ByPath(snapshot);
    SameElements(sorted, snapshot);
    var empty := Directory(map[]);
    forall p | Look(Some(empty), p).Some? ensures p == [] {
      if p != [] { AtNone(p[1..]); }
    }
    InsertAllHonest(empty, sorted, w);
    forall p ensures Look(Some(TreeOf(snapshot)), p) == w(p) {
      if p == [] {
        assert Look(Some(empty), p).Some?;
      } else if w(p).Some? {
        var s :| s in snapshot && Supported(s) && p <= s.path;
        assert s in sorted;
        assert Mentioned(sorted, p);
      }
    }
  }

  // ---- lines that are no part of the tree ----------------------------------------------------------------

  lemma {:induction false} FilteredInsert(x: Scanned, s: seq<Scanned>, le: (Scanned, Scanned) -> bool, keep: Scanned -> bool)
    requires TotalPreorder(le) && SortedBy(s, le)
    ensures Filter(Lists.Insert(x, s, le), keep) ==
            if keep(x) then Lists.Insert(x, Filter(s, keep), le) else Filter(s, keep)
  {
    if s == [] || le(x, s[0]) {
      var all := [x] + s;
      assert all[1..] == s;
      var kept := Filter(s, keep);
      if kept != [] {
        assert kept[0] in kept;
        var i :| 0 <= i < |s| && s[i] == kept[0];
        assert i == 0 || le(s[0], s[i]);
      }
    } else {
      FilteredInsert(x, s[1..], le, keep);
      var all := Lists.Insert(x, s, le);
      assert all[1..] == Lists.Insert(x, s[1..], le);
      if keep(s[0]) {
        var kept := Filter(s, keep);
        assert kept[0] == s[0] && kept[1..] == Filter(s[1..], keep);
      } else if keep(x) {
        assert Filter(s, keep) == Filter(s[1..], keep);
      }
    }
  }

  lemma {:induction false} FilteredSort(s: seq<Scanned>, le: (Scanned, Scanned) -> bool, keep: Scanned -> bool)
    requires TotalPreorder(le)
    ensures Filter(Sort(s, le), keep) == Sort(Filter(s, keep), le)
  {
    if s != [] {
      SortSorted(s[1..], le);
      FilteredSort(s[1..], le, keep);
      FilteredInsert(s[0], Sort(s[1..], le), le, keep);
      if keep(s[0]) {
        var kept := Filter(s, keep);
        assert kept[0] == s[0] && kept[1..] == Filter(s[1..], keep);
      }
    }
  }

  /** Insertion passes over them. */
  lemma {:induction false} InsertAllSupported(root: Entry, ss: seq<Scanned>)
    ensures InsertAll(root, ss) == InsertAll(root, Filter(ss, Supported))
    decreases |ss|
  {
    if ss != [] {
      EntrySaid(ss[0]);
      InsertAllSupported(InsertScanned(root, ss[0]), ss[1..]);
      if Supported(ss[0]) {
        var kept := Filter(ss, Supported);
        assert kept[0] == ss[0] && kept[1..] == Filter(ss[1..], Supported);
      }
    }
  }

  /** The tree is built of the lines that are part of it, as if there were no others. */
  lemma OnlySupportedBuild(snapshot: seq<Scanned>)
    ensures TreeOf(snapshot) == TreeOf(Filter(snapshot, Supported))
  {
    var le := (a: Scanned, b: Scanned) => Leq(Join(a.path), Join(b.path));
    forall x, y ensures le(x, y) || le(y, x) { LeqTotal(Join(x.path), Join(y.path)); }
    forall x, y, z | le(x, y) && le(y, z) ensures le(x, z) { LeqTransitive(Join(x.path), Join(y.path), Join(z.path)); }
    FilteredSort(snapshot, le, Supported);
    InsertAllSupported(Directory(map[]), ByPath(snapshot));
    InsertAllSupported(Directory(map[]), ByPath(Filter(snapshot, Supported)));
    FilterTwice(Sort(snapshot, le));
  }

  lemma {:induction false} FilterTwice(ss: seq<Scanned>)
    ensures Filter(Filter(ss, Supported), Supported) == Filter(ss, Supported)
  {
    if ss != [] {
      FilterTwice(ss[1..]);
      if Supported(ss[0]) {
        var kept := Filter(ss, Supported);
        assert kept[0] == ss[0] && kept[1..] == Filter(ss[1..], Supported);
      }
    }
  }

  lemma {:induction false} FilterConcat(a: seq<Scanned>, b: seq<Scanned>)
    ensures Filter(a + b, Supported) == Filter(a, Supported) + Filter(b, Supported)
  {
    if a == [] {
      assert a + b == b;
    } else {
      assert (a + b)[1..] == a[1..] + b;
      FilterConcat(a[1..], b);
    }
  }

  /** A socket, or a file whose digest is not hex text, anywhere in a scan changes nothing. */
  lemma UnsupportedIsLeftOut(a: seq<Scanned>, s: Scanned, b: seq<Scanned>)
    requires !Supported(s)
    ensures TreeOf(a + [s] + b) == TreeOf(a + b)
  {
    OnlySupportedBuild(a + [s] + b);
    OnlySupportedBuild(a + b);
    FilteredAway(a, s, b);
  }

  lemma FilteredAway(a: seq<Scanned>, s: Scanned, b: seq<Scanned>)
    requires !Supported(s)
    ensures Filter(a + [s] + b, Supported) == Filter(a + b, Supported)
  {
    FilterConcat(a + [s], b);
    FilterConcat(a, [s]);
    FilterConcat(a, b);
    assert [s][1..] == [] && Filter([s], Supported) == Filter([], Supported);
    assert Filter(a, Supported) + [] == Filter(a, Supported);
  }

  ghost function Shape(t: Entry): Wanted {
    p => Look(Some(t), p)
  }

  lemma ShapeClosed(t: Entry)
    requires t.Directory?
    ensures Closed(Shape(t))
  {
    forall p | p != [] && Shape(t)(p).Some? ensures Shape(t)(Parent(p)) == Some(DirectoryMeta) {
      AboveIsDirectory(Some(t), Parent(p), p);
    }
  }

  lemma SnapshotRoundTrip(snapshot: seq<Scanned>, t: Entry)
    requires t.Directory? && Describes(snapshot, Shape(t))
    ensures TreeOf(snapshot) == t
  {
    ShapeClosed(t);
    TreeOfDescribed(snapshot, Shape(t));
    SameTree(Some(TreeOf(snapshot)), Some(t));
  }

  // ---- counting ---------------------------------------------------------------------------------------

  function CountOf(e: Option<Entry>): nat {
    if e.None? then 0 else CountIn(e.value)
  }

  function CountIn(e: Entry): nat
    decreases e, 1, 0
  {
    if e.Directory? then CountAmong(e, SortedNames(e.contents.Keys)) else 0
  }

  function CountAmong(e: Entry, names: seq<Name>): nat
    requires e.Directory? && forall n | n in names :: n in e.contents
    decreases e, 0, |names|
  {
    if names == [] then 0 else 1 + CountIn(e.contents[names[0]]) + CountAmong(e, names[1..])
  }

  method CountEntries(e: Option<Entry>) returns (count: nat)
    ensures count == CountOf(e)
    decreases HeightOf(e)
  {
    count := 0;
    if e.None? || !e.value.Directory? { return; }
    var names := SortedNames(e.value.contents.Keys);
    assert names[0..] == names;
    for i := 0 to |names|
      invariant CountOf(e) == count + CountAmong(e.value, names[i..])
    {
      assert names[i..][0] == names[i] && names[i..][1..] == names[i + 1..];
      ChildIsLower(e, names[i]);
      var below := CountEntries(Child(e, names[i]));
      count := count + 1 + below;
    }
  }

  /** Every path below `base`, in scan order. */
  function Listing(base: Path, e: Entry): (r: seq<Path>)
    ensures |r| == CountIn(e)
    decreases e, 1, 0
  {
    if e.Directory? then ListingAmong(base, e, SortedNames(e.contents.Keys)) else []
  }

  function ListingAmong(base: Path, e: Entry, names: seq<Name>): (r: seq<Path>)
    requires e.Directory? && forall n | n in names :: n in e.contents
    ensures |r| == CountAmong(e, names)
    decreases e, 0, |names|
  {
    if names == [] then []
    else [base + [names[0]]] + Listing(base + [names[0]], e.contents[names[0]]) + ListingAmong(base, e, names[1..])
  }

  lemma LookBelow(base: Path, e: Entry, q: Path)
    requires base < q
    ensures Look(Some(e), q[|base|..]) == Look(Child(Some(e), q[|base|]), q[|base| + 1..])
    ensures !e.Directory? ==> Look(Some(e), q[|base|..]).None?
  {
    assert q[|base|..] == [q[|base|]] + q[|base| + 1..];
    LookStep(Some(e), q[|base|], q[|base| + 1..]);
    AtNone(q[|base| + 1..]);
  }

  lemma {:induction false} ListingMembers(base: Path, e: Entry, q: Path)
    ensures q in Listing(base, e) <==> base < q && Look(Some(e), q[|base|..]).Some?
    decreases e, 1, 0
  {
    if base < q { LookBelow(base, e, q); }
    if e.Directory? {
      var names := SortedNames(e.contents.Keys);
      ListingAmongMembers(base, e, names, q);
      if base < q && q[|base|] !in names { AtNone(q[|base| + 1..]); }
    }
  }

  lemma {:induction false} ListingAmongMembers(base: Path, e: Entry, names: seq<Name>, q: Path)
    requires e.Directory? && forall n | n in names :: n in e.contents
    ensures q in ListingAmong(base, e, names) <==>
            base < q && q[|base|] in names && Look(Child(Some(e), q[|base|]), q[|base| + 1..]).Some?
    decreases e, 0, |names|
  {
    if names != [] {
      var n := names[0];
      var b := base + [n];
      ListingMembers(b, e.contents[n], q);
      ListingAmongMembers(base, e, names[1..], q);
      ChildPrefix(base, n, q);
      if b <= q { assert q == b <==> q[|base| + 1..] == []; }
    }
  }

  lemma {:induction false} ListingNoRepeats(base: Path, e: Entry)
    ensures NoRepeats(Listing(base, e))
    decreases e, 1, 0
  {
    if e.Directory? { ListingAmongNoRepeats(base, e, SortedNames(e.contents.Keys)); }
  }

  lemma {:induction false} ListingAmongNoRepeats(base: Path, e: Entry, names: seq<Name>)
    requires e.Directory? && (forall n | n in names :: n in e.contents) && NoRepeats(names)
    ensures NoRepeats(ListingAmong(base, e, names))
    decreases e, 0, |names|
  {
    if names != [] {
      var n := names[0];
      var own, below, rest := [base + [n]], Listing(base + [n], e.contents[n]), ListingAmong(base, e, names[1..]);
      ListingNoRepeats(base + [n], e.contents[n]);
      ListingAmongNoRepeats(base, e, names[1..]);
      ListingMembers(base + [n], e.contents[n], base + [n]);
      NoRepeatsConcat(own, below);
      forall q | q in own + below ensures q !in rest {
        ListingMembers(base + [n], e.contents[n], q);
        ListingAmongMembers(base, e, names[1..], q);
        ChildPrefix(base, n, q);
      }
      NoRepeatsConcat(own + below, rest);
      assert own + below + rest == ListingAmong(base, e, names);
    }
  }

  /** The paths a tree tracks, its root aside. */
  ghost function Tracked(t: Entry): (r: set<Path>)
    ensures forall p :: p in r <==> p != [] && Look(Some(t), p).Some?
  {
    var l := Listing([], t);
    assert forall p :: p in l <==> p != [] && Look(Some(t), p).Some? by {
      forall p ensures p in l <==> p != [] && Look(Some(t), p).Some? {
        ListingMembers([], t, p);
        assert p[0..] == p;
      }
    }
    set p | p in l
  }

  lemma {:induction false} DistinctCount<T>(s: seq<T>)
    requires NoRepeats(s)
    ensures |set x | x in s| == |s|
  {
    if s != [] {
      var t := s[1..];
      assert forall i | 0 <= i < |t| :: t[i] == s[i + 1];
      DistinctCount(t);
      assert s[0] !in t;
      assert (set x | x in s) == {s[0]} + set x | x in t;
    }
  }

  /** The count is the number of paths the tree holds. */
  lemma CountIsTracked(t: Entry)
    ensures CountOf(Some(t)) == |Tracked(t)|
  {
    var l := Listing([], t);
    ListingNoRepeats([], t);
    DistinctCount(l);
    forall p ensures p in l <==> p in Tracked(t) {
      ListingMembers([], t, p);
      assert p[0..] == p;
    }
    assert Tracked(t) == set p | p in l;
  }

  /** For a scan of `t` without repeats that leaves nothing out, the count is the number of lines. */
  lemma CountOfSnapshot(snapshot: seq<Scanned>, t: Entry)
    requires t.Directory? && Describes(snapshot, Shape(t))
    requires forall s | s in snapshot :: Supported(s)
    requires forall i, j | 0 <= i < j < |snapshot| :: snapshot[i].path != snapshot[j].path
    requires forall p | p != [] && Look(Some(t), p).Some? :: exists s :: s in snapshot && s.path == p
    ensures CountOf(Some(TreeOf(snapshot))) == |snapshot|
  {
    SnapshotRoundTrip(snapshot, t);
    CountIsTracked(t);
    var ps := PathsOf(snapshot);
    ScannedIsTracked(snapshot, t, ps);
  }

  lemma PathsOf(snapshot: seq<Scanned>) returns (ps: seq<Path>)
    requires forall i, j | 0 <= i < j < |snapshot| :: snapshot[i].path != snapshot[j].path
    ensures |ps| == |snapshot| && (forall i | 0 <= i < |ps| :: ps[i] == snapshot[i].path) && |set p | p in ps| == |ps|
  {
    ps := seq(|snapshot|, i requires 0 <= i < |snapshot| => snapshot[i].path);
    DistinctCount(ps);
  }

  lemma ScannedIsTracked(snapshot: seq<Scanned>, t: Entry, ps: seq<Path>)
    requires |ps| == |snapshot| && forall i | 0 <= i < |ps| :: ps[i] == snapshot[i].path
    requires forall s | s in snapshot :: s.path != [] && Look(Some(t), s.path).Some?
    requires forall p | p != [] && Look(Some(t), p).Some? :: exists s :: s in snapshot && s.path == p
    ensures Tracked(t) == set p | p in ps
  {
    forall p ensures p in ps <==> p in Tracked(t) {
      if p in ps {
        var i :| 0 <= i < |ps| && ps[i] == p;
        assert snapshot[i] in snapshot;
      }
      if p in Tracked(t) {
        var s :| s in snapshot && s.path == p;
        var i :| 0 <= i < |snapshot| && snapshot[i] == s;
        assert ps[i] == p;
      }
    }
  }
}
