/** Bytes, paths, and the nested entry tree that reconciliation works on. */
module Entries {
  import opened Lists

  datatype Option<+T> = None | Some(value: T)

  newtype byte = x: int | 0 <= x < 256
  type Bytes = seq<byte>

  type Name = string
  type Path = seq<Name>

  /** The hex text of a content hash. */
  type Digest = string

  datatype Entry =
    | Directory(contents: map<Name, Entry>)
    | File(digest: Digest, executable: bool)
    | SymbolicLink(target: string)

  /** What an entry says about its own path, leaving its contents out. */
  datatype Meta =
    | DirectoryMeta
    | FileMeta(digest: Digest, executable: bool)
    | LinkMeta(target: string)

  function MetaOf(e: Entry): Meta {
    match e
    case Directory(_) => DirectoryMeta
    case File(d, x) => FileMeta(d, x)
    case SymbolicLink(t) => LinkMeta(t)
  }

  predicate SameKind(a: Meta, b: Meta) {
    (a.DirectoryMeta? && b.DirectoryMeta?) || (a.FileMeta? && b.FileMeta?) || (a.LinkMeta? && b.LinkMeta?)
  }

  function Contents(e: Option<Entry>): map<Name, Entry> {
    if e.Some? && e.value.Directory? then e.value.contents else map[]
  }

  function Child(e: Option<Entry>, name: Name): Option<Entry> {
    if name in Contents(e) then Some(Contents(e)[name]) else None
  }

  /** The subtree a path leads to. */
  function At(e: Option<Entry>, path: Path): Option<Entry>
    decreases |path|
  {
    if path == [] then e else At(Child(e, path[0]), path[1..])
  }

  function Shallow(e: Option<Entry>): Option<Meta> {
    if e.Some? then Some(MetaOf(e.value)) else None
  }

  /** What the tree holds at a path, contents left out. */
  function Look(e: Option<Entry>, path: Path): Option<Meta> {
    Shallow(At(e, path))
  }

  lemma LookStep(e: Option<Entry>, name: Name, path: Path)
    ensures At(e, [name] + path) == At(Child(e, name), path)
    ensures Look(e, [name] + path) == Look(Child(e, name), path)
  {
    assert ([name] + path)[1..] == path;
  }

  lemma {:induction false} AtNone(path: Path)
    ensures At(None, path) == None
    decreases |path|
  {
    if path != [] { AtNone(path[1..]); }
  }

  lemma {:induction false} AtJoin(e: Option<Entry>, p: Path, q: Path)
    ensures At(e, p + q) == At(At(e, p), q)
    decreases |p|
  {
    if p == [] {
      assert p + q == q;
    } else {
      assert (p + q)[1..] == p[1..] + q;
      AtJoin(Child(e, p[0]), p[1..], q);
    }
  }

  /** Whatever lies strictly above something is a directory. */
  lemma AboveIsDirectory(e: Option<Entry>, p: Path, q: Path)
    requires p < q && Look(e, q).Some?
    ensures Look(e, p) == Some(DirectoryMeta)
  {
    var r := q[|p|..];
    assert q == p + r;
    AtJoin(e, p, r);
    if !(At(e, p).Some? && At(e, p).value.Directory?) {
      AtNone(r[1..]);
    }
  }

  /** A tree is determined by what it holds at each path. */
  lemma SameTree(a: Option<Entry>, b: Option<Entry>)
    requires forall p :: Look(a, p) == Look(b, p)
    ensures a == b
  {
    assert Look(a, []) == Look(b, []);
    if a.Some? && b.Some? { SameEntry(a.value, b.value); }
  }

  lemma {:induction false} SameEntry(a: Entry, b: Entry)
    requires forall p :: Look(Some(a), p) == Look(Some(b), p)
    ensures a == b
    decreases a
  {
    assert Look(Some(a), []) == Look(Some(b), []);
    if a.Directory? {
      forall n ensures Shallow(Child(Some(a), n)) == Shallow(Child(Some(b), n)) {
        LookStep(Some(a), n, []);
        LookStep(Some(b), n, []);
        assert Look(Some(a), [n] + []) == Look(Some(b), [n] + []);
      }
      assert forall n :: n in a.contents <==> Shallow(Child(Some(a), n)).Some?;
      assert forall n :: n in b.contents <==> Shallow(Child(Some(b), n)).Some?;
      forall n | n in a.contents ensures n in b.contents && a.contents[n] == b.contents[n] {
        forall p ensures Look(Some(a.contents[n]), p) == Look(Some(b.contents[n]), p) {
          LookStep(Some(a), n, p);
          LookStep(Some(b), n, p);
          assert Look(Some(a), [n] + p) == Look(Some(b), [n] + p);
        }
        SameEntry(a.contents[n], b.contents[n]);
      }
      assert a.contents == b.contents;
    }
  }

  function Parent(p: Path): Path {
    if p == [] then [] else p[..|p| - 1]
  }

  lemma PrefixOfParent(q: Path, p: Path)
    requires p != []
    ensures q <= p <==> q == p || q <= Parent(p)
  {
    if q <= p && q != p { assert q == p[..|q|] == Parent(p)[..|q|]; }
  }

  lemma ChildPrefix(path: Path, n: Name, q: Path)
    ensures path + [n] <= q <==> path < q && q[|path|] == n
  {}

  predicate Comparable(p: Path, q: Path) { p <= q || q <= p }
}
