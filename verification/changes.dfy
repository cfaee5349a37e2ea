/** The per-path operations a transition carries. */
module Changes {
  import opened Entries

  datatype ChangeKind =
    | Remove
    | CreateDirectory
    | CreateFile(digest: Digest, executable: bool)
    | CreateSymlink(target: string)
    | SetExecutable(executable: bool)
    | Unspecified

  datatype Change = Change(path: Path, kind: ChangeKind)

  /** One change of the reconciler: the subtree at `path` goes from `before` to `after`. */
  datatype TreeChange = TreeChange(path: Path, before: Option<Entry>, after: Option<Entry>)

  /** No change's path lies at or below another's. */
  ghost predicate NonNested(cs: seq<TreeChange>) {
    forall i, j | 0 <= i < j < |cs| :: !Comparable(cs[i].path, cs[j].path)
  }

  ghost predicate NoRepeats<T>(s: seq<T>) {
    forall i, j | 0 <= i < j < |s| :: s[i] != s[j]
  }

  lemma NoRepeatsConcat<T>(a: seq<T>, b: seq<T>)
    requires NoRepeats(a) && NoRepeats(b)
    requires forall x :: x in a ==> x !in b
    ensures NoRepeats(a + b)
  {
    forall i, j | 0 <= i < j < |a + b| ensures (a + b)[i] != (a + b)[j] {
      if i < |a| <= j {
        assert a[i] in a && b[j - |a|] in b;
      }
    }
  }

  lemma {:induction false} NoRepeatsCount<T>(s: seq<T>, x: T)
    requires NoRepeats(s)
    ensures multiset(s)[x] <= 1
  {
    if s != [] {
      var t := s[1..];
      assert s == [s[0]] + t;
      assert forall i | 0 <= i < |t| :: t[i] == s[i + 1];
      NoRepeatsCount(t, x);
      assert s[0] !in t;
      assert s[0] !in multiset(t);
    }
  }

  /** A rearrangement of a list without repeats has none either. */
  lemma NoRepeatsPermutes<T>(s: seq<T>, t: seq<T>)
    requires NoRepeats(s) && multiset(s) == multiset(t)
    ensures NoRepeats(t)
  {
    forall i, j | 0 <= i < j < |t| ensures t[i] != t[j] {
      NoRepeatsCount(s, t[i]);
      var u, v := t[..j], t[j..];
      assert t == u + v;
      assert u[i] in multiset(u) && v[0] in multiset(v);
      assert multiset(t)[t[j]] == multiset(u)[t[j]] + multiset(v)[t[j]];
    }
  }

  lemma PrefixesCompare(p: Path, q: Path, r: Path)
    requires p <= r && q <= r
    ensures Comparable(p, q)
  {}
}
