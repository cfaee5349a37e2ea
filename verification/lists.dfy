/** Stable sorting and string order: what Go's `sort` package supplies. */
module Lists {

  /** The lexicographic order Go uses to compare strings. */
  predicate Leq(a: string, b: string) {
    a == [] || (b != [] && (a[0] < b[0] || (a[0] == b[0] && Leq(a[1..], b[1..]))))
  }

  /** One string comes first when it is the other's beginning, or smaller where they first differ. */
  ghost predicate ComesFirst(a: string, b: string, k: nat) {
    k <= |a| && k <= |b| && a[..k] == b[..k] && (k == |a| || (k < |b| && a[k] < b[k]))
  }

  lemma NothingInCommon(a: string, b: string, k: nat)
    requires a != [] && b != [] && k <= |a| && k <= |b| && a[..k] == b[..k]
    ensures k == 0 || a[0] == b[0]
  {
    if k > 0 { assert a[..k][0] == a[0] && b[..k][0] == b[0]; }
  }

  lemma {:induction false} LeqExactly(a: string, b: string)
    ensures Leq(a, b) <==> exists k :: ComesFirst(a, b, k)
  {
    if a == [] {
      assert ComesFirst(a, b, 0);
    } else if b != [] && a[0] == b[0] {
      LeqExactly(a[1..], b[1..]);
      if k: nat :| ComesFirst(a[1..], b[1..], k) {
        assert a[..k + 1] == [a[0]] + a[1..][..k] && b[..k + 1] == [b[0]] + b[1..][..k];
        assert ComesFirst(a, b, k + 1);
      }
      if k: nat :| ComesFirst(a, b, k) {
        if k > 0 {
          assert a[1..][..k - 1] == a[..k][1..] && b[1..][..k - 1] == b[..k][1..];
          assert ComesFirst(a[1..], b[1..], k - 1);
        }
      }
    } else if b != [] {
      forall k: nat | ComesFirst(a, b, k) ensures k == 0 { NothingInCommon(a, b, k); }
      if a[0] < b[0] { assert ComesFirst(a, b, 0); }
    }
  }

  lemma {:induction false} LeqTotal(a: string, b: string)
    ensures Leq(a, b) || Leq(b, a)
    ensures Leq(a, b) && Leq(b, a) ==> a == b
  {
    if a != [] && b != [] && a[0] == b[0] {
      LeqTotal(a[1..], b[1..]);
      assert a == [a[0]] + a[1..] && b == [b[0]] + b[1..];
    }
  }

  lemma {:induction false} LeqTransitive(a: string, b: string, c: string)
    requires Leq(a, b) && Leq(b, c)
    ensures Leq(a, c)
  {
    if a != [] && a[0] == b[0] && b[0] == c[0] {
      LeqTransitive(a[1..], b[1..], c[1..]);
    }
  }

  predicate IsLeast(s: set<string>, m: string) {
    m in s && forall n | n in s :: Leq(m, n)
  }

  lemma {:induction false} LeastExists(s: set<string>) returns (m: string)
    requires s != {}
    ensures IsLeast(s, m)
  {
    var x :| x in s;
    LeqTotal(x, x);
    m := x;
    if s != {x} {
      var least := LeastExists(s - {x});
      LeqTotal(x, least);
      if Leq(x, least) {
        forall n | n in s && n != x ensures Leq(x, n) { LeqTransitive(x, least, n); }
      } else {
        m := least;
      }
    }
  }

  lemma LeastUnique(s: set<string>)
    ensures forall m, k | IsLeast(s, m) && IsLeast(s, k) :: m == k
  {
    forall m, k | IsLeast(s, m) && IsLeast(s, k) ensures m == k { LeqTotal(m, k); }
  }

  /** The first name in order. */
  function Least(s: set<string>): (m: string)
    requires s != {}
    ensures IsLeast(s, m)
  {
    LeastUnique(s);
    assert exists m :: IsLeast(s, m) by { var m := LeastExists(s); }
    var m :| m in s && IsLeast(s, m);
    m
  }

  /** The elements of a set of names in ascending order, each once. */
  function SortedNames(s: set<string>): (r: seq<string>)
    ensures forall n :: n in r <==> n in s
    ensures |r| == |s|
    ensures forall i, j | 0 <= i < j < |r| :: r[i] != r[j] && Leq(r[i], r[j])
  {
    if s == {} then []
    else
      var m := Least(s);
      var rest := SortedNames(s - {m});
      assert forall j | 0 <= j < |rest| :: rest[j] in s - {m};
      [m] + rest
  }

  // ---- a stable sort by a total preorder -----------------------------------

  ghost predicate TotalPreorder<T(!new)>(le: (T, T) -> bool) {
    && (forall x, y :: le(x, y) || le(y, x))
    && (forall x, y, z :: le(x, y) && le(y, z) ==> le(x, z))
  }

  ghost predicate SortedBy<T>(s: seq<T>, le: (T, T) -> bool) {
    forall i, j | 0 <= i < j < |s| :: le(s[i], s[j])
  }

  /** Puts `x` before everything it does not have to follow. */
  function Insert<T>(x: T, s: seq<T>, le: (T, T) -> bool): (r: seq<T>)
    ensures multiset(r) == multiset{x} + multiset(s)
  {
    if s == [] || le(x, s[0]) then [x] + s
    else
      assert s == [s[0]] + s[1..];
      [s[0]] + Insert(x, s[1..], le)
  }

  /** The stable sorted permutation of `s`. */
  function Sort<T>(s: seq<T>, le: (T, T) -> bool): (r: seq<T>)
    ensures multiset(r) == multiset(s)
  {
    if s == [] then []
    else
      assert s == [s[0]] + s[1..];
      Insert(s[0], Sort(s[1..], le), le)
  }

  lemma {:induction false} InsertSorted<T(!new)>(x: T, s: seq<T>, le: (T, T) -> bool)
    requires TotalPreorder(le) && SortedBy(s, le)
    ensures SortedBy(Insert(x, s, le), le)
  {
    if s == [] {
    } else if le(x, s[0]) {
      forall j | 0 <= j < |s| ensures le(x, s[j]) {
        if j > 0 { assert le(s[0], s[j]); }
      }
    } else {
      var t := Insert(x, s[1..], le);
      InsertSorted(x, s[1..], le);
      forall j | 0 <= j < |t| ensures le(s[0], t[j]) {
        assert t[j] in multiset(t);
        assert t[j] == x || t[j] in s[1..];
      }
    }
  }

  lemma {:induction false} SortSorted<T(!new)>(s: seq<T>, le: (T, T) -> bool)
    requires TotalPreorder(le)
    ensures SortedBy(Sort(s, le), le)
  {
    if s != [] {
      SortSorted(s[1..], le);
      InsertSorted(s[0], Sort(s[1..], le), le);
    }
  }

  function Filter<T(!new)>(s: seq<T>, keep: T -> bool): (r: seq<T>)
    ensures forall x :: x in r <==> x in s && keep(x)
  {
    if s == [] then []
    else if keep(s[0]) then [s[0]] + Filter(s[1..], keep)
    else Filter(s[1..], keep)
  }

  lemma {:induction false} InsertKeepsOrder<T(!new)>(x: T, s: seq<T>, le: (T, T) -> bool, tie: T -> bool)
    requires forall y | tie(x) && tie(y) :: le(x, y)
    ensures Filter(Insert(x, s, le), tie) == Filter([x] + s, tie)
  {
    assert ([x] + s)[1..] == s;
    if s != [] && !le(x, s[0]) {
      InsertKeepsOrder(x, s[1..], le, tie);
      assert ([x] + s[1..])[1..] == s[1..];
      var r := Insert(x, s, le);
      assert r[1..] == Insert(x, s[1..], le);
    }
  }

  /** Stability: elements that tie keep the order they came in. */
  lemma {:induction false} SortStable<T(!new)>(s: seq<T>, le: (T, T) -> bool, tie: T -> bool)
    requires forall x, y | tie(x) && tie(y) :: le(x, y)
    ensures Filter(Sort(s, le), tie) == Filter(s, tie)
  {
    if s != [] {
      var rest := Sort(s[1..], le);
      SortStable(s[1..], le, tie);
      InsertKeepsOrder(s[0], rest, le, tie);
      assert ([s[0]] + rest)[1..] == rest;
    }
  }

  lemma SameElements<T>(a: seq<T>, b: seq<T>)
    requires multiset(a) == multiset(b)
    ensures forall x :: x in a <==> x in b
    ensures |a| == |b|
  {
    forall x ensures x in a <==> x in b {
      assert x in a <==> x in multiset(a);
      assert x in b <==> x in multiset(b);
    }
    assert |multiset(a)| == |a| && |multiset(b)| == |b|;
  }

  lemma AppendAssoc<T>(a: seq<T>, b: seq<T>, c: seq<T>)
    ensures a + b + c == a + (b + c)
  {}

  lemma NothingBefore<T>(s: seq<T>)
    ensures [] + s == s
  {}
}
