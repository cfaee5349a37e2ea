/** The staging directory: uploads under temporary names, whole content under its digest. */
module Staging {
  import opened Entries
  import opened Changes
  import opened Tree
  import opened Execution
  import opened Snapshot
  import opened Pass

  /** Names given to content still being received. */
  predicate IsTemp(name: string) {
    ".incoming-" <= name
  }

  type Files = map<string, Bytes>

  /** Every file under a digest name hashes to that name. */
  ghost predicate Sound(hash: Hash, dir: Files) {
    forall n | n in dir && !IsTemp(n) :: hash(dir[n]) == n
  }

  /** The content a transition can use. */
  function Complete(dir: Files): map<Digest, Bytes> {
    map n | n in dir && !IsTemp(n) :: dir[n]
  }

  lemma SoundIsGenuine(hash: Hash, dir: Files)
    ensures Sound(hash, dir) <==> Genuine(hash, Complete(dir))
  {
    if Genuine(hash, Complete(dir)) {
      forall n | n in dir && !IsTemp(n) ensures hash(dir[n]) == n {
        assert n in Complete(dir);
      }
    }
  }

  lemma HexHead(s: string)
    requires HexText(s)
    ensures !IsTemp(s)
  {
    if s != [] { assert IsHex(s[0]); }
  }

  lemma HashIsNotTemp(hash: Hash, b: Bytes)
    requires PrintsHex(hash)
    ensures !IsTemp(hash(b))
  {
    HexHead(hash(b));
  }

  // ---- one upload, from start to end ---------------------------------------------------------------

  datatype PutResult = Stored(digest: Digest) | TooLarge

  /** What an upload answers: the digest of what arrived, or that it was too large. */
  function PutAnswer(hash: Hash, src: Bytes, limit: int): PutResult {
    if limit >= 0 && |src| > limit then TooLarge else Stored(hash(src))
  }

  lemma TempGone(dir: Files, temp: string, content: Bytes)
    requires temp !in dir
    ensures dir[temp := content] - {temp} == dir
  {}

  lemma TempNamed(dir: Files, temp: string, digest: Digest, content: Bytes)
    requires temp !in dir
    ensures temp != digest ==> dir[temp := content][digest := content] - {temp} == dir[digest := content]
  {}

  class StagingArea {
    var dir: Files

    /**
     * Receives `src` piece by piece into a temporary file and gives it its digest as a name only if
     * it is whole and what was promised. One byte over the limit is read, and no more.
     */
    method Put(hash: Hash, temp: string, digest: Digest, src: Bytes, limit: int) returns (result: PutResult, consumed: nat)
      requires IsTemp(temp) && temp !in dir && PrintsHex(hash)
      modifies this
      ensures result == PutAnswer(hash, src, limit)
      ensures dir == if result == Stored(digest) then old(dir)[digest := src] else old(dir)
      ensures consumed == if result.TooLarge? then limit + 1 else |src|
    {
      dir := dir[temp := []];
      consumed := 0;
      while consumed < |src| && (limit < 0 || consumed < limit + 1)
        invariant consumed <= |src| && (limit >= 0 ==> consumed <= limit + 1)
        invariant dir == old(dir)[temp := src[..consumed]]
        decreases |src| - consumed
      {
        var n :| 0 < n <= |src| - consumed && (limit >= 0 ==> consumed + n <= limit + 1);
        assert src[..consumed] + src[consumed..consumed + n] == src[..consumed + n];
        dir := dir[temp := dir[temp] + src[consumed..consumed + n]];
        consumed := consumed + n;
      }
      TempGone(old(dir), temp, src[..consumed]);
      if limit >= 0 && consumed > limit {
        dir := dir - {temp};
        result := TooLarge;
      } else {
        result := Settle(hash, temp, digest);
        assert src[..consumed] == src;
        HashIsNotTemp(hash, src);
        TempNamed(old(dir), temp, digest, src);
      }
    }

    /** Renames a whole temporary file to its digest if that is what was promised; it is gone either way. */
    method Settle(hash: Hash, temp: string, digest: Digest) returns (result: PutResult)
      requires temp in dir && IsTemp(temp) && PrintsHex(hash)
      modifies this
      ensures result == Stored(hash(old(dir)[temp]))
      ensures dir == (if hash(old(dir)[temp]) == digest then old(dir)[digest := old(dir)[temp]] else old(dir)) - {temp}
    {
      var actual := hash(dir[temp]);
      result := Stored(actual);
      if actual == digest {
        dir := dir[digest := dir[temp]];
      }
      dir := dir - {temp};
    }

    /** Removes partial uploads and keeps everything that has its digest for a name. */
    method CollectStale() returns (collected: nat)
      modifies this
      ensures Complete(dir) == Complete(old(dir)) && forall n | n in dir :: !IsTemp(n)
      ensures collected == |set n | n in old(dir) && IsTemp(n)|
    {
      collected := 0;
      var stale := set n | n in dir && IsTemp(n);
      ghost var all := stale;
      while stale != {}
        invariant stale <= all && collected == |all| - |stale|
        invariant dir == map n | n in old(dir) && (!IsTemp(n) || n in stale) :: old(dir)[n]
        decreases |stale|
      {
        var n :| n in stale;
        stale := stale - {n};
        dir := dir - {n};
        collected := collected + 1;
      }
    }
  }

  // ---- any interleaving ------------------------------------------------------------------------------

  /** An upload in progress: what was promised, and the bytes hashed so far. */
  datatype Upload = Upload(digest: Digest, limit: int, hashed: Bytes)

  /** The directory, the uploads in progress by temporary name, and the content handed out so far. */
  datatype Area = Area(dir: Files, uploads: map<string, Upload>, created: seq<(Digest, Bytes)>)

  datatype Step =
    | Begin(temp: string, digest: Digest, limit: int)
    | Receive(temp: string, piece: Bytes)
    | Finish(temp: string)
    | Collect
    | Create(digest: Digest)

  /** A temporary name is new: to the directory, and to the uploads whose file was collected under them. */
  predicate Possible(a: Area, s: Step) {
    match s
    case Begin(temp, _, _) => IsTemp(temp) && temp !in a.dir && temp !in a.uploads
    case Receive(temp, _) => temp in a.uploads
    case Finish(temp) => temp in a.uploads
    case Collect => true
    case Create(digest) => digest in a.dir && !IsTemp(digest)
  }

  function Take(hash: Hash, a: Area, s: Step): Area
    requires Possible(a, s)
  {
    match s
    case Begin(temp, digest, limit) =>
      a.(dir := a.dir[temp := []], uploads := a.uploads[temp := Upload(digest, limit, [])])
    case Receive(temp, piece) =>
      var u := a.uploads[temp];
      a.(dir := if temp in a.dir then a.dir[temp := a.dir[temp] + piece] else a.dir,
         uploads := a.uploads[temp := u.(hashed := u.hashed + piece)])
    case Finish(temp) =>
      var u := a.uploads[temp];
      var whole := (u.limit < 0 || |u.hashed| <= u.limit) && hash(u.hashed) == u.digest && temp in a.dir;
      var named := if whole then a.dir[u.digest := a.dir[temp]] else a.dir;
      a.(dir := named - {temp}, uploads := a.uploads - {temp})
    case Collect => a.(dir := Complete(a.dir))
    case Create(digest) =>
      a.(dir := a.dir - {digest}, created := a.created + [(digest, a.dir[digest])])
  }

  ghost predicate Integral(hash: Hash, a: Area) {
    && Sound(hash, a.dir)
    && (forall t | t in a.uploads :: IsTemp(t) && (t in a.dir ==> a.dir[t] == a.uploads[t].hashed))
    && (forall c | c in a.created :: hash(c.1) == c.0)
  }

  lemma StepKeepsIntegrity(hash: Hash, a: Area, s: Step)
    requires PrintsHex(hash) && Integral(hash, a) && Possible(a, s)
    ensures Integral(hash, Take(hash, a, s))
  {
    match s {
      case Finish(temp) => HashIsNotTemp(hash, a.uploads[temp].hashed);
      case Receive(temp, piece) =>
      case _ =>
    }
  }

  ghost predicate IsRun(hash: Hash, areas: seq<Area>, steps: seq<Step>) {
    && |areas| == |steps| + 1
    && forall i | 0 <= i < |steps| :: Possible(areas[i], steps[i]) && areas[i + 1] == Take(hash, areas[i], steps[i])
  }

  /**
   * However uploads, collection and file creation interleave, every digest-named file always holds content
   * hashing to its name, and so does everything a transition has taken from the area.
   */
  lemma {:induction false} IntegrityOverRuns(hash: Hash, areas: seq<Area>, steps: seq<Step>, k: nat)
    requires PrintsHex(hash) && IsRun(hash, areas, steps) && Integral(hash, areas[0]) && k <= |steps|
    ensures Integral(hash, areas[k])
  {
    if k > 0 {
      IntegrityOverRuns(hash, areas, steps, k - 1);
      StepKeepsIntegrity(hash, areas[k - 1], steps[k - 1]);
    }
  }

  /** An upload that ends changes the usable content exactly when it is within its limit, what was promised, and not collected. */
  lemma FinishExactly(hash: Hash, a: Area, temp: string)
    requires PrintsHex(hash) && Integral(hash, a) && Possible(a, Finish(temp))
    ensures var u, after := a.uploads[temp], Take(hash, a, Finish(temp));
            Complete(after.dir) ==
            if (u.limit < 0 || |u.hashed| <= u.limit) && hash(u.hashed) == u.digest && temp in a.dir
            then Complete(a.dir)[u.digest := u.hashed] else Complete(a.dir)
  {
    HashIsNotTemp(hash, a.uploads[temp].hashed);
  }

  /** The step ends an upload that keeps its content under this digest. */
  predicate KeptAs(hash: Hash, a: Area, s: Step, g: Digest) {
    && s.Finish? && s.temp in a.uploads && s.temp in a.dir
    && var u := a.uploads[s.temp];
       u.digest == g && hash(u.hashed) == g && (u.limit < 0 || |u.hashed| <= u.limit)
  }

  /** What any step does to the usable content: an upload kept adds it, a creation takes it away and hands it out, and nothing else touches it. */
  lemma UsableExactly(hash: Hash, a: Area, s: Step, g: Digest)
    requires PrintsHex(hash) && Integral(hash, a) && Possible(a, s)
    ensures var was, after := Complete(a.dir), Take(hash, a, s);
            var now := Complete(after.dir);
            && (g in now <==> KeptAs(hash, a, s, g) || (g in was && s != Create(g)))
            && (g in now ==> now[g] == if KeptAs(hash, a, s, g) then a.uploads[s.temp].hashed else was[g])
            && after.created == a.created + (if s.Create? then [(s.digest, was[s.digest])] else [])
            && (s.Collect? ==> after.dir == was)
            && (s.Finish? ==> s.temp !in after.dir && s.temp !in after.uploads)
  {
    if s.Finish? { HashIsNotTemp(hash, a.uploads[s.temp].hashed); }
  }

  /** What was promised of an upload under way, and the bytes that have come for it, by the steps so far. */
  function Arrived(steps: seq<Step>, temp: string): Option<Upload> {
    if steps == [] then None
    else
      var k := |steps| - 1;
      var before := Arrived(steps[..k], temp);
      match steps[k]
      case Begin(t, digest, limit) => if t == temp then Some(Upload(digest, limit, [])) else before
      case Receive(t, piece) =>
        if t == temp && before.Some? then Some(before.value.(hashed := before.value.hashed + piece)) else before
      case Finish(t) => if t == temp then None else before
      case _ => before
  }

  /** Whatever interleaves with it, an upload is what has arrived for it, in order, and nothing else. */
  lemma {:induction false} UploadsExactly(hash: Hash, areas: seq<Area>, steps: seq<Step>, k: nat, temp: string)
    requires IsRun(hash, areas, steps) && areas[0].uploads == map[] && k <= |steps|
    ensures temp in areas[k].uploads <==> Arrived(steps[..k], temp).Some?
    ensures temp in areas[k].uploads ==> areas[k].uploads[temp] == Arrived(steps[..k], temp).value
  {
    if k > 0 {
      UploadsExactly(hash, areas, steps, k - 1, temp);
      assert steps[..k][..k - 1] == steps[..k - 1] && steps[..k][k - 1] == steps[k - 1];
    }
  }

  // ---- what a transition makes of it ----------------------------------------------------------------------

  /** The disk right after the i-th change of a list. */
  function DiskAfter(d: Disk, l: seq<Change>, i: nat): Disk
    requires i < |l|
  {
    Run(d, l[..i + 1]).0
  }

  /** The file a change was to make is there, with content hashing to the digest the change named. */
  ghost predicate Written(hash: Hash, nodes: Nodes, c: Change) {
    c.kind.CreateFile? ==>
      var p := ResolveWithin(c.path);
      p.Some? && p.value in nodes && nodes[p.value].FileNode? && hash(nodes[p.value].content) == c.kind.digest
  }

  lemma ApplyKeepsGenuine(hash: Hash, d: Disk, c: Change)
    requires Genuine(hash, d.staged)
    ensures Genuine(hash, Apply(d, c).0.staged)
    ensures Apply(d, c).1 == Applied ==> Written(hash, Apply(d, c).0.nodes, c)
  {}

  lemma RunPrefix(d: Disk, l: seq<Change>, i: nat)
    requires i < |l|
    ensures DiskAfter(d, l, i) == Apply(Run(d, l[..i]).0, l[i]).0 && Run(d, l).1[i] == Apply(Run(d, l[..i]).0, l[i]).1
  {
    assert l[..i + 1] == l[..i] + [l[i]];
    RunConcat(d, l[..i], [l[i]]);
    var (d1, o) := Apply(Run(d, l[..i]).0, l[i]);
    assert Run(Run(d, l[..i]).0, [l[i]]) == (d1, [o] + []);
    assert l == l[..i + 1] + l[i + 1..];
    RunConcat(d, l[..i + 1], l[i + 1..]);
  }

  lemma {:induction false} RunKeepsGenuine(hash: Hash, d: Disk, l: seq<Change>)
    requires Genuine(hash, d.staged)
    ensures Genuine(hash, Run(d, l).0.staged)
    decreases |l|
  {
    if l != [] {
      ApplyKeepsGenuine(hash, d, l[0]);
      RunKeepsGenuine(hash, Apply(d, l[0]).0, l[1..]);
    }
  }

  /**
   * From a staging area in any state that uploads, collection and file creation can bring it to, executing any list
   * whatever over any root: every file change that applied has put there content hashing to the digest it named.
   */
  lemma WhatIsWrittenIsGenuine(hash: Hash, areas: seq<Area>, steps: seq<Step>, k: nat, nodes: Nodes, l: seq<Change>, i: nat)
    requires PrintsHex(hash) && IsRun(hash, areas, steps) && Integral(hash, areas[0]) && k <= |steps| && i < |l|
    ensures var d := Disk(nodes, Complete(areas[k].dir));
            Run(d, l).1[i] == Applied ==> Written(hash, DiskAfter(d, l, i).nodes, l[i])
  {
    var d := Disk(nodes, Complete(areas[k].dir));
    IntegrityOverRuns(hash, areas, steps, k);
    SoundIsGenuine(hash, areas[k].dir);
    RunKeepsGenuine(hash, d, l[..i]);
    RunPrefix(d, l, i);
    ApplyKeepsGenuine(hash, Run(d, l[..i]).0, l[i]);
  }
}
