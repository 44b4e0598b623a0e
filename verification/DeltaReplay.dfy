/**
 Validation of a state-synced excursion's delta and its replay on the branch
 workspace mirror. The replay deletes deepest first, prunes emptied parents and
 then writes; it refines plain replacement of entries in a file map, and fails
 exactly when the resulting map is not the map of a tree or a delete reaches
 below a regular file.
 */
module DeltaReplay {
  import opened Workspace
  import opened PathSyntax

  datatype Upsert = Upsert(path: Path, data: FileData)
  datatype Delta = Delta(upserts: seq<Upsert>, deletes: seq<Path>)

  /** Setuid, setgid and sticky bits never survive (`mode & 0o777`). */
  function Masked(f: FileData): FileData {
    FileData(f.contents, f.mode % 0x200)
  }

  // ----------------------------------------------------------- validation

  /** `p` is inside one of the writable prefixes; an empty list, or an empty
      prefix, allows the whole workspace. */
  predicate InPrefixes(p: Path, prefixes: seq<Path>) {
    prefixes == [] || exists i :: 0 <= i < |prefixes| && prefixes[i] <= p
  }

  function UpsertPaths(us: seq<Upsert>): (ps: seq<Path>)
    ensures |ps| == |us| && forall i :: 0 <= i < |us| ==> ps[i] == us[i].path
  {
    seq(|us|, i requires 0 <= i < |us| => us[i].path)
  }

  function Touched(delta: Delta): seq<Path> {
    UpsertPaths(delta.upserts) + delta.deletes
  }

  predicate Distinct(ps: seq<Path>) {
    forall i, j :: 0 <= i < j < |ps| ==> ps[i] != ps[j]
  }

  predicate NoFileAncestor(ps: seq<Path>) {
    forall i, j :: 0 <= i < |ps| && 0 <= j < |ps| ==> !Above(ps[i], ps[j])
  }

  ghost predicate Valid(delta: Delta, prefixes: seq<Path>) {
    && (forall p :: p in Touched(delta) ==> Clean(p) && InPrefixes(p, prefixes))
    && Distinct(Touched(delta))
    && NoFileAncestor(UpsertPaths(delta.upserts))
  }

  /** No upserted path is a parent of another. */
  method ParentsAreNotFiles(ups: seq<Path>) returns (ok: bool)
    requires [] !in ups
    ensures ok <==> NoFileAncestor(ups)
  {
    var upserts := set p | p in ups;
    for n := 0 to |ups|
      invariant forall i, j :: 0 <= i < |ups| && 0 <= j < n ==> !Above(ups[i], ups[j])
    {
      assert ups[n] in ups;
      // walk the parents of the path, nearest first
      var k := |ups[n]| - 1;
      while k > 0
        invariant 0 <= k < |ups[n]|
        invariant forall l :: k < l < |ups[n]| ==> ups[n][..l] !in ups
      {
        if ups[n][..k] in upserts {
          var i :| 0 <= i < |ups| && ups[i] == ups[n][..k];
          assert Above(ups[i], ups[n]);
          return false;
        }
        k := k - 1;
      }
      forall i | 0 <= i < |ups| ensures !Above(ups[i], ups[n]) {
        assert ups[i] in ups;
      }
    }
    return true;
  }

  method ValidateWorkspaceDelta(delta: Delta, prefixes: seq<Path>) returns (ok: bool)
    ensures ok <==> Valid(delta, prefixes)
  {
    var all := Touched(delta);
    var ups := UpsertPaths(delta.upserts);
    var touched: set<Path> := {};
    for n := 0 to |all|
      invariant forall p :: p in touched <==> p in all[..n]
      invariant forall i :: 0 <= i < n ==> Clean(all[i]) && InPrefixes(all[i], prefixes)
      invariant Distinct(all[..n])
    {
      assert all[n] in all;
      if !Clean(all[n]) || !InPrefixes(all[n], prefixes) { return false; }
      if all[n] in touched {
        var i :| 0 <= i < n && all[i] == all[n];
        return false;
      }
      touched := touched + {all[n]};
    }
    assert all[..|all|] == all;
    forall p | p in ups ensures p in all {}
    assert forall i :: 0 <= i < |all| ==> Clean(all[i]);
    ok := ParentsAreNotFiles(ups);
  }

  // --------------------------------------------------- what a delta means

  function UpsertMap(us: seq<Upsert>): (m: Files)
    ensures forall p :: p in m <==> p in UpsertPaths(us)
  {
    if us == [] then map[]
    else
      var last := us[|us| - 1];
      assert UpsertPaths(us) == UpsertPaths(us[..|us| - 1]) + [last.path];
      UpsertMap(us[..|us| - 1])[last.path := Masked(last.data)]
  }

  function DeleteSet(ps: seq<Path>): set<Path> {
    set p | p in ps
  }

  /** The delta as plain replacement of map entries. */
  function Applied(base: Files, delta: Delta): Files {
    (base - DeleteSet(delta.deletes)) + UpsertMap(delta.upserts)
  }

  /** No delete reaches below a regular file of the base. */
  ghost predicate DeletesReachable(base: Files, deletes: seq<Path>) {
    forall i, k :: 0 <= i < |deletes| && k in base ==> !Above(k, deletes[i])
  }

  // ------------------------------------------------- deepest deletes first

  predicate DeepestFirst(ps: seq<Path>) {
    forall i, j :: 0 <= i < j < |ps| ==> |ps[i]| >= |ps[j]|
  }

  function InsertByDepth(p: Path, ps: seq<Path>): seq<Path> {
    if ps == [] || |ps[0]| <= |p| then [p] + ps else [ps[0]] + InsertByDepth(p, ps[1..])
  }

  function SortByDepth(ps: seq<Path>): seq<Path> {
    if ps == [] then [] else InsertByDepth(ps[0], SortByDepth(ps[1..]))
  }

  lemma {:induction false} InsertKeepsElements(p: Path, ps: seq<Path>)
    ensures multiset(InsertByDepth(p, ps)) == multiset{p} + multiset(ps)
  {
    if ps != [] && |ps[0]| > |p| {
      InsertKeepsElements(p, ps[1..]);
      assert ps == [ps[0]] + ps[1..];
    }
  }

  lemma {:induction false} InsertKeepsOrder(p: Path, ps: seq<Path>)
    requires DeepestFirst(ps)
    ensures DeepestFirst(InsertByDepth(p, ps))
  {
    if ps != [] && |ps[0]| > |p| {
      var rest := InsertByDepth(p, ps[1..]);
      InsertKeepsOrder(p, ps[1..]);
      InsertKeepsElements(p, ps[1..]);
      forall i | 0 <= i < |rest| ensures |rest[i]| <= |ps[0]| {
        assert rest[i] in multiset(rest);
        assert rest[i] == p || rest[i] in ps[1..];
      }
    }
  }

  /** The delete order: a permutation with the deepest paths first. */
  lemma {:induction false} SortIsPermutation(ps: seq<Path>)
    ensures multiset(SortByDepth(ps)) == multiset(ps)
    ensures DeepestFirst(SortByDepth(ps))
  {
    if ps != [] {
      SortIsPermutation(ps[1..]);
      InsertKeepsElements(ps[0], SortByDepth(ps[1..]));
      InsertKeepsOrder(ps[0], SortByDepth(ps[1..]));
      assert ps == [ps[0]] + ps[1..];
    }
  }

  lemma SortKeepsElements(ps: seq<Path>)
    ensures DeepestFirst(SortByDepth(ps)) && |SortByDepth(ps)| == |ps|
    ensures forall p :: p in SortByDepth(ps) <==> p in ps
    ensures DeleteSet(SortByDepth(ps)) == DeleteSet(ps)
  {
    SortIsPermutation(ps);
    var r := SortByDepth(ps);
    assert |multiset(r)| == |r| && |multiset(ps)| == |ps|;
    forall p ensures p in r <==> p in ps {
      assert p in multiset(r) <==> p in multiset(ps);
    }
  }

  // ------------------------------------------------------------ the mirror

  class Mirror {
    var tree: Tree

    constructor (t: Tree)
      ensures tree == t
    {
      tree := t;
    }

    method RemoveFile(p: Path) returns (s: IoStatus)
      modifies this
      ensures s == RemoveFileStatus(old(tree), p)
      ensures tree == if s == Done then old(tree) - {p} else old(tree)
    {
      s := RemoveFileStatus(tree, p);
      if s == Done { tree := tree - {p}; }
    }

    method RemoveDir(p: Path) returns (s: IoStatus)
      modifies this
      ensures s == RemoveDirStatus(old(tree), p)
      ensures tree == if s == Done then old(tree) - {p} else old(tree)
    {
      s := RemoveDirStatus(tree, p);
      if s == Done { tree := tree - {p}; }
    }

    /** Create `p`'s parent directories and write `p`; refused when an ancestor
        is a regular file or `p` is a directory. */
    method WriteFile(p: Path, f: FileData) returns (s: IoStatus)
      requires p != []
      modifies this
      ensures s == if BelowFile(old(tree), p) || IsDir(old(tree), p) then Refused else Done
      ensures tree == if s == Done then CreateDirs(old(tree), p[..|p| - 1])[p := File(f)]
                      else old(tree)
    {
      if BelowFile(tree, p) || IsDir(tree, p) {
        s := Refused;
      } else {
        tree := CreateDirs(tree, p[..|p| - 1])[p := File(f)];
        s := Done;
      }
    }

    /** Remove the emptied directories above a just-deleted file. */
    method PruneEmptyParents(p: Path, ghost m: Files) returns (ok: bool)
      requires p != [] && Represents(tree, m, p, |p| - 1) && WellShaped(m)
      requires forall k :: k in m ==> !Above(k, p)
      modifies this
      ensures ok && Exactly(tree, m)
    {
      var n := |p| - 1;
      while n > 0
        invariant 0 <= n < |p| && Represents(tree, m, p, n)
      {
        var d := p[..n];
        assert Above(d, p);
        assert !BelowFile(tree, d) by {
          forall i | 0 <= i < n ensures !IsFile(tree, d[..i]) {
            assert d[..i] == p[..i] && Above(p[..i], p);
          }
        }
        ghost var before := tree;
        var s := RemoveDir(d);
        match s {
          case Done =>
            PrunedDir(before, m, p, n);
            n := n - 1;
          case NotFound =>
            n := n - 1;
          case NotEmpty =>
            SpineNeeded(tree, m, p, n);
            return true;
          case Refused =>
            return false;
        }
      }
      SpineNeeded(tree, m, p, 0);
      return true;
    }

    /** Delete one file; a directory of that name is left for its own entries. */
    method DeleteOne(d: Path, ghost cur: Files) returns (ok: bool)
      requires Exactly(tree, cur) && WellShaped(cur) && d != []
      modifies this
      ensures ok <==> forall k :: k in cur ==> !Above(k, d)
      ensures ok ==> Exactly(tree, cur - {d})
      ensures !ok ==> tree == old(tree)
    {
      BelowFileIff(tree, cur, d);
      if IsDir(tree, d) {
        NodesNotBelowFiles(tree, cur, d);
        assert cur - {d} == cur;
        return true;
      }
      ghost var before := tree;
      var s := RemoveFile(d);
      match s {
        case Done =>
          DeletedFile(before, cur, d);
          ok := PruneEmptyParents(d, cur - {d});
        case NotFound =>
          assert cur - {d} == cur;
          ok := true;
        case _ =>
          ok := false;
      }
    }

    /** Create parents and write: refused exactly when the file would lie below
        another file or replace a directory that holds one. */
    method Put(p: Path, f: FileData, ghost cur: Files) returns (ok: bool)
      requires Exactly(tree, cur) && WellShaped(cur) && p != []
      modifies this
      ensures ok <==> WellShaped(cur[p := f])
      ensures ok ==> Exactly(tree, cur[p := f])
      ensures !ok ==> tree == old(tree)
    {
      BelowFileIff(tree, cur, p);
      ghost var before := tree;
      var w := WriteFile(p, f);
      if w == Done {
        WrittenFile(before, cur, p, f);
        return true;
      }
      ghost var next := cur[p := f];
      if IsDir(before, p) {
        ghost var k := FileBelowDir(before, cur, p);
        assert k in next && p in next;
      } else {
        ghost var k :| k in cur && Above(k, p);
        assert k in next && p in next;
      }
      return false;
    }

    /** Write one upsert; an empty directory in its place gives way, a non-empty
        one refuses. */
    method UpsertOne(p: Path, f: FileData, ghost cur: Files) returns (ok: bool)
      requires Exactly(tree, cur) && WellShaped(cur) && p != []
      modifies this
      ensures ok <==> WellShaped(cur[p := f])
      ensures ok ==> Exactly(tree, cur[p := f])
      ensures !ok ==> tree == old(tree)
    {
      if IsDir(tree, p) {
        ghost var k := FileBelowDir(tree, cur, p);
        assert k in cur[p := f] && p in cur[p := f] && k in tree;
        var s := RemoveDir(p);
        if s != Done { return false; }
      }
      ok := Put(p, f, cur);
    }

    method ReplayDeletes(deletes: seq<Path>, ghost base: Files) returns (ok: bool)
      requires Exactly(tree, base) && WellShaped(base) && DeepestFirst(deletes)
      requires forall i :: 0 <= i < |deletes| ==> deletes[i] != []
      modifies this
      ensures ok <==> DeletesReachable(base, deletes)
      ensures ok ==> Exactly(tree, base - DeleteSet(deletes))
      ensures TreeOk(tree)
    {
      ghost var cur := base;
      for n := 0 to |deletes|
        invariant cur == base - DeleteSet(deletes[..n])
        invariant Exactly(tree, cur)
        invariant DeletesReachable(base, deletes[..n])
      {
        FilesAboveRemain(base, deletes, n);
        ExactlyIsTree(tree, cur);
        var done := DeleteOne(deletes[n], cur);
        if !done { return false; }
        cur := cur - {deletes[n]};
      }
      assert deletes[..|deletes|] == deletes;
      FewerFilesWellShaped(cur, base);
      ExactlyIsTree(tree, cur);
      return true;
    }

    method ReplayUpserts(upserts: seq<Upsert>, ghost kept: Files) returns (ok: bool)
      requires Exactly(tree, kept) && WellShaped(kept)
      requires forall i :: 0 <= i < |upserts| ==> upserts[i].path != []
      modifies this
      ensures ok <==> WellShaped(kept + UpsertMap(upserts))
      ensures ok ==> Exactly(tree, kept + UpsertMap(upserts))
      ensures TreeOk(tree)
    {
      ghost var cur := kept;
      for n := 0 to |upserts|
        invariant cur == kept + UpsertMap(upserts[..n])
        invariant Exactly(tree, cur) && WellShaped(cur)
      {
        UpsertPrefix(kept, upserts, n);
        ExactlyIsTree(tree, cur);
        var done := UpsertOne(upserts[n].path, Masked(upserts[n].data), cur);
        if !done { return false; }
        cur := cur[upserts[n].path := Masked(upserts[n].data)];
      }
      assert upserts[..|upserts|] == upserts;
      ExactlyIsTree(tree, cur);
      return true;
    }

    /** Replay a validated delta on a mirror that holds exactly `base`. */
    method ApplyWorkspaceDelta(delta: Delta, ghost base: Files, ghost prefixes: seq<Path>)
      returns (ok: bool)
      requires Exactly(tree, base) && WellShaped(base) && Valid(delta, prefixes)
      modifies this
      ensures ok <==> DeletesReachable(base, delta.deletes) && WellShaped(Applied(base, delta))
      ensures ok ==> Exactly(tree, Applied(base, delta))
      ensures TreeOk(tree)
    {
      var deletes := SortByDepth(delta.deletes);
      SortKeepsElements(delta.deletes);
      ReachableAnyOrder(base, deletes, delta.deletes);
      TouchedNotRoot(delta, prefixes);
      ok := ReplayDeletes(deletes, base);
      if ok {
        ok := ReplayUpserts(delta.upserts, base - DeleteSet(delta.deletes));
      }
    }
  }

  lemma FileBelowDir(t: Tree, m: Files, p: Path) returns (k: Path)
    requires Exactly(t, m) && p != [] && IsDir(t, p)
    ensures k in m && Above(p, k) && k in t
  {
    assert !OnSpine(p, [], 0);
    k :| k in m && Above(p, k);
  }

  lemma TouchedNotRoot(delta: Delta, prefixes: seq<Path>)
    requires Valid(delta, prefixes)
    ensures forall i :: 0 <= i < |delta.upserts| ==> delta.upserts[i].path != []
    ensures forall i :: 0 <= i < |SortByDepth(delta.deletes)| ==> SortByDepth(delta.deletes)[i] != []
  {
    SortKeepsElements(delta.deletes);
    forall i | 0 <= i < |delta.upserts| ensures delta.upserts[i].path != [] {
      assert UpsertPaths(delta.upserts)[i] in Touched(delta);
    }
    var sorted := SortByDepth(delta.deletes);
    forall i | 0 <= i < |sorted| ensures sorted[i] != [] {
      assert sorted[i] in delta.deletes && sorted[i] in Touched(delta);
    }
  }

  lemma ReachableAnyOrder(base: Files, a: seq<Path>, b: seq<Path>)
    requires forall p :: p in a <==> p in b
    ensures DeletesReachable(base, a) <==> DeletesReachable(base, b)
  {
    if DeletesReachable(base, a) {
      forall i, k | 0 <= i < |b| && k in base ensures !Above(k, b[i]) {
        assert b[i] in a;
      }
    }
    if DeletesReachable(base, b) {
      forall i, k | 0 <= i < |a| && k in base ensures !Above(k, a[i]) {
        assert a[i] in b;
      }
    }
  }

  /** Deepest first: no ancestor of the next delete has been removed yet, so the
      files above it now are the files above it in the base. */
  lemma FilesAboveRemain(base: Files, deletes: seq<Path>, n: nat)
    requires DeepestFirst(deletes) && n < |deletes| && WellShaped(base)
    requires DeletesReachable(base, deletes[..n])
    ensures var cur := base - DeleteSet(deletes[..n]);
            && WellShaped(cur)
            && cur - {deletes[n]} == base - DeleteSet(deletes[..n + 1])
            && (DeletesReachable(base, deletes[..n + 1])
                <==> forall k :: k in cur ==> !Above(k, deletes[n]))
            && (DeletesReachable(base, deletes) ==> DeletesReachable(base, deletes[..n + 1]))
  {
    assert deletes[..n + 1] == deletes[..n] + [deletes[n]];
    assert DeleteSet(deletes[..n + 1]) == DeleteSet(deletes[..n]) + {deletes[n]};
  }

  lemma FewerFilesWellShaped(a: Files, b: Files)
    requires a.Keys <= b.Keys && WellShaped(b)
    ensures WellShaped(a)
  {
  }

  lemma UpsertKeysGrow(us: seq<Upsert>, n: nat)
    requires n <= |us|
    ensures UpsertMap(us[..n]).Keys <= UpsertMap(us).Keys
  {
    var some, all := UpsertPaths(us[..n]), UpsertPaths(us);
    forall p | p in UpsertMap(us[..n]) ensures p in UpsertMap(us) {
      var i :| 0 <= i < n && some[i] == p;
      assert all[i] == p;
    }
  }

  lemma AddThenUpdate(a: Files, b: Files, p: Path, f: FileData)
    ensures (a + b)[p := f] == a + b[p := f]
  {
  }

  lemma UpsertPrefix(kept: Files, us: seq<Upsert>, n: nat)
    requires n < |us|
    ensures var next := (kept + UpsertMap(us[..n]))[us[n].path := Masked(us[n].data)];
            && next == kept + UpsertMap(us[..n + 1])
            && (WellShaped(kept + UpsertMap(us)) ==> WellShaped(next))
  {
    assert us[..n + 1][..n] == us[..n];
    AddThenUpdate(kept, UpsertMap(us[..n]), us[n].path, Masked(us[n].data));
    UpsertKeysGrow(us, n + 1);
    if WellShaped(kept + UpsertMap(us)) {
      FewerFilesWellShaped(kept + UpsertMap(us[..n + 1]), kept + UpsertMap(us));
    }
  }
}
