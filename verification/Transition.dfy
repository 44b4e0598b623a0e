/**
 The synced state transition of one step: materialize the base state in the
 branch mirror, replay the validated delta, snapshot; on any failure put the
 mirror back at the base.
 */
module Transition {
  import opened Workspace
  import opened DeltaReplay

  /** `q` is a manifest file already on disk, or a directory above one. */
  ghost predicate Needed(t: Tree, m: Files, q: Path) {
    exists k :: k in m && IsFile(t, k) && (k == q || Above(q, k))
  }

  /** `q` remains, unchanged, exactly when it is needed. */
  ghost predicate Swept(t0: Tree, t: Tree, m: Files, q: Path) {
    (q in t <==> q in t0 && Needed(t0, m, q)) && (q in t ==> t[q] == t0[q])
  }

  ghost predicate Same(t0: Tree, t: Tree, q: Path) {
    (q in t <==> q in t0) && (q in t ==> t[q] == t0[q])
  }

  function ChildrenOf(t: Tree, d: Path): (s: set<Path>)
    ensures forall c :: c in s <==> c in t && Above(d, c) && |c| == |d| + 1
  {
    set c | c in t && Above(d, c) && |c| == |d| + 1
  }

  predicate AtOrBelow(c: Path, q: Path) {
    c == q || Above(c, q)
  }

  lemma NeededIsLocal(t0: Tree, t: Tree, m: Files, c: Path, q: Path)
    requires AtOrBelow(c, q)
    requires forall k :: AtOrBelow(c, k) ==> Same(t0, t, k)
    ensures Needed(t0, m, q) <==> Needed(t, m, q)
  {
    forall k | k == q || Above(q, k) ensures Same(t0, t, k) {
      if k != q && c != q { AboveTransitive(c, q, k); }
    }
  }

  /** Remove what the manifest does not name below `d`, and the directories this
      leaves empty. */
  method RemoveStale(mirror: Mirror, d: Path, m: Files, ghost bound: nat)
    requires TreeOk(mirror.tree) && IsDir(mirror.tree, d) && |d| <= bound
    requires forall q :: q in mirror.tree ==> |q| <= bound
    modifies mirror
    ensures TreeOk(mirror.tree) && mirror.tree.Keys <= old(mirror.tree).Keys
    ensures forall q :: Above(d, q) ==> Swept(old(mirror.tree), mirror.tree, m, q)
    ensures forall q :: !Above(d, q) ==> Same(old(mirror.tree), mirror.tree, q)
    decreases bound - |d|, 0
  {
    var todo := ChildrenOf(mirror.tree, d);
    ghost var t0 := mirror.tree;
    ghost var children := todo;
    while todo != {}
      invariant todo <= children
      invariant TreeOk(mirror.tree) && mirror.tree.Keys <= t0.Keys
      invariant forall c, q :: c in children && c !in todo && AtOrBelow(c, q) ==>
                  Swept(t0, mirror.tree, m, q)
      invariant forall c, q :: c in todo && AtOrBelow(c, q) ==> Same(t0, mirror.tree, q)
      invariant forall q :: !Above(d, q) ==> Same(t0, mirror.tree, q)
      decreases |todo|
    {
      var c :| c in todo;
      ghost var t1 := mirror.tree;
      assert AtOrBelow(c, c) && Same(t0, t1, c);
      SweepChild(mirror, c, m, bound);
      forall q | AtOrBelow(c, q) ensures Swept(t0, mirror.tree, m, q) {
        NeededIsLocal(t0, t1, m, c, q);
      }
      OtherSubtrees(d, c, children);
      todo := todo - {c};
    }
    forall q | Above(d, q) ensures Swept(t0, mirror.tree, m, q) {
      EveryNodeUnderChild(t0, d, q, m);
    }
  }

  lemma OtherSubtrees(d: Path, c: Path, children: set<Path>)
    requires forall b :: b in children ==> Above(d, b) && |b| == |d| + 1
    requires c in children
    ensures forall b, q :: b in children && b != c && AtOrBelow(b, q) ==> !AtOrBelow(c, q)
    ensures forall q :: AtOrBelow(c, q) ==> Above(d, q)
  {
    forall q | AtOrBelow(c, q) ensures Above(d, q) {
      if c != q { AboveTransitive(d, c, q); }
    }
  }

  /** Below a directory every node lies at or below a child; below a name that is
      not in the tree nothing is needed. */
  lemma EveryNodeUnderChild(t: Tree, d: Path, q: Path, m: Files)
    requires TreeOk(t) && Above(d, q)
    ensures var c := q[..|d| + 1];
            AtOrBelow(c, q) && (c in ChildrenOf(t, d) || (q !in t && !Needed(t, m, q)))
  {
    var c := q[..|d| + 1];
    assert Above(d, c);
    if c !in t && Needed(t, m, q) {
      var k :| k in m && IsFile(t, k) && (k == q || Above(q, k));
      if c != q && q != k { AboveTransitive(c, q, k); }
    }
  }

  method SweepChild(mirror: Mirror, c: Path, m: Files, ghost bound: nat)
    requires TreeOk(mirror.tree) && c in mirror.tree && c != [] && |c| <= bound
    requires forall q :: q in mirror.tree ==> |q| <= bound
    modifies mirror
    ensures TreeOk(mirror.tree) && mirror.tree.Keys <= old(mirror.tree).Keys
    ensures forall q :: AtOrBelow(c, q) ==> Swept(old(mirror.tree), mirror.tree, m, q)
    ensures forall q :: !AtOrBelow(c, q) ==> Same(old(mirror.tree), mirror.tree, q)
    decreases bound - |c|, 1
  {
    ghost var t0 := mirror.tree;
    if IsDir(mirror.tree, c) {
      RemoveStale(mirror, c, m, bound);
      DirNeededIff(t0, mirror.tree, m, c);
      if !HasChild(mirror.tree, c) {
        mirror.tree := mirror.tree - {c};
      }
    } else {
      FileNeededIff(t0, m, c);
      if c !in m {
        mirror.tree := mirror.tree - {c};
      }
    }
  }

  lemma DirNeededIff(t0: Tree, t: Tree, m: Files, c: Path)
    requires TreeOk(t0) && IsDir(t0, c)
    requires forall q :: Above(c, q) ==> Swept(t0, t, m, q)
    ensures Needed(t0, m, c) <==> HasChild(t, c)
  {
    if Needed(t0, m, c) {
      var k :| k in m && IsFile(t0, k) && (k == c || Above(c, k));
      assert Swept(t0, t, m, k);
      assert k in t && Above(c, k);
    }
    if HasChild(t, c) {
      var q :| q in t && Above(c, q);
      assert Swept(t0, t, m, q);
      var k :| k in m && IsFile(t0, k) && (k == q || Above(q, k));
      if k != q { AboveTransitive(c, q, k); }
    }
  }

  lemma FileNeededIff(t: Tree, m: Files, c: Path)
    requires TreeOk(t) && IsFile(t, c)
    ensures Needed(t, m, c) <==> c in m
    ensures forall q :: Above(c, q) ==> q !in t && !Needed(t, m, q)
  {
    forall q | Above(c, q) ensures q !in t && !Needed(t, m, q) {
      if k :| k in m && IsFile(t, k) && (k == q || Above(q, k)) {
        if k != q { AboveTransitive(c, q, k); }
      }
    }
  }

  /** The files of the tree that the manifest names. */
  function Surviving(t: Tree, m: Files): Files {
    map p | p in t && t[p].File? && p in m :: t[p].data
  }

  lemma SweptTreeIsExact(t0: Tree, t: Tree, m: Files)
    requires TreeOk(t0) && IsDir(t, [])
    requires forall q :: Above([], q) ==> Swept(t0, t, m, q)
    ensures Exactly(t, Surviving(t0, m)) && WellShaped(Surviving(t0, m))
  {
    var s := Surviving(t0, m);
    forall q ensures q in t <==> q in s || HasBelow(s, q) || OnSpine(q, [], 0) {
      if q != [] {
        assert Above([], q);
        if q in t {
          var k :| k in m && IsFile(t0, k) && (k == q || Above(q, k));
          assert k in s;
        }
        if HasBelow(s, q) {
          var k :| k in s && Above(q, k);
          assert Needed(t0, m, q);
        }
      }
    }
    forall q | q in t ensures t[q] == if q in s then File(s[q]) else Dir {
      if q != [] {
        assert Above([], q);
        if q !in s {
          var k :| k in m && IsFile(t0, k) && (k == q || Above(q, k));
          assert k in s;
        }
      }
    }
  }

  /** Make the mirror hold exactly the manifest, from any tree: possible exactly
      when the manifest has the shape of a tree. */
  method Materialize(mirror: Mirror, m: Files) returns (ok: bool)
    requires TreeOk(mirror.tree) && [] !in m
    modifies mirror
    ensures ok <==> WellShaped(m)
    ensures ok ==> Exactly(mirror.tree, m)
    ensures TreeOk(mirror.tree)
  {
    ghost var t0 := mirror.tree;
    ghost var bound := LongestPath(mirror.tree.Keys);
    RemoveStale(mirror, [], m, bound);
    SweptTreeIsExact(t0, mirror.tree, m);
    ok := WriteFiles(mirror, m, Surviving(t0, m));
  }

  /** Write every file of the manifest over a tree that already holds some of them. */
  method WriteFiles(mirror: Mirror, m: Files, ghost kept: Files) returns (ok: bool)
    requires Exactly(mirror.tree, kept) && WellShaped(kept) && kept.Keys <= m.Keys && [] !in m
    modifies mirror
    ensures ok <==> WellShaped(m)
    ensures ok ==> Exactly(mirror.tree, m)
    ensures TreeOk(mirror.tree)
  {
    ghost var cur := kept;
    var todo := m.Keys;
    while todo != {}
      invariant todo <= m.Keys && cur.Keys <= m.Keys
      invariant Exactly(mirror.tree, cur) && WellShaped(cur)
      invariant forall p :: p in m && p !in todo ==> p in cur && cur[p] == m[p]
      decreases |todo|
    {
      var p :| p in todo;
      ExactlyIsTree(mirror.tree, cur);
      ghost var next := cur[p := m[p]];
      if WellShaped(m) { FewerFilesWellShaped(next, m); }
      var put := mirror.Put(p, m[p], cur);
      if !put { return false; }
      cur := next;
      todo := todo - {p};
    }
    assert cur == m;
    ExactlyIsTree(mirror.tree, cur);
    return true;
  }

  ghost function LongestPath(ps: set<Path>): (n: nat)
    ensures forall p :: p in ps ==> |p| <= n
  {
    if ps == {} then 0
    else
      var p :| p in ps;
      var rest := LongestPath(ps - {p});
      if |p| > rest then |p| else rest
  }

  datatype Outcome = Denied | Failed | Committed(files: Files)

  /** Validate, materialize the base, replay, snapshot. A committed step is the
      plain map replacement; otherwise the mirror is untouched or back at the
      base, unless the base itself is no tree. */
  method SyncedTransition(mirror: Mirror, base: Files, delta: Delta, prefixes: seq<Path>)
    returns (outcome: Outcome)
    requires TreeOk(mirror.tree) && [] !in base
    modifies mirror
    ensures TreeOk(mirror.tree)
    ensures outcome.Denied? <==> !Valid(delta, prefixes)
    ensures outcome.Denied? ==> mirror.tree == old(mirror.tree)
    ensures outcome.Committed? <==>
              && Valid(delta, prefixes) && WellShaped(base)
              && DeletesReachable(base, delta.deletes) && WellShaped(Applied(base, delta))
    ensures outcome.Committed? ==>
              outcome.files == Applied(base, delta) && Exactly(mirror.tree, outcome.files)
    ensures outcome.Failed? && WellShaped(base) ==> Exactly(mirror.tree, base)
  {
    var valid := ValidateWorkspaceDelta(delta, prefixes);
    if !valid { return Denied; }
    var ok := Materialize(mirror, base);
    if ok {
      ok := mirror.ApplyWorkspaceDelta(delta, base, prefixes);
    }
    if ok {
      SnapshotOfExactly(mirror.tree, Applied(base, delta));
      return Committed(FilesOf(mirror.tree));
    }
    var rollback := Materialize(mirror, base);
    return Failed;
  }
}
