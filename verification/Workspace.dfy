/**
 The branch workspace mirror as a tree of files and directories, and the replay
 of a state-synced excursion's delta on it.

 A path is the list of its components; `[]` is the workspace root. The file
 system operations follow POSIX: an operation below a regular file is refused,
 a directory is removed only when empty. Permission and device errors are not
 part of the model.
 */
module Workspace {

  type Name = string
  type Path = seq<Name>

  datatype FileData = FileData(contents: seq<bv8>, mode: nat)
  datatype Node = Dir | File(data: FileData)

  type Tree = map<Path, Node>
  type Files = map<Path, FileData>

  /** `d` is a strict ancestor of `p`. */
  predicate Above(d: Path, p: Path) {
    |d| < |p| && d == p[..|d|]
  }

  /** Some file of `m` lies strictly below `d`. */
  ghost predicate HasBelow(m: Files, d: Path) {
    exists k :: k in m && Above(d, k)
  }

  /** No file of `m` is an ancestor of another: the shape of a real tree. */
  ghost predicate WellShaped(m: Files) {
    && [] !in m
    && forall k, l :: k in m && l in m ==> !Above(k, l)
  }

  /** `q` is one of the first `n` prefixes of `p`, the root included. */
  predicate OnSpine(q: Path, p: Path, n: nat) {
    |q| <= n <= |p| && q == p[..|q|]
  }

  /** The tree holds the files of `m`, the directories they need, the first `n`
      prefixes of `p`, and nothing else. */
  ghost predicate Represents(t: Tree, m: Files, p: Path, n: nat) {
    && (forall q :: q in t <==> q in m || HasBelow(m, q) || OnSpine(q, p, n))
    && (forall q :: q in t ==> t[q] == if q in m then File(m[q]) else Dir)
  }

  /** The tree holds exactly the files of `m`: no other file and no empty
      directory, except possibly the root. */
  ghost predicate Exactly(t: Tree, m: Files) {
    Represents(t, m, [], 0)
  }

  // ------------------------------------------------------ the file system

  /** A real directory tree: every ancestor of a node, and the root, is a
      directory. */
  ghost predicate TreeOk(t: Tree) {
    && IsDir(t, [])
    && forall q, d :: q in t && Above(d, q) ==> IsDir(t, d)
  }

  datatype IoStatus = Done | NotFound | NotEmpty | Refused

  predicate IsDir(t: Tree, p: Path) {
    p in t && t[p].Dir?
  }

  predicate IsFile(t: Tree, p: Path) {
    p in t && t[p].File?
  }

  /** A strict ancestor of `p` is a regular file (ENOTDIR). */
  predicate BelowFile(t: Tree, p: Path) {
    exists i :: 0 <= i < |p| && IsFile(t, p[..i])
  }

  predicate HasChild(t: Tree, p: Path) {
    exists q :: q in t && Above(p, q)
  }

  function RemoveFileStatus(t: Tree, p: Path): IoStatus {
    if BelowFile(t, p) then Refused
    else if p !in t then NotFound
    else if t[p].Dir? then Refused
    else Done
  }

  function RemoveDirStatus(t: Tree, p: Path): IoStatus {
    if BelowFile(t, p) then Refused
    else if p !in t then NotFound
    else if t[p].File? then Refused
    else if HasChild(t, p) then NotEmpty
    else Done
  }

  /** The prefixes of `p` of length at most `|p|`, `p` included. */
  function Prefixes(p: Path): (s: set<Path>)
    ensures forall q :: q in s <==> OnSpine(q, p, |p|)
  {
    var s := set i | 0 <= i <= |p| :: p[..i];
    assert forall q :: OnSpine(q, p, |p|) ==> q == p[..|q|] && q in s;
    s
  }

  function CreateDirs(t: Tree, p: Path): Tree {
    map q | q in t.Keys + Prefixes(p) :: if q in t then t[q] else Dir
  }

  // ------------------------------------------------ one replay step, as facts

  lemma DeletedFile(t: Tree, m: Files, p: Path)
    requires Exactly(t, m) && WellShaped(m) && p in m
    ensures Represents(t - {p}, m - {p}, p, |p| - 1)
    ensures WellShaped(m - {p})
    ensures RemoveFileStatus(t, p) == Done
  {
    var t', m' := t - {p}, m - {p};
    forall q ensures q in t' <==> q in m' || HasBelow(m', q) || OnSpine(q, p, |p| - 1)
    {
      if q in t' && q !in m && HasBelow(m, q) {
        var k :| k in m && Above(q, k);
        if k != p { assert k in m' && Above(q, k); }
      }
      if HasBelow(m', q) {
        var k :| k in m' && Above(q, k);
        assert k in m && Above(q, k);
      }
      if OnSpine(q, p, |p| - 1) { assert Above(q, p); }
    }
    forall i | 0 <= i < |p| ensures !IsFile(t, p[..i]) {
      assert Above(p[..i], p);
    }
  }

  lemma AboveTransitive(a: Path, b: Path, c: Path)
    requires Above(a, b) || a == b
    requires Above(b, c)
    ensures Above(a, c)
  {
    assert c[..|b|][..|a|] == c[..|a|];
  }

  lemma PrunedDir(t: Tree, m: Files, p: Path, n: nat)
    requires Represents(t, m, p, n) && 0 < n < |p|
    requires p[..n] !in m && !HasChild(t, p[..n])
    ensures Represents(t - {p[..n]}, m, p, n - 1)
  {
    forall q ensures q in t - {p[..n]} <==> q in m || HasBelow(m, q) || OnSpine(q, p, n - 1) {
    }
  }

  lemma SpineNeeded(t: Tree, m: Files, p: Path, n: nat)
    requires Represents(t, m, p, n) && n < |p|
    requires n == 0 || HasChild(t, p[..n])
    ensures Exactly(t, m)
  {
    if n == 0 {
      forall q ensures OnSpine(q, p, 0) <==> OnSpine(q, [], 0) {}
    } else {
      var d := p[..n];
      var c :| c in t && Above(d, c);
      assert !OnSpine(c, p, n);
      var k :| k in m && (k == c || Above(c, k));
      forall q | OnSpine(q, p, n) && q != [] ensures HasBelow(m, q) {
        assert q == d || Above(q, d);
        AboveTransitive(q, d, c);
        if k != c { AboveTransitive(q, c, k); }
        assert Above(q, k);
      }
    }
  }

  /** In a tree that represents well-shaped files, a path lies below a file
      exactly when some file of `m` is its ancestor. */
  lemma BelowFileIff(t: Tree, m: Files, p: Path)
    requires Exactly(t, m)
    ensures BelowFile(t, p) <==> exists k :: k in m && Above(k, p)
  {
    if BelowFile(t, p) {
      var i :| 0 <= i < |p| && IsFile(t, p[..i]);
      assert p[..i] in m && Above(p[..i], p);
    }
    if k :| k in m && Above(k, p) {
      assert IsFile(t, p[..|k|]);
    }
  }

  lemma NodesNotBelowFiles(t: Tree, m: Files, p: Path)
    requires Exactly(t, m) && WellShaped(m) && p in t
    ensures !BelowFile(t, p)
  {
    BelowFileIff(t, m, p);
    if k :| k in m && Above(k, p) {
      if p !in m {
        var l :| l in m && Above(p, l);
        AboveTransitive(k, p, l);
      }
    }
  }

  lemma HasBelowWith(m: Files, p: Path, f: FileData, q: Path)
    ensures HasBelow(m[p := f], q) <==> HasBelow(m, q) || Above(q, p)
  {
    var m' := m[p := f];
    if k :| k in m && Above(q, k) { assert k in m'; }
    if Above(q, p) { assert p in m'; }
  }

  lemma WrittenShape(t: Tree, m: Files, p: Path, f: FileData)
    requires Exactly(t, m) && WellShaped(m) && p != []
    requires !BelowFile(t, p) && !IsDir(t, p)
    ensures WellShaped(m[p := f])
  {
    BelowFileIff(t, m, p);
    assert !HasBelow(m, p);
  }

  lemma WrittenFile(t: Tree, m: Files, p: Path, f: FileData)
    requires Exactly(t, m) && WellShaped(m) && p != []
    requires !BelowFile(t, p) && !IsDir(t, p)
    ensures Exactly(CreateDirs(t, p[..|p| - 1])[p := File(f)], m[p := f])
    ensures WellShaped(m[p := f])
  {
    var d := p[..|p| - 1];
    var t1 := CreateDirs(t, d);
    var t', m' := t1[p := File(f)], m[p := f];
    WrittenShape(t, m, p, f);
    forall q ensures q in t' <==> q in m' || HasBelow(m', q) || OnSpine(q, [], 0) {
      assert OnSpine(q, d, |d|) <==> Above(q, p);
      HasBelowWith(m, p, f, q);
    }
    forall q | q in t' ensures t'[q] == if q in m' then File(m'[q]) else Dir {}
  }

  lemma ExactlyIsTree(t: Tree, m: Files)
    requires Exactly(t, m) && WellShaped(m)
    ensures TreeOk(t)
  {
    forall q, d | q in t && Above(d, q) ensures IsDir(t, d) {
      NodesNotBelowFiles(t, m, q);
      assert d == q[..|d|];
      if q !in m {
        var k :| k in m && Above(q, k);
        AboveTransitive(d, q, k);
      }
    }
  }

  /** The files found by walking the tree. */
  function FilesOf(t: Tree): Files {
    map p | p in t && t[p].File? :: t[p].data
  }

  lemma SnapshotOfExactly(t: Tree, m: Files)
    requires Exactly(t, m)
    ensures FilesOf(t) == m
  {
  }
}
