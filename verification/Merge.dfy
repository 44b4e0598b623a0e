/**
 Three-way merge of workspaces, and the branch merge that commits it.
 */
module Merge {
  import opened Ancestry
  import opened Workspace
  import DeltaReplay
  import Transition

  function At(m: Files, p: Path): Option<FileData> {
    if p in m then Some(m[p]) else None
  }

  predicate Changed(base: Files, m: Files, p: Path) {
    At(m, p) != At(base, p)
  }

  /** Both sides changed the path, differently. */
  predicate Conflicting(base: Files, t: Files, s: Files, p: Path) {
    Changed(base, t, p) && Changed(base, s, p) && At(t, p) != At(s, p)
  }

  function Conflicts(base: Files, t: Files, s: Files): set<Path> {
    set p | p in base.Keys + t.Keys + s.Keys && Conflicting(base, t, s, p)
  }

  ghost predicate KeepsAt(base: Files, t: Files, s: Files, m: Files, p: Path) {
    && (Changed(base, t, p) ==> At(m, p) == At(t, p))
    && (Changed(base, s, p) ==> At(m, p) == At(s, p))
    && (!Changed(base, t, p) && !Changed(base, s, p) ==> At(m, p) == At(base, p))
  }

  /** The merge keeps every change of either side and nothing else. */
  ghost predicate KeepsChanges(base: Files, t: Files, s: Files, m: Files) {
    forall p :: KeepsAt(base, t, s, m, p)
  }

  /** Settled paths: in conflict, or carrying their changes. */
  ghost predicate Settled(base: Files, t: Files, s: Files, m: Files, conflicts: set<Path>, p: Path) {
    && (p in conflicts <==> Conflicting(base, t, s, p))
    && (p !in conflicts ==> KeepsAt(base, t, s, m, p))
  }

  ghost predicate AllSettled(base: Files, t: Files, s: Files, m: Files, conflicts: set<Path>, done: set<Path>) {
    && m.Keys <= done && conflicts <= done
    && forall p :: p in done ==> Settled(base, t, s, m, conflicts, p)
  }

  lemma SettleOne(base: Files, t: Files, s: Files, m: Files, conflicts: set<Path>, done: set<Path>,
                  path: Path, m': Files, conflicts': set<Path>)
    requires AllSettled(base, t, s, m, conflicts, done) && path !in done
    requires Settled(base, t, s, m', conflicts', path)
    requires forall p :: p != path ==> At(m', p) == At(m, p) && (p in conflicts' <==> p in conflicts)
    ensures AllSettled(base, t, s, m', conflicts', done + {path})
  {
    forall p | p in done ensures Settled(base, t, s, m', conflicts', p) {
      assert Settled(base, t, s, m, conflicts, p) && At(m', p) == At(m, p);
    }
    forall p | p in m' ensures p in done + {path} {
      assert p != path ==> At(m', p) == At(m, p);
    }
  }

  lemma AllAreSettled(base: Files, t: Files, s: Files, m: Files, conflicts: set<Path>)
    requires AllSettled(base, t, s, m, conflicts, base.Keys + t.Keys + s.Keys)
    ensures conflicts == Conflicts(base, t, s)
    ensures conflicts == {} ==> KeepsChanges(base, t, s, m)
  {
    var all := base.Keys + t.Keys + s.Keys;
    forall p ensures p in conflicts <==> p in all && Conflicting(base, t, s, p) {
      assert p in all ==> Settled(base, t, s, m, conflicts, p);
    }
    if conflicts == {} {
      forall p ensures KeepsAt(base, t, s, m, p) {
        assert p in all ==> Settled(base, t, s, m, conflicts, p);
      }
    }
  }

  /** One path: equal or one-sided changes are taken, anything else is a conflict. */
  method MergePath(base: Files, t: Files, s: Files, path: Path, merged: Files, conflicts: set<Path>,
                   ghost done: set<Path>)
    returns (merged': Files, conflicts': set<Path>)
    requires path !in done && AllSettled(base, t, s, merged, conflicts, done)
    ensures AllSettled(base, t, s, merged', conflicts', done + {path})
  {
    var b, l, r := At(base, path), At(t, path), At(s, path);
    merged', conflicts' := merged, conflicts;
    if l == r { merged' := Put(merged, path, l); }
    else if r == b { merged' := Put(merged, path, l); }
    else if l == b { merged' := Put(merged, path, r); }
    else { conflicts' := conflicts + {path}; }
    SettleOne(base, t, s, merged, conflicts, done, path, merged', conflicts');
  }

  function Put(m: Files, path: Path, chosen: Option<FileData>): Files {
    if chosen.Some? then m[path := chosen.value] else m
  }

  method MergePaths(base: Files, t: Files, s: Files, paths: set<Path>)
    returns (merged: Files, conflicts: set<Path>)
    ensures AllSettled(base, t, s, merged, conflicts, paths)
  {
    merged, conflicts := map[], {};
    var todo := paths;
    ghost var done: set<Path> := {};
    while todo != {}
      invariant todo <= paths && done == paths - todo
      invariant AllSettled(base, t, s, merged, conflicts, done)
      decreases |todo|
    {
      var path :| path in todo;
      merged, conflicts := MergePath(base, t, s, path, merged, conflicts, done);
      todo, done := todo - {path}, done + {path};
    }
    assert done == paths;
  }

  /** The conflicts are exactly the paths changed differently on both sides; without
      conflicts the result keeps the changes of both. */
  method MergeFiles(base: Files, t: Files, s: Files) returns (merged: Files, conflicts: set<Path>)
    ensures conflicts == Conflicts(base, t, s)
    ensures conflicts == {} ==> KeepsChanges(base, t, s, merged)
  {
    merged, conflicts := MergePaths(base, t, s, base.Keys + t.Keys + s.Keys);
    AllAreSettled(base, t, s, merged, conflicts);
  }

  // ------------------------------- merging is replaying, in either order

  /** `onto` with the changes from `base` to `side` replayed. */
  function Replayed(onto: Files, base: Files, side: Files): Files {
    (onto - (base.Keys - side.Keys)) + map p | p in side && Changed(base, side, p) :: side[p]
  }

  lemma ReplayedAt(onto: Files, base: Files, side: Files, p: Path)
    ensures At(Replayed(onto, base, side), p) ==
            if Changed(base, side, p) then At(side, p) else At(onto, p)
  {
  }

  lemma SameFiles(m: Files, n: Files)
    requires forall p :: At(m, p) == At(n, p)
    ensures m == n
  {
    assert forall p :: p in m <==> At(m, p).Some?;
    assert forall p :: p in n <==> At(n, p).Some?;
    forall p | p in m ensures m[p] == n[p] { assert At(m, p) == At(n, p); }
  }

  /** There is no conflict if and only if replaying the source's changes on the
      target and the target's changes on the source agree. */
  lemma CleanIffReplaysCommute(base: Files, t: Files, s: Files)
    ensures Conflicts(base, t, s) == {} <==> Replayed(t, base, s) == Replayed(s, base, t)
  {
    forall p ensures (At(Replayed(t, base, s), p) == At(Replayed(s, base, t), p)) <==>
                     !Conflicting(base, t, s, p) {
      ReplayedAt(t, base, s, p);
      ReplayedAt(s, base, t, p);
    }
    if Conflicts(base, t, s) == {} {
      forall p ensures !Conflicting(base, t, s, p) { assert p !in Conflicts(base, t, s); }
      SameFiles(Replayed(t, base, s), Replayed(s, base, t));
    }
  }

  /** And then the merge is that common tree. */
  lemma MergeIsReplay(base: Files, t: Files, s: Files, m: Files)
    requires KeepsChanges(base, t, s, m)
    ensures m == Replayed(t, base, s) == Replayed(s, base, t)
  {
    forall p ensures At(m, p) == At(Replayed(t, base, s), p) == At(Replayed(s, base, t), p) {
      assert KeepsAt(base, t, s, m, p);
      ReplayedAt(t, base, s, p);
      ReplayedAt(s, base, t, p);
    }
    SameFiles(m, Replayed(t, base, s));
    SameFiles(m, Replayed(s, base, t));
  }

  // ----------------------------------------------- is the result a tree?

  /** One side added a file where the other added something below it. */
  ghost predicate Crossing(base: Files, t: Files, s: Files) {
    exists k, l :: k in t && k !in base && l in s && l !in base && (Above(k, l) || Above(l, k))
  }

  /** Two trees merge without conflict to a tree, that is to something that can be
      written to a directory, if and only if their added paths do not cross. */
  lemma MergedShapeIff(base: Files, t: Files, s: Files, m: Files)
    requires WellShaped(t) && WellShaped(s) && KeepsChanges(base, t, s, m)
    ensures WellShaped(m) <==> !Crossing(base, t, s)
  {
    if Crossing(base, t, s) {
      var k, l :| k in t && k !in base && l in s && l !in base && (Above(k, l) || Above(l, k));
      assert KeepsAt(base, t, s, m, k) && KeepsAt(base, t, s, m, l);
      assert k in m && l in m;
    } else {
      forall k, l | k in m && l in m ensures !Above(k, l) {
        OneSideHasBoth(base, t, s, m, k, l);
      }
      assert KeepsAt(base, t, s, m, []);
    }
  }

  lemma OneSideHasBoth(base: Files, t: Files, s: Files, m: Files, k: Path, l: Path)
    requires WellShaped(t) && WellShaped(s) && KeepsChanges(base, t, s, m)
    requires k in m && l in m && !Crossing(base, t, s)
    ensures !Above(k, l)
  {
    assert KeepsAt(base, t, s, m, k) && KeepsAt(base, t, s, m, l);
    assert Kept(base, t, s, k) && Kept(base, t, s, l);
    if k in t && l in t {
    } else if k in s && l in s {
    } else if k in t {
      assert k !in s && k !in base && l !in t && l !in base;
      assert !(Above(k, l) || Above(l, k));
    } else {
      assert k in s && k !in base && l in t && l !in base;
      assert !(Above(l, k) || Above(k, l));
    }
  }

  /** A path of the merge is in one side, and in both unless that side added it. */
  ghost predicate Kept(base: Files, t: Files, s: Files, p: Path) {
    && (p in t || p in s)
    && (p !in s ==> p !in base)
    && (p !in t ==> p !in base)
  }

  lemma CrossingExample(data: FileData) returns (t: Files, s: Files)
    ensures WellShaped(t) && WellShaped(s)
    ensures Conflicts(map[], t, s) == {} && Crossing(map[], t, s)
  {
    t, s := map[["a"] := data], map[["a", "b"] := data];
    assert Above(["a"], ["a", "b"]);
    assert ["a"] in t && ["a", "b"] in s;
  }

  // --------------------------------------------------- merging branches

  datatype Status = Active | Merged | Discarded
  datatype Branch = Branch(head: Id, status: Status)
  datatype StateNode = StateNode(parents: seq<Id>, files: Files)

  datatype Outcome =
    | Committed(id: Id)
    | SameBranch
    | NoBranch
    | NotActive
    | NoCommonAncestor
    | Conflict(paths: set<Path>)

  function ParentsOf(nodes: map<Id, StateNode>): Dag {
    map n | n in nodes :: nodes[n].parents
  }

  lemma NodeAdded(nodes: map<Id, StateNode>, id: Id, node: StateNode)
    requires Ordered(ParentsOf(nodes)) && (forall n :: n in nodes ==> n < id)
    requires forall q :: q in node.parents ==> q in nodes
    ensures Ordered(ParentsOf(nodes[id := node]))
  {
    var was, now := ParentsOf(nodes), ParentsOf(nodes[id := node]);
    forall n, i | n in now && 0 <= i < |now[n]| ensures now[n][i] in now && now[n][i] < n {
      if n == id { assert now[n][i] in node.parents; } else { assert now[n] == was[n]; }
    }
  }

  class StateDag {
    var nodes: map<Id, StateNode>
    var branches: map<string, Branch>
    var nextId: Id

    ghost predicate Valid()
      reads this
    {
      && (forall n :: n in nodes ==> n < nextId)
      && Ordered(ParentsOf(nodes))
      && (forall b :: b in branches ==> branches[b].head in nodes)
    }

    predicate BothActive(target: string, source: string)
      reads this
    {
      && target in branches && branches[target].status.Active?
      && source in branches && branches[source].status.Active?
    }

    /** A step's state on top of an active branch. */
    method AppendStep(branch: string, files: Files) returns (id: Option<Id>)
      requires Valid()
      modifies this
      ensures Valid()
      ensures id.Some? <==> branch in old(branches) && old(branches[branch].status).Active?
      ensures id.None? ==> nodes == old(nodes) && branches == old(branches)
      ensures id.Some? ==>
                && id.value == old(nextId) && id.value !in old(nodes) && nextId == old(nextId) + 1
                && nodes == old(nodes)[id.value := StateNode([old(branches[branch].head)], files)]
                && branches == old(branches)[branch := Branch(id.value, Active)]
    {
      if branch !in branches || !branches[branch].status.Active? { return None; }
      var b := branches[branch];
      var node := StateNode([b.head], files);
      NodeAdded(nodes, nextId, node);
      id := Some(nextId);
      nodes := nodes[nextId := node];
      branches := branches[branch := b.(head := nextId)];
      nextId := nextId + 1;
    }

    /** The transaction: one new state, the target's head, the source's status. */
    method Commit(target: string, source: string, merged: Files) returns (id: Id)
      requires Valid() && target != source && BothActive(target, source)
      modifies this
      ensures Valid() && id !in old(nodes) && id == old(nextId) && nextId == id + 1
      ensures nodes == old(nodes)[id := StateNode([old(branches[target].head), old(branches[source].head)], merged)]
      ensures branches == old(branches)[target := Branch(id, Active)]
                                       [source := Branch(old(branches[source].head), Merged)]
    {
      var tb, sb := branches[target], branches[source];
      var node := StateNode([tb.head, sb.head], merged);
      id := nextId;
      NodeAdded(nodes, id, node);
      nodes := nodes[id := node];
      branches := branches[target := tb.(head := id)][source := sb.(status := Merged)];
      nextId := nextId + 1;
    }

    /** Merge `source` into `target`: both must be active, the base is the picked
        ancestor, a conflict or refusal changes nothing. */
    method MergeBranches(target: string, source: string) returns (r: Outcome, ghost base: Id)
      requires Valid()
      modifies this
      ensures Valid()
      ensures !r.Committed? ==> nodes == old(nodes) && branches == old(branches)
      ensures r.SameBranch? <==> target == source
      ensures r.NoBranch? <==> target != source && !(target in old(branches) && source in old(branches))
      ensures r.NotActive? <==> target != source && target in old(branches) && source in old(branches) &&
                                !old(BothActive(target, source))
      ensures r.NoCommonAncestor? <==>
                && target != source && old(BothActive(target, source))
                && forall x :: !Common(ParentsOf(old(nodes)), x, old(branches[target].head),
                                       old(branches[source].head))
      ensures r.Conflict? || r.Committed? ==>
                && old(BothActive(target, source)) && target != source
                && Picked(ParentsOf(old(nodes)), old(branches[target].head), old(branches[source].head), base)
                && base in old(nodes)
      ensures r.Conflict? ==>
                && r.paths != {}
                && r.paths == Conflicts(old(nodes[base].files), old(nodes[branches[target].head].files),
                                        old(nodes[branches[source].head].files))
      ensures r.Committed? ==>
                && r.id == old(nextId) && nextId == r.id + 1
                && r.id !in old(nodes) && nodes.Keys == old(nodes.Keys) + {r.id}
                && (forall n :: n in old(nodes) ==> nodes[n] == old(nodes)[n])
                && nodes[r.id].parents == [old(branches[target].head), old(branches[source].head)]
                && KeepsChanges(old(nodes[base].files), old(nodes[branches[target].head].files),
                                old(nodes[branches[source].head].files), nodes[r.id].files)
                && branches == old(branches)[target := Branch(r.id, Active)]
                                            [source := Branch(old(branches[source].head), Merged)]
    {
      base := 0;
      if target == source { return SameBranch, base; }
      if target !in branches || source !in branches { return NoBranch, base; }
      var tb, sb := branches[target], branches[source];
      if !tb.status.Active? || !sb.status.Active? { return NotActive, base; }
      var found := Lca(ParentsOf(nodes), tb.head, sb.head);
      if found.None? { return NoCommonAncestor, base; }
      base := found.value;
      AncIsOlder(ParentsOf(nodes), base, tb.head);
      var merged, conflicts := MergeFiles(nodes[found.value].files, nodes[tb.head].files, nodes[sb.head].files);
      if conflicts != {} { return Conflict(conflicts), base; }
      var id := Commit(target, source, merged);
      r := Committed(id);
    }
  }

  /** Merge, then rebuild the target's workspace from the new state. Over states that
      are trees, the rebuild of a committed merge succeeds if and only if the two
      sides' added paths do not cross; the merge stays committed either way. */
  method MergeBranch(dag: StateDag, mirror: DeltaReplay.Mirror, target: string, source: string)
    returns (r: Outcome, rebuilt: bool, ghost base: Id)
    requires dag.Valid() && TreeOk(mirror.tree)
    requires forall n :: n in dag.nodes ==> WellShaped(dag.nodes[n].files)
    modifies dag, mirror
    ensures dag.Valid() && TreeOk(mirror.tree)
    ensures !r.Committed? ==> mirror.tree == old(mirror.tree) && dag.nodes == old(dag.nodes)
    ensures r.Committed? ==>
              && old(dag.BothActive(target, source)) && base in old(dag.nodes) && r.id in dag.nodes
              && target in dag.branches && dag.branches[target].head == r.id
              && (rebuilt <==> !Crossing(old(dag.nodes[base].files),
                                         old(dag.nodes[dag.branches[target].head].files),
                                         old(dag.nodes[dag.branches[source].head].files)))
              && (rebuilt ==> Exactly(mirror.tree, dag.nodes[r.id].files))
  {
    rebuilt := false;
    ghost var nodes, branches := dag.nodes, dag.branches;
    r, base := dag.MergeBranches(target, source);
    if r.Committed? {
      var merged := dag.nodes[r.id].files;
      ghost var b, t, s :=
        nodes[base].files, nodes[branches[target].head].files, nodes[branches[source].head].files;
      MergedShapeIff(b, t, s, merged);
      assert KeepsAt(b, t, s, merged, []);
      rebuilt := Transition.Materialize(mirror, merged);
    }
  }

  // ----------------------------------------------- what a wrong base costs

  /** With the target itself as base, that is when the source descends from the
      target and the base is the lowest, a merge has no conflict and takes the source. */
  lemma DescendantMergesCleanly(t: Files, s: Files, m: Files)
    ensures Conflicts(t, t, s) == {}
    ensures KeepsChanges(t, t, s, m) ==> m == s
  {
    if KeepsChanges(t, t, s, m) {
      forall p ensures At(m, p) == At(s, p) { assert KeepsAt(t, t, s, m, p); }
      SameFiles(m, s);
    }
  }

  /** 0 is expanded before its descendant 1. */
  lemma EarlyVisit(dag: Dag)
    requires Ordered(dag) && 0 in dag && dag[0] == [] && 1 in dag && dag[1] == [0]
    requires 2 in dag && dag[2] == [0, 1] && 3 in dag && dag[3] == [2]
    ensures |Order(dag, 3)| > 2 && Order(dag, 3)[..3] == [3, 2, 0]
  {
    var last := Visit(dag, [0, 1], {3, 2});
    assert last != [] && last[0] == 0;
    assert [2][1..] + dag[2] == [0, 1] && {3} + {2} == {3, 2};
    assert Visit(dag, [2], {3}) == [2] + last;
    var nothing: set<Id> := {};
    assert [3][1..] + dag[3] == [2] && nothing + {3} == {3};
    assert Order(dag, 3) == [3] + ([2] + last);
  }

  /** A branch is forked from 0 and makes 1; it is merged into the original, still
      at 0, giving 2; the original goes on to 3. Merging 3 into another branch at 1
      uses 0 as the base, although 3 descends from 1. */
  lemma WrongBase(dag: Dag)
    requires Ordered(dag) && 0 in dag && dag[0] == [] && 1 in dag && dag[1] == [0]
    requires 2 in dag && dag[2] == [0, 1] && 3 in dag && dag[3] == [2]
    ensures Anc(dag, 1, 3) && Picked(dag, 1, 3, 0) && !Lowest(dag, 0, 1, 3)
  {
    ParentOf(dag, 0, 1);
    ParentOf(dag, 1, 2);
    ParentOf(dag, 2, 3);
    AncTransitive(dag, 1, 2, 3);
    assert !Anc(dag, 3, 1) && !Anc(dag, 2, 1) by {
      if Anc(dag, 3, 1) { AncIsOlder(dag, 3, 1); }
      if Anc(dag, 2, 1) { AncIsOlder(dag, 2, 1); }
    }
    EarlyVisit(dag);
    var order := Order(dag, 3);
    assert order[0] == order[..3][0] && order[1] == order[..3][1] && order[2] == order[..3][2];
    assert Common(dag, 1, 1, 3);
  }

  /** The merge from `y` and `z` with base `x`, where `y` would be the lowest, is right,
      that is `z`, iff `z` leaves every path that `y` changed as `y` left it. */
  lemma WrongBaseIsHarmlessIff(x: Files, y: Files, z: Files)
    ensures Conflicts(x, y, z) == {} && Replayed(y, x, z) == z <==>
            forall p :: Changed(x, y, p) ==> At(z, p) == At(y, p)
  {
    if Conflicts(x, y, z) == {} && Replayed(y, x, z) == z {
      forall p | Changed(x, y, p) ensures At(z, p) == At(y, p) {
        ReplayedAt(y, x, z, p);
        assert p !in Conflicts(x, y, z);
      }
    }
    if forall p :: Changed(x, y, p) ==> At(z, p) == At(y, p) {
      forall p ensures !Conflicting(x, y, z, p) && At(Replayed(y, x, z), p) == At(z, p) {
        ReplayedAt(y, x, z, p);
        assert Changed(x, y, p) ==> At(z, p) == At(y, p);
      }
      SameFiles(Replayed(y, x, z), z);
    }
  }

  /** A path changed twice is reported as a conflict although `z` descends from `y`. */
  lemma SpuriousConflict(x: Files, y: Files, z: Files, p: Path)
    requires Changed(x, y, p) && Changed(y, z, p) && Changed(x, z, p)
    ensures p in Conflicts(x, y, z) && Conflicts(y, y, z) == {}
  {
    assert Conflicting(x, y, z, p);
  }

  /** Going back to `x` is not even reported: the merge commits, and undoes it. */
  lemma LostRevert(x: Files, y: Files)
    ensures Conflicts(x, y, x) == {} && Replayed(y, x, x) == y
    ensures Conflicts(y, y, x) == {} && Replayed(y, y, x) == x
  {
    forall p ensures At(Replayed(y, x, x), p) == At(y, p) && At(Replayed(y, y, x), p) == At(x, p) {
      ReplayedAt(y, x, x, p);
      ReplayedAt(y, y, x, p);
    }
    SameFiles(Replayed(y, x, x), y);
    SameFiles(Replayed(y, y, x), x);
  }

  predicate HasNode(nodes: map<Id, StateNode>, n: Id, parents: seq<Id>, files: Files) {
    n in nodes && nodes[n] == StateNode(parents, files)
  }

  predicate AtHead(branches: map<string, Branch>, b: string, n: Id) {
    b in branches && branches[b] == Branch(n, Active)
  }

  /** `main` at 0 with files `x`; `work` forked and stepped to 1 with files `y`; `other`
      forked there. */
  ghost predicate Forked(nodes: map<Id, StateNode>, branches: map<string, Branch>, x: Files, y: Files) {
    && HasNode(nodes, 0, [], x) && HasNode(nodes, 1, [0], y)
    && AtHead(branches, "main", 0) && AtHead(branches, "work", 1) && AtHead(branches, "other", 1)
  }

  /** `work` merged back into `main`. */
  ghost predicate MergedBack(nodes: map<Id, StateNode>, branches: map<string, Branch>, x: Files, y: Files) {
    && HasNode(nodes, 0, [], x) && HasNode(nodes, 1, [0], y) && HasNode(nodes, 2, [0, 1], y)
    && AtHead(branches, "main", 2) && AtHead(branches, "other", 1)
  }

  method ForkAndStep(x: Files, y: Files) returns (dag: StateDag)
    ensures fresh(dag) && dag.Valid() && dag.nextId == 2 && Forked(dag.nodes, dag.branches, x, y)
  {
    dag := new StateDag;
    dag.nodes, dag.nextId := map[0 := StateNode([], x)], 1;
    dag.branches := map["main" := Branch(0, Active), "work" := Branch(0, Active)];
    var step := dag.AppendStep("work", y);
    dag.branches := dag.branches["other" := Branch(1, Active)];
  }

  lemma FirstBase(dag: Dag, x: Files, y: Files)
    requires Ordered(dag) && 0 in dag && 1 in dag && dag[1] == [0]
    ensures Common(dag, 0, 0, 1)
    ensures forall base :: Picked(dag, 0, 1, base) ==> base == 0
    ensures Conflicts(x, x, y) == {}
  {
    ParentOf(dag, 0, 1);
    forall base | Picked(dag, 0, 1, base) ensures base == 0 { AncIsOlder(dag, base, 0); }
    DescendantMergesCleanly(x, y, y);
  }

  method MergeBack(dag: StateDag, x: Files, y: Files)
    requires dag.Valid() && dag.nextId == 2 && Forked(dag.nodes, dag.branches, x, y)
    modifies dag
    ensures dag.Valid() && dag.nextId == 3 && MergedBack(dag.nodes, dag.branches, x, y)
  {
    FirstBase(ParentsOf(dag.nodes), x, y);
    var r;
    ghost var base;
    r, base := dag.MergeBranches("main", "work");
    DescendantMergesCleanly(x, y, if r.Committed? then dag.nodes[r.id].files else x);
  }

  /** The whole history by its operations: fork, step, fork, merge back, step, and then
      the merge of the original into the second fork. It ends as the wrong base makes
      it end, and it ends right, with `z`, iff `z` leaves every path that `y` changed
      as `y` left it. */
  method MergeAfterMergeBack(x: Files, y: Files, z: Files) returns (r: Outcome, merged: Files)
    ensures r.Committed? || r.Conflict?
    ensures r.Conflict? ==> r.paths == Conflicts(x, y, z) != {}
    ensures r.Committed? ==> Conflicts(x, y, z) == {} && merged == Replayed(y, x, z)
    ensures r.Committed? && merged == z <==> forall p :: Changed(x, y, p) ==> At(z, p) == At(y, p)
  {
    var dag := ForkAndStep(x, y);
    MergeBack(dag, x, y);
    var step := dag.AppendStep("main", z);
    r, merged := LastMerge(dag, x, y, z);
    WrongBaseIsHarmlessIff(x, y, z);
  }

  method LastMerge(dag: StateDag, x: Files, y: Files, z: Files) returns (r: Outcome, merged: Files)
    requires dag.Valid() && HasNode(dag.nodes, 0, [], x) && HasNode(dag.nodes, 1, [0], y)
    requires HasNode(dag.nodes, 2, [0, 1], y) && HasNode(dag.nodes, 3, [2], z)
    requires AtHead(dag.branches, "main", 3) && AtHead(dag.branches, "other", 1)
    modifies dag
    ensures r.Committed? || r.Conflict?
    ensures r.Conflict? ==> r.paths == Conflicts(x, y, z) != {}
    ensures r.Committed? ==> Conflicts(x, y, z) == {} && merged == Replayed(y, x, z)
  {
    ghost var parents := ParentsOf(dag.nodes);
    LastBase(parents);
    ghost var base;
    r, base := dag.MergeBranches("other", "main");
    merged := map[];
    if r.Committed? {
      merged := dag.nodes[r.id].files;
      MergeIsReplay(x, y, z, merged);
      CleanIffReplaysCommute(x, y, z);
    }
  }

  lemma LastBase(dag: Dag)
    requires Ordered(dag) && 0 in dag && dag[0] == [] && 1 in dag && dag[1] == [0]
    requires 2 in dag && dag[2] == [0, 1] && 3 in dag && dag[3] == [2]
    ensures Common(dag, 1, 1, 3)
    ensures forall base :: Picked(dag, 1, 3, base) ==> base == 0
  {
    WrongBase(dag);
    forall base | Picked(dag, 1, 3, base) ensures base == 0 { PickedIsUnique(dag, 1, 3, base, 0); }
  }
}
