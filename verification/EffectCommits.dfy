/**
 A branch's heads and their files while effects are committed.

 A step that changes files appends a state with the workspace root it snapshotted. A
 metadata step and an effect commit read the head first and append a state that carries
 the root they read. These three take as parent the head at the time of the append. A
 merge reads the head, and later moves it to a state whose parent is the head it read.
 Everything but the effect commit runs under the branch gate. Every read and every
 append is an atomic step of its own, in any interleaving and for any number of tasks.
 */
module EffectCommits {

  type Task = nat
  type Root = string

  datatype Kind = Commit | Metadata | Merge

  /** How a state came about: from files, from a merge, or carried over from the state
      it was read from. */
  datatype Source = Files | Merged(from: nat) | Carried(from: nat, gated: bool)
  datatype Node = Node(root: Root, source: Source) {
    predicate MakesFiles() {
      source.Files? || source.Merged?
    }
  }

  /** `nodes` are the states that were head of the branch, in order; `pending` the tasks
      that have read a head and not yet appended. */
  datatype State = State(nodes: seq<Node>, pending: map<Task, Read>)
  datatype Read = Read(at: nat, kind: Kind)

  datatype Action =
    | Snapshot(root: Root)
    | ReadHead(t: Task, kind: Kind)
    | Append(t: Task, merged: Root)    // `merged` is used by a merge only
    | Drop(t: Task)

  /** The gate is held between a gated read and its append. */
  ghost predicate GateFree(s: State) {
    forall t :: t in s.pending ==> s.pending[t].kind.Commit?
  }

  ghost predicate Enabled(s: State, a: Action) {
    match a
    case Snapshot(_) => GateFree(s)
    case ReadHead(t, kind) => t !in s.pending && s.nodes != [] && (kind.Commit? || GateFree(s))
    case Append(t, _) => t in s.pending && s.pending[t].at < |s.nodes|
    case Drop(t) => t in s.pending
  }

  function Appended(nodes: seq<Node>, r: Read, merged: Root): Node
    requires r.at < |nodes|
  {
    if r.kind.Merge? then Node(merged, Merged(r.at))
    else Node(nodes[r.at].root, Carried(r.at, r.kind.Metadata?))
  }

  ghost function Apply(s: State, a: Action): State
    requires Enabled(s, a)
  {
    match a
    case Snapshot(root) => s.(nodes := s.nodes + [Node(root, Files)])
    case ReadHead(t, kind) => s.(pending := s.pending[t := Read(|s.nodes| - 1, kind)])
    case Append(t, merged) =>
      State(s.nodes + [Appended(s.nodes, s.pending[t], merged)], s.pending - {t})
    case Drop(t) => s.(pending := s.pending - {t})
  }

  /** Only effect commits strictly between `i` and `j`. */
  ghost predicate OnlyCommits(nodes: seq<Node>, i: nat, j: nat) {
    forall k :: i < k < j && k < |nodes| ==> nodes[k].source.Carried? && !nodes[k].source.gated
  }

  /** A carried state has the root of an older one; a gated append, merges included, has
      overlooked nothing but effect commits. */
  ghost predicate NodeOk(nodes: seq<Node>, k: nat) {
    k < |nodes| ==>
      var c := nodes[k].source;
      && (c.Carried? ==> c.from < k && nodes[c.from].root == nodes[k].root)
      && (c.Carried? && c.gated ==> OnlyCommits(nodes, c.from, k))
      && (c.Merged? ==> c.from < k && OnlyCommits(nodes, c.from, k))
  }

  ghost predicate ReadOk(s: State, r: Read) {
    r.at < |s.nodes| && (!r.kind.Commit? ==> OnlyCommits(s.nodes, r.at, |s.nodes|))
  }

  /** At most one task is between a gated read and its append. */
  ghost predicate OneGated(s: State) {
    forall t, u :: t in s.pending && u in s.pending && !s.pending[t].kind.Commit? && !s.pending[u].kind.Commit? ==>
      t == u
  }

  ghost predicate Inv(s: State) {
    && (forall k :: 0 <= k < |s.nodes| ==> NodeOk(s.nodes, k))
    && (forall t :: t in s.pending ==> ReadOk(s, s.pending[t]))
    && OneGated(s)
  }

  lemma StepKeepsInv(s: State, a: Action)
    requires Inv(s) && Enabled(s, a)
    ensures Inv(Apply(s, a)) && s.nodes <= Apply(s, a).nodes
  {
    var s' := Apply(s, a);
    forall k | 0 <= k < |s'.nodes| ensures NodeOk(s'.nodes, k) {
      if k < |s.nodes| { assert NodeOk(s.nodes, k); }
      else if a.Append? { assert ReadOk(s, s.pending[a.t]); }
    }
    forall t | t in s'.pending ensures ReadOk(s', s'.pending[t]) {
      assert t in s.pending ==> ReadOk(s, s.pending[t]);
    }
  }

  ghost predicate Next(s: State, s': State) {
    exists a :: Enabled(s, a) && s' == Apply(s, a)
  }

  ghost predicate StepAt(run: seq<State>, i: nat) {
    0 < i < |run| ==> Next(run[i - 1], run[i])
  }

  /** A run from a branch's first state, whatever its root. */
  ghost predicate IsRun(run: seq<State>) {
    && run != [] && run[0].pending == map[] && |run[0].nodes| == 1 && run[0].nodes[0].source.Files?
    && forall i :: 0 <= i < |run| ==> StepAt(run, i)
  }

  lemma {:induction false} RunKeepsInv(run: seq<State>, i: nat)
    requires IsRun(run) && i < |run|
    ensures Inv(run[i])
  {
    if i > 0 {
      RunKeepsInv(run, i - 1);
      assert StepAt(run, i);
      var s, s' := run[i - 1], run[i];
      var a :| Enabled(s, a) && s' == Apply(s, a);
      StepKeepsInv(s, a);
    }
  }

  // ------------------------------------------------- the files of a head

  ghost predicate NoFiles(nodes: seq<Node>, i: nat, j: nat) {
    forall k :: i < k < j && k < |nodes| ==> !nodes[k].MakesFiles()
  }

  /** State `k` was carried over from before `n` with other files than `n` has. */
  ghost predicate Overwrites(nodes: seq<Node>, n: nat, k: nat) {
    && n < k < |nodes| && nodes[k].source.Carried? && nodes[k].source.from < n
    && nodes[nodes[k].source.from].root != nodes[n].root
  }

  /** The head has the files of state `n` all the way to `m`. */
  ghost predicate KeepsFiles(nodes: seq<Node>, n: nat, m: nat) {
    forall k :: n <= k < m && k < |nodes| ==> nodes[k].root == nodes[n].root
  }

  lemma {:induction false} CarriedFromStep(s: State, n: nat, m: nat)
    requires Inv(s) && n < m <= |s.nodes| && s.nodes[n].MakesFiles() && NoFiles(s.nodes, n, m)
    requires forall k :: n < k < m ==> !Overwrites(s.nodes, n, k)
    ensures KeepsFiles(s.nodes, n, m)
    decreases m
  {
    if m > n + 1 {
      CarriedFromStep(s, n, m - 1);
      assert NodeOk(s.nodes, m - 1) && !Overwrites(s.nodes, n, m - 1);
    }
  }

  /** Until files change again, the head keeps the files of a step or merge if and only if
      no effect commit that read the head before its append, and read other files,
      appends after it. Gated appends never do that. */
  lemma StepFilesKeptIff(run: seq<State>, i: nat, n: nat, m: nat)
    requires IsRun(run) && i < |run| && n < m <= |run[i].nodes|
    requires run[i].nodes[n].MakesFiles() && NoFiles(run[i].nodes, n, m)
    ensures KeepsFiles(run[i].nodes, n, m) <==> forall k :: n < k < m ==> !Overwrites(run[i].nodes, n, k)
    ensures forall k :: n < k < m && Overwrites(run[i].nodes, n, k) ==> !run[i].nodes[k].source.gated
  {
    var s := run[i];
    RunKeepsInv(run, i);
    if forall k :: n < k < m ==> !Overwrites(s.nodes, n, k) { CarriedFromStep(s, n, m); }
    forall k | n < k < m && Overwrites(s.nodes, n, k)
      ensures s.nodes[k].root != s.nodes[n].root && !s.nodes[k].source.gated
    {
      assert NodeOk(s.nodes, k);
    }
  }

  /** A commit reads the head, a step appends its files, the commit appends: the head
      has the files from before the step. */
  lemma StepFilesLost(x: Root, y: Root) returns (run: seq<State>)
    requires x != y
    ensures IsRun(run) && var s := run[|run| - 1];
            |s.nodes| == 3 && s.nodes[1] == Node(y, Files) && s.nodes[2].root == x
  {
    var s0 := State([Node(x, Files)], map[]);
    var s1 := Apply(s0, ReadHead(0, Commit));
    var s2 := Apply(s1, Snapshot(y));
    var s3 := Apply(s2, Append(0, x));
    run := [s0, s1, s2, s3];
    assert Next(s0, s1) by { assert Enabled(s0, ReadHead(0, Commit)); }
    assert Next(s1, s2) by { assert Enabled(s1, Snapshot(y)); }
    assert Next(s2, s3) by { assert Enabled(s2, Append(0, x)); }
    assert StepAt(run, 1) && StepAt(run, 2) && StepAt(run, 3);
  }

  // ------------------------------------------- the states behind a head

  /** A merge's parent is the head it read, any other state's the head before it. */
  function Parent(nodes: seq<Node>, k: nat): nat
    requires 0 < k < |nodes|
  {
    if nodes[k].source.Merged? then nodes[k].source.from else k - 1
  }

  /** `k` is in the chain of parents of `h`. */
  ghost predicate Behind(nodes: seq<Node>, h: nat, k: nat)
    decreases h
  {
    h == k || (0 < h < |nodes| && Parent(nodes, h) < h && Behind(nodes, Parent(nodes, h), k))
  }

  /** A merge that read the head before state `k` and moved it after. */
  ghost predicate Bypasses(nodes: seq<Node>, m: nat, k: nat) {
    k < m < |nodes| && nodes[m].source.Merged? && nodes[m].source.from < k
  }

  lemma {:induction false} BehindIsOlder(nodes: seq<Node>, h: nat, k: nat)
    requires Behind(nodes, h, k)
    ensures k <= h
    decreases h
  {
    if h != k { BehindIsOlder(nodes, Parent(nodes, h), k); }
  }

  lemma {:induction false} BehindUnlessBypassed(s: State, h: nat, k: nat)
    requires Inv(s) && k <= h < |s.nodes| && forall m :: k < m <= h ==> !Bypasses(s.nodes, m, k)
    ensures Behind(s.nodes, h, k)
    decreases h
  {
    if h > k {
      assert NodeOk(s.nodes, h) && !Bypasses(s.nodes, h, k);
      BehindUnlessBypassed(s, Parent(s.nodes, h), k);
    }
  }

  lemma {:induction false} BypassedIsGone(s: State, m: nat, h: nat, k: nat)
    requires Inv(s) && Bypasses(s.nodes, m, k) && m <= h < |s.nodes|
    ensures !Behind(s.nodes, h, k)
    decreases h
  {
    assert NodeOk(s.nodes, h);
    if h == m {
      if Behind(s.nodes, Parent(s.nodes, h), k) { BehindIsOlder(s.nodes, Parent(s.nodes, h), k); }
    } else {
      assert s.nodes[h].source.Merged? ==> !(s.nodes[h].source.from < m < h);
      BypassedIsGone(s, m, Parent(s.nodes, h), k);
    }
  }

  /** In every run, a state is behind the head if and only if no merge that read the head
      before it moved the head after it; and only an effect commit's state can be
      bypassed like that. */
  lemma BehindHeadIff(run: seq<State>, i: nat, k: nat)
    requires IsRun(run) && i < |run| && k < |run[i].nodes|
    ensures var nodes := run[i].nodes;
            && (Behind(nodes, |nodes| - 1, k) <==> forall m :: k < m < |nodes| ==> !Bypasses(nodes, m, k))
            && (forall m :: Bypasses(nodes, m, k) ==> nodes[k].source.Carried? && !nodes[k].source.gated)
  {
    var s := run[i];
    RunKeepsInv(run, i);
    if m :| k < m < |s.nodes| && Bypasses(s.nodes, m, k) {
      BypassedIsGone(s, m, |s.nodes| - 1, k);
    } else {
      BehindUnlessBypassed(s, |s.nodes| - 1, k);
    }
    forall m | Bypasses(s.nodes, m, k) ensures s.nodes[k].source.Carried? && !s.nodes[k].source.gated {
      assert NodeOk(s.nodes, m);
    }
  }

  /** A merge reads the head, an effect is committed, the merge moves the head: the
      committed effect's state is no longer behind it. */
  lemma CommitBypassed(x: Root, y: Root) returns (run: seq<State>)
    ensures IsRun(run) && var nodes := run[|run| - 1].nodes;
            |nodes| == 3 && nodes[1].source == Carried(0, false) && !Behind(nodes, 2, 1)
  {
    var s0 := State([Node(x, Files)], map[]);
    var s1 := Apply(s0, ReadHead(0, Merge));
    var s2 := Apply(s1, ReadHead(1, Commit));
    var s3 := Apply(s2, Append(1, x));
    var s4 := Apply(s3, Append(0, y));
    run := [s0, s1, s2, s3, s4];
    assert Next(s0, s1) by { assert Enabled(s0, ReadHead(0, Merge)); }
    assert Next(s1, s2) by { assert Enabled(s1, ReadHead(1, Commit)); }
    assert Next(s2, s3) by { assert Enabled(s2, Append(1, x)); }
    assert Next(s3, s4) by { assert Enabled(s3, Append(0, y)); }
    assert StepAt(run, 1) && StepAt(run, 2) && StepAt(run, 3) && StepAt(run, 4);
    assert Bypasses(s4.nodes, 2, 1);
    BehindHeadIff(run, 4, 1);
  }
}
