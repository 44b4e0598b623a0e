/**
 The kernel's per-branch gates as a transition system: tasks that execute, fork,
 merge and discard branches, a map of gate objects whose entries are removed once
 a branch is terminal, and the durable branch status.

 A step is one atomic action of one task; any interleaving is a run. A task may
 be cancelled at every point, which releases what it holds. `dag.merge` is not
 atomic: reading both statuses and committing are separate steps. A branch is a
 number, its rank in the order of branch ids.
 */
module BranchGates {

  type Task = nat
  type Branch = nat
  type Gate = nat

  datatype Option<T> = None | Some(value: T)

  datatype Status = Active | Merged | Discarded

  datatype Op =
    | Execute(branch: Branch)
    | Fork(branch: Branch)
    | Discard(branch: Branch)
    | Merge(target: Branch, source: Branch)

  function First(op: Op): Branch {
    if op.Merge? then (if op.target <= op.source then op.target else op.source) else op.branch
  }

  function Second(op: Op): Branch
    requires op.Merge?
  {
    if op.target <= op.source then op.source else op.target
  }

  /** The branch a committed discard or merge makes terminal. */
  function Victim(op: Op): Branch
    requires op.Merge? || op.Discard?
  {
    if op.Merge? then op.source else op.branch
  }

  predicate Mentions(op: Op, b: Branch) {
    if op.Merge? then b == op.target || b == op.source else b == op.branch
  }

  /** Where a task is. `Checked`: past its status check. `Setup`: a fork whose new
      branch is not yet registered; `Forked`: after registration. `Terminal`: its victim is durably terminal.
      `Retry`: a discard cleaning up after a merged branch. `Forgotten`: the gate
      entry is removed, the gates are still held. */
  datatype Pc = Start | Wait1 | Hold1 | Wait2 | Hold2 | Checked | Setup(born: Branch) | Forked
              | Terminal | Retry | Forgotten | Done

  datatype Run = Run(op: Op, pc: Pc, first: Option<Gate>, second: Option<Gate>)

  datatype State = State(
    status: map<Branch, Status>,
    gates: map<Branch, Gate>,
    owner: map<Gate, Task>,
    made: seq<Branch>,            // gate object g was made for branch made[g]
    tasks: map<Task, Run>,
    unlisted: set<Branch>)        // forked, not registered: no caller can name it

  predicate IsActive(s: State, b: Branch) {
    b in s.status && s.status[b] == Active
  }

  predicate IsTerminal(s: State, b: Branch) {
    b in s.status && s.status[b] != Active
  }

  /** Task state `r` holds a reference to gate object `g` of branch `b`. */
  predicate Refs(r: Run, b: Branch, g: Gate) {
    || (r.first == Some(g) && b == First(r.op))
    || (r.second == Some(g) && r.op.Merge? && b == Second(r.op))
  }

  predicate HoldsFirst(r: Run) {
    !r.pc.Start? && !r.pc.Wait1? && !r.pc.Done?
  }

  predicate HoldsSecond(r: Run) {
    r.op.Merge? && (r.pc.Hold2? || r.pc.Checked? || r.pc.Terminal? || r.pc.Forgotten?)
  }

  predicate Holds(r: Run, g: Gate) {
    (HoldsFirst(r) && r.first == Some(g)) || (HoldsSecond(r) && r.second == Some(g))
  }

  /** A run that is past its status check on `b` and has not made `b` terminal. */
  predicate Past(r: Run, b: Branch) {
    && Mentions(r.op, b)
    && (|| r.pc.Checked? || r.pc.Setup? || r.pc.Forked?
        || ((r.pc.Terminal? || r.pc.Forgotten?) && r.op.Merge? && b == r.op.target))
  }

  // --------------------------------------------------------------- steps

  datatype Action =
    | Spawn(task: Task, op: Op)
    | GetFirst(task: Task) | LockFirst(task: Task)
    | GetSecond(task: Task) | LockSecond(task: Task)
    | Check(task: Task)
    | MakeFork(task: Task, born: Branch) | Register(task: Task) | Abandon(task: Task)
    | Commit(task: Task) | Forget(task: Task)
    | Finish(task: Task)          // return, error or cancellation

  predicate Enabled(s: State, a: Action) {
    if a.Spawn? then
      && a.task !in s.tasks
      && (forall b :: Mentions(a.op, b) ==> b !in s.unlisted)
      && (a.op.Merge? ==> a.op.target != a.op.source)
    else
      a.task in s.tasks &&
      var r := s.tasks[a.task];
      match a
      case GetFirst(_) => r.pc.Start?
      case LockFirst(_) => r.pc.Wait1? && r.first.Some? && r.first.value !in s.owner
      case GetSecond(_) => r.pc.Hold1? && r.op.Merge?
      case LockSecond(_) => r.pc.Wait2? && r.second.Some? && r.second.value !in s.owner
      case Check(_) => if r.op.Merge? then r.pc.Hold2? else r.pc.Hold1?
      case MakeFork(_, born) =>
        r.pc.Checked? && r.op.Fork? && born !in s.status
        && (forall t :: t in s.tasks ==> !Mentions(s.tasks[t].op, born))
      case Register(_) => r.pc.Setup?
      case Abandon(_) => r.pc.Setup?
      case Commit(_) => r.pc.Checked? && (r.op.Merge? || r.op.Discard?)
      case Forget(_) => (r.pc.Terminal? || r.pc.Retry?) && (r.op.Merge? || r.op.Discard?)
      case Finish(_) => !r.pc.Done?
  }

  /** `branch_gate`: the entry of the map, a new gate object on first use. */
  function GateOf(s: State, b: Branch): Gate {
    if b in s.gates then s.gates[b] else |s.made|
  }

  function WithGate(s: State, b: Branch): State {
    if b in s.gates then s
    else s.(gates := s.gates[b := |s.made|], made := s.made + [b])
  }

  function WithRun(s: State, t: Task, r: Run): State {
    s.(tasks := s.tasks[t := r])
  }

  function Released(s: State, t: Task): map<Gate, Task> {
    map g | g in s.owner && s.owner[g] != t :: s.owner[g]
  }

  function Finished(s: State, t: Task): State
    requires t in s.tasks
  {
    s.(owner := Released(s, t),
       tasks := s.tasks[t := Run(s.tasks[t].op, Done, None, None)])
  }

  function Apply(s: State, a: Action): State
    requires Enabled(s, a)
  {
    if a.Spawn? then WithRun(s, a.task, Run(a.op, Start, None, None))
    else
      var t, r := a.task, s.tasks[a.task];
      match a
      case GetFirst(_) =>
        var b := First(r.op);
        WithRun(WithGate(s, b), t, r.(pc := Wait1, first := Some(GateOf(s, b))))
      case LockFirst(_) =>
        WithRun(s.(owner := s.owner[r.first.value := t]), t, r.(pc := Hold1))
      case GetSecond(_) =>
        var b := Second(r.op);
        WithRun(WithGate(s, b), t, r.(pc := Wait2, second := Some(GateOf(s, b))))
      case LockSecond(_) =>
        WithRun(s.(owner := s.owner[r.second.value := t]), t, r.(pc := Hold2))
      case Check(_) =>
        if r.op.Merge? then
          if IsActive(s, r.op.target) && IsActive(s, r.op.source) then WithRun(s, t, r.(pc := Checked))
          else Finished(s, t)
        else if IsActive(s, r.op.branch) then WithRun(s, t, r.(pc := Checked))
        else if r.op.Discard? && r.op.branch in s.status && s.status[r.op.branch] == Merged then
          WithRun(s, t, r.(pc := Retry))
        else Finished(s, t)
      case MakeFork(_, born) =>
        WithRun(s.(status := s.status[born := Active], unlisted := s.unlisted + {born}), t,
                r.(pc := Setup(born)))
      case Register(_) =>
        WithRun(s.(unlisted := s.unlisted - {r.pc.born}), t, r.(pc := Forked))
      case Abandon(_) =>
        Finished(s.(status := s.status[r.pc.born := Discarded]), t)
      case Commit(_) =>
        var now := if r.op.Merge? then Merged else Discarded;
        WithRun(s.(status := s.status[Victim(r.op) := now]), t, r.(pc := Terminal))
      case Forget(_) =>
        WithRun(s.(gates := s.gates - {Victim(r.op)}), t, r.(pc := Forgotten))
      case Finish(_) => Finished(s, t)
  }

  function Initial(status: map<Branch, Status>): State {
    State(status, map[], map[], [], map[], {})
  }

  ghost predicate Next(s: State, s': State) {
    exists a :: Enabled(s, a) && s' == Apply(s, a)
  }

  ghost predicate StepAt(run: seq<State>, i: nat)
    requires 0 < i < |run|
  {
    Next(run[i - 1], run[i])
  }

  /** A run from any durable status, with no task and no gate yet. */
  ghost predicate IsRun(run: seq<State>) {
    && |run| > 0 && run[0] == Initial(run[0].status)
    && forall i :: 0 < i < |run| ==> StepAt(run, i)
  }

  // ---------------------------------------------------------- invariant

  /** Which gate references a task has at each point. */
  predicate RunOk(r: Run) {
    && (r.op.Merge? ==> r.op.target != r.op.source)
    && (r.first.Some? <==> !r.pc.Start? && !r.pc.Done?)
    && (r.second.Some? <==> r.op.Merge? && (r.pc.Wait2? || HoldsSecond(r)))
    && (r.pc.Wait2? || r.pc.Hold2? ==> r.op.Merge?)
    && (r.pc.Setup? || r.pc.Forked? ==> r.op.Fork?)
    && (r.pc.Terminal? || r.pc.Forgotten? ==> r.op.Merge? || r.op.Discard?)
    && (r.pc.Retry? ==> r.op.Discard?)
  }

  ghost predicate GatesMade(s: State) {
    forall b :: b in s.gates ==> s.gates[b] < |s.made| && s.made[s.gates[b]] == b
  }

  /** `g` is a gate of `b`, and the map's current one unless `b` is terminal. */
  predicate RefOk(s: State, b: Branch, g: Gate) {
    && g < |s.made| && s.made[g] == b
    && (!IsTerminal(s, b) ==> b in s.gates && s.gates[b] == g)
  }

  predicate LockedBy(s: State, g: Gate, t: Task) {
    g in s.owner && s.owner[g] == t
  }

  /** The part of the invariant that concerns task `t` alone. */
  ghost predicate RunInv(s: State, t: Task)
    requires t in s.tasks
  {
    var r := s.tasks[t];
    && RunOk(r)
    && (r.first.Some? ==> RefOk(s, First(r.op), r.first.value))
    && (r.second.Some? ==> RefOk(s, Second(r.op), r.second.value))
    && (HoldsFirst(r) ==> LockedBy(s, r.first.value, t))
    && (HoldsSecond(r) ==> LockedBy(s, r.second.value, t))
    && (Past(r, First(r.op)) ==> IsActive(s, First(r.op)))
    && (r.op.Merge? && Past(r, Second(r.op)) ==> IsActive(s, Second(r.op)))
    && (r.pc.Terminal? || r.pc.Retry? ==> IsTerminal(s, Victim(r.op)))
    && First(r.op) !in s.unlisted && (r.op.Merge? ==> Second(r.op) !in s.unlisted)
    && (r.pc.Setup? ==> r.pc.born in s.unlisted && IsActive(s, r.pc.born))
  }

  ghost predicate SharedInv(s: State) {
    && GatesMade(s)
    && (forall g :: g in s.owner ==> s.owner[g] in s.tasks && Holds(s.tasks[s.owner[g]], g))
    && (forall t, u :: t in s.tasks && u in s.tasks && s.tasks[t].pc.Setup? && t != u ==>
          s.tasks[u].pc != s.tasks[t].pc)
    && (forall b :: b in s.unlisted ==> b in s.status)
  }

  ghost predicate Inv(s: State) {
    SharedInv(s) && forall t :: t in s.tasks ==> RunInv(s, t)
  }

  /** Two tasks past their check on one branch are the same task. */
  lemma Exclusive(s: State, t: Task, u: Task, b: Branch)
    requires Inv(s) && t in s.tasks && u in s.tasks
    requires Past(s.tasks[t], b) && Past(s.tasks[u], b)
    ensures t == u && IsActive(s, b)
  {
    assert RunInv(s, t) && RunInv(s, u);
    var g := HeldGate(s.tasks[t], b);
    var h := HeldGate(s.tasks[u], b);
    assert RefOk(s, b, g) && RefOk(s, b, h);
  }

  lemma HeldGate(r: Run, b: Branch) returns (g: Gate)
    requires RunOk(r) && Past(r, b)
    ensures Refs(r, b, g) && Holds(r, g)
  {
    if b == First(r.op) { g := r.first.value; } else { g := r.second.value; }
  }

  /** A task untouched by a step keeps its part when the step keeps the status of
      its branches, its gates and its locks. */
  lemma OthersKeep(s: State, s': State, u: Task)
    requires Inv(s) && u in s.tasks && u in s'.tasks && s'.tasks[u] == s.tasks[u]
    requires s.made <= s'.made
    requires forall b :: b in s.gates ==>
               IsTerminal(s', b) || (b in s'.gates && s'.gates[b] == s.gates[b])
    requires forall b :: IsTerminal(s, b) ==> IsTerminal(s', b)
    requires forall g :: LockedBy(s, g, u) ==> LockedBy(s', g, u)
    requires forall b :: Past(s.tasks[u], b) && IsActive(s, b) ==> IsActive(s', b)
    requires forall b :: b in s'.unlisted && b !in s.unlisted ==> !Mentions(s.tasks[u].op, b)
    requires s.tasks[u].pc.Setup? ==>
               s.tasks[u].pc.born in s'.unlisted && IsActive(s', s.tasks[u].pc.born)
    ensures RunInv(s', u)
  {
    assert RunInv(s, u);
  }

  lemma SpawnKeepsInv(s: State, a: Action)
    requires Inv(s) && Enabled(s, a) && a.Spawn?
    ensures Inv(Apply(s, a))
  {
    var s' := Apply(s, a);
    forall u | u in s'.tasks ensures RunInv(s', u) {
      if u != a.task { OthersKeep(s, s', u); }
    }
  }

  lemma GetFirstOwn(s: State, a: Action)
    requires Inv(s) && Enabled(s, a) && a.GetFirst?
    ensures RunInv(Apply(s, a), a.task)
  {
    assert RunInv(s, a.task);
  }

  lemma GetFirstOthers(s: State, a: Action, u: Task)
    requires Inv(s) && Enabled(s, a) && a.GetFirst? && u in s.tasks && u != a.task
    ensures RunInv(Apply(s, a), u)
  {
    assert RunInv(s, u) && RunInv(s, a.task);
    OthersKeep(s, Apply(s, a), u);
  }

  lemma GetFirstShared(s: State, a: Action)
    requires Inv(s) && Enabled(s, a) && a.GetFirst?
    ensures SharedInv(Apply(s, a))
  {
    assert RunInv(s, a.task);
  }

  lemma GetSecondOwn(s: State, a: Action)
    requires Inv(s) && Enabled(s, a) && a.GetSecond?
    ensures RunInv(Apply(s, a), a.task)
  {
    assert RunInv(s, a.task);
  }

  lemma GetSecondOthers(s: State, a: Action, u: Task)
    requires Inv(s) && Enabled(s, a) && a.GetSecond? && u in s.tasks && u != a.task
    ensures RunInv(Apply(s, a), u)
  {
    assert RunInv(s, u) && RunInv(s, a.task);
    OthersKeep(s, Apply(s, a), u);
  }

  lemma GetSecondShared(s: State, a: Action)
    requires Inv(s) && Enabled(s, a) && a.GetSecond?
    ensures SharedInv(Apply(s, a))
  {
    assert RunInv(s, a.task);
  }

  lemma LockFirstOwn(s: State, a: Action)
    requires Inv(s) && Enabled(s, a) && a.LockFirst?
    ensures RunInv(Apply(s, a), a.task)
  {
    assert RunInv(s, a.task);
  }

  lemma LockFirstOthers(s: State, a: Action, u: Task)
    requires Inv(s) && Enabled(s, a) && a.LockFirst? && u in s.tasks && u != a.task
    ensures RunInv(Apply(s, a), u)
  {
    assert RunInv(s, u) && RunInv(s, a.task);
    OthersKeep(s, Apply(s, a), u);
  }

  lemma LockFirstShared(s: State, a: Action)
    requires Inv(s) && Enabled(s, a) && a.LockFirst?
    ensures SharedInv(Apply(s, a))
  {
    assert RunInv(s, a.task);
  }

  lemma LockSecondOwn(s: State, a: Action)
    requires Inv(s) && Enabled(s, a) && a.LockSecond?
    ensures RunInv(Apply(s, a), a.task)
  {
    assert RunInv(s, a.task);
  }

  lemma LockSecondOthers(s: State, a: Action, u: Task)
    requires Inv(s) && Enabled(s, a) && a.LockSecond? && u in s.tasks && u != a.task
    ensures RunInv(Apply(s, a), u)
  {
    assert RunInv(s, u) && RunInv(s, a.task);
    OthersKeep(s, Apply(s, a), u);
  }

  lemma LockSecondShared(s: State, a: Action)
    requires Inv(s) && Enabled(s, a) && a.LockSecond?
    ensures SharedInv(Apply(s, a))
  {
    assert RunInv(s, a.task);
  }

  lemma FinishKeepsInv(s: State, t: Task)
    requires Inv(s) && t in s.tasks
    ensures Inv(Finished(s, t))
  {
    var s' := Finished(s, t);
    forall u | u in s'.tasks ensures RunInv(s', u) {
      assert RunInv(s, u);
      if u != t { OthersKeep(s, s', u); }
    }
  }

  /** A task that only moves on, with the gates it holds. */
  lemma MoveKeepsInv(s: State, t: Task, pc: Pc)
    requires Inv(s) && t in s.tasks && !pc.Setup?
    requires var r := s.tasks[t]; var r' := r.(pc := pc);
             && RunOk(r') && HoldsFirst(r') == HoldsFirst(r) && HoldsSecond(r') == HoldsSecond(r)
             && (Past(r', First(r.op)) ==> IsActive(s, First(r.op)))
             && (r.op.Merge? && Past(r', Second(r.op)) ==> IsActive(s, Second(r.op)))
             && (pc.Terminal? || pc.Retry? ==> IsTerminal(s, Victim(r.op)))
    ensures Inv(WithRun(s, t, s.tasks[t].(pc := pc)))
  {
    var s' := WithRun(s, t, s.tasks[t].(pc := pc));
    forall u | u in s'.tasks ensures RunInv(s', u) {
      assert RunInv(s, u);
      if u != t { OthersKeep(s, s', u); }
    }
  }

  lemma CheckKeepsInv(s: State, a: Action)
    requires Inv(s) && Enabled(s, a) && a.Check?
    ensures Inv(Apply(s, a))
  {
    var t, r := a.task, s.tasks[a.task];
    assert RunInv(s, t);
    var active := if r.op.Merge? then IsActive(s, r.op.target) && IsActive(s, r.op.source)
                  else IsActive(s, r.op.branch);
    if active { MoveKeepsInv(s, t, Checked); }
    else if r.op.Discard? && r.op.branch in s.status && s.status[r.op.branch] == Merged {
      MoveKeepsInv(s, t, Retry);
    } else { FinishKeepsInv(s, t); }
  }

  lemma MakeForkOwn(s: State, a: Action)
    requires Inv(s) && Enabled(s, a) && a.MakeFork?
    ensures RunInv(Apply(s, a), a.task)
  {
    assert RunInv(s, a.task);
  }

  lemma MakeForkOthers(s: State, a: Action, u: Task)
    requires Inv(s) && Enabled(s, a) && a.MakeFork? && u in s.tasks && u != a.task
    ensures RunInv(Apply(s, a), u)
  {
    assert RunInv(s, u) && RunInv(s, a.task);
    OthersKeep(s, Apply(s, a), u);
  }

  lemma MakeForkShared(s: State, a: Action)
    requires Inv(s) && Enabled(s, a) && a.MakeFork?
    ensures SharedInv(Apply(s, a))
  {
    assert RunInv(s, a.task);
  }

  lemma RegisterOwn(s: State, a: Action)
    requires Inv(s) && Enabled(s, a) && a.Register?
    ensures RunInv(Apply(s, a), a.task)
  {
    assert RunInv(s, a.task);
  }

  lemma RegisterOthers(s: State, a: Action, u: Task)
    requires Inv(s) && Enabled(s, a) && a.Register? && u in s.tasks && u != a.task
    ensures RunInv(Apply(s, a), u)
  {
    assert RunInv(s, u) && RunInv(s, a.task);
    OthersKeep(s, Apply(s, a), u);
  }

  lemma RegisterShared(s: State, a: Action)
    requires Inv(s) && Enabled(s, a) && a.Register?
    ensures SharedInv(Apply(s, a))
  {
    assert RunInv(s, a.task);
  }

  lemma AbandonOwn(s: State, a: Action)
    requires Inv(s) && Enabled(s, a) && a.Abandon?
    ensures RunInv(Apply(s, a), a.task)
  {
    assert RunInv(s, a.task);
  }

  lemma AbandonOthers(s: State, a: Action, u: Task)
    requires Inv(s) && Enabled(s, a) && a.Abandon? && u in s.tasks && u != a.task
    ensures RunInv(Apply(s, a), u)
  {
    assert RunInv(s, u) && RunInv(s, a.task);
    OthersKeep(s, Apply(s, a), u);
  }

  lemma AbandonShared(s: State, a: Action)
    requires Inv(s) && Enabled(s, a) && a.Abandon?
    ensures SharedInv(Apply(s, a))
  {
    assert RunInv(s, a.task);
  }

  lemma CommitOwn(s: State, a: Action)
    requires Inv(s) && Enabled(s, a) && a.Commit?
    ensures RunInv(Apply(s, a), a.task)
  {
    assert RunInv(s, a.task);
  }

  /** Only the committing task is past its check on the branch it makes terminal. */
  lemma VictimIsExclusive(s: State, t: Task, u: Task)
    requires Inv(s) && t in s.tasks && u in s.tasks && u != t && s.tasks[t].pc.Checked?
    requires s.tasks[t].op.Merge? || s.tasks[t].op.Discard?
    ensures IsActive(s, Victim(s.tasks[t].op)) && !Past(s.tasks[u], Victim(s.tasks[t].op))
  {
    var v := Victim(s.tasks[t].op);
    assert Past(s.tasks[t], v);
    Exclusive(s, t, t, v);
    if Past(s.tasks[u], v) { Exclusive(s, t, u, v); }
  }

  lemma CommitOthers(s: State, a: Action, u: Task)
    requires Inv(s) && Enabled(s, a) && a.Commit? && u in s.tasks && u != a.task
    ensures RunInv(Apply(s, a), u)
  {
    assert RunInv(s, u);
    VictimIsExclusive(s, a.task, u);
    OthersKeep(s, Apply(s, a), u);
  }

  lemma CommitShared(s: State, a: Action)
    requires Inv(s) && Enabled(s, a) && a.Commit?
    ensures SharedInv(Apply(s, a))
  {
    assert RunInv(s, a.task);
  }

  lemma ForgetOwn(s: State, a: Action)
    requires Inv(s) && Enabled(s, a) && a.Forget?
    ensures RunInv(Apply(s, a), a.task)
  {
    assert RunInv(s, a.task);
  }

  lemma ForgetOthers(s: State, a: Action, u: Task)
    requires Inv(s) && Enabled(s, a) && a.Forget? && u in s.tasks && u != a.task
    ensures RunInv(Apply(s, a), u)
  {
    assert RunInv(s, u) && RunInv(s, a.task);
    OthersKeep(s, Apply(s, a), u);
  }

  lemma ForgetShared(s: State, a: Action)
    requires Inv(s) && Enabled(s, a) && a.Forget?
    ensures SharedInv(Apply(s, a))
  {
    assert RunInv(s, a.task);
  }

  lemma OwnKeeps(s: State, a: Action)
    requires Inv(s) && Enabled(s, a) && !a.Spawn? && !a.Check? && !a.Finish?
    ensures RunInv(Apply(s, a), a.task)
  {
    match a
    case GetFirst(_) => GetFirstOwn(s, a);
    case GetSecond(_) => GetSecondOwn(s, a);
    case LockFirst(_) => LockFirstOwn(s, a);
    case LockSecond(_) => LockSecondOwn(s, a);
    case MakeFork(_, _) => MakeForkOwn(s, a);
    case Register(_) => RegisterOwn(s, a);
    case Abandon(_) => AbandonOwn(s, a);
    case Commit(_) => CommitOwn(s, a);
    case Forget(_) => ForgetOwn(s, a);
  }

  lemma OthersKept(s: State, a: Action, u: Task)
    requires Inv(s) && Enabled(s, a) && !a.Spawn? && !a.Check? && !a.Finish?
    requires u in s.tasks && u != a.task
    ensures RunInv(Apply(s, a), u)
  {
    match a
    case GetFirst(_) => GetFirstOthers(s, a, u);
    case GetSecond(_) => GetSecondOthers(s, a, u);
    case LockFirst(_) => LockFirstOthers(s, a, u);
    case LockSecond(_) => LockSecondOthers(s, a, u);
    case MakeFork(_, _) => MakeForkOthers(s, a, u);
    case Register(_) => RegisterOthers(s, a, u);
    case Abandon(_) => AbandonOthers(s, a, u);
    case Commit(_) => CommitOthers(s, a, u);
    case Forget(_) => ForgetOthers(s, a, u);
  }

  lemma SharedKept(s: State, a: Action)
    requires Inv(s) && Enabled(s, a) && !a.Spawn? && !a.Check? && !a.Finish?
    ensures SharedInv(Apply(s, a))
  {
    match a
    case GetFirst(_) => GetFirstShared(s, a);
    case GetSecond(_) => GetSecondShared(s, a);
    case LockFirst(_) => LockFirstShared(s, a);
    case LockSecond(_) => LockSecondShared(s, a);
    case MakeFork(_, _) => MakeForkShared(s, a);
    case Register(_) => RegisterShared(s, a);
    case Abandon(_) => AbandonShared(s, a);
    case Commit(_) => CommitShared(s, a);
    case Forget(_) => ForgetShared(s, a);
  }

  lemma OrdinaryKeepsInv(s: State, a: Action, s': State)
    requires Inv(s) && Enabled(s, a) && !a.Spawn? && !a.Check? && !a.Finish?
    requires s' == Apply(s, a) && s'.tasks.Keys == s.tasks.Keys
    ensures Inv(s')
  {
    OwnKeeps(s, a);
    SharedKept(s, a);
    forall u | u in s'.tasks ensures RunInv(s', u) {
      if u != a.task { OthersKept(s, a, u); }
    }
  }

  lemma TasksKept(s: State, a: Action)
    requires Enabled(s, a) && !a.Spawn?
    ensures Apply(s, a).tasks.Keys == s.tasks.Keys
  {
  }

  lemma StepKeepsInv(s: State, a: Action)
    requires Inv(s) && Enabled(s, a)
    ensures Inv(Apply(s, a))
  {
    if a.Spawn? { SpawnKeepsInv(s, a); }
    else if a.Check? { CheckKeepsInv(s, a); }
    else if a.Finish? { FinishKeepsInv(s, a.task); }
    else {
      TasksKept(s, a);
      OrdinaryKeepsInv(s, a, Apply(s, a));
    }
  }

  lemma {:induction false} RunKeepsInv(run: seq<State>, i: nat)
    requires IsRun(run) && i < |run|
    ensures Inv(run[i])
  {
    if i > 0 {
      RunKeepsInv(run, i - 1);
      assert StepAt(run, i);
      var a :| Enabled(run[i - 1], a) && run[i] == Apply(run[i - 1], a);
      StepKeepsInv(run[i - 1], a);
    }
  }

  // ------------------------------------------------------- main results

  /** In every state of every run, a branch has at most one task past its status
      check, and that branch is still active: no step runs on a terminal branch. */
  lemma AtMostOnePastCheck(run: seq<State>, i: nat, t: Task, u: Task, b: Branch)
    requires IsRun(run) && i < |run| && t in run[i].tasks && u in run[i].tasks
    requires Past(run[i].tasks[t], b) && Past(run[i].tasks[u], b)
    ensures t == u && IsActive(run[i], b)
  {
    RunKeepsInv(run, i);
    Exclusive(run[i], t, u, b);
  }

  lemma StepKeepsTerminal(s: State, a: Action, b: Branch)
    requires Inv(s) && Enabled(s, a) && IsTerminal(s, b)
    ensures b in Apply(s, a).status && Apply(s, a).status[b] == s.status[b]
  {
    if !a.Spawn? {
      assert RunInv(s, a.task);
      if a.Commit? { assert Past(s.tasks[a.task], Victim(s.tasks[a.task].op)); }
    }
  }

  lemma NextKeepsTerminal(s: State, s': State, b: Branch)
    requires Inv(s) && Next(s, s') && IsTerminal(s, b)
    ensures b in s'.status && s'.status[b] == s.status[b]
  {
    var a :| Enabled(s, a) && s' == Apply(s, a);
    StepKeepsTerminal(s, a, b);
  }

  /** Merged and Discarded are final over every run, although the merge reads the
      statuses before it commits and a commit overwrites without re-checking. */
  lemma {:induction false} TerminalIsFinal(run: seq<State>, i: nat, j: nat, b: Branch)
    requires IsRun(run) && i <= j < |run| && IsTerminal(run[i], b)
    ensures b in run[j].status && run[j].status[b] == run[i].status[b]
  {
    if i < j {
      TerminalIsFinal(run, i, j - 1, b);
      RunKeepsInv(run, j - 1);
      assert StepAt(run, j);
      NextKeepsTerminal(run[j - 1], run[j], b);
    }
  }

  // ------------------------------------------------------------ deadlock

  /** Task `t` waits for a gate that task `u` holds. */
  predicate WaitsFor(s: State, t: Task, u: Task) {
    && t in s.tasks
    && var r := s.tasks[t];
       || (r.pc.Wait1? && r.first.Some? && LockedBy(s, r.first.value, u))
       || (r.pc.Wait2? && r.second.Some? && LockedBy(s, r.second.value, u))
  }

  function Wanted(r: Run): Branch {
    if r.pc.Wait2? && r.op.Merge? then Second(r.op) else First(r.op)
  }

  /** A blocked task that is itself waited for wants a higher branch than its
      waiter: gates are taken in branch order, whichever gate object it is. */
  lemma WaitsUpward(s: State, t: Task, u: Task, v: Task)
    requires Inv(s) && WaitsFor(s, t, u) && WaitsFor(s, u, v)
    ensures Wanted(s.tasks[t]) < Wanted(s.tasks[u])
  {
    assert RunInv(s, t) && RunInv(s, u);
    var r := s.tasks[t];
    var g := if r.pc.Wait1? then r.first.value else r.second.value;
    assert Holds(s.tasks[u], g);
  }

  /** A cycle of tasks each waiting for the next. */
  predicate IsCycle(s: State, c: seq<Task>) {
    && |c| > 0
    && (forall i :: 0 < i < |c| ==> WaitsFor(s, c[i - 1], c[i]))
    && WaitsFor(s, c[|c| - 1], c[0])
  }

  lemma {:induction false} CycleClimbs(s: State, c: seq<Task>, i: nat)
    requires Inv(s) && IsCycle(s, c) && i < |c|
    ensures c[0] in s.tasks && c[i] in s.tasks
    ensures Wanted(s.tasks[c[0]]) + i <= Wanted(s.tasks[c[i]])
  {
    var after := if i + 1 < |c| then c[i + 1] else c[0];
    assert WaitsFor(s, c[i], after);
    if i > 0 {
      CycleClimbs(s, c, i - 1);
      assert WaitsFor(s, c[i - 1], c[i]);
      WaitsUpward(s, c[i - 1], c[i], after);
    }
  }

  /** No state of any run has a waits-for cycle, for any number of concurrent
      merges in either direction. */
  lemma NoWaitCycle(run: seq<State>, i: nat, c: seq<Task>)
    requires IsRun(run) && i < |run|
    ensures !IsCycle(run[i], c)
  {
    RunKeepsInv(run, i);
    var s := run[i];
    if IsCycle(s, c) {
      var last := |c| - 1;
      CycleClimbs(s, c, last);
      var after := if |c| > 1 then c[1] else c[0];
      assert WaitsFor(s, c[0], after);
      WaitsUpward(s, c[last], c[0], after);
    }
  }

  ghost predicate Blocked(s: State, t: Task) {
    exists u :: WaitsFor(s, t, u)
  }

  ghost predicate Unfinished(s: State, t: Task) {
    t in s.tasks && !s.tasks[t].pc.Done?
  }

  /** Of a non-empty set of tasks, one that wants the highest branch. */
  lemma {:induction false} HighestWanted(s: State, ts: set<Task>) returns (t: Task)
    requires ts != {} && forall u :: u in ts ==> u in s.tasks
    ensures t in ts && forall u :: u in ts ==> Wanted(s.tasks[u]) <= Wanted(s.tasks[t])
    decreases |ts|
  {
    t :| t in ts;
    if ts != {t} {
      var v := HighestWanted(s, ts - {t});
      if Wanted(s.tasks[v]) > Wanted(s.tasks[t]) { t := v; }
    }
  }

  /** As long as a task is unfinished, some unfinished task is not blocked. */
  lemma SomeTaskCanRun(run: seq<State>, i: nat, t: Task) returns (u: Task)
    requires IsRun(run) && i < |run| && Unfinished(run[i], t)
    ensures Unfinished(run[i], u) && !Blocked(run[i], u)
  {
    RunKeepsInv(run, i);
    var s := run[i];
    var blocked := set v | v in s.tasks && Blocked(s, v);
    if t !in blocked { return t; }
    var top := HighestWanted(s, blocked);
    u :| WaitsFor(s, top, u);
    assert Unfinished(s, u) by {
      var r := s.tasks[top];
      var g := if r.pc.Wait1? then r.first.value else r.second.value;
      assert Holds(s.tasks[u], g);
    }
    if Blocked(s, u) {
      var v :| WaitsFor(s, u, v);
      WaitsUpward(s, top, u, v);
    }
  }
}
