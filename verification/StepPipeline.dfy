/**
 Concurrent `execute_step` runs over shared leases, branch heads and the ledger.

 A run is a task with atomic steps; any interleaving is allowed, and a task may
 fail or be cancelled anywhere. Lease checks, policy, connectors and backends
 answer arbitrarily: every refusal point of the code is a possible step. Effect
 commits append nodes without the branch gate and other writers add ledger
 entries at any time. The gate itself is the lock that the branch-gate protocol
 provides for an active branch.
 */
module StepPipeline {
  import Ledger

  type Task = nat
  type Branch = string
  type LeaseId = string

  datatype Option<T> = None | Some(value: T)

  datatype Kind = ToolInvocation | EffectProposed | StateDeltaRecorded | ObservationEmitted
                | DenialIssued | EffectProgress | CapabilityRequest | PolicyDecision

  /** A ledger entry; its sequence number is its position plus one. */
  datatype Entry = Entry(step: Option<Task>, kind: Kind, causedBy: seq<int>, effect: Option<string>)

  datatype LeaseRow = LeaseRow(granted: nat, uses: nat, expiresAt: int, revoked: bool)

  datatype Pc = Waiting | Locked | Checked | Cleared | Tooled | Proposed | Appended | Recorded
              | Denying | DenialSaid | Ok | Denied | Failed

  /** `seen` is the head read at the status check, `node` the node it appended,
      `trail` the positions of its ledger entries and `said` their kinds. */
  datatype Run = Run(branch: Branch, lease: LeaseId, pc: Pc, now: int, seen: nat, consumed: bool,
                     node: Option<nat>, trail: seq<nat>, said: seq<Kind>)

  /** `nodes[b]` is the history of branch `b`, each node with the step that made it
      (none for roots, merges and effect commits); the last one is the head. */
  datatype State = State(
    clock: int,
    leases: map<LeaseId, LeaseRow>,
    log: seq<Entry>,
    nodes: map<Branch, seq<Option<Task>>>,
    gate: map<Branch, Task>,
    tasks: map<Task, Run>)

  predicate IsStepKind(k: Kind) {
    k.ToolInvocation? || k.EffectProposed? || k.StateDeltaRecorded? || k.ObservationEmitted? || k.DenialIssued?
  }

  predicate Over(pc: Pc) {
    pc.Ok? || pc.Denied? || pc.Failed?
  }

  // --------------------------------------------------------------- steps

  datatype Action =
    | Spawn(t: Task, branch: Branch, lease: LeaseId)
    | Lock(t: Task) | ReadHead(t: Task) | Consume(t: Task) | Refuse(t: Task)
    | EmitTool(t: Task) | Propose(t: Task, effect: string) | AppendNode(t: Task)
    | RecordDelta(t: Task) | Observe(t: Task) | SayDenial(t: Task) | ObserveDenial(t: Task)
    | Fail(t: Task)
    // everybody else
    | Tick(now: int) | Issue(lease: LeaseId, row: LeaseRow) | Revoke(lease: LeaseId)
    | CommitNode(branch: Branch) | NoteEffect(owner: Task, effect: string)
    | NoteRequest | NoteDecision(request: nat)

  predicate Usable(row: LeaseRow, now: int) {
    !row.revoked && row.uses > 0 && now < row.expiresAt
  }

  predicate OwnStep(a: Action) {
    !(a.Spawn? || a.Tick? || a.Issue? || a.Revoke? || a.CommitNode? || a.NoteEffect?
      || a.NoteRequest? || a.NoteDecision?)
  }

  predicate Enabled(s: State, a: Action) {
    if OwnStep(a) then
      a.t in s.tasks &&
      var r := s.tasks[a.t];
      match a
      case Lock(_) => r.pc.Waiting? && r.branch !in s.gate
      case ReadHead(_) => r.pc.Locked? && r.branch in s.nodes && s.nodes[r.branch] != []
      case Consume(_) => r.pc.Checked?
      case Refuse(_) => r.pc.Checked? || r.pc.Cleared? || r.pc.Tooled?
      case EmitTool(_) => r.pc.Cleared?
      case Propose(_, f) => r.pc.Tooled? && forall i :: 0 <= i < |s.log| ==> s.log[i].effect != Some(f)
      case AppendNode(_) => (r.pc.Tooled? || r.pc.Proposed?) && r.branch in s.nodes
      case RecordDelta(_) => r.pc.Appended?
      case Observe(_) => r.pc.Recorded?
      case SayDenial(_) => r.pc.Denying?
      case ObserveDenial(_) => r.pc.DenialSaid?
      case _ => !Over(r.pc)
    else
      match a
      case Spawn(t, _, _) => t !in s.tasks
      case Tick(now) => now >= s.clock
      case Issue(l, row) => l !in s.leases && row.uses == row.granted
      case Revoke(l) => l in s.leases
      case CommitNode(b) => b in s.nodes
      case NoteEffect(_, f) => exists i :: 0 <= i < |s.log| && s.log[i].effect == Some(f)
      case NoteDecision(i) => i < |s.log| && s.log[i].kind.CapabilityRequest?
      case _ => true
  }

  function With(s: State, t: Task, r: Run): State {
    s.(tasks := s.tasks[t := r])
  }

  /** Record an entry of task `t`, moving it to `pc`. */
  function Emit(s: State, t: Task, kind: Kind, causedBy: seq<int>, effect: Option<string>, pc: Pc): State
    requires t in s.tasks
  {
    var r := s.tasks[t];
    With(s.(log := s.log + [Entry(Some(t), kind, causedBy, effect)]), t,
         r.(pc := pc, trail := r.trail + [|s.log|], said := r.said + [kind]))
  }

  /** Attribution to the previous entry of the same run. */
  function Previous(r: Run): seq<int> {
    if r.trail == [] then [] else [r.trail[|r.trail| - 1] + 1]
  }

  function Released(s: State, b: Branch): State {
    s.(gate := s.gate - {b})
  }

  function Note(s: State, e: Entry): State {
    s.(log := s.log + [e])
  }

  function Apply(s: State, a: Action): State
    requires Enabled(s, a)
  {
    if OwnStep(a) then
      var t, r := a.t, s.tasks[a.t];
      match a
      case Lock(_) => With(s.(gate := s.gate[r.branch := t]), t, r.(pc := Locked))
      case ReadHead(_) =>
        With(s, t, r.(pc := Checked, seen := |s.nodes[r.branch]| - 1, now := s.clock))
      case Consume(_) =>
        if r.lease in s.leases && Usable(s.leases[r.lease], r.now) then
          var row := s.leases[r.lease];
          With(s.(leases := s.leases[r.lease := row.(uses := row.uses - 1)]), t,
               r.(pc := Cleared, consumed := true))
        else With(s, t, r.(pc := Denying))
      case Refuse(_) => With(s, t, r.(pc := Denying))
      case EmitTool(_) => Emit(s, t, ToolInvocation, [], None, Tooled)
      case Propose(_, f) => Emit(s, t, EffectProposed, Previous(r), Some(f), Proposed)
      case AppendNode(_) =>
        var history := s.nodes[r.branch];
        With(s.(nodes := s.nodes[r.branch := history + [Some(t)]]), t,
             r.(pc := Appended, node := Some(|history|)))
      case RecordDelta(_) => Emit(s, t, StateDeltaRecorded, Previous(r), None, Recorded)
      case Observe(_) => Released(Emit(s, t, ObservationEmitted, Previous(r), None, Ok), r.branch)
      case SayDenial(_) => Emit(s, t, DenialIssued, [], None, DenialSaid)
      case ObserveDenial(_) => Released(Emit(s, t, ObservationEmitted, Previous(r), None, Denied), r.branch)
      case _ =>
        if r.pc.Waiting? then With(s, t, r.(pc := Failed))
        else Released(With(s, t, r.(pc := Failed)), r.branch)
    else
      match a
      case Spawn(t, b, l) => With(s, t, Run(b, l, Waiting, 0, 0, false, None, [], []))
      case Tick(now) => s.(clock := now)
      case Issue(l, row) => s.(leases := s.leases[l := row])
      case Revoke(l) => s.(leases := s.leases[l := s.leases[l].(revoked := true)])
      case CommitNode(b) => s.(nodes := s.nodes[b := s.nodes[b] + [None]])
      case NoteEffect(t, f) => Note(s, Entry(Some(t), EffectProgress, [], Some(f)))
      case NoteRequest => Note(s, Entry(None, CapabilityRequest, [], None))
      case NoteDecision(i) => Note(s, Entry(None, PolicyDecision, [i + 1], None))
  }

  // ---------------------------------------------------------- invariant

  type Log = seq<Entry>
  type Nodes = map<Branch, seq<Option<Task>>>
  type Tasks = map<Task, Run>

  predicate StartsChain(k: Kind) {
    k.ToolInvocation? || k.DenialIssued?
  }

  /** An entry of a step cites the step's previous entry, unless it starts a chain. */
  function CausesOf(trail: seq<nat>, said: seq<Kind>, i: nat): seq<int>
    requires i < |trail| && i < |said|
  {
    if i == 0 || StartsChain(said[i]) then [] else [trail[i - 1] + 1]
  }

  predicate TrailEntry(log: Log, t: Task, trail: seq<nat>, said: seq<Kind>, i: nat)
    requires i < |trail| && i < |said|
  {
    && trail[i] < |log| && (i > 0 ==> trail[i - 1] < trail[i])
    && log[trail[i]].step == Some(t) && log[trail[i]].kind == said[i] && IsStepKind(said[i])
    && log[trail[i]].causedBy == CausesOf(trail, said, i)
  }

  ghost predicate TrailOk(log: Log, t: Task, trail: seq<nat>, said: seq<Kind>) {
    |trail| == |said| && forall i :: 0 <= i < |trail| ==> TrailEntry(log, t, trail, said, i)
  }

  /** What a task has said by the time it is at `pc`. */
  predicate SaidOk(pc: Pc, said: seq<Kind>) {
    var tool, proposal := [ToolInvocation], [ToolInvocation, EffectProposed];
    match pc
    case Waiting => said == [] case Locked => said == []
    case Checked => said == [] case Cleared => said == []
    case Tooled => said == tool
    case Proposed => said == proposal
    case Appended => said == tool || said == proposal
    case Recorded => said == tool + [StateDeltaRecorded] || said == proposal + [StateDeltaRecorded]
    case Ok => said == tool + [StateDeltaRecorded, ObservationEmitted]
               || said == proposal + [StateDeltaRecorded, ObservationEmitted]
    case Denying => said == [] || said == tool
    case DenialSaid => said == [DenialIssued] || said == tool + [DenialIssued]
    case Denied => said == [DenialIssued, ObservationEmitted]
                   || said == tool + [DenialIssued, ObservationEmitted]
    case Failed => true
  }

  predicate MayHaveNode(pc: Pc) {
    pc.Appended? || pc.Recorded? || pc.Ok?
  }

  predicate HasRead(pc: Pc) {
    !pc.Waiting? && !pc.Locked? && !pc.Failed?
  }

  predicate Holding(pc: Pc) {
    !Over(pc) && !pc.Waiting?
  }

  /** No step node strictly between positions `lo` and `hi`. */
  predicate OnlyCommits(history: seq<Option<Task>>, lo: int, hi: int) {
    forall i :: 0 <= i < |history| && lo < i < hi ==> history[i] == None
  }

  /** Between the head it read and the node it appended, or while it has appended
      none, only effect commits moved the branch. */
  predicate NodeOk(nodes: Nodes, t: Task, r: Run) {
    && (r.node.Some? ==> MayHaveNode(r.pc) || r.pc.Failed?)
    && (MayHaveNode(r.pc) ==> r.node.Some?)
    && (HasRead(r.pc) || r.node.Some? ==> r.branch in nodes && r.seen < |nodes[r.branch]|)
    && (r.node.Some? ==>
          && r.seen < r.node.value < |nodes[r.branch]|
          && nodes[r.branch][r.node.value] == Some(t)
          && OnlyCommits(nodes[r.branch], r.seen, r.node.value))
    && (HasRead(r.pc) && Holding(r.pc) && r.node.None? ==>
          OnlyCommits(nodes[r.branch], r.seen, |nodes[r.branch]|))
  }

  predicate GateOk(gate: map<Branch, Task>, t: Task, r: Run) {
    Holding(r.pc) ==> r.branch in gate && gate[r.branch] == t
  }

  /** The step is dispatched: past the lease, or its first entry is its tool
      invocation. */
  predicate Dispatched(r: Run) {
    r.pc.Cleared? || (r.said != [] && r.said[0].ToolInvocation?)
  }

  predicate ConsumedOk(r: Run) {
    && (Dispatched(r) ==> r.consumed)
    && (MayHaveNode(r.pc) ==> r.consumed)
    && (r.pc.Waiting? || r.pc.Locked? || r.pc.Checked? ==> !r.consumed)
  }

  ghost predicate TaskInv(s: State, t: Task)
    requires t in s.tasks
  {
    var r := s.tasks[t];
    && TrailOk(s.log, t, r.trail, r.said) && SaidOk(r.pc, r.said) && NodeOk(s.nodes, t, r)
    && GateOk(s.gate, t, r) && ConsumedOk(r)
  }

  predicate EntryOwned(log: Log, tasks: Tasks, i: nat)
    requires i < |log|
  {
    IsStepKind(log[i].kind) ==>
      log[i].step.Some? && log[i].step.value in tasks && i in tasks[log[i].step.value].trail
  }

  /** Every step entry is on the trail of its step. */
  ghost predicate EntriesOwned(log: Log, tasks: Tasks) {
    forall i :: 0 <= i < |log| ==> EntryOwned(log, tasks, i)
  }

  predicate NodeOwned(nodes: Nodes, tasks: Tasks, b: Branch, i: nat)
    requires b in nodes && i < |nodes[b]|
  {
    nodes[b][i].Some? ==>
      && nodes[b][i].value in tasks
      && tasks[nodes[b][i].value].branch == b && tasks[nodes[b][i].value].node == Some(i)
  }

  ghost predicate NodesOwned(nodes: Nodes, tasks: Tasks) {
    forall b, i :: b in nodes && 0 <= i < |nodes[b]| ==> NodeOwned(nodes, tasks, b, i)
  }

  /** Attribution goes strictly backwards and stays inside one step. */
  predicate LinkOk(log: Log, i: nat)
    requires i < |log|
  {
    forall k :: 0 <= k < |log[i].causedBy| ==>
      1 <= log[i].causedBy[k] <= i && log[log[i].causedBy[k] - 1].step == log[i].step
  }

  /** Only a proposal or a progress note carries an effect, a progress note cites
      nothing, a proposal cites one tool invocation, which cites nothing. */
  predicate EffectOk(log: Log, i: nat)
    requires i < |log|
  {
    && (log[i].effect.Some? ==>
          log[i].kind.EffectProposed? || (log[i].kind.EffectProgress? && log[i].causedBy == []))
    && (log[i].kind.ToolInvocation? ==> log[i].causedBy == [])
    && (log[i].kind.CapabilityRequest? ==> log[i].step == None)
    && (log[i].kind.EffectProposed? ==>
          && |log[i].causedBy| == 1 && 1 <= log[i].causedBy[0] <= i
          && log[log[i].causedBy[0] - 1].kind.ToolInvocation?)
  }

  ghost predicate LogInv(log: Log) {
    && (forall i :: 0 <= i < |log| ==> LinkOk(log, i) && EffectOk(log, i))
    && (forall i, j :: 0 <= i < j < |log| && log[j].kind.EffectProposed? ==>
          log[i].effect.None? || log[i].effect != log[j].effect)
  }

  ghost function Consumers(tasks: Tasks, l: LeaseId): set<Task> {
    set t | t in tasks && tasks[t].lease == l && tasks[t].consumed
  }

  ghost predicate LeaseOk(leases: map<LeaseId, LeaseRow>, tasks: Tasks, l: LeaseId) {
    if l in leases then leases[l].uses + |Consumers(tasks, l)| == leases[l].granted
    else Consumers(tasks, l) == {}
  }

  ghost predicate LeaseInv(leases: map<LeaseId, LeaseRow>, tasks: Tasks) {
    forall l :: LeaseOk(leases, tasks, l)
  }

  ghost predicate Inv(s: State) {
    && (forall t :: t in s.tasks ==> TaskInv(s, t))
    && EntriesOwned(s.log, s.tasks) && NodesOwned(s.nodes, s.tasks)
    && LogInv(s.log) && LeaseInv(s.leases, s.tasks)
  }

  // ----------------------------------------------- what one change keeps

  lemma TrailGrows(log: Log, e: Entry, t: Task, trail: seq<nat>, said: seq<Kind>)
    requires TrailOk(log, t, trail, said)
    ensures TrailOk(log + [e], t, trail, said)
  {
    forall i | 0 <= i < |trail| ensures TrailEntry(log + [e], t, trail, said, i) {
      assert TrailEntry(log, t, trail, said, i);
    }
  }

  lemma TrailAdds(log: Log, e: Entry, t: Task, trail: seq<nat>, said: seq<Kind>)
    requires TrailOk(log, t, trail, said) && e.step == Some(t) && IsStepKind(e.kind)
    requires e.causedBy == if StartsChain(e.kind) || trail == [] then []
                           else [trail[|trail| - 1] + 1]
    ensures TrailOk(log + [e], t, trail + [|log|], said + [e.kind])
  {
    var trail', said' := trail + [|log|], said + [e.kind];
    forall i | 0 <= i < |trail'| ensures TrailEntry(log + [e], t, trail', said', i) {
      if i < |trail| { assert TrailEntry(log, t, trail, said, i); }
      else if i > 0 { assert TrailEntry(log, t, trail, said, i - 1); }
    }
  }

  lemma EntriesKeep(log: Log, e: Entry, tasks: Tasks, t: Task, r: Run)
    requires EntriesOwned(log, tasks) && t in tasks
    requires tasks[t].trail <= r.trail
    requires IsStepKind(e.kind) ==> e.step == Some(t) && |log| in r.trail
    ensures EntriesOwned(log + [e], tasks[t := r])
    ensures EntriesOwned(log, tasks[t := r])
  {
    var log', tasks' := log + [e], tasks[t := r];
    forall i | 0 <= i < |log| ensures EntryOwned(log', tasks', i) && EntryOwned(log, tasks', i) {
      assert EntryOwned(log, tasks, i);
    }
  }

  lemma LogKeeps(log: Log, e: Entry)
    requires LogInv(log) && EffectOk(log + [e], |log|) && LinkOk(log + [e], |log|)
    requires e.kind.EffectProposed? ==> forall i :: 0 <= i < |log| ==> log[i].effect != e.effect
    ensures LogInv(log + [e])
  {
    forall i | 0 <= i < |log| ensures LinkOk(log + [e], i) && EffectOk(log + [e], i) {
      assert LinkOk(log, i) && EffectOk(log, i);
    }
  }

  /** A task whose lease and consumption do not change leaves the lease counts. */
  lemma LeasesIgnore(leases: map<LeaseId, LeaseRow>, tasks: Tasks, t: Task, r: Run)
    requires LeaseInv(leases, tasks)
    requires if t in tasks then r.lease == tasks[t].lease && r.consumed == tasks[t].consumed
             else !r.consumed
    ensures LeaseInv(leases, tasks[t := r])
  {
    var tasks' := tasks[t := r];
    forall l ensures LeaseOk(leases, tasks', l) {
      assert LeaseOk(leases, tasks, l);
      assert Consumers(tasks', l) == Consumers(tasks, l);
    }
  }

  lemma NodesIgnore(nodes: Nodes, tasks: Tasks, t: Task, r: Run)
    requires NodesOwned(nodes, tasks)
    requires t in tasks ==> r.branch == tasks[t].branch && r.node == tasks[t].node
    ensures NodesOwned(nodes, tasks[t := r])
  {
    var tasks' := tasks[t := r];
    forall b, i | b in nodes && 0 <= i < |nodes[b]| ensures NodeOwned(nodes, tasks', b, i) {
      assert NodeOwned(nodes, tasks, b, i);
    }
  }

  /** Gates of other tasks survive. */
  predicate GatesSpare(gate: map<Branch, Task>, gate': map<Branch, Task>, t: Task) {
    forall b :: b in gate && gate[b] != t ==> b in gate' && gate'[b] == gate[b]
  }

  // --------------------------------------------------------- kinds of step

  /** Task `t` only moves on: no entry, no node, no use of a lease. */
  lemma MoveKeeps(s: State, t: Task, r: Run, gate: map<Branch, Task>)
    requires Inv(s) && t in s.tasks && GatesSpare(s.gate, gate, t)
    requires var was := s.tasks[t];
             && r.branch == was.branch && r.lease == was.lease && r.consumed == was.consumed
             && r.node == was.node && r.trail == was.trail && r.said == was.said
    requires SaidOk(r.pc, r.said) && NodeOk(s.nodes, t, r) && GateOk(gate, t, r) && ConsumedOk(r)
    ensures Inv(With(s.(gate := gate), t, r))
  {
    var s' := With(s.(gate := gate), t, r);
    EntriesKeep(s.log, Entry(None, CapabilityRequest, [], None), s.tasks, t, r);
    LeasesIgnore(s.leases, s.tasks, t, r);
    NodesIgnore(s.nodes, s.tasks, t, r);
    forall u | u in s'.tasks ensures TaskInv(s', u) {
      if u != t { assert TaskInv(s, u); } else { assert TaskInv(s, t); }
    }
  }

  /** Task `t` records an entry and moves on. */
  lemma EmitKeeps(s: State, t: Task, e: Entry, r: Run, gate: map<Branch, Task>)
    requires Inv(s) && t in s.tasks && GatesSpare(s.gate, gate, t)
    requires e.step == Some(t) && IsStepKind(e.kind)
    requires var was := s.tasks[t];
             && r == was.(pc := r.pc, trail := was.trail + [|s.log|], said := was.said + [e.kind])
             && e.causedBy == (if StartsChain(e.kind) then [] else Previous(was))
             && (!StartsChain(e.kind) ==> was.trail != [])
    requires SaidOk(r.pc, r.said) && NodeOk(s.nodes, t, r) && GateOk(gate, t, r) && ConsumedOk(r)
    requires e.effect.Some? <==> e.kind.EffectProposed?
    requires e.kind.EffectProposed? ==>
               && s.tasks[t].said[|s.tasks[t].said| - 1..] == [ToolInvocation]
               && forall i :: 0 <= i < |s.log| ==> s.log[i].effect != e.effect
    ensures Inv(With(s.(gate := gate, log := s.log + [e]), t, r))
  {
    var s' := With(s.(gate := gate, log := s.log + [e]), t, r);
    var was := s.tasks[t];
    EntriesKeep(s.log, e, s.tasks, t, r);
    LeasesIgnore(s.leases, s.tasks, t, r);
    NodesIgnore(s.nodes, s.tasks, t, r);
    assert TaskInv(s, t);
    TrailAdds(s.log, e, t, was.trail, was.said);
    if was.trail != [] { assert TrailEntry(s.log, t, was.trail, was.said, |was.trail| - 1); }
    LogKeeps(s.log, e);
    forall u | u in s'.tasks ensures TaskInv(s', u) {
      if u != t {
        assert TaskInv(s, u);
        TrailGrows(s.log, e, u, s.tasks[u].trail, s.tasks[u].said);
      }
    }
  }

  /** A writer that is no step records an entry. */
  lemma NoteKeeps(s: State, e: Entry)
    requires Inv(s) && !IsStepKind(e.kind)
    requires LinkOk(s.log + [e], |s.log|) && EffectOk(s.log + [e], |s.log|)
    ensures Inv(Note(s, e))
  {
    LogKeeps(s.log, e);
    forall i | 0 <= i < |s.log| ensures EntryOwned(s.log + [e], s.tasks, i) {
      assert EntryOwned(s.log, s.tasks, i);
    }
    forall u | u in s.tasks ensures TaskInv(Note(s, e), u) {
      assert TaskInv(s, u);
      TrailGrows(s.log, e, u, s.tasks[u].trail, s.tasks[u].said);
    }
  }

  lemma NodeGrows(nodes: Nodes, b: Branch, maker: Option<Task>, u: Task, r: Run)
    requires NodeOk(nodes, u, r) && b in nodes
    requires maker.Some? && b == r.branch ==> !Holding(r.pc)
    ensures NodeOk(nodes[b := nodes[b] + [maker]], u, r)
  {
  }

  /** An effect commit, merge or root: a node by no step. */
  lemma CommitKeeps(s: State, b: Branch)
    requires Inv(s) && b in s.nodes
    ensures Inv(s.(nodes := s.nodes[b := s.nodes[b] + [None]]))
  {
    var nodes := s.nodes[b := s.nodes[b] + [None]];
    var s' := s.(nodes := nodes);
    forall c, i | c in nodes && 0 <= i < |nodes[c]| ensures NodeOwned(nodes, s.tasks, c, i) {
      if i < |s.nodes[c]| { assert NodeOwned(s.nodes, s.tasks, c, i); }
    }
    forall u | u in s.tasks ensures TaskInv(s', u) {
      assert TaskInv(s, u);
      NodeGrows(s.nodes, b, None, u, s.tasks[u]);
    }
  }

  lemma AppendOwned(nodes: Nodes, tasks: Tasks, t: Task, r: Run)
    requires NodesOwned(nodes, tasks) && t in tasks && r.branch == tasks[t].branch && r.branch in nodes
    requires tasks[t].node.None? && r.node == Some(|nodes[r.branch]|)
    ensures NodesOwned(nodes[r.branch := nodes[r.branch] + [Some(t)]], tasks[t := r])
  {
    var nodes', tasks' := nodes[r.branch := nodes[r.branch] + [Some(t)]], tasks[t := r];
    forall c, i | c in nodes' && 0 <= i < |nodes'[c]| ensures NodeOwned(nodes', tasks', c, i) {
      if i < |nodes[c]| { assert NodeOwned(nodes, tasks, c, i); }
    }
  }

  lemma AppendKeeps(s: State, a: Action)
    requires Inv(s) && Enabled(s, a) && a.AppendNode?
    ensures Inv(Apply(s, a))
  {
    var t, was := a.t, s.tasks[a.t];
    var r := was.(pc := Appended, node := Some(|s.nodes[was.branch]|));
    var s' := Apply(s, a);
    assert TaskInv(s, t);
    EntriesKeep(s.log, Entry(None, CapabilityRequest, [], None), s.tasks, t, r);
    LeasesIgnore(s.leases, s.tasks, t, r);
    AppendOwned(s.nodes, s.tasks, t, r);
    forall u | u in s'.tasks ensures TaskInv(s', u) {
      if u != t {
        assert TaskInv(s, u);
        NodeGrows(s.nodes, was.branch, Some(t), u, s.tasks[u]);
      }
    }
  }

  /** Taking one use: exactly one more consumer, exactly one use less. */
  lemma TakeKeeps(leases: map<LeaseId, LeaseRow>, tasks: Tasks, t: Task, r: Run)
    requires LeaseInv(leases, tasks) && t in tasks && !tasks[t].consumed
    requires r.lease == tasks[t].lease && r.lease in leases && r.consumed && leases[r.lease].uses > 0
    ensures LeaseInv(leases[r.lease := leases[r.lease].(uses := leases[r.lease].uses - 1)], tasks[t := r])
  {
    var leases' := leases[r.lease := leases[r.lease].(uses := leases[r.lease].uses - 1)];
    var tasks' := tasks[t := r];
    forall l ensures LeaseOk(leases', tasks', l) {
      assert LeaseOk(leases, tasks, l);
      if l == r.lease { assert Consumers(tasks', l) == Consumers(tasks, l) + {t}; }
      else { assert Consumers(tasks', l) == Consumers(tasks, l); }
    }
  }

  lemma ConsumeKeeps(s: State, a: Action)
    requires Inv(s) && Enabled(s, a) && a.Consume?
    ensures Inv(Apply(s, a))
  {
    var t, was := a.t, s.tasks[a.t];
    assert TaskInv(s, t);
    if was.lease in s.leases && Usable(s.leases[was.lease], was.now) {
      var r := was.(pc := Cleared, consumed := true);
      TakeKeeps(s.leases, s.tasks, t, r);
      EntriesKeep(s.log, Entry(None, CapabilityRequest, [], None), s.tasks, t, r);
      NodesIgnore(s.nodes, s.tasks, t, r);
      forall u | u in s.tasks ensures TaskInv(Apply(s, a), u) { assert TaskInv(s, u); }
    } else {
      MoveKeeps(s, t, was.(pc := Denying), s.gate);
      assert s.(gate := s.gate) == s;
    }
  }

  // ------------------------------------------------------ every step keeps it

  lemma LockKeeps(s: State, a: Action)
    requires Inv(s) && Enabled(s, a) && a.Lock?
    ensures Inv(Apply(s, a))
  {
    var t, was := a.t, s.tasks[a.t];
    assert TaskInv(s, t);
    MoveKeeps(s, t, was.(pc := Locked), s.gate[was.branch := t]);
  }

  lemma ReadHeadKeeps(s: State, a: Action)
    requires Inv(s) && Enabled(s, a) && a.ReadHead?
    ensures Inv(Apply(s, a))
  {
    var t, was := a.t, s.tasks[a.t];
    assert TaskInv(s, t);
    assert s.(gate := s.gate) == s;
    MoveKeeps(s, t, was.(pc := Checked, seen := |s.nodes[was.branch]| - 1, now := s.clock), s.gate);
  }

  lemma RefuseKeeps(s: State, a: Action)
    requires Inv(s) && Enabled(s, a) && a.Refuse?
    ensures Inv(Apply(s, a))
  {
    var t, was := a.t, s.tasks[a.t];
    assert TaskInv(s, t);
    assert s.(gate := s.gate) == s;
    MoveKeeps(s, t, was.(pc := Denying), s.gate);
  }

  lemma FailKeeps(s: State, a: Action)
    requires Inv(s) && Enabled(s, a) && a.Fail?
    ensures Inv(Apply(s, a))
  {
    var t, was := a.t, s.tasks[a.t];
    assert TaskInv(s, t);
    assert s.(gate := s.gate) == s;
    if was.pc.Waiting? { MoveKeeps(s, t, was.(pc := Failed), s.gate); }
    else { MoveKeeps(s, t, was.(pc := Failed), s.gate - {was.branch}); }
  }

  lemma EmitToolKeeps(s: State, a: Action)
    requires Inv(s) && Enabled(s, a) && a.EmitTool?
    ensures Inv(Apply(s, a))
  {
    var t, was := a.t, s.tasks[a.t];
    assert TaskInv(s, t);
    assert s.(gate := s.gate) == s;
    var s' := Apply(s, a);
    EmitKeeps(s, t, s'.log[|s.log|], s'.tasks[t], s.gate);
  }

  lemma ProposeKeeps(s: State, a: Action)
    requires Inv(s) && Enabled(s, a) && a.Propose?
    ensures Inv(Apply(s, a))
  {
    var t, was := a.t, s.tasks[a.t];
    assert TaskInv(s, t);
    assert s.(gate := s.gate) == s;
    var s' := Apply(s, a);
    EmitKeeps(s, t, s'.log[|s.log|], s'.tasks[t], s.gate);
  }

  lemma RecordDeltaKeeps(s: State, a: Action)
    requires Inv(s) && Enabled(s, a) && a.RecordDelta?
    ensures Inv(Apply(s, a))
  {
    var t, was := a.t, s.tasks[a.t];
    assert TaskInv(s, t);
    assert s.(gate := s.gate) == s;
    var s' := Apply(s, a);
    EmitKeeps(s, t, s'.log[|s.log|], s'.tasks[t], s.gate);
  }

  lemma SayDenialKeeps(s: State, a: Action)
    requires Inv(s) && Enabled(s, a) && a.SayDenial?
    ensures Inv(Apply(s, a))
  {
    var t, was := a.t, s.tasks[a.t];
    assert TaskInv(s, t);
    assert s.(gate := s.gate) == s;
    var s' := Apply(s, a);
    EmitKeeps(s, t, s'.log[|s.log|], s'.tasks[t], s.gate);
  }

  lemma ObserveKeeps(s: State, a: Action)
    requires Inv(s) && Enabled(s, a) && a.Observe?
    ensures Inv(Apply(s, a))
  {
    var t, was := a.t, s.tasks[a.t];
    assert TaskInv(s, t);
    var s' := Apply(s, a);
    EmitKeeps(s, t, s'.log[|s.log|], s'.tasks[t], s.gate - {was.branch});
  }

  lemma ObserveDenialKeeps(s: State, a: Action)
    requires Inv(s) && Enabled(s, a) && a.ObserveDenial?
    ensures Inv(Apply(s, a))
  {
    var t, was := a.t, s.tasks[a.t];
    assert TaskInv(s, t);
    var s' := Apply(s, a);
    EmitKeeps(s, t, s'.log[|s.log|], s'.tasks[t], s.gate - {was.branch});
  }

  lemma NotesKeep(s: State, a: Action)
    requires Inv(s) && Enabled(s, a) && (a.NoteEffect? || a.NoteRequest? || a.NoteDecision?)
    ensures Inv(Apply(s, a))
  {
    if a.NoteDecision? { assert EffectOk(s.log, a.request); }
    NoteKeeps(s, Apply(s, a).log[|s.log|]);
  }

  lemma WorldKeeps(s: State, a: Action)
    requires Inv(s) && Enabled(s, a) && (a.Spawn? || a.Tick? || a.Issue? || a.Revoke?)
    ensures Inv(Apply(s, a))
  {
    var s' := Apply(s, a);
    if a.Spawn? {
      LeasesIgnore(s.leases, s.tasks, a.t, s'.tasks[a.t]);
      SpawnOwned(s, a.t, s'.tasks[a.t]);
    } else {
      forall l ensures LeaseOk(s'.leases, s.tasks, l) { assert LeaseOk(s.leases, s.tasks, l); }
    }
    forall u | u in s'.tasks ensures TaskInv(s', u) {
      if u in s.tasks { assert TaskInv(s, u); }
    }
  }

  lemma SpawnOwned(s: State, t: Task, r: Run)
    requires Inv(s) && t !in s.tasks
    ensures NodesOwned(s.nodes, s.tasks[t := r]) && EntriesOwned(s.log, s.tasks[t := r])
  {
    var tasks' := s.tasks[t := r];
    forall b, i | b in s.nodes && 0 <= i < |s.nodes[b]| ensures NodeOwned(s.nodes, tasks', b, i) {
      assert NodeOwned(s.nodes, s.tasks, b, i);
    }
    forall i | 0 <= i < |s.log| ensures EntryOwned(s.log, tasks', i) {
      assert EntryOwned(s.log, s.tasks, i);
    }
  }

  lemma StepKeepsInv(s: State, a: Action)
    requires Inv(s) && Enabled(s, a)
    ensures Inv(Apply(s, a))
  {
    match a
    case Lock(_) => LockKeeps(s, a);
    case ReadHead(_) => ReadHeadKeeps(s, a);
    case Consume(_) => ConsumeKeeps(s, a);
    case Refuse(_) => RefuseKeeps(s, a);
    case EmitTool(_) => EmitToolKeeps(s, a);
    case Propose(_, _) => ProposeKeeps(s, a);
    case AppendNode(_) => AppendKeeps(s, a);
    case RecordDelta(_) => RecordDeltaKeeps(s, a);
    case Observe(_) => ObserveKeeps(s, a);
    case SayDenial(_) => SayDenialKeeps(s, a);
    case ObserveDenial(_) => ObserveDenialKeeps(s, a);
    case Fail(_) => FailKeeps(s, a);
    case CommitNode(b) => CommitKeeps(s, b);
    case NoteEffect(_, _) => NotesKeep(s, a);
    case NoteRequest => NotesKeep(s, a);
    case NoteDecision(_) => NotesKeep(s, a);
    case _ => WorldKeeps(s, a);
  }

  ghost predicate Next(s: State, s': State) {
    exists a :: Enabled(s, a) && s' == Apply(s, a)
  }

  ghost predicate StepAt(run: seq<State>, i: nat)
    requires 0 < i < |run|
  {
    Next(run[i - 1], run[i])
  }

  /** Starts with any branches and unused leases, an empty ledger and no task. */
  ghost predicate Initial(s: State) {
    && s.log == [] && s.gate == map[] && s.tasks == map[]
    && (forall l :: l in s.leases ==> s.leases[l].uses == s.leases[l].granted)
    && (forall b :: b in s.nodes ==> OnlyCommits(s.nodes[b], -1, |s.nodes[b]|))
  }

  ghost predicate IsRun(run: seq<State>) {
    |run| > 0 && Initial(run[0]) && forall i :: 0 < i < |run| ==> StepAt(run, i)
  }

  lemma InitialInv(s: State)
    requires Initial(s)
    ensures Inv(s)
  {
    forall l ensures LeaseOk(s.leases, s.tasks, l) { assert Consumers(s.tasks, l) == {}; }
  }

  lemma NextKeepsInv(s: State, s': State)
    requires Inv(s) && Next(s, s')
    ensures Inv(s')
  {
    var a :| Enabled(s, a) && s' == Apply(s, a);
    StepKeepsInv(s, a);
  }

  lemma {:induction false} RunKeepsInv(run: seq<State>, i: nat)
    requires IsRun(run) && i < |run|
    ensures Inv(run[i])
  {
    if i == 0 {
      InitialInv(run[0]);
    } else {
      RunKeepsInv(run, i - 1);
      assert StepAt(run, i);
      NextKeepsInv(run[i - 1], run[i]);
    }
  }

  // ------------------------------------------------------- main results

  ghost function Ran(s: State, l: LeaseId): set<Task> {
    set t | t in s.tasks && s.tasks[t].lease == l && Dispatched(s.tasks[t])
  }

  /** However many steps race on a lease, no more than its granted uses are ever
      dispatched, and the uses left account for all of them. */
  lemma LeaseNeverOverspent(run: seq<State>, i: nat, l: LeaseId)
    requires IsRun(run) && i < |run| && l in run[i].leases
    ensures run[i].leases[l].uses + |Consumers(run[i].tasks, l)| == run[i].leases[l].granted
    ensures Ran(run[i], l) <= Consumers(run[i].tasks, l)
    ensures |Ran(run[i], l)| <= run[i].leases[l].granted
  {
    RunKeepsInv(run, i);
    var s := run[i];
    assert LeaseOk(s.leases, s.tasks, l);
    forall t | t in Ran(s, l) ensures t in Consumers(s.tasks, l) {
      assert TaskInv(s, t);
    }
    SubsetSize(Ran(s, l), Consumers(s.tasks, l));
  }

  lemma SubsetSize(a: set<Task>, b: set<Task>)
    requires a <= b
    ensures |a| <= |b|
  {
    assert b == a + (b - a);
  }

  ghost predicate MadeBy(s: State, b: Branch, i: nat, t: Task)
    requires b in s.nodes
  {
    i < |s.nodes[b]| && s.nodes[b][i] == Some(t)
  }

  ghost predicate EntryOf(s: State, i: nat, t: Task)
    requires i < |s.log|
  {
    s.log[i].step == Some(t) && IsStepKind(s.log[i].kind)
  }

  /** The step's entries in the ledger are exactly its trail. */
  lemma TrailIsAll(s: State, t: Task)
    requires Inv(s) && t in s.tasks
    ensures forall i :: 0 <= i < |s.log| ==> (EntryOf(s, i, t) <==> i in s.tasks[t].trail)
  {
    assert TaskInv(s, t);
    var r := s.tasks[t];
    forall i | 0 <= i < |s.log| ensures EntryOf(s, i, t) <==> i in r.trail {
      assert EntryOwned(s.log, s.tasks, i);
      if i in r.trail {
        var k :| 0 <= k < |r.trail| && r.trail[k] == i;
        assert TrailEntry(s.log, t, r.trail, r.said, k);
      }
    }
  }

  lemma NodeIsOnly(s: State, t: Task)
    requires Inv(s) && t in s.tasks
    ensures forall b, i :: b in s.nodes && 0 <= i < |s.nodes[b]| && MadeBy(s, b, i, t) ==>
              b == s.tasks[t].branch && s.tasks[t].node == Some(i)
  {
    forall b, i | b in s.nodes && 0 <= i < |s.nodes[b]| && MadeBy(s, b, i, t)
      ensures b == s.tasks[t].branch && s.tasks[t].node == Some(i)
    {
      assert NodeOwned(s.nodes, s.tasks, b, i);
    }
  }

  /** A step that returns anything but a denial made exactly one node, after the
      head it read with only effect commits between, and its ledger entries are
      exactly one chain: tool invocation, then the proposal if it was one, then the
      recorded delta, then the observation, each citing the one before. */
  lemma OkStepRecorded(run: seq<State>, i: nat, t: Task)
    requires IsRun(run) && i < |run| && t in run[i].tasks && run[i].tasks[t].pc.Ok?
    ensures var s := run[i]; var r := s.tasks[t];
            && r.consumed && r.branch in s.nodes && r.node.Some?
            && r.seen < r.node.value && MadeBy(s, r.branch, r.node.value, t)
            && OnlyCommits(s.nodes[r.branch], r.seen, r.node.value)
            && (forall b, k :: b in s.nodes && 0 <= k < |s.nodes[b]| && MadeBy(s, b, k, t) ==>
                  b == r.branch && k == r.node.value)
    ensures var s := run[i]; var r := s.tasks[t];
            && (r.said == [ToolInvocation, StateDeltaRecorded, ObservationEmitted]
                || r.said == [ToolInvocation, EffectProposed, StateDeltaRecorded, ObservationEmitted])
            && TrailOk(s.log, t, r.trail, r.said)
            && (forall k :: 0 <= k < |s.log| ==> (EntryOf(s, k, t) <==> k in r.trail))
  {
    RunKeepsInv(run, i);
    assert TaskInv(run[i], t);
    TrailIsAll(run[i], t);
    NodeIsOnly(run[i], t);
  }

  /** A denied step made no node on any branch; its ledger entries hold exactly one
      denial, which its one observation cites. */
  lemma DeniedStepRecorded(run: seq<State>, i: nat, t: Task)
    requires IsRun(run) && i < |run| && t in run[i].tasks && run[i].tasks[t].pc.Denied?
    ensures var s := run[i]; var r := s.tasks[t];
            && r.branch in s.nodes && r.seen < |s.nodes[r.branch]|
            && (forall b, k :: b in s.nodes && 0 <= k < |s.nodes[b]| ==> !MadeBy(s, b, k, t))
    ensures var s := run[i]; var r := s.tasks[t]; var n := |r.said|;
            && (r.said == [DenialIssued, ObservationEmitted]
                || r.said == [ToolInvocation, DenialIssued, ObservationEmitted])
            && |r.trail| == n && r.trail[n - 1] < |s.log|
            && s.log[r.trail[n - 1]].causedBy == [r.trail[n - 2] + 1]
            && r.trail[n - 2] < |s.log| && s.log[r.trail[n - 2]].kind.DenialIssued?
            && (forall k :: 0 <= k < |s.log| ==> (EntryOf(s, k, t) <==> k in r.trail))
  {
    RunKeepsInv(run, i);
    var s, r := run[i], run[i].tasks[t];
    assert TaskInv(s, t);
    TrailIsAll(s, t);
    NodeIsOnly(s, t);
    assert TrailEntry(s.log, t, r.trail, r.said, |r.said| - 1);
    assert TrailEntry(s.log, t, r.trail, r.said, |r.said| - 2);
  }

  /** While a step that is about to return a denial still holds the gate, the head
      is the one it read and reports, moved by effect commits only. */
  lemma DenialLeavesHead(run: seq<State>, i: nat, t: Task)
    requires IsRun(run) && i < |run| && t in run[i].tasks && run[i].tasks[t].pc.DenialSaid?
    ensures var s := run[i]; var r := s.tasks[t];
            && r.branch in s.nodes && r.seen < |s.nodes[r.branch]|
            && OnlyCommits(s.nodes[r.branch], r.seen, |s.nodes[r.branch]|)
  {
    RunKeepsInv(run, i);
    assert TaskInv(run[i], t);
  }

  /** A ledger table that holds this log. */
  ghost predicate Records(rows: seq<Ledger.Event>, log: Log) {
    && |rows| == |log| && Ledger.Numbered(rows)
    && forall i :: 0 <= i < |log| ==>
         && rows[i].body.event.causedBy == log[i].causedBy
         && (log[i].effect.None? ==> rows[i].body.event.effect.None?)
         && (log[i].effect.Some? ==> rows[i].body.event.effect == Ledger.Some(log[i].effect.value))
  }

  /** Every attribution link of every run goes to an earlier entry of the same step. */
  lemma LinksGoBack(run: seq<State>, i: nat, rows: seq<Ledger.Event>, from: int, to: int)
    requires IsRun(run) && i < |run| && Records(rows, run[i].log) && Ledger.Cites(rows, from, to)
    ensures 1 <= to < from <= |rows| && run[i].log[to - 1].step == run[i].log[from - 1].step
  {
    RunKeepsInv(run, i);
    LinkGoesBack(run[i].log, rows, from, to);
  }

  lemma LinkGoesBack(log: Log, rows: seq<Ledger.Event>, from: int, to: int)
    requires LogInv(log) && Records(rows, log) && Ledger.Cites(rows, from, to)
    ensures 1 <= to < from <= |log| && log[to - 1].step == log[from - 1].step
  {
    var k :| 0 <= k < |rows| && rows[k].body.seqNo == from && to in rows[k].body.event.causedBy;
    assert LinkOk(log, k);
    var c :| 0 <= c < |log[k].causedBy| && log[k].causedBy[c] == to;
  }

  lemma {:induction false} PathEnds(log: Log, rows: seq<Ledger.Event>, effect: string, tool: int,
                                    path: seq<int>, k: nat)
    requires LogInv(log) && Records(rows, log) && Ledger.IsPath(rows, effect, path) && k < |path|
    requires 1 <= tool <= |log| && log[tool - 1].kind.ToolInvocation?
    requires forall i :: 0 <= i < |log| && log[i].effect == Some(effect) && log[i].kind.EffectProposed? ==>
               log[i].causedBy == [tool]
    ensures Ledger.Carries(rows, effect, path[k]) || path[k] == tool
  {
    if k > 0 {
      PathEnds(log, rows, effect, tool, path, k - 1);
      assert Ledger.Cites(rows, path[k - 1], path[k]);
      var i :| 0 <= i < |rows| && rows[i].body.seqNo == path[k - 1] && path[k] in rows[i].body.event.causedBy;
      assert EffectOk(log, i) && i == path[k - 1] - 1;
      if Ledger.Carries(rows, effect, path[k - 1]) {
        var j :| 0 <= j < |rows| && rows[j].body.seqNo == path[k - 1]
                 && rows[j].body.event.effect == Ledger.Some(effect);
        assert j == i && log[i].effect == Some(effect);
      }
    }
  }

  lemma ProposalCause(log: Log, p: nat, f: string)
    requires LogInv(log) && p < |log| && log[p].kind.EffectProposed? && log[p].effect == Some(f)
    ensures |log[p].causedBy| == 1 && 1 <= log[p].causedBy[0] <= p
    ensures log[log[p].causedBy[0] - 1].kind.ToolInvocation?
    ensures log[log[p].causedBy[0] - 1].step == log[p].step
    ensures forall i :: 0 <= i < |log| && log[i].effect == Some(f) && log[i].kind.EffectProposed? ==>
              log[i].causedBy == [log[p].causedBy[0]]
  {
    assert EffectOk(log, p) && LinkOk(log, p);
    forall i | 0 <= i < |log| && log[i].effect == Some(f) && log[i].kind.EffectProposed?
      ensures i == p
    {
    }
  }

  lemma EffectHistory(log: Log, rows: seq<Ledger.Event>, p: nat, f: string, tool: int, s: int)
    requires LogInv(log) && Records(rows, log)
    requires p < |log| && log[p].kind.EffectProposed? && log[p].effect == Some(f)
    requires log[p].causedBy == [tool] && 1 <= tool <= |log| && log[tool - 1].kind.ToolInvocation?
    requires forall i :: 0 <= i < |log| && log[i].effect == Some(f) && log[i].kind.EffectProposed? ==>
               log[i].causedBy == [tool]
    ensures Ledger.LedTo(rows, f, s) <==> Ledger.Carries(rows, f, s) || s == tool
  {
    if Ledger.LedTo(rows, f, s) {
      var path :| Ledger.IsPath(rows, f, path) && path[|path| - 1] == s;
      PathEnds(log, rows, f, tool, path, |path| - 1);
    }
    if Ledger.Carries(rows, f, s) { Ledger.SeedLed(rows, f, s); }
    assert rows[p].body.seqNo == p + 1;
    assert Ledger.Carries(rows, f, p + 1) && Ledger.Cites(rows, p + 1, tool);
    Ledger.SeedLed(rows, f, p + 1);
    Ledger.LinkLed(rows, f, p + 1, tool);
  }

  /** The causal query for an effect returns its own events and the tool invocation
      of the step that proposed it, and nothing else. */
  lemma EffectHistoryIsItsStep(run: seq<State>, i: nat, rows: seq<Ledger.Event>, p: nat, f: string, s: int)
    requires IsRun(run) && i < |run| && Records(rows, run[i].log)
    requires p < |rows| && run[i].log[p].kind.EffectProposed? && run[i].log[p].effect == Some(f)
    ensures var log := run[i].log; var causes := log[p].causedBy;
            && |causes| == 1 && 1 <= causes[0] <= p
            && log[causes[0] - 1].kind.ToolInvocation? && log[causes[0] - 1].step == log[p].step
            && (Ledger.LedTo(rows, f, s) <==> Ledger.Carries(rows, f, s) || s == causes[0])
  {
    RunKeepsInv(run, i);
    ProposalCause(run[i].log, p, f);
    EffectHistory(run[i].log, rows, p, f, run[i].log[p].causedBy[0], s);
  }
}
