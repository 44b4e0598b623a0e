/**
 Poisoning a sandbox while other tasks look for a sandbox to clone.

 The poisoning task holds the sandbox's gate. It removes the cache entry, then the
 gate from the gate map, then awaits the deletion, and drops its guard on return. A
 scout collects the sandbox as a candidate while it is cached, later takes the gate
 from the map (making one when there is none), tries to lock it, lists the sandbox
 and caches it again; a listing that fails fails its whole search. The deletion may
 succeed, after which the sandbox cannot be listed, or not. Each of these is one atomic
 step of one task, for any number of scouts and any interleaving; a listing may fail
 and a task be cancelled anywhere.
 */
module CachePoison {

  type Task = nat
  type Gate = nat

  datatype Option<T> = None | Some(value: T)

  /** Where the poisoning task is; it holds gate `own` until it has returned. */
  datatype Phase = Holding | Uncached | Ungated | Returned

  datatype Scout = Fresh | Collected | Fetched(gate: Gate) | Locked(gate: Gate) | Done | Failed

  datatype State = State(
    cached: bool,
    alive: bool,                  // the service still has the sandbox
    entry: Option<Gate>,          // the gate map's entry for the sandbox
    made: Gate,                   // gates below this number exist
    own: Gate,
    phase: Phase,
    scouts: map<Task, Scout>)

  datatype Action =
    | Uncache | Ungate | Delete | Return
    | Spawn(t: Task) | Collect(t: Task) | Fetch(t: Task) | TryLock(t: Task)
    | Insert(t: Task) | Fail(t: Task) | Leave(t: Task)

  ghost predicate Free(s: State, g: Gate) {
    && (g == s.own ==> s.phase.Returned?)
    && forall t :: t in s.scouts ==> s.scouts[t] != Locked(g)
  }

  ghost predicate Enabled(s: State, a: Action) {
    match a
    case Uncache => s.phase.Holding?
    case Ungate => s.phase.Uncached?
    case Delete => s.phase.Ungated?
    case Return => s.phase.Ungated?
    case Spawn(t) => t !in s.scouts
    case Collect(t) => t in s.scouts && s.scouts[t].Fresh? && s.cached
    case Fetch(t) => t in s.scouts && s.scouts[t].Collected?
    case TryLock(t) => t in s.scouts && s.scouts[t].Fetched?
    case Insert(t) => t in s.scouts && s.scouts[t].Locked? && s.alive
    case Fail(t) => t in s.scouts && s.scouts[t].Locked?
    case Leave(t) => t in s.scouts
  }

  ghost function Apply(s: State, a: Action): State
    requires Enabled(s, a)
  {
    match a
    case Uncache => s.(cached := false, phase := Uncached)
    case Ungate => s.(entry := None, phase := Ungated)
    case Delete => s.(alive := false)
    case Return => s.(phase := Returned)
    case Spawn(t) => s.(scouts := s.scouts[t := Fresh])
    case Collect(t) => s.(scouts := s.scouts[t := Collected])
    case Fetch(t) =>
      if s.entry.Some? then s.(scouts := s.scouts[t := Fetched(s.entry.value)])
      else s.(entry := Some(s.made), made := s.made + 1, scouts := s.scouts[t := Fetched(s.made)])
    case TryLock(t) =>
      var g := s.scouts[t].gate;
      s.(scouts := s.scouts[t := if Free(s, g) then Locked(g) else Done])
    case Insert(t) => s.(cached := true)
    case Fail(t) => s.(scouts := s.scouts[t := Failed])
    case Leave(t) => s.(scouts := s.scouts[t := Done])
  }

  /** Until the gate is removed, every scout has at most the held gate, and none is
      past it; gates made later are different. */
  ghost predicate Inv(s: State) {
    && s.own < s.made
    && (s.entry.Some? ==> s.entry.value < s.made)
    && (forall t :: t in s.scouts ==> ScoutOk(s, s.scouts[t]))
    && (s.phase.Holding? || s.phase.Uncached? ==> s.entry == Some(s.own))
    && (s.phase.Uncached? ==> !s.cached)
    && (s.phase.Holding? || s.phase.Uncached? ==> s.alive)
    && (s.phase.Ungated? || s.phase.Returned? ==> s.entry != Some(s.own))
  }

  ghost predicate ScoutOk(s: State, c: Scout) {
    && (c.Fetched? || c.Locked? ==> c.gate < s.made)
    && (c.Locked? ==> s.phase.Ungated? || s.phase.Returned?)
    && (c.Locked? && !s.phase.Returned? ==> c.gate != s.own)
    && (c.Fetched? && (s.phase.Holding? || s.phase.Uncached?) ==> c.gate == s.own)
  }

  lemma StepKeepsInv(s: State, a: Action)
    requires Inv(s) && Enabled(s, a)
    ensures Inv(Apply(s, a))
  {
    var s' := Apply(s, a);
    forall t | t in s'.scouts ensures ScoutOk(s', s'.scouts[t]) {
      assert t in s.scouts ==> ScoutOk(s, s.scouts[t]);
    }
  }

  /** `acts` leads from `s` to `t`. */
  ghost predicate Leads(s: State, acts: seq<Action>, t: State)
    decreases |acts|
  {
    if acts == [] then s == t
    else Enabled(s, acts[0]) && Leads(Apply(s, acts[0]), acts[1..], t)
  }

  /** A poisoning that holds the gate, among scouts that got no further than it. */
  ghost predicate Start(s: State) {
    && s.phase.Holding? && s.alive && s.own < s.made && s.entry == Some(s.own)
    && forall t :: t in s.scouts ==> !s.scouts[t].Locked? && (s.scouts[t].Fetched? ==> s.scouts[t].gate == s.own)
  }

  lemma {:induction false} RunKeepsInv(s: State, acts: seq<Action>, t: State)
    requires Inv(s) && Leads(s, acts, t)
    ensures Inv(t)
    decreases |acts|
  {
    if acts != [] {
      StepKeepsInv(s, acts[0]);
      RunKeepsInv(Apply(s, acts[0]), acts[1..], t);
    }
  }

  /** In every run, the entry is gone from its removal until the gate is removed. */
  lemma GoneWhileGated(s: State, acts: seq<Action>, t: State)
    requires Start(s) && Leads(s, acts, t) && t.phase.Uncached?
    ensures !t.cached
  {
    RunKeepsInv(s, acts, t);
  }

  // -------------------------------------------- when the entry comes back

  ghost predicate HasInsert(acts: seq<Action>) {
    exists i :: 0 <= i < |acts| && acts[i].Insert?
  }

  lemma HasInsertSplit(acts: seq<Action>)
    requires acts != []
    ensures HasInsert(acts) <==> acts[0].Insert? || HasInsert(acts[1..])
  {
    if i :| 0 <= i < |acts| && acts[i].Insert? { assert i > 0 ==> acts[1..][i - 1].Insert?; }
    if i :| 0 <= i < |acts[1..]| && acts[1..][i].Insert? { assert acts[i + 1].Insert?; }
  }

  /** Once removed, the entry is present iff some task has cached the sandbox since. */
  lemma {:induction false} PresentIffInserted(s: State, acts: seq<Action>, e: State)
    requires !s.phase.Holding? && Leads(s, acts, e)
    ensures e.cached <==> s.cached || HasInsert(acts)
    decreases |acts|
  {
    if acts != [] {
      PresentIffInserted(Apply(s, acts[0]), acts[1..], e);
      HasInsertSplit(acts);
    }
  }

  /** And that can only be after the gate was removed from the map. */
  lemma {:induction false} InsertedAfterUngate(s: State, acts: seq<Action>, e: State, i: nat)
    requires Inv(s) && s.phase.Uncached? && Leads(s, acts, e)
    requires i < |acts| && acts[i].Insert?
    ensures exists j :: 0 <= j < i && acts[j].Ungate?
    decreases |acts|
  {
    assert acts[0].Insert? ==> ScoutOk(s, s.scouts[acts[0].t]);
    if !acts[0].Ungate? {
      StepKeepsInv(s, acts[0]);
      InsertedAfterUngate(Apply(s, acts[0]), acts[1..], e, i - 1);
      var j :| 0 <= j < i - 1 && acts[1..][j].Ungate?;
      assert acts[j + 1].Ungate?;
    }
  }

  ghost predicate SomeCollected(s: State) {
    exists t :: t in s.scouts && s.scouts[t].Collected?
  }

  /** Some task has the sandbox among its candidates. */
  ghost predicate SomePending(s: State) {
    exists t :: t in s.scouts && (s.scouts[t].Collected? || s.scouts[t].Fetched?)
  }

  /** Nobody can get the gate before the return. */
  ghost predicate Quiet(s: State) {
    && s.own < s.made
    && (!s.phase.Returned? ==>
          && (s.phase.Uncached? || s.phase.Ungated?) && !s.cached
          && forall t :: t in s.scouts ==>
               var c := s.scouts[t]; c.Fresh? || c.Done? || c.Failed? || c == Fetched(s.own))
  }

  lemma {:induction false} QuietStays(s: State, acts: seq<Action>, t: State)
    requires Quiet(s) && Leads(s, acts, t)
    ensures Quiet(t)
    decreases |acts|
  {
    if acts != [] { QuietStays(Apply(s, acts[0]), acts[1..], t); }
  }

  predicate Out(c: Scout) {
    c.Fresh? || c.Done? || c.Failed?
  }

  /** Nobody has the sandbox among its candidates, so nobody ever will. */
  ghost predicate Forgotten(s: State) {
    !s.cached && !s.phase.Holding? && forall t :: t in s.scouts ==> Out(s.scouts[t])
  }

  lemma {:induction false} ForgottenStays(s: State, acts: seq<Action>, t: State)
    requires Forgotten(s) && Leads(s, acts, t)
    ensures Forgotten(t)
    decreases |acts|
  {
    if acts != [] { ForgottenStays(Apply(s, acts[0]), acts[1..], t); }
  }

  lemma Then(s: State, a: Action, acts: seq<Action>, t: State)
    requires Enabled(s, a) && Leads(Apply(s, a), acts, t)
    ensures Leads(s, [a] + acts, t)
  {
    assert ([a] + acts)[1..] == acts;
  }

  /** With the gate gone from the map, a scout that has only collected gets a new one. */
  lemma CollectedReturns(s: State, t: Task) returns (acts: seq<Action>, e: State)
    requires Inv(s) && s.phase.Ungated? && s.alive && s.entry.None? && t in s.scouts && s.scouts[t].Collected?
    ensures Leads(s, acts, e) && e.phase.Ungated? && e.cached && e.alive
  {
    var s1 := Apply(s, Fetch(t));
    var g := s.made;
    forall u | u in s1.scouts ensures s1.scouts[u] != Locked(g) {
      assert u in s.scouts ==> ScoutOk(s, s.scouts[u]);
    }
    var s2 := Apply(s1, TryLock(t));
    e := Apply(s2, Insert(t));
    assert Leads(e, [], e);
    Then(s2, Insert(t), [], e);
    Then(s1, TryLock(t), [Insert(t)] + [], e);
    acts := [TryLock(t)] + ([Insert(t)] + []);
    Then(s, Fetch(t), acts, e);
    acts := [Fetch(t)] + acts;
  }

  /** With the guard dropped, a scout that fetched the old gate can lock that one. */
  lemma FetchedReturns(s: State, t: Task) returns (acts: seq<Action>, e: State)
    requires Inv(s) && s.phase.Uncached? && t in s.scouts && s.scouts[t].Fetched?
    ensures Leads(s, acts, e) && e.cached
  {
    var s1 := Apply(s, Ungate);
    var s2 := Apply(s1, Return);
    assert ScoutOk(s, s.scouts[t]);
    forall u | u in s2.scouts ensures s2.scouts[u] != Locked(s.own) { assert ScoutOk(s, s.scouts[u]); }
    var s3 := Apply(s2, TryLock(t));
    e := Apply(s3, Insert(t));
    assert Leads(e, [], e);
    Then(s3, Insert(t), [], e);
    Then(s2, TryLock(t), [Insert(t)] + [], e);
    acts := [TryLock(t)] + ([Insert(t)] + []);
    Then(s1, Return, acts, e);
    acts := [Return] + acts;
    Then(s, Ungate, acts, e);
    acts := [Ungate] + acts;
  }

  ghost predicate CanBeCachedAtReturn(s: State) {
    exists acts, e :: Leads(s, acts, e) && e.phase.Ungated? && e.cached
  }

  ghost predicate CanBeCachedLater(s: State) {
    exists acts, e :: Leads(s, acts, e) && e.cached
  }

  /** At the removal of the cache entry: it can be back when the poisoning returns iff
      some task had collected the sandbox and not yet taken its gate. */
  lemma BackAtReturnIff(s: State)
    requires Inv(s) && s.phase.Uncached?
    ensures CanBeCachedAtReturn(s) <==> SomeCollected(s)
  {
    if SomeCollected(s) {
      var t :| t in s.scouts && s.scouts[t].Collected?;
      var s1 := Apply(s, Ungate);
      StepKeepsInv(s, Ungate);
      var acts, e := CollectedReturns(s1, t);
      Then(s, Ungate, acts, e);
    } else {
      forall t | t in s.scouts
        ensures var c := s.scouts[t]; c.Fresh? || c.Done? || c.Failed? || c == Fetched(s.own)
      {
        assert ScoutOk(s, s.scouts[t]);
      }
      forall acts, e | Leads(s, acts, e) && e.phase.Ungated? ensures !e.cached {
        QuietStays(s, acts, e);
      }
    }
  }

  /** It can be back at any later time iff some task had the sandbox among its
      candidates at all. */
  lemma BackLaterIff(s: State)
    requires Inv(s) && s.phase.Uncached?
    ensures CanBeCachedLater(s) <==> SomePending(s)
  {
    if SomePending(s) {
      var t :| t in s.scouts && (s.scouts[t].Collected? || s.scouts[t].Fetched?);
      if s.scouts[t].Fetched? {
        var acts, e := FetchedReturns(s, t);
      } else {
        BackAtReturnIff(s);
        var acts, e :| Leads(s, acts, e) && e.phase.Ungated? && e.cached;
        assert Leads(s, acts, e) && e.cached;
      }
    } else {
      forall t | t in s.scouts ensures Out(s.scouts[t]) {
        assert ScoutOk(s, s.scouts[t]);
      }
      forall acts, e | Leads(s, acts, e) ensures !e.cached { ForgottenStays(s, acts, e); }
    }
  }

  // ------------------------------------ what a deleted but cached sandbox costs

  /** The cache names a sandbox that the service has deleted. */
  ghost predicate DeadEntry(s: State) {
    s.cached && !s.alive && (s.phase.Ungated? || s.phase.Returned?)
  }

  /** It stays, and no search that locks it succeeds any more. */
  lemma {:induction false} DeadEntryStays(s: State, acts: seq<Action>, e: State)
    requires DeadEntry(s) && Leads(s, acts, e)
    ensures DeadEntry(e) && !HasInsert(acts)
    decreases |acts|
  {
    if acts != [] {
      DeadEntryStays(Apply(s, acts[0]), acts[1..], e);
      HasInsertSplit(acts);
    }
  }

  lemma {:induction false} Joined(s: State, a: seq<Action>, m: State, b: seq<Action>, e: State)
    requires Leads(s, a, m) && Leads(m, b, e)
    ensures Leads(s, a + b, e)
    decreases |a|
  {
    if a == [] {
      assert a + b == b;
    } else {
      Joined(Apply(s, a[0]), a[1..], m, b, e);
      assert (a + b)[1..] == a[1..] + b;
    }
  }

  /** Nobody can cache the sandbox before a deletion: until then the state is quiet,
      and from then on it is gone and uncached. */
  ghost predicate NeverDead(s: State) {
    if s.alive then s.phase.Returned? || Quiet(s) else !s.cached
  }

  lemma {:induction false} NeverDeadStays(s: State, acts: seq<Action>, e: State)
    requires NeverDead(s) && !s.phase.Holding? && Leads(s, acts, e)
    ensures NeverDead(e) && !e.phase.Holding?
    decreases |acts|
  {
    if acts != [] { NeverDeadStays(Apply(s, acts[0]), acts[1..], e); }
  }

  ghost predicate CanLeaveDeadEntry(s: State) {
    exists acts, e :: Leads(s, acts, e) && e.phase.Returned? && DeadEntry(e)
  }

  /** At the removal of the cache entry: a successful poisoning can leave the deleted
      sandbox cached iff some task had collected it and not yet taken its gate. */
  lemma DeadEntryLeftIff(s: State)
    requires Inv(s) && s.phase.Uncached?
    ensures CanLeaveDeadEntry(s) <==> SomeCollected(s)
  {
    if SomeCollected(s) {
      var t :| t in s.scouts && s.scouts[t].Collected?;
      var s1 := Apply(s, Ungate);
      StepKeepsInv(s, Ungate);
      var acts, e := CollectedReturns(s1, t);
      Then(s, Ungate, acts, e);
      var e1 := Apply(e, Delete);
      var e2 := Apply(e1, Return);
      assert Leads(e2, [], e2);
      Then(e1, Return, [], e2);
      Then(e, Delete, [Return] + [], e2);
      Joined(s, [Ungate] + acts, e, [Delete] + ([Return] + []), e2);
      assert DeadEntry(e2);
    } else {
      forall t | t in s.scouts
        ensures var c := s.scouts[t]; c.Fresh? || c.Done? || c.Failed? || c == Fetched(s.own)
      {
        assert ScoutOk(s, s.scouts[t]);
      }
      forall acts, e | Leads(s, acts, e) && e.phase.Returned? ensures !DeadEntry(e) {
        NeverDeadStays(s, acts, e);
      }
    }
  }

  /** A later search for the same tree that finds the gate free can list it no more: it
      runs into a failure. */
  lemma LaterSearchFails(s: State, t: Task) returns (acts: seq<Action>, e: State)
    requires Inv(s) && DeadEntry(s) && t !in s.scouts
    requires s.entry.Some? ==> Free(s, s.entry.value)
    ensures Leads(s, acts, e) && t in e.scouts && e.scouts[t].Failed?
  {
    var s1 := Apply(s, Spawn(t));
    var s2 := Apply(s1, Collect(t));
    var s3 := Apply(s2, Fetch(t));
    var g := s3.scouts[t].gate;
    forall u | u in s3.scouts ensures s3.scouts[u] != Locked(g) {
      assert u in s.scouts ==> ScoutOk(s, s.scouts[u]);
    }
    var s4 := Apply(s3, TryLock(t));
    e := Apply(s4, Fail(t));
    assert Leads(e, [], e);
    Then(s4, Fail(t), [], e);
    Then(s3, TryLock(t), [Fail(t)] + [], e);
    Then(s2, Fetch(t), [TryLock(t)] + ([Fail(t)] + []), e);
    Then(s1, Collect(t), [Fetch(t)] + ([TryLock(t)] + ([Fail(t)] + [])), e);
    acts := [Collect(t)] + ([Fetch(t)] + ([TryLock(t)] + ([Fail(t)] + [])));
    Then(s, Spawn(t), acts, e);
    acts := [Spawn(t)] + acts;
  }

  /** The run: another task collects the sandbox, the poisoning removes the entry and the
      gate, that task makes a new gate, locks it and caches the sandbox again. */
  lemma BackExample() returns (s: State, acts: seq<Action>, e: State)
    ensures Start(s) && s.cached && Leads(s, acts, e) && e.phase.Ungated? && e.cached
  {
    s := State(true, true, Some(0), 1, 0, Holding, map[7 := Fresh]);
    var s1 := Apply(s, Collect(7));
    var s2 := Apply(s1, Uncache);
    assert s2.scouts[7].Collected? && SomeCollected(s2);
    BackAtReturnIff(s2);
    var rest, last :| Leads(s2, rest, last) && last.phase.Ungated? && last.cached;
    Then(s1, Uncache, rest, last);
    Then(s, Collect(7), [Uncache] + rest, last);
    acts, e := [Collect(7)] + ([Uncache] + rest), last;
  }
}
