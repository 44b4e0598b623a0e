/**
 The egress byte cap: any number of tunnel directions reserve, commit and refund
 bytes on one shared atomic counter, without a lock. A load, a compare-exchange
 (which may fail spuriously), a commit and a drop are separate atomic steps, so
 every interleaving is a run. The counter is a u64.
 */
module EgressCap {

  const U64_MAX: nat := 0xFFFF_FFFF_FFFF_FFFF

  /** `Trying` is inside the compare-exchange loop with the value it last read;
      `Live` owns a reservation with its uncommitted remainder. */
  datatype Thread =
    | Idle
    | Trying(exact: bool, wanted: nat, current: nat)
    | Live(exact: bool, wanted: nat, uncommitted: nat)

  /** `committed` counts the bytes reported written, over all threads. */
  datatype State = State(cap: nat, used: int, committed: nat, threads: seq<Thread>)

  function SaturatingSub(a: nat, b: int): nat {
    if a > b then (if b < 0 then a else a - b) else 0
  }

  function Min(a: nat, b: nat): nat {
    if a < b then a else b
  }

  /** What the loop asks for after reading `current`: `None` is a refusal. */
  function Grant(cap: nat, t: Thread): (g: int)
    requires t.Trying?
  {
    var room := SaturatingSub(cap, t.current);
    if t.exact then (if room < t.wanted then -1 else t.wanted)
    else (if Min(room, t.wanted) == 0 then -1 else Min(room, t.wanted))
  }

  datatype Action =
    | Spawn
    | Load(i: nat, exact: bool, wanted: nat)
    | Refuse(i: nat)
    | Exchange(i: nat)                 // compare-exchange that succeeds
    | Miss(i: nat)                     // one that fails, possibly spuriously
    | CommitBytes(i: nat, written: nat)
    | Drop(i: nat)                     // end of scope, error or cancellation

  predicate Enabled(s: State, a: Action) {
    if a.Spawn? then true
    else
      a.i < |s.threads| &&
      var t := s.threads[a.i];
      match a
      case Load(_, _, wanted) => t.Idle? && wanted <= U64_MAX
      case Refuse(_) => t.Trying? && Grant(s.cap, t) < 0
      case Exchange(_) => t.Trying? && Grant(s.cap, t) >= 0 && s.used == t.current
      case Miss(_) => t.Trying? && Grant(s.cap, t) >= 0
      case CommitBytes(_, written) => t.Live? && written <= t.uncommitted
      case Drop(_) => t.Live?
  }

  function Set(s: State, i: nat, t: Thread): State
    requires i < |s.threads|
  {
    s.(threads := s.threads[i := t])
  }

  function Apply(s: State, a: Action): State
    requires Enabled(s, a)
    requires s.used >= 0
  {
    match a
    case Spawn => s.(threads := s.threads + [Idle])
    case Load(i, exact, wanted) => Set(s, i, Trying(exact, wanted, s.used))
    case Refuse(i) => Set(s, i, Idle)
    case Exchange(i) =>
      var t := s.threads[i];
      var g := Grant(s.cap, t);
      Set(s.(used := t.current + g), i, Live(t.exact, t.wanted, g))
    case Miss(i) => Set(s, i, s.threads[i].(current := s.used))
    case CommitBytes(i, written) =>
      var t := s.threads[i];
      Set(s.(committed := s.committed + written), i, t.(uncommitted := t.uncommitted - written))
    case Drop(i) => Set(s.(used := s.used - s.threads[i].uncommitted), i, Idle)
  }

  function Outstanding(t: Thread): nat {
    if t.Live? then t.uncommitted else 0
  }

  /** All reserved bytes not yet reported written. */
  function TotalOutstanding(ts: seq<Thread>): nat {
    if ts == [] then 0 else TotalOutstanding(ts[..|ts| - 1]) + Outstanding(ts[|ts| - 1])
  }

  lemma {:induction false} OutstandingUpdate(ts: seq<Thread>, i: nat, t: Thread)
    requires i < |ts|
    ensures TotalOutstanding(ts[i := t]) == TotalOutstanding(ts) - Outstanding(ts[i]) + Outstanding(t)
  {
    var n := |ts| - 1;
    if i < n {
      assert ts[i := t][..n] == ts[..n][i := t];
      OutstandingUpdate(ts[..n], i, t);
    } else {
      assert ts[i := t][..n] == ts[..n];
    }
  }

  /** Conservation: the counter is exactly the committed bytes plus every live
      reservation, and never above the cap. */
  ghost predicate Inv(s: State) {
    && s.cap <= U64_MAX
    && s.used == s.committed + TotalOutstanding(s.threads)
    && s.used <= s.cap
    && (forall i :: 0 <= i < |s.threads| && s.threads[i].Trying? ==>
          s.threads[i].current <= s.cap)
  }

  lemma StepKeepsInv(s: State, a: Action)
    requires Inv(s) && Enabled(s, a)
    ensures Inv(Apply(s, a))
    ensures Apply(s, a).committed >= s.committed
  {
    if a.Spawn? {
      assert (s.threads + [Idle])[..|s.threads|] == s.threads;
    } else {
      OutstandingUpdate(s.threads, a.i, Apply(s, a).threads[a.i]);
    }
  }

  ghost predicate Next(s: State, s': State) {
    s.used >= 0 && exists a :: Enabled(s, a) && s' == Apply(s, a)
  }

  ghost predicate StepAt(run: seq<State>, i: nat)
    requires 0 < i < |run|
  {
    Next(run[i - 1], run[i])
  }

  /** A session starts with no byte used and no thread. */
  ghost predicate IsRun(run: seq<State>) {
    && |run| > 0 && run[0].cap <= U64_MAX && run[0] == State(run[0].cap, 0, 0, [])
    && forall i :: 0 < i < |run| ==> StepAt(run, i)
  }

  lemma {:induction false} RunKeepsInv(run: seq<State>, i: nat)
    requires IsRun(run) && i < |run|
    ensures Inv(run[i]) && run[i].cap == run[0].cap
  {
    if i > 0 {
      RunKeepsInv(run, i - 1);
      assert StepAt(run, i);
      var a :| Enabled(run[i - 1], a) && run[i] == Apply(run[i - 1], a);
      StepKeepsInv(run[i - 1], a);
    }
  }

  lemma {:induction false} NothingLive(ts: seq<Thread>)
    requires forall i :: 0 <= i < |ts| ==> !ts[i].Live?
    ensures TotalOutstanding(ts) == 0
  {
    if ts != [] { NothingLive(ts[..|ts| - 1]); }
  }

  lemma {:induction false} OneOfTotal(ts: seq<Thread>, i: nat)
    requires i < |ts|
    ensures Outstanding(ts[i]) <= TotalOutstanding(ts)
  {
    if i < |ts| - 1 { OneOfTotal(ts[..|ts| - 1], i); }
  }

  /** In every state of every run: bytes are conserved, the cap holds, no refund
      underflows, no grant overflows, and with no live reservation the counter is
      the bytes actually written. */
  lemma CapHolds(run: seq<State>, i: nat)
    requires IsRun(run) && i < |run|
    ensures var s := run[i];
            && s.used == s.committed + TotalOutstanding(s.threads)
            && s.committed <= s.used <= s.cap == run[0].cap <= U64_MAX
            && (forall j :: 0 <= j < |s.threads| && s.threads[j].Live? ==>
                  s.threads[j].uncommitted <= s.used)
            && (forall j :: 0 <= j < |s.threads| && s.threads[j].Trying? ==>
                  s.threads[j].current + Grant(s.cap, s.threads[j]) <= s.cap)
            && ((forall j :: 0 <= j < |s.threads| ==> !s.threads[j].Live?) ==> s.used == s.committed)
  {
    RunKeepsInv(run, i);
    var s := run[i];
    forall j | 0 <= j < |s.threads| && s.threads[j].Live?
      ensures s.threads[j].uncommitted <= s.used
    {
      OneOfTotal(s.threads, j);
    }
    if forall j :: 0 <= j < |s.threads| ==> !s.threads[j].Live? {
      NothingLive(s.threads);
    }
  }

  /** The value a thread holds in its loop is one the counter really had. */
  lemma {:induction false} ReadWasReal(run: seq<State>, i: nat, j: nat) returns (k: nat)
    requires IsRun(run) && i < |run| && j < |run[i].threads| && run[i].threads[j].Trying?
    ensures k <= i && run[k].used == run[i].threads[j].current
  {
    RunKeepsInv(run, i);
    RunKeepsInv(run, i - 1);
    assert StepAt(run, i);
    var a :| Enabled(run[i - 1], a) && run[i] == Apply(run[i - 1], a);
    if j < |run[i - 1].threads| && run[i].threads[j] == run[i - 1].threads[j] {
      k := ReadWasReal(run, i - 1, j);
    } else {
      k := i - 1;
    }
  }

  /** A reservation takes exactly what it adds to the counter: an exact one the
      whole amount and never part of it, the other the amount or all the room
      that is left. A refusal means the room was really missing at some moment. */
  lemma ReservationHonest(run: seq<State>, i: nat, a: Action) returns (k: nat)
    requires IsRun(run) && i < |run| && Enabled(run[i], a)
    requires a.Exchange? || a.Refuse?
    ensures k <= i && run[k].cap == run[i].cap
    ensures a.Exchange? ==>
              var t, s' := run[i].threads[a.i], Apply(run[i], a);
              && s'.threads[a.i].Live?
              && s'.used == run[i].used + s'.threads[a.i].uncommitted <= run[i].cap
              && (if t.exact then s'.threads[a.i].uncommitted == t.wanted
                  else 0 < s'.threads[a.i].uncommitted <= t.wanted
                       && (s'.threads[a.i].uncommitted == t.wanted || s'.used == run[i].cap))
    ensures a.Refuse? ==>
              var t := run[i].threads[a.i];
              if t.exact then run[k].used + t.wanted > run[k].cap
              else t.wanted == 0 || run[k].used == run[k].cap
  {
    k := ReadWasReal(run, i, a.i);
    RunKeepsInv(run, i);
    RunKeepsInv(run, k);
  }
}
