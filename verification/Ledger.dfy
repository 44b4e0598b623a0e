/**
 The causal ledger: an append-only table of hash-chained events, its verifier,
 and the causal query for an effect. The hash is an arbitrary function of an
 event's body, so tamper evidence is stated without any assumption on it: either
 two logs are equal or they exhibit two different bodies with one hash.
 */
module Ledger {

  datatype Option<T> = None | Some(value: T)

  type Hash = string

  /** What an appender provides; `effect` is the payload's `effect_id`, if any. */
  datatype NewEvent = NewEvent(kind: string, episode: string, branch: Option<string>,
                               step: Option<string>, principal: string, payload: string,
                               effect: Option<string>, causedBy: seq<int>)

  datatype Body = Body(seqNo: int, timestamp: int, event: NewEvent, prev: Option<Hash>)

  datatype Event = Event(body: Body, hash: Hash)

  type Hasher = Body -> Hash

  /** The hash the next event must carry as its predecessor. */
  function Tip(log: seq<Event>): Option<Hash> {
    if log == [] then None else Some(log[|log| - 1].hash)
  }

  ghost predicate Linked(log: seq<Event>, h: Hasher, i: nat)
    requires i < |log|
  {
    log[i].body.prev == Tip(log[..i]) && log[i].hash == h(log[i].body)
  }

  ghost predicate Verifies(log: seq<Event>, h: Hasher) {
    forall i :: 0 <= i < |log| ==> Linked(log, h, i)
  }

  /** Rows in `ORDER BY seq ASC` order; the sequence number is the primary key. */
  predicate Ascending(log: seq<Event>) {
    forall i, j :: 0 <= i < j < |log| ==> log[i].body.seqNo < log[j].body.seqNo
  }

  predicate Numbered(log: seq<Event>) {
    forall i :: 0 <= i < |log| ==> log[i].body.seqNo == i + 1
  }

  class EventTable {
    const hasher: Hasher
    var rows: seq<Event>

    constructor (hasher: Hasher)
      ensures this.hasher == hasher && rows == []
    {
      this.hasher, rows := hasher, [];
    }

    /** Append to the chain. Whatever the table held, one event is added after the
        last; a verifying, gap-free table stays so. */
    method Append(event: NewEvent, now: int) returns (e: Event)
      requires Ascending(rows)
      modifies this
      ensures rows == old(rows) + [e] && Ascending(rows)
      ensures e.body.event == event && e.body.timestamp == now
      ensures Numbered(old(rows)) ==> Numbered(rows)
      ensures Verifies(rows, hasher) <==> Verifies(old(rows), hasher)
    {
      var seqNo := if rows == [] then 1 else rows[|rows| - 1].body.seqNo + 1;
      var body := Body(seqNo, now, event, Tip(rows));
      e := Event(body, hasher(body));
      AppendVerifies(rows, e, hasher);
      rows := rows + [e];
    }

    /** Verify the whole chain: the number of events, or the first bad row. */
    method VerifyChain() returns (count: nat, bad: Option<int>)
      ensures bad.None? <==> Verifies(rows, hasher)
      ensures bad.None? ==> count == |rows|
      ensures bad.Some? ==> count < |rows| && bad.value == rows[count].body.seqNo
                            && !Linked(rows, hasher, count) && Verifies(rows[..count], hasher)
    {
      var prev: Option<Hash> := None;
      count := 0;
      while count < |rows|
        invariant count <= |rows| && prev == Tip(rows[..count])
        invariant forall i :: 0 <= i < count ==> Linked(rows, hasher, i)
      {
        var e := rows[count];
        PrefixVerifies(rows, count, hasher);
        if e.body.prev != prev {
          assert !Linked(rows, hasher, count);
          return count, Some(e.body.seqNo);
        }
        if hasher(e.body) != e.hash {
          assert !Linked(rows, hasher, count);
          return count, Some(e.body.seqNo);
        }
        prev := Some(e.hash);
        assert rows[..count + 1][count] == e;
        count := count + 1;
      }
      return count, None;
    }
  }

  lemma PrefixVerifies(log: seq<Event>, n: nat, h: Hasher)
    requires n <= |log| && forall i :: 0 <= i < n ==> Linked(log, h, i)
    ensures Verifies(log[..n], h)
  {
    forall i | 0 <= i < n ensures Linked(log[..n], h, i) {
      assert Linked(log, h, i) && log[..n][..i] == log[..i];
    }
  }

  lemma AppendVerifies(log: seq<Event>, e: Event, h: Hasher)
    requires e.body.prev == Tip(log) && e.hash == h(e.body)
    ensures Verifies(log + [e], h) <==> Verifies(log, h)
  {
    var both := log + [e];
    assert both[..|log|] == log;
    if Verifies(both, h) { PrefixVerifies(both, |log|, h); }
    if Verifies(log, h) {
      forall i | 0 <= i < |both| ensures Linked(both, h, i) {
        if i < |log| { assert Linked(log, h, i) && both[..i] == log[..i]; }
      }
    }
  }

  /** Every log built by appending verifies, with sequence numbers 1 to n. */
  method BuildLog(events: seq<NewEvent>, times: seq<int>, hasher: Hasher) returns (log: seq<Event>)
    requires |times| == |events|
    ensures Verifies(log, hasher) && Numbered(log) && |log| == |events|
    ensures forall i :: 0 <= i < |log| ==> log[i].body.event == events[i]
  {
    var table := new EventTable(hasher);
    for n := 0 to |events|
      invariant Ascending(table.rows) && Numbered(table.rows) && Verifies(table.rows, hasher)
      invariant table.hasher == hasher && |table.rows| == n
      invariant forall i :: 0 <= i < n ==> table.rows[i].body.event == events[i]
    {
      var _ := table.Append(events[n], times[n]);
    }
    log := table.rows;
  }

  // -------------------------------------------------------- tamper evidence

  ghost predicate Collision(a: Body, b: Body, h: Hasher) {
    a != b && h(a) == h(b)
  }

  /** Two verifying logs with the same final hash are equal, or `x` and `y` are
      different bodies, one from each log, with the same hash. */
  lemma {:induction false} SameTip(a: seq<Event>, b: seq<Event>, h: Hasher) returns (x: Body, y: Body)
    requires a != [] && b != [] && Verifies(a, h) && Verifies(b, h) && Tip(a) == Tip(b)
    ensures a == b || (Collision(x, y, h) && (exists i :: 0 <= i < |a| && a[i].body == x)
                                          && (exists j :: 0 <= j < |b| && b[j].body == y))
    decreases |a|
  {
    var m, n := |a| - 1, |b| - 1;
    assert Linked(a, h, m) && Linked(b, h, n);
    x, y := a[m].body, b[n].body;
    if x == y && a[..m] != [] {
      assert b[..n] != [];
      PrefixVerifies(a, m, h);
      PrefixVerifies(b, n, h);
      var x', y' := SameTip(a[..m], b[..n], h);
      if a[..m] == b[..n] {
        assert a == a[..m] + [a[m]] && b == b[..n] + [b[n]];
      } else {
        var i :| 0 <= i < |a[..m]| && a[..m][i].body == x';
        var j :| 0 <= j < |b[..n]| && b[..n][j].body == y';
        assert a[i].body == x' && b[j].body == y';
        x, y := x', y';
      }
    } else if x == y {
      assert b[..n] == [];
      assert a == [a[m]] && b == [b[n]];
    }
  }

  /** What the verifier alone cannot see: removing the newest events leaves a log
      that verifies, with another final hash. */
  lemma TruncationVerifies(log: seq<Event>, n: nat, h: Hasher)
    requires Verifies(log, h) && n <= |log|
    ensures Verifies(log[..n], h)
  {
    PrefixVerifies(log, n, h);
  }

  // ----------------------------------------------------------- causal query

  ghost predicate Cites(log: seq<Event>, from: int, to: int) {
    exists i :: 0 <= i < |log| && log[i].body.seqNo == from && to in log[i].body.event.causedBy
  }

  ghost predicate Carries(log: seq<Event>, effect: string, s: int) {
    exists i :: 0 <= i < |log| && log[i].body.seqNo == s && log[i].body.event.effect == Some(effect)
  }

  /** `path` leads from an event of the effect back along attribution links. */
  ghost predicate IsPath(log: seq<Event>, effect: string, path: seq<int>) {
    && path != [] && Carries(log, effect, path[0])
    && forall i :: 0 < i < |path| ==> Cites(log, path[i - 1], path[i])
  }

  ghost predicate LedTo(log: seq<Event>, effect: string, s: int) {
    exists path :: IsPath(log, effect, path) && path[|path| - 1] == s
  }

  ghost predicate Closed(log: seq<Event>, wanted: set<int>) {
    forall from, to :: from in wanted && Cites(log, from, to) ==> to in wanted
  }

  lemma SeedLed(log: seq<Event>, effect: string, s: int)
    requires Carries(log, effect, s)
    ensures LedTo(log, effect, s)
  {
    assert IsPath(log, effect, [s]) && [s][|[s]| - 1] == s;
  }

  lemma LinkLed(log: seq<Event>, effect: string, from: int, to: int)
    requires LedTo(log, effect, from) && Cites(log, from, to)
    ensures LedTo(log, effect, to)
  {
    var path :| IsPath(log, effect, path) && path[|path| - 1] == from;
    var longer := path + [to];
    assert IsPath(log, effect, longer) && longer[|longer| - 1] == to;
  }

  lemma {:induction false} PathStaysIn(log: seq<Event>, effect: string, path: seq<int>, wanted: set<int>, i: nat)
    requires IsPath(log, effect, path) && Closed(log, wanted) && i < |path|
    requires forall s :: Carries(log, effect, s) ==> s in wanted
    ensures path[i] in wanted
  {
    if i > 0 {
      PathStaysIn(log, effect, path, wanted, i - 1);
      assert Cites(log, path[i - 1], path[i]);
    }
  }

  /** A closed set of led-to numbers that holds the seeds is all of them. */
  lemma ClosureIsAll(log: seq<Event>, effect: string, wanted: set<int>)
    requires Closed(log, wanted)
    requires forall s :: s in wanted ==> LedTo(log, effect, s)
    requires forall s :: Carries(log, effect, s) ==> s in wanted
    ensures forall s :: s in wanted <==> LedTo(log, effect, s)
  {
    forall s | LedTo(log, effect, s) ensures s in wanted {
      var path :| IsPath(log, effect, path) && path[|path| - 1] == s;
      PathStaysIn(log, effect, path, wanted, |path| - 1);
    }
  }

  function ToSet(xs: seq<int>): (s: set<int>)
    ensures forall x :: x in s <==> x in xs
  {
    set x | x in xs
  }

  /** Every number the query can ever collect. */
  function Mentioned(log: seq<Event>): (s: set<int>)
    ensures forall i :: 0 <= i < |log| ==>
      log[i].body.seqNo in s && forall c :: c in log[i].body.event.causedBy ==> c in s
  {
    if log == [] then {}
    else
      var n := |log| - 1;
      Mentioned(log[..n]) + {log[n].body.seqNo} + ToSet(log[n].body.event.causedBy)
  }

  lemma ClosedHasCauses(log: seq<Event>, wanted: set<int>, n: nat)
    requires Closed(log, wanted) && n < |log| && log[n].body.seqNo in wanted
    ensures wanted + ToSet(log[n].body.event.causedBy) == wanted
  {
    forall c | c in log[n].body.event.causedBy ensures c in wanted {
      assert Cites(log, log[n].body.seqNo, c);
    }
  }

  /** One pass over the log: follow the links of every event already wanted. */
  method ClosurePass(log: seq<Event>, wanted: set<int>, ghost effect: string) returns (more: set<int>)
    requires wanted <= Mentioned(log) && forall s :: s in wanted ==> LedTo(log, effect, s)
    ensures wanted <= more <= Mentioned(log)
    ensures forall s :: s in more ==> LedTo(log, effect, s)
    ensures more == wanted <==> Closed(log, wanted)
  {
    more := wanted;
    for n := 0 to |log|
      invariant wanted <= more <= Mentioned(log)
      invariant forall s :: s in more ==> LedTo(log, effect, s)
      invariant forall i :: 0 <= i < n && log[i].body.seqNo in wanted ==>
                  forall c :: c in log[i].body.event.causedBy ==> c in more
      invariant Closed(log, wanted) ==> more == wanted
    {
      var e := log[n].body;
      if e.seqNo in more {
        forall c | c in e.event.causedBy ensures LedTo(log, effect, c) {
          assert Cites(log, e.seqNo, c);
          LinkLed(log, effect, e.seqNo, c);
        }
        if Closed(log, wanted) { ClosedHasCauses(log, wanted, n); }
        more := more + ToSet(e.event.causedBy);
      }
    }
  }

  /** The events that led to an effect: exactly those its own events reach over
      attribution links, in sequence order, on any log, even with dangling or
      cyclic links. */
  method EventsLeadingToEffect(log: seq<Event>, effect: string) returns (found: seq<Event>)
    requires Ascending(log)
    ensures Ascending(found)
    ensures forall e :: e in found <==> e in log && LedTo(log, effect, e.body.seqNo)
  {
    var wanted := Seeds(log, effect);
    var done := false;
    while !done
      invariant wanted <= Mentioned(log)
      invariant forall s :: Carries(log, effect, s) ==> s in wanted
      invariant forall s :: s in wanted ==> LedTo(log, effect, s)
      invariant done ==> Closed(log, wanted)
      decreases !done, |Mentioned(log)| - |wanted|
    {
      var more := ClosurePass(log, wanted, effect);
      GrowsOrSame(wanted, more, Mentioned(log));
      done := |more| == |wanted|;
      wanted := more;
    }
    ClosureIsAll(log, effect, wanted);
    found := Select(log, wanted);
  }

  method Select(log: seq<Event>, wanted: set<int>) returns (found: seq<Event>)
    requires Ascending(log)
    ensures Ascending(found)
    ensures forall e :: e in found <==> e in log && e.body.seqNo in wanted
  {
    found := [];
    for n := 0 to |log|
      invariant Ascending(found)
      invariant forall e :: e in found <==> e in log[..n] && e.body.seqNo in wanted
    {
      if log[n].body.seqNo in wanted {
        forall i | 0 <= i < |found| ensures found[i].body.seqNo < log[n].body.seqNo {
          assert found[i] in found;
        }
        found := found + [log[n]];
      }
    }
    assert log[..|log|] == log;
  }

  method Seeds(log: seq<Event>, effect: string) returns (wanted: set<int>)
    ensures wanted <= Mentioned(log)
    ensures forall s :: s in wanted <==> Carries(log, effect, s)
    ensures forall s :: s in wanted ==> LedTo(log, effect, s)
  {
    wanted := {};
    for n := 0 to |log|
      invariant wanted <= Mentioned(log)
      invariant forall s :: s in wanted <==>
        exists i :: 0 <= i < n && log[i].body.seqNo == s && log[i].body.event.effect == Some(effect)
    {
      if log[n].body.event.effect == Some(effect) { wanted := wanted + {log[n].body.seqNo}; }
    }
    forall s | s in wanted ensures LedTo(log, effect, s) { SeedLed(log, effect, s); }
  }

  lemma GrowsOrSame(a: set<int>, b: set<int>, all: set<int>)
    requires a <= b <= all
    ensures |a| <= |b| <= |all| && (|a| == |b| <==> a == b)
  {
    assert b == a + (b - a) && all == b + (all - b);
    if |a| == |b| { assert |b - a| == 0; }
  }
}
