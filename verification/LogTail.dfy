/**
 The capped log buffer of a long-running process, the pumps that fill it from the
 process's pipes, and a reader that follows it by offset meanwhile. The exit status
 is set by a reaper of its own, so it says nothing about what is left in a pipe.
 */
module LogTail {

  type Bytes = seq<bv8>

  function Min(a: nat, b: nat): nat { if a < b then a else b }
  function Max(a: nat, b: nat): nat { if a < b then b else a }

  class LogBuffer {
    var data: Bytes
    var baseOffset: nat
    const cap: nat
    ghost var stream: Bytes       // every byte ever produced

    ghost predicate Valid()
      reads this
    {
      && cap >= 1
      && |data| == Min(|stream|, cap)
      && baseOffset == |stream| - |data|
      && data == stream[baseOffset..]
    }

    constructor (limit: nat)
      ensures Valid() && stream == [] && cap == Max(limit, 1)
    {
      data, baseOffset, cap, stream := [], 0, Max(limit, 1), [];
    }

    /** The buffer always holds the last `min(total, cap)` bytes of the stream. */
    method Append(chunk: Bytes)
      requires Valid()
      modifies this
      ensures Valid() && stream == old(stream) + chunk
    {
      data := data + chunk;
      if |data| > cap {
        var drop := |data| - cap;
        data := data[drop..];
        baseOffset := baseOffset + drop;
      }
      stream := stream + chunk;
    }

    function Total(): (n: nat)
      reads this
      requires Valid()
      ensures n == |stream|
    {
      baseOffset + |data|
    }

    /** Up to `max` bytes from stream offset `from`, clamped to what is held. */
    method ReadFrom(from: nat, max: nat) returns (start: nat, bytes: Bytes)
      requires Valid()
      ensures start == Min(Max(from, |stream| - Min(|stream|, cap)), |stream|)
      ensures start + |bytes| <= |stream| && bytes == stream[start..start + |bytes|]
      ensures |bytes| == Min(max, |stream| - start)
    {
      start := Min(Max(from, baseOffset), Total());
      var idx := start - baseOffset;
      var end := Min(idx + max, |data|);
      bytes := data[idx..end];
    }
  }

  datatype Report = Report(requested: nat, effective: nat, data: Bytes, dropped: nat,
                           next: nat, total: nat, running: bool, eof: bool)

  // ----------------------------------------------- pipes, pumps and exit

  /** One output pipe: what was written and is not in the log yet (a chunk in its pump's
      hand included), whether some process still holds the writing end, and whether
      the pump still runs; it ends for good on a read error. */
  datatype Pipe = Pipe(waiting: Bytes, open: bool, pumped: bool)

  datatype World = World(pipes: seq<Pipe>, running: bool)

  datatype Event =
    | Write(k: nat, bytes: Bytes)
    | Close(k: nat)                  // the last writer of the pipe is gone
    | Move(k: nat, n: nat)           // its pump moves up to n bytes into the log
    | Break(k: nat)                  // its pump ends on a read error
    | Exit

  function After(w: World, e: Event): World {
    match e
    case Write(k, bytes) =>
      if k < |w.pipes| && w.pipes[k].open then
        w.(pipes := w.pipes[k := w.pipes[k].(waiting := w.pipes[k].waiting + bytes)])
      else w
    case Close(k) => if k < |w.pipes| then w.(pipes := w.pipes[k := w.pipes[k].(open := false)]) else w
    case Move(k, n) =>
      if k < |w.pipes| && w.pipes[k].pumped then
        var rest := w.pipes[k].waiting;
        w.(pipes := w.pipes[k := w.pipes[k].(waiting := rest[Min(n, |rest|)..])])
      else w
    case Break(k) => if k < |w.pipes| then w.(pipes := w.pipes[k := w.pipes[k].(pumped := false)]) else w
    case Exit => w.(running := false)
  }

  /** What the event adds to the log. */
  function Moved(w: World, e: Event): Bytes {
    if e.Move? && e.k < |w.pipes| && w.pipes[e.k].pumped then
      w.pipes[e.k].waiting[..Min(e.n, |w.pipes[e.k].waiting|)]
    else []
  }

  function Final(w: World, events: seq<Event>): World {
    if events == [] then w
    else var n := |events| - 1; After(Final(w, events[..n]), events[n])
  }

  /** What a run adds to the log. */
  function Output(w: World, events: seq<Event>): Bytes {
    if events == [] then []
    else var n := |events| - 1; Output(w, events[..n]) + Moved(Final(w, events[..n]), events[n])
  }

  lemma RunStep(w: World, a: seq<Event>, e: Event)
    ensures Final(w, a + [e]) == After(Final(w, a), e)
    ensures Output(w, a + [e]) == Output(w, a) + Moved(Final(w, a), e)
  {
    assert (a + [e])[..|a|] == a;
  }

  lemma {:induction false} RunSplits(w: World, a: seq<Event>, b: seq<Event>)
    ensures Final(w, a + b) == Final(Final(w, a), b)
    ensures Output(w, a + b) == Output(w, a) + Output(Final(w, a), b)
  {
    if b == [] {
      assert a + b == a;
    } else {
      var n := |b| - 1;
      var init, e := b[..n], b[n];
      assert b == init + [e] && a + b == (a + init) + [e];
      RunSplits(w, a, init);
      RunStep(w, a + init, e);
      RunStep(Final(w, a), init, e);
      Regroup(Output(w, a), Output(Final(w, a), init), Moved(Final(w, a + init), e));
    }
  }

  lemma Regroup(a: Bytes, b: Bytes, c: Bytes)
    ensures (a + b) + c == a + (b + c)
  {
  }

  /** Of each pipe, nothing waits and nobody can write, or the pump is dead. */
  ghost predicate Drained(w: World) {
    forall k :: 0 <= k < |w.pipes| ==> w.pipes[k].pumped ==> w.pipes[k].waiting == [] && !w.pipes[k].open
  }

  lemma DrainedStep(w: World, e: Event)
    requires Drained(w)
    ensures Drained(After(w, e)) && Moved(w, e) == []
  {
  }

  lemma {:induction false} DrainedStays(w: World, events: seq<Event>)
    requires Drained(w)
    ensures Drained(Final(w, events)) && Output(w, events) == []
  {
    if events != [] {
      var n := |events| - 1;
      DrainedStays(w, events[..n]);
      DrainedStep(Final(w, events[..n]), events[n]);
    }
  }

  lemma MovesOne(w: World, k: nat)
    requires k < |w.pipes| && w.pipes[k].pumped && w.pipes[k].waiting != []
    ensures Output(w, [Move(k, 1)]) != []
  {
    assert [Move(k, 1)][..0] == [];
  }

  /** From a pipe with a writer, one byte can be written and moved. */
  lemma WritesOne(w: World, k: nat)
    requires k < |w.pipes| && w.pipes[k].pumped && w.pipes[k].open
    ensures Output(w, [Write(k, [0])] + [Move(k, 1)]) != []
  {
    var write := Write(k, [0]);
    RunStep(w, [], write);
    assert [] + [write] == [write];
    MovesOne(After(w, write), k);
    RunSplits(w, [write], [Move(k, 1)]);
  }

  ghost predicate NothingFollows(w: World) {
    forall rest :: Output(w, rest) == []
  }

  lemma SomethingFollows(w: World) returns (rest: seq<Event>)
    requires !Drained(w)
    ensures Output(w, rest) != []
  {
    var k :| 0 <= k < |w.pipes| && w.pipes[k].pumped && (w.pipes[k].waiting != [] || w.pipes[k].open);
    if w.pipes[k].waiting != [] {
      MovesOne(w, k);
      rest := [Move(k, 1)];
    } else {
      WritesOne(w, k);
      rest := [Write(k, [0])] + [Move(k, 1)];
    }
  }

  /** No continuation adds a byte if and only if both pipes are drained. */
  lemma NothingFollowsIff(w: World)
    ensures NothingFollows(w) <==> Drained(w)
  {
    if Drained(w) {
      forall rest ensures Output(w, rest) == [] { DrainedStays(w, rest); }
    } else {
      var rest := SomethingFollows(w);
    }
  }

  // ----------------------------------------------------------- one session

  /** A poll between its two reads. */
  datatype Looked = Looked(from: nat, effective: nat, data: Bytes, total: nat)

  class Session {
    const buffer: LogBuffer
    var world: World

    constructor (limit: nat, world: World)
      ensures fresh(buffer) && buffer.Valid() && buffer.stream == [] && buffer.cap == Max(limit, 1)
      ensures this.world == world
    {
      buffer := new LogBuffer(limit);
      this.world := world;
    }

    /** Something happens to the process, a pipe or the log. */
    method Happen(e: Event)
      requires buffer.Valid()
      modifies this, buffer
      ensures buffer.Valid() && world == After(old(world), e)
      ensures buffer.stream == old(buffer.stream) + Moved(old(world), e)
    {
      buffer.Append(Moved(world, e));
      world := After(world, e);
    }

    /** First half of a poll: up to `max` bytes from `from`, and the total so far. */
    method LookAt(from: nat, max: nat) returns (l: Looked)
      requires buffer.Valid()
      ensures l.from == from && l.total == |buffer.stream|
      ensures l.effective + |l.data| <= l.total
      ensures l.data == buffer.stream[l.effective..l.effective + |l.data|]
      ensures |l.data| == Min(max, l.total - l.effective)
      ensures l.effective == Min(Max(from, l.total - Min(l.total, buffer.cap)), l.total)
      ensures from <= l.total ==> StillTrue(buffer.stream, from, l)
    {
      var effective, data := buffer.ReadFrom(from, max);
      l := Looked(from, effective, data, buffer.Total());
    }

    /** Second half: the status as it is by now. */
    method Reply(l: Looked) returns (r: Report)
      requires l.effective + |l.data| <= l.total
      ensures r.requested == l.from && r.effective == l.effective && r.data == l.data
      ensures r.next == l.effective + |l.data| && r.total == l.total && r.running == world.running
      ensures l.from <= l.effective ==> r.effective == l.from + r.dropped
      ensures l.from > l.effective ==> r.dropped == 0
      ensures r.eof <==> !world.running && r.next == r.total
    {
      var next := l.effective + |l.data|;
      var dropped := if l.effective > l.from then l.effective - l.from else 0;
      r := Report(l.from, l.effective, l.data, dropped, next, l.total, world.running,
                  !world.running && next >= l.total);
    }
  }

  const TWO_PIPES: seq<Pipe> := [Pipe([], true, true), Pipe([], true, true)]

  /** A process wrote one byte and exited before any pump ran. */
  method ExitedWithOneByte() returns (session: Session)
    ensures fresh(session) && fresh(session.buffer) && session.buffer.Valid() && session.buffer.stream == []
    ensures !session.world.running && |session.world.pipes| == 2 && session.world.pipes[0].waiting == [1]
    ensures session.world.pipes[0].pumped
  {
    session := new Session(8, World(TWO_PIPES, true));
    session.Happen(Write(0, [1]));
    session.Happen(Exit);
  }

  /** The end reported with a byte still in a pipe, which arrives before the status
      is read (`between`) or after the poll has been answered. */
  method EofBeforeTheEnd(between: bool) returns (r: Report, total: nat)
    ensures r.eof && r.next < total
  {
    var session := ExitedWithOneByte();
    var l := session.LookAt(0, 64);
    var move := Move(0, 8192);
    assert Moved(session.world, move) == [1];
    if between { session.Happen(move); }
    r := session.Reply(l);
    if !between { session.Happen(move); }
    total := session.buffer.Total();
  }

  // --------------------------------------------------------- following

  function Delivered(rs: seq<Report>): nat {
    if rs == [] then 0 else Delivered(rs[..|rs| - 1]) + |rs[|rs| - 1].data|
  }

  function Dropped(rs: seq<Report>): nat {
    if rs == [] then 0 else Dropped(rs[..|rs| - 1]) + rs[|rs| - 1].dropped
  }

  function Cursor(rs: seq<Report>): nat {
    if rs == [] then 0 else rs[|rs| - 1].next
  }

  /** The report is a true slice of the stream. */
  ghost predicate TrueSlice(stream: Bytes, r: Report) {
    r.effective <= r.next <= |stream| && r.data == stream[r.effective..r.next]
  }

  /** The reports are true slices in order, and the gap before each is its reported
      drop. */
  ghost predicate InOrder(stream: Bytes, rs: seq<Report>) {
    && (forall i :: 0 <= i < |rs| ==> TrueSlice(stream, rs[i]))
    && (forall i :: 0 <= i < |rs| ==> rs[i].effective == Cursor(rs[..i]) + rs[i].dropped)
  }

  lemma StreamGrows(was: Bytes, now: Bytes, rs: seq<Report>)
    requires was <= now && InOrder(was, rs)
    ensures InOrder(now, rs)
  {
    forall i | 0 <= i < |rs| ensures TrueSlice(now, rs[i]) {
      assert TrueSlice(was, rs[i]);
      assert now[rs[i].effective..rs[i].next] == was[rs[i].effective..rs[i].next];
    }
  }

  lemma ReportAdded(stream: Bytes, rs: seq<Report>, r: Report)
    requires InOrder(stream, rs) && TrueSlice(stream, r)
    requires r.effective == Cursor(rs) + r.dropped
    ensures InOrder(stream, rs + [r])
  {
    var all := rs + [r];
    assert all[..|rs|] == rs;
    forall i | 0 <= i < |all| ensures all[i].effective == Cursor(all[..i]) + all[i].dropped {
      if i < |rs| { assert all[..i] == rs[..i]; }
    }
  }

  lemma PrefixInOrder(stream: Bytes, rs: seq<Report>)
    requires InOrder(stream, rs) && rs != []
    ensures InOrder(stream, rs[..|rs| - 1])
  {
    var init := rs[..|rs| - 1];
    forall i | 0 <= i < |init| ensures init[i].effective == Cursor(init[..i]) + init[i].dropped {
      assert init[..i] == rs[..i];
    }
  }

  /** Delivered plus reported dropped bytes account for every byte up to the cursor. */
  lemma {:induction false} EveryByteAccounted(stream: Bytes, rs: seq<Report>)
    requires InOrder(stream, rs)
    ensures Delivered(rs) + Dropped(rs) == Cursor(rs)
  {
    if rs != [] {
      var n := |rs| - 1;
      var init := rs[..n];
      PrefixInOrder(stream, rs);
      EveryByteAccounted(stream, init);
      assert TrueSlice(stream, rs[n]) && rs[n].effective == Cursor(init) + rs[n].dropped;
    }
  }

  /** The report answers a look made after the first `at` events. */
  ghost predicate AnswersLook(w: World, events: seq<Event>, at: nat, r: Report) {
    && at <= |events| && r.total == |Output(w, events[..at])|
    && (r.eof ==> !r.running && r.next == r.total)
  }

  lemma MoreEvents(w: World, events: seq<Event>, e: Event, at: nat, r: Report)
    requires AnswersLook(w, events, at, r)
    ensures AnswersLook(w, events + [e], at, r)
  {
    assert (events + [e])[..at] == events[..at];
  }

  /** The log is `n` bytes long whatever happens after `events`. */
  ghost predicate AlwaysEndsAt(w: World, events: seq<Event>, n: nat) {
    forall rest :: |Output(w, events + rest)| == n
  }

  lemma EndsIffNothingFollows(w: World, events: seq<Event>)
    ensures AlwaysEndsAt(w, events, |Output(w, events)|) <==> NothingFollows(Final(w, events))
  {
    var n, there := |Output(w, events)|, Final(w, events);
    if AlwaysEndsAt(w, events, n) {
      forall rest ensures Output(there, rest) == [] {
        RunSplits(w, events, rest);
        assert |Output(w, events + rest)| == n;
      }
    }
    if NothingFollows(there) {
      forall rest ensures |Output(w, events + rest)| == n { RunSplits(w, events, rest); }
    }
  }

  /** What `eof` is worth. In the run it occurs in, the report is the end of the
      output iff no byte was moved after the log was read, be it before the status
      was read or after the answer; and it is the end in every continuation iff both
      pipes were drained when the log was read. */
  lemma EofIsTheEndIff(w: World, events: seq<Event>, at: nat, r: Report)
    requires AnswersLook(w, events, at, r) && r.eof
    ensures r.next == |Output(w, events)| <==> Output(Final(w, events[..at]), events[at..]) == []
    ensures AlwaysEndsAt(w, events[..at], r.next) <==> Drained(Final(w, events[..at]))
  {
    var before := events[..at];
    assert events == before + events[at..];
    RunSplits(w, before, events[at..]);
    EndsIffNothingFollows(w, before);
    NothingFollowsIff(Final(w, before));
  }

  /** What a poll under way has read is still true of the stream. */
  ghost predicate StillTrue(stream: Bytes, cursor: nat, l: Looked) {
    && l.from == cursor <= l.effective && l.effective + |l.data| <= l.total <= |stream|
    && l.data == stream[l.effective..l.effective + |l.data|]
  }

  /** A reader that polls from its last `next` offset. */
  class Reader {
    const session: Session
    var reports: seq<Report>
    var pending: seq<Looked>           // at most one poll under way
    ghost const start: World
    ghost var past: seq<Event>
    ghost var looks: seq<nat>          // when each answered poll read the log
    ghost var lookedAt: nat            // when the poll under way did

    constructor (session: Session)
      requires session.buffer.Valid() && session.buffer.stream == []
      ensures this.session == session && Valid() && past == [] && start == session.world
    {
      this.session := session;
      reports, pending := [], [];
      start, past, looks, lookedAt := session.world, [], [], 0;
    }

    ghost predicate Valid()
      reads this, session, session.buffer
    {
      && session.buffer.Valid() && InOrder(session.buffer.stream, reports)
      && session.world == Final(start, past) && session.buffer.stream == Output(start, past)
      && |looks| == |reports| && AllAnswer(start, past, looks, reports)
      && |pending| <= 1 && lookedAt <= |past|
      && (pending != [] ==> StillTrue(session.buffer.stream, Cursor(reports), pending[0])
                            && pending[0].total == |Output(start, past[..lookedAt])|)
    }

    method Looking(max: nat) returns (l: Looked)
      requires Valid()
      ensures StillTrue(session.buffer.stream, Cursor(reports), l) && l.total == |session.buffer.stream|
    {
      LastSlice(session.buffer.stream, reports);
      l := session.LookAt(Cursor(reports), max);
    }

    /** A poll reads the log under its lock ... */
    method BeginPoll(max: nat)
      requires Valid()
      modifies this
      ensures Valid() && past == old(past)
    {
      if pending == [] {
        var l := Looking(max);
        LookedNow(start, past);
        pending, lookedAt := [l], |past|;
      }
    }

    /** ... and, the lock released, the exit status. */
    method EndPoll()
      requires Valid()
      modifies this
      ensures Valid() && past == old(past)
    {
      if pending != [] {
        var r := session.Reply(pending[0]);
        Answered(session.buffer.stream, reports, pending[0], r);
        AnswerAdded(start, past, looks, reports, lookedAt, r);
        pending, reports, looks := [], reports + [r], looks + [lookedAt];
      }
    }

    method Meanwhile(e: Event)
      requires Valid()
      modifies this, session, session.buffer
      ensures Valid() && past == old(past) + [e]
    {
      ghost var before := session.buffer.stream;
      RunStep(start, past, e);
      AllStillAnswer(start, past, e, looks, reports);
      session.Happen(e);
      StreamGrows(before, session.buffer.stream, reports);
      assert (past + [e])[..lookedAt] == past[..lookedAt];
      if pending != [] { StaysTrue(before, session.buffer.stream, Cursor(reports), pending[0]); }
      past := past + [e];
    }
  }

  ghost predicate AllAnswer(w: World, events: seq<Event>, looks: seq<nat>, reports: seq<Report>)
    requires |looks| == |reports|
  {
    forall i :: 0 <= i < |reports| ==> AnswersLook(w, events, looks[i], reports[i])
  }

  lemma AllStillAnswer(w: World, events: seq<Event>, e: Event, looks: seq<nat>, reports: seq<Report>)
    requires |looks| == |reports| && AllAnswer(w, events, looks, reports)
    ensures AllAnswer(w, events + [e], looks, reports)
  {
    forall i | 0 <= i < |reports| ensures AnswersLook(w, events + [e], looks[i], reports[i]) {
      MoreEvents(w, events, e, looks[i], reports[i]);
    }
  }

  lemma AnswerAdded(w: World, events: seq<Event>, looks: seq<nat>, reports: seq<Report>, at: nat, r: Report)
    requires |looks| == |reports| && AllAnswer(w, events, looks, reports) && AnswersLook(w, events, at, r)
    ensures AllAnswer(w, events, looks + [at], reports + [r])
  {
  }

  lemma Answered(stream: Bytes, rs: seq<Report>, l: Looked, r: Report)
    requires InOrder(stream, rs) && StillTrue(stream, Cursor(rs), l)
    requires r.effective == l.effective == l.from + r.dropped && r.next == l.effective + |l.data| && r.data == l.data
    ensures InOrder(stream, rs + [r])
  {
    ReportAdded(stream, rs, r);
  }

  lemma LookedNow(w: World, events: seq<Event>)
    ensures Output(w, events[..|events|]) == Output(w, events)
  {
    assert events[..|events|] == events;
  }

  lemma StaysTrue(was: Bytes, now: Bytes, cursor: nat, l: Looked)
    requires was <= now && StillTrue(was, cursor, l)
    ensures StillTrue(now, cursor, l)
  {
    assert now[..|was|] == was;
  }

  lemma LastSlice(stream: Bytes, rs: seq<Report>)
    requires InOrder(stream, rs)
    ensures Cursor(rs) <= |stream|
  {
    if rs != [] { assert TrueSlice(stream, rs[|rs| - 1]); }
  }

  datatype Turn = Happens(e: Event) | Look(max: nat) | Answer

  function Happened(turns: seq<Turn>): seq<Event> {
    if turns == [] then []
    else
      var n := |turns| - 1;
      Happened(turns[..n]) + EventOf(turns[n])
  }

  function EventOf(t: Turn): seq<Event> {
    if t.Happens? then [t.e] else []
  }

  lemma HappenedNext(turns: seq<Turn>, n: nat)
    requires n < |turns|
    ensures Happened(turns[..n + 1]) == Happened(turns[..n]) + EventOf(turns[n])
  {
    assert turns[..n + 1][..n] == turns[..n];
  }

  method Handle(reader: Reader, turn: Turn)
    requires reader.Valid()
    modifies reader, reader.session, reader.session.buffer
    ensures reader.Valid() && reader.past == old(reader.past) + EventOf(turn)
  {
    match turn {
      case Happens(e) => reader.Meanwhile(e);
      case Look(max) => reader.BeginPoll(max);
      case Answer => reader.EndPoll();
    }
  }

  /** With writes, pumps and the exit interleaved in any way, also inside a poll, the
      reader receives true slices of the one stream, in order and without overlap,
      and nothing is lost without being reported. */
  method Follow(session: Session, turns: seq<Turn>) returns (reports: seq<Report>, ghost looks: seq<nat>)
    requires session.buffer.Valid() && session.buffer.stream == []
    modifies session, session.buffer
    ensures session.buffer.stream == Output(old(session.world), Happened(turns))
    ensures InOrder(session.buffer.stream, reports)
    ensures Delivered(reports) + Dropped(reports) == Cursor(reports) <= |session.buffer.stream|
    ensures |looks| == |reports| && AllAnswer(old(session.world), Happened(turns), looks, reports)
  {
    var reader := new Reader(session);
    for n := 0 to |turns|
      invariant fresh(reader) && reader.session == session && reader.start == old(session.world)
      invariant reader.Valid() && reader.past == Happened(turns[..n])
    {
      HappenedNext(turns, n);
      Handle(reader, turns[n]);
    }
    assert turns[..|turns|] == turns;
    reports, looks := reader.reports, reader.looks;
    EveryByteAccounted(session.buffer.stream, reports);
    LastSlice(session.buffer.stream, reports);
  }
}
