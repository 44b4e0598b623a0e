/**
 One direction of an egress tunnel: read a buffer, reserve bytes against the
 shared cap, write what was granted, stop when anything was left over.

 What the reader, the writer and the shared counter answer is an arbitrary
 script. Time is a count of interactions; the session is revoked at the arbitrary
 moment `revokeAt` and stays revoked.
 */
module CopyCounted {

  const BUFFER: nat := 8192

  type Bytes = seq<bv8>

  datatype Answer = Failed | Data(bytes: Bytes) | Count(n: nat)

  /** The direction's dealings so far. `early` is how much of the input was read
      before the revocation, `charged` what the direction has added to the shared
      counter, `late` the bytes it wrote after the revocation. */
  class Direction {
    var script: seq<Answer>
    var clock: nat
    const revokeAt: nat
    ghost var input: Bytes
    ghost var early: nat
    var output: Bytes
    var charged: nat
    var late: nat

    constructor (script: seq<Answer>, revokeAt: nat)
      ensures this.script == script && this.revokeAt == revokeAt && clock == 0
      ensures input == [] && early == 0 && output == [] && charged == 0 && late == 0
    {
      this.script, this.revokeAt := script, revokeAt;
      clock, input, early, output, charged, late := 0, [], 0, [], 0, 0;
    }

    method Ask() returns (a: Answer)
      modifies this`script, this`clock
      ensures clock == old(clock) + 1 && |script| <= |old(script)|
      ensures !a.Failed? ==> |script| < |old(script)|
    {
      clock := clock + 1;
      if script == [] { return Failed; }
      a := script[0];
      script := script[1..];
    }

    predicate Revoked()
      reads this
    {
      clock >= revokeAt
    }

    /** Write the granted part of the buffer, in as many short writes as it takes. */
    method WriteAll(part: Bytes) returns (written: nat)
      modifies this`script, this`clock, this`output, this`late
      ensures written <= |part| && output == old(output) + part[..written]
      ensures old(late) <= late <= old(late) + written
      ensures clock < revokeAt ==> late == old(late)
      ensures clock >= old(clock) && |script| <= |old(script)|
    {
      written := 0;
      while written < |part|
        invariant written <= |part| && output == old(output) + part[..written]
        invariant old(late) <= late <= old(late) + written
        invariant clock < revokeAt ==> late == old(late)
        invariant clock >= old(clock) && |script| <= |old(script)|
        decreases |part| - written
      {
        var a := Ask();
        if !a.Count? || a.n == 0 { return; }
        var count := if a.n < |part| - written then a.n else |part| - written;
        assert part[..written] + part[written..written + count] == part[..written + count];
        output := output + part[written..written + count];
        if Revoked() { late := late + count; }
        written := written + count;
      }
    }

    /** Everything read so far was read before the revocation, forwarded and charged. */
    ghost predicate Flowing()
      reads this
    {
      output == input && charged == |output| && early == |input|
    }

    /** One turn of the loop: `more` only when the whole buffer went through. */
    method Turn() returns (more: bool, ghost buf: Bytes)
      requires Flowing() && late == 0
      modifies this
      ensures old(input) + buf == input && |buf| <= BUFFER
      ensures |old(output)| <= |output| && output <= input
      ensures charged == |output| && |output| <= early <= |input|
      ensures late <= |buf| && (!Revoked() ==> late == 0)
      ensures |script| <= |old(script)| && (more ==> Flowing() && |script| < |old(script)|)
    {
      buf := [];
      var read := Ask();
      if !read.Data? { return false, buf; }
      var data := if |read.bytes| <= BUFFER then read.bytes else read.bytes[..BUFFER];
      buf := data;
      input := input + data;
      if !Revoked() { early := |input|; }
      if data == [] || Revoked() { return false, buf; }
      var room := Ask();
      if !room.Count? || room.n == 0 { return false, buf; }
      var granted := if room.n < |data| then room.n else |data|;
      charged := charged + granted;
      var written := WriteAll(data[..granted]);
      assert data[..granted][..written] == data[..written];
      charged := charged - (granted - written);
      more := written == |data|;
    }

    /** The copy loop. Everything written is a gap-free prefix of everything read;
        at most the last buffer is not fully forwarded; exactly the written bytes
        stay charged; after revocation at most one buffer still goes out, and it was
        read before: nothing read after the revocation is ever forwarded. */
    method Run() returns (ghost last: Bytes)
      requires clock == 0 && input == [] && early == 0 && output == [] && charged == 0 && late == 0
      modifies this
      ensures output <= input
      ensures |last| <= BUFFER && |input| - |output| <= |last| <= |input|
      ensures last == input[|input| - |last|..]
      ensures charged == |output|
      ensures late <= BUFFER && |output| <= early <= |input|
    {
      last := [];
      var more := true;
      while more && !Revoked()
        invariant more ==> Flowing()
        invariant output <= input && charged == |output| && |output| <= early <= |input|
        invariant |last| <= BUFFER && |input| - |output| <= |last| <= |input|
        invariant last == input[|input| - |last|..]
        invariant late <= BUFFER && (!Revoked() ==> late == 0)
        decreases |script|, more
      {
        more, last := Turn();
      }
    }
  }
}
