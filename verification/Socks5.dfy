/**
 The SOCKS5 handshake of the egress proxy, after the version byte: method
 negotiation and CONNECT (sections 3 to 5 of RFC 1928) with username/password
 authentication (section 2 of RFC 1929). The user is always `ak`; the password is
 the token of a live session.
 */
module Socks5 {

  type Byte = b: int | 0 <= b < 256
  type Bytes = seq<Byte>

  datatype Target = V4(octets: Bytes) | Domain(name: Bytes) | V6(octets: Bytes)

  datatype Outcome =
    | Accepted(token: Bytes, target: Target, port: nat)
    | Refused
    | Closed      // the client stopped sending

  // ------------------------------------------------------- the encoding

  function Offer(methods: Bytes): Bytes
    requires |methods| < 256
  {
    [|methods|] + methods
  }

  ghost predicate OfferOk(methods: Bytes) {
    0 < |methods| < 256 && 2 in methods
  }

  function Auth(token: Bytes): Bytes
    requires |token| < 256
  {
    [1, 2, 0x61, 0x6b, |token|] + token
  }

  ghost predicate AuthOk(token: Bytes, live: set<Bytes>) {
    0 < |token| < 256 && token in live
  }

  function AddressType(target: Target): Byte {
    match target
    case V4(_) => 1
    case Domain(_) => 3
    case V6(_) => 4
  }

  function Host(target: Target): Bytes
    requires target.Domain? ==> |target.name| < 256
  {
    match target
    case V4(octets) => octets
    case Domain(name) => [|name|] + name
    case V6(octets) => octets
  }

  function Port(port: nat): Bytes
    requires port < 65536
  {
    [port / 256, port % 256]
  }

  function Connect(target: Target, port: nat): Bytes
    requires target.Domain? ==> |target.name| < 256
    requires port < 65536
  {
    [5, 1, 0, AddressType(target)] + (Host(target) + Port(port))
  }

  ghost predicate TargetOk(target: Target, utf8: Bytes -> bool) {
    match target
    case V4(octets) => |octets| == 4
    case Domain(name) => 0 < |name| < 256 && utf8(name)
    case V6(octets) => |octets| == 16
  }

  datatype Exchange = Exchange(methods: Bytes, token: Bytes, target: Target, port: nat) {
    ghost predicate Ok(live: set<Bytes>, utf8: Bytes -> bool) {
      OfferOk(methods) && AuthOk(token, live) && TargetOk(target, utf8) && port < 65536
    }

    function Encoded(): Bytes
      requires |methods| < 256 && |token| < 256 && port < 65536
      requires target.Domain? ==> |target.name| < 256
    {
      Offer(methods) + (Auth(token) + Connect(target, port))
    }
  }

  // ------------------------------------------------- prefixes are unique

  lemma PrefixSplit(a: Bytes, b: Bytes, i: Bytes)
    ensures a + b <= i <==> a <= i && b <= i[|a|..]
  {
    if a + b <= i {
      assert i[..|a + b|] == a + b;
      assert i[..|a|] == (a + b)[..|a|] == a;
      assert i[|a|..][..|b|] == (a + b)[|a|..] == b;
    }
  }

  /** A length byte followed by that many bytes. */
  lemma CountedPrefix(m: Bytes, i: Bytes)
    requires |m| < 256
    ensures [|m|] + m <= i <==> |i| > |m| && i[0] == |m| && i[1..1 + |m|] == m
  {
    if [|m|] + m <= i {
      assert i[..1 + |m|] == [|m|] + m;
      assert i[0] == i[..1 + |m|][0] && i[1..1 + |m|] == i[..1 + |m|][1..];
    }
  }

  predicate OfferShape(i: Bytes) {
    |i| > 0 && 0 < i[0] < |i| && 2 in i[1..1 + i[0] as int]
  }

  lemma OfferIff(i: Bytes)
    ensures (exists m :: OfferOk(m) && Offer(m) <= i) <==> OfferShape(i)
    ensures OfferShape(i) ==> OfferOk(i[1..1 + i[0] as int]) && Offer(i[1..1 + i[0] as int]) <= i
  {
    if m :| OfferOk(m) && Offer(m) <= i { CountedPrefix(m, i); }
    if OfferShape(i) { CountedPrefix(i[1..1 + i[0] as int], i); }
  }

  const USER: Bytes := [0x61, 0x6b]

  predicate AuthShape(i: Bytes, live: set<Bytes>) {
    |i| > 4 && i[..4] == [1, 2, 0x61, 0x6b] && 0 < i[4] < |i| - 4 && i[5..5 + i[4] as int] in live
  }

  lemma AuthPrefix(t: Bytes, i: Bytes)
    requires |t| < 256
    ensures Auth(t) <= i <==>
            |i| >= 5 + |t| && i[..4] == [1, 2, 0x61, 0x6b] && i[4] == |t| && i[5..5 + |t|] == t
  {
    assert Auth(t) == [1, 2, 0x61, 0x6b] + ([|t|] + t);
    PrefixSplit([1, 2, 0x61, 0x6b], [|t|] + t, i);
    if |i| >= 4 { CountedPrefix(t, i[4..]); }
    assert |i| >= 5 + |t| ==> i[4..][1..1 + |t|] == i[5..5 + |t|];
  }

  lemma AuthIff(i: Bytes, live: set<Bytes>)
    ensures (exists t :: AuthOk(t, live) && Auth(t) <= i) <==> AuthShape(i, live)
    ensures AuthShape(i, live) ==>
              AuthOk(i[5..5 + i[4] as int], live) && Auth(i[5..5 + i[4] as int]) <= i
  {
    if t :| AuthOk(t, live) && Auth(t) <= i { AuthPrefix(t, i); }
    if AuthShape(i, live) { AuthPrefix(i[5..5 + i[4] as int], i); }
  }

  predicate HostShape(kind: Byte, i: Bytes, utf8: Bytes -> bool) {
    || (kind == 1 && |i| >= 4)
    || (kind == 3 && |i| > 0 && 0 < i[0] < |i| && utf8(i[1..1 + i[0] as int]))
    || (kind == 4 && |i| >= 16)
  }

  function HostIn(kind: Byte, i: Bytes, utf8: Bytes -> bool): Target
    requires HostShape(kind, i, utf8)
  {
    if kind == 1 then V4(i[..4]) else if kind == 3 then Domain(i[1..1 + i[0] as int]) else V6(i[..16])
  }

  /** A host of the announced type can be read in one way at most. */
  lemma HostIff(kind: Byte, i: Bytes, utf8: Bytes -> bool, t: Target)
    ensures TargetOk(t, utf8) && AddressType(t) == kind && Host(t) <= i <==>
            HostShape(kind, i, utf8) && t == HostIn(kind, i, utf8)
  {
    if t.Domain? && |t.name| < 256 { CountedPrefix(t.name, i); }
  }

  predicate ConnectShape(i: Bytes, utf8: Bytes -> bool) {
    && |i| >= 4 && i[0] == 5 && i[1] == 1 && i[2] == 0
    && HostShape(i[3], i[4..], utf8)
    && |i| >= 6 + |Host(HostIn(i[3], i[4..], utf8))|
  }

  lemma ConnectRead(i: Bytes, head: Bytes, t: Target, tail: Bytes, port: nat, rest: Bytes)
    requires t.Domain? ==> |t.name| < 256
    requires |head| == 4 && head == [5, 1, 0, AddressType(t)] && |tail| == 2
    requires i == head + (Host(t) + (tail + rest))
    requires port == tail[0] as int * 256 + tail[1] as int
    ensures port < 65536 && i == Connect(t, port) + rest
  {
    assert Port(port) == tail;
    assert i == head + (Host(t) + tail) + rest;
  }

  /** Any encoded request is readable, as what it encodes. */
  lemma ConnectIsReadable(t: Target, p: nat, i: Bytes, utf8: Bytes -> bool)
    requires TargetOk(t, utf8) && p < 65536 && Connect(t, p) <= i
    ensures ConnectShape(i, utf8)
  {
    var head := [5, 1, 0, AddressType(t)];
    PrefixSplit(head, Host(t) + Port(p), i);
    assert i[..4] == head && i[3] == head[3];
    PrefixSplit(Host(t), Port(p), i[4..]);
    HostIff(AddressType(t), i[4..], utf8, t);
  }

  function AfterOffer(i: Bytes): Bytes
    requires OfferShape(i)
  {
    i[1 + i[0] as int..]
  }

  function AfterAuth(i: Bytes): Bytes
    requires |i| > 4 && 0 < i[4] < |i| - 4
  {
    i[5 + i[4] as int..]
  }

  /** The three messages follow each other. */
  ghost predicate Readable(i: Bytes, live: set<Bytes>, utf8: Bytes -> bool) {
    && OfferShape(i)
    && AuthShape(AfterOffer(i), live)
    && ConnectShape(AfterAuth(AfterOffer(i)), utf8)
  }

  lemma EncodedIsReadable(e: Exchange, i: Bytes, live: set<Bytes>, utf8: Bytes -> bool)
    requires e.Ok(live, utf8) && e.Encoded() <= i
    ensures Readable(i, live, utf8)
  {
    var connect := Connect(e.target, e.port);
    PrefixSplit(Offer(e.methods), Auth(e.token) + connect, i);
    CountedPrefix(e.methods, i);
    var j := AfterOffer(i);
    PrefixSplit(Auth(e.token), connect, j);
    AuthPrefix(e.token, j);
    ConnectIsReadable(e.target, e.port, AfterAuth(j), utf8);
  }

  lemma EncodedRead(e: Exchange, i: Bytes, live: set<Bytes>, utf8: Bytes -> bool, rest: Bytes)
    requires e.Ok(live, utf8) && i == Offer(e.methods) + (Auth(e.token) + (Connect(e.target, e.port) + rest))
    ensures i == e.Encoded() + rest && e.Encoded() <= i
  {
    assert i == e.Encoded() + rest;
  }

  /** What starts with three readable messages starts with the encoding of one
      well-formed exchange, and conversely. */
  lemma ReadableIff(i: Bytes, live: set<Bytes>, utf8: Bytes -> bool)
    ensures Readable(i, live, utf8) <==> exists e: Exchange :: e.Ok(live, utf8) && e.Encoded() <= i
  {
    if e: Exchange :| e.Ok(live, utf8) && e.Encoded() <= i { EncodedIsReadable(e, i, live, utf8); }
    if Readable(i, live, utf8) { var e := ReadOne(i, live, utf8); }
  }

  lemma PrefixJoin(a: Bytes, b: Bytes, c: Bytes, i: Bytes, j: Bytes, k: Bytes)
    requires a <= i && j == i[|a|..] && b <= j && k == j[|b|..] && c <= k
    ensures a + (b + c) <= i
  {
    PrefixSplit(b, c, j);
    PrefixSplit(a, b + c, i);
  }

  lemma Joined(i: Bytes, head: Bytes, host: Bytes, rest: Bytes, n: nat)
    requires |head| <= |i| && i[..|head|] == head && i[|head|..] == host + rest && n <= |rest|
    ensures i == head + (host + (rest[..n] + rest[n..]))
  {
    assert rest == rest[..n] + rest[n..];
    assert i == i[..|head|] + i[|head|..];
  }

  lemma ReadOffer(i: Bytes) returns (m: Bytes)
    requires OfferShape(i)
    ensures OfferOk(m) && Offer(m) <= i && AfterOffer(i) == i[|Offer(m)|..]
  {
    m := i[1..1 + i[0] as int];
    OfferIff(i);
  }

  lemma ReadAuth(i: Bytes, live: set<Bytes>) returns (t: Bytes)
    requires AuthShape(i, live)
    ensures AuthOk(t, live) && Auth(t) <= i && AfterAuth(i) == i[|Auth(t)|..]
  {
    t := i[5..5 + i[4] as int];
    AuthIff(i, live);
  }

  lemma ReadOne(i: Bytes, live: set<Bytes>, utf8: Bytes -> bool) returns (e: Exchange)
    requires Readable(i, live, utf8)
    ensures e.Ok(live, utf8) && e.Encoded() <= i
  {
    var j := AfterOffer(i);
    var k := AfterAuth(j);
    var m := ReadOffer(i);
    var t := ReadAuth(j, live);
    var target, port := ReadConnect(k, utf8);
    PrefixJoin(Offer(m), Auth(t), Connect(target, port), i, j, k);
    e := Exchange(m, t, target, port);
  }

  lemma ReadConnect(i: Bytes, utf8: Bytes -> bool) returns (t: Target, port: nat)
    requires ConnectShape(i, utf8)
    ensures TargetOk(t, utf8) && port < 65536 && Connect(t, port) <= i
  {
    t := HostIn(i[3], i[4..], utf8);
    HostIff(i[3], i[4..], utf8, t);
    var tail := i[4..][|Host(t)|..];
    port := tail[0] as int * 256 + tail[1] as int;
    assert Port(port) <= tail;
    PrefixSplit(Host(t), Port(port), i[4..]);
    PrefixSplit([5, 1, 0, i[3]], Host(t) + Port(port), i);
  }

  lemma OfferUnambiguous(m: Bytes, rest: Bytes, m': Bytes, rest': Bytes, i: Bytes)
    requires |m| < 256 && |m'| < 256 && Offer(m) + rest <= i && Offer(m') + rest' <= i
    ensures m == m' && rest <= i[|Offer(m)|..] && rest' <= i[|Offer(m)|..]
  {
    PrefixSplit(Offer(m), rest, i);
    PrefixSplit(Offer(m'), rest', i);
    CountedPrefix(m, i);
    CountedPrefix(m', i);
  }

  lemma AuthUnambiguous(t: Bytes, rest: Bytes, t': Bytes, rest': Bytes, i: Bytes)
    requires |t| < 256 && |t'| < 256 && Auth(t) + rest <= i && Auth(t') + rest' <= i
    ensures t == t' && rest <= i[|Auth(t)|..] && rest' <= i[|Auth(t)|..]
  {
    PrefixSplit(Auth(t), rest, i);
    PrefixSplit(Auth(t'), rest', i);
    AuthPrefix(t, i);
    AuthPrefix(t', i);
  }

  /** An input is the start of one exchange only. */
  lemma Unambiguous(e: Exchange, f: Exchange, i: Bytes, live: set<Bytes>, utf8: Bytes -> bool)
    requires e.Ok(live, utf8) && f.Ok(live, utf8) && e.Encoded() <= i && f.Encoded() <= i
    ensures e == f
  {
    var c, d := Connect(e.target, e.port), Connect(f.target, f.port);
    OfferUnambiguous(e.methods, Auth(e.token) + c, f.methods, Auth(f.token) + d, i);
    var j := i[|Offer(e.methods)|..];
    AuthUnambiguous(e.token, c, f.token, d, j);
    ConnectUnambiguous(e.target, e.port, f.target, f.port, j[|Auth(e.token)|..], utf8);
  }

  lemma ConnectUnambiguous(t: Target, p: nat, t': Target, p': nat, i: Bytes, utf8: Bytes -> bool)
    requires TargetOk(t, utf8) && TargetOk(t', utf8) && p < 65536 && p' < 65536
    requires Connect(t, p) <= i && Connect(t', p') <= i
    ensures t == t' && p == p'
  {
    var head, head' := [5, 1, 0, AddressType(t)], [5, 1, 0, AddressType(t')];
    PrefixSplit(head, Host(t) + Port(p), i);
    PrefixSplit(head', Host(t') + Port(p'), i);
    assert head[3] == i[3] == head'[3];
    var j := i[4..];
    PrefixSplit(Host(t), Port(p), j);
    PrefixSplit(Host(t'), Port(p'), j);
    HostIff(AddressType(t), j, utf8, t);
    HostIff(AddressType(t), j, utf8, t');
    var k := j[|Host(t)|..];
    assert Port(p)[0] == k[0] == Port(p')[0] && Port(p)[1] == k[1] == Port(p')[1];
  }

  // ------------------------------------------------------ the connection

  datatype Step = Next | Refuse | Close

  class Conn {
    var input: Bytes       // what the client has still to send
    var output: Bytes

    method ReadExact(n: nat) returns (ok: bool, bytes: Bytes)
      modifies this`input
      ensures ok <==> n <= |old(input)|
      ensures ok ==> bytes == old(input)[..n] && input == old(input)[n..]
    {
      if |input| < n { input := []; return false, []; }
      bytes := input[..n];
      input := input[n..];
      ok := true;
    }

    /** Username/password must be offered. */
    method Negotiate() returns (s: Step, ghost methods: Bytes)
      modifies this
      ensures s.Next? <==> OfferShape(old(input))
      ensures s.Next? ==> OfferOk(methods) && old(input) == Offer(methods) + input
      ensures output == old(output) +
                (match s case Next => [5, 2] case Refuse => [5, 0xff] case Close => [])
    {
      ghost var i := input;
      OfferIff(i);
      methods := [];
      var ok, head := ReadExact(1);
      if !ok { return Close, methods; }
      if head[0] == 0 {
        output := output + [5, 0xff];
        return Refuse, methods;
      }
      var offered;
      ok, offered := ReadExact(head[0]);
      if !ok { return Close, methods; }
      assert offered == i[1..1 + i[0] as int];
      if 2 !in offered {
        output := output + [5, 0xff];
        return Refuse, methods;
      }
      methods := offered;
      output := output + [5, 2];
      s := Next;
    }

    /** The user `ak` and a live token. */
    method Authenticate(live: set<Bytes>) returns (s: Step, token: Bytes)
      modifies this
      ensures s.Next? <==> AuthShape(old(input), live)
      ensures s.Next? ==> AuthOk(token, live) && old(input) == Auth(token) + input
      ensures output == old(output) +
                (match s case Next => [1, 0] case Refuse => [1, 1] case Close => [])
    {
      ghost var i := input;
      AuthIff(i, live);
      token := [];
      var ok, head := ReadExact(2);
      if !ok { return Close, token; }
      if head[0] != 1 || head[1] == 0 {
        output := output + [1, 1];
        assert |i| > 4 ==> i[..4][0] == head[0] && i[..4][1] == head[1];
        return Refuse, token;
      }
      var user;
      ok, user := ReadExact(head[1]);
      if !ok { return Close, token; }
      var length;
      ok, length := ReadExact(1);
      if !ok { return Close, token; }
      UserAt(i, head, user, length);
      if length[0] == 0 {
        output := output + [1, 1];
        return Refuse, token;
      }
      var password;
      ok, password := ReadExact(length[0]);
      if !ok { return Close, token; }
      assert user == USER ==> password == i[5..5 + i[4] as int];
      if user != USER || password !in live {
        output := output + [1, 1];
        return Refuse, token;
      }
      token := password;
      output := output + [1, 0];
      s := Next;
    }

    /** The host of an announced address type. */
    method ReadHost(kind: Byte, utf8: Bytes -> bool) returns (s: Step, target: Target)
      modifies this
      ensures s.Next? <==> HostShape(kind, old(input), utf8)
      ensures s.Next? ==> target == HostIn(kind, old(input), utf8) && old(input) == Host(target) + input
      ensures output == old(output) + (if s.Refuse? then Reply(8) else [])
    {
      ghost var i := input;
      target := V4([]);
      var ok, bytes;
      if kind == 1 {
        ok, bytes := ReadExact(4);
        return if ok then Next else Close, V4(bytes);
      }
      if kind == 3 {
        var length;
        ok, length := ReadExact(1);
        if !ok { return Close, target; }
        if length[0] == 0 {
          output := output + Reply(8);
          return Refuse, target;
        }
        ok, bytes := ReadExact(length[0]);
        if !ok { return Close, target; }
        assert bytes == i[1..1 + i[0] as int];
        if !utf8(bytes) {
          output := output + Reply(8);
          return Refuse, target;
        }
        return Next, Domain(bytes);
      }
      if kind == 4 {
        ok, bytes := ReadExact(16);
        return if ok then Next else Close, V6(bytes);
      }
      output := output + Reply(8);
      return Refuse, target;
    }

    /** A CONNECT request. */
    method ReadRequest(utf8: Bytes -> bool) returns (s: Step, target: Target, port: nat)
      modifies this
      ensures s.Next? <==> ConnectShape(old(input), utf8)
      ensures s.Next? ==> TargetOk(target, utf8) && port < 65536 && old(input) == Connect(target, port) + input
      ensures s.Refuse? ==> output == old(output) + Reply(7) || output == old(output) + Reply(8)
      ensures !s.Refuse? ==> output == old(output)
    {
      ghost var i := input;
      target, port := V4([]), 0;
      var ok, head := ReadExact(4);
      if !ok { return Close, target, port; }
      if head[0] != 5 || head[1] != 1 || head[2] != 0 {
        output := output + Reply(7);
        return Refuse, target, port;
      }
      s, target := ReadHost(head[3], utf8);
      if !s.Next? { return s, target, port; }
      HostIff(head[3], i[4..], utf8, target);
      ghost var rest := input;
      var tail;
      ok, tail := ReadExact(2);
      if !ok { return Close, target, port; }
      port := tail[0] as int * 256 + tail[1] as int;
      Joined(i, head, Host(target), rest, 2);
      ConnectRead(i, head, target, tail, port, input);
    }

    /** The whole handshake accepts an input if and only if it starts with the encoding
        of a well-formed exchange, consumes exactly that encoding, and returns the
        token, target and port it encodes. */
    method Handshake(live: set<Bytes>, utf8: Bytes -> bool) returns (r: Outcome, ghost e: Exchange)
      modifies this
      ensures r.Accepted? <==> exists f: Exchange :: f.Ok(live, utf8) && f.Encoded() <= old(input)
      ensures r.Accepted? ==>
                && e.Ok(live, utf8) && old(input) == e.Encoded() + input
                && r == Accepted(e.token, e.target, e.port)
                && output == old(output) + [5, 2] + [1, 0]
    {
      ghost var i := input;
      ReadableIff(i, live, utf8);
      e := Exchange([], [], V4([]), 0);
      var s, token, target, port;
      ghost var methods;
      s, methods := Negotiate();
      if !s.Next? { return Failure(s), e; }
      assert input == AfterOffer(i);
      s, token := Authenticate(live);
      if !s.Next? { return Failure(s), e; }
      assert input == AfterAuth(AfterOffer(i));
      s, target, port := ReadRequest(utf8);
      if !s.Next? { return Failure(s), e; }
      r := Accepted(token, target, port);
      e := Exchange(methods, token, target, port);
      EncodedRead(e, i, live, utf8, input);
    }
  }

  function Failure(s: Step): Outcome {
    if s.Refuse? then Refused else Closed
  }

  function Reply(code: Byte): Bytes {
    [5, code, 0, 1, 0, 0, 0, 0, 0, 0]
  }

  lemma UserAt(i: Bytes, head: Bytes, user: Bytes, length: Bytes)
    requires |head| == 2 && 0 < |user| == head[1] && |length| == 1
    requires head + user + length <= i
    ensures |i| >= 4 && (i[..4] == [1, 2, 0x61, 0x6b] <==> head == [1, 2] && user == USER)
    ensures user == USER ==> |i| > 4 && i[4] == length[0]
  {
    var all := head + user + length;
    assert i[..|all|] == all;
    assert i[0] == all[0] == head[0] && i[1] == all[1] == head[1];
    assert i[2] == all[2] == user[0] && (|user| == 2 ==> i[3] == all[3] == user[1]);
    assert i[..4] == [i[0], i[1], i[2], i[3]];
    assert |user| == 2 ==> user == [user[0], user[1]];
    assert head == [head[0], head[1]];
    assert user == USER ==> i[4] == all[4];
  }

  // ------------------------------------------------------- the client

  /** What a client that only offers username/password sends for a domain. */
  function ClientBytes(token: Bytes, host: Bytes, port: nat): Bytes
    requires |token| < 256 && |host| < 256 && port < 65536
  {
    [1, 2] + ([1, 2, 0x61, 0x6b, |token|] + token) +
    ([5, 1, 0, 3, |host|] + host + [port / 256, port % 256])
  }

  lemma ClientEncodes(token: Bytes, host: Bytes, port: nat)
    requires |token| < 256 && |host| < 256 && port < 65536
    ensures ClientBytes(token, host, port) == Exchange([2], token, Domain(host), port).Encoded()
  {
    assert [5, 1, 0, 3, |host|] + host + [port / 256, port % 256] ==
           [5, 1, 0, 3] + ([|host|] + host + [port / 256, port % 256]);
    assert [1, 2] == Offer([2]);
  }

  /** The proxy reads back exactly what the client encoded, for every live token and
      every domain of 1 to 255 bytes, and leaves what follows unread. */
  method ClientRoundTrip(token: Bytes, host: Bytes, port: nat, rest: Bytes,
                         live: set<Bytes>, utf8: Bytes -> bool) returns (r: Outcome, left: Bytes)
    requires AuthOk(token, live) && TargetOk(Domain(host), utf8) && port < 65536
    ensures r == Accepted(token, Domain(host), port) && left == rest
  {
    var conn := new Conn;
    conn.input, conn.output := ClientBytes(token, host, port) + rest, [];
    ghost var i := conn.input;
    ghost var sent := Exchange([2], token, Domain(host), port);
    ClientEncodes(token, host, port);
    assert sent.Ok(live, utf8) && sent.Encoded() <= i;
    ghost var e;
    r, e := conn.Handshake(live, utf8);
    assert e.Encoded() <= i;
    Unambiguous(e, sent, i, live, utf8);
    left := conn.input;
    assert left == i[|sent.Encoded()|..];
  }
}
