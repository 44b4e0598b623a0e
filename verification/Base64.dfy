/**
 Base64 (section 4 of RFC 4648) as the kernel encodes and decodes it, and the
 second, independent decoder of the egress proxy, which shifts sextets through a
 32-bit accumulator. Both are proved against one specification by 6-bit groups.
 */
module Base64 {

  type Byte = b: nat | b < 256
  type Sextet = v: nat | v < 64

  const UPPER: string := "ABCDEFGHIJKLMNOPQRSTUVWXYZ"
  const LOWER: string := "abcdefghijklmnopqrstuvwxyz"
  const DIGITS: string := "0123456789"
  const ALPHABET: string := UPPER + LOWER + DIGITS + "+/"

  datatype Option<T> = None | Some(value: T)
  datatype Decoded = Ok(bytes: seq<Byte>) | Truncated | Invalid

  // ---------------------------------------------------------- specification

  /** The alphabet by its ranges. */
  function Sym(v: Sextet): char {
    if v < 26 then 'A' + v as char
    else if v < 52 then 'a' + (v - 26) as char
    else if v < 62 then '0' + (v - 52) as char
    else if v == 62 then '+' else '/'
  }

  /** `val`: the sextet of a character. */
  function Val(c: char): Option<Sextet> {
    if 'A' <= c <= 'Z' then Some((c - 'A') as nat)
    else if 'a' <= c <= 'z' then Some((c - 'a') as nat + 26)
    else if '0' <= c <= '9' then Some((c - '0') as nat + 52)
    else if c == '+' then Some(62)
    else if c == '/' then Some(63)
    else None
  }

  lemma UpperAt(v: nat)
    requires v < 26
    ensures |UPPER| == 26 && UPPER[v] as int == 'A' as int + v
  {
  }

  lemma LowerAt(v: nat)
    requires v < 26
    ensures |LOWER| == 26 && LOWER[v] as int == 'a' as int + v
  {
  }

  lemma DigitAt(v: nat)
    requires v < 10
    ensures |DIGITS| == 10 && DIGITS[v] as int == '0' as int + v
  {
  }

  lemma AlphabetIsSym(v: Sextet)
    ensures |ALPHABET| == 64 && ALPHABET[v] == Sym(v)
  {
    UpperAt(0);
    LowerAt(0);
    DigitAt(0);
    if v < 26 { UpperAt(v); } else if v < 52 { LowerAt(v - 26); } else if v < 62 { DigitAt(v - 52); }
  }

  lemma ValSym(v: Sextet)
    ensures Val(Sym(v)) == Some(v)
  {
  }

  lemma SymVal(c: char)
    requires Val(c).Some?
    ensures Sym(Val(c).value) == c
  {
  }

  // The sextets of a group of bytes, and the bytes of a group of sextets.
  function S0(a: Byte): Sextet { a / 4 }
  function S1(a: Byte, b: Byte): Sextet { a % 4 * 16 + b / 16 }
  function S2(b: Byte, c: Byte): Sextet { b % 16 * 4 + c / 64 }
  function S3(c: Byte): Sextet { c % 64 }
  function B0(p: Sextet, q: Sextet): Byte { p * 4 + q / 16 }
  function B1(q: Sextet, r: Sextet): Byte { q % 16 * 16 + r / 4 }
  function B2(r: Sextet, s: Sextet): Byte { r % 4 * 64 + s }

  /** How groups are cut: the specification and its proofs do not look inside. */
  datatype Bits = Bits(
    s0: Byte -> Sextet, s1: (Byte, Byte) -> Sextet, s2: (Byte, Byte) -> Sextet, s3: Byte -> Sextet,
    b0: (Sextet, Sextet) -> Byte, b1: (Sextet, Sextet) -> Byte, b2: (Sextet, Sextet) -> Byte)

  const BITS := Bits(S0, S1, S2, S3, B0, B1, B2)

  /** Cutting into sextets and back is the identity on a group. */
  ghost predicate GroupAt(o: Bits, a: Byte, b: Byte, c: Byte) {
    && o.b0(o.s0(a), o.s1(a, b)) == a
    && o.b1(o.s1(a, b), o.s2(b, c)) == b
    && o.b2(o.s2(b, c), o.s3(c)) == c
  }

  ghost predicate GroupLaws(o: Bits) {
    forall a: Byte, b: Byte, c: Byte :: GroupAt(o, a, b, c)
  }

  function EncodeWith(x: seq<Byte>, o: Bits): string {
    if x == [] then []
    else if |x| == 1 then [Sym(o.s0(x[0])), Sym(o.s1(x[0], 0)), '=', '=']
    else if |x| == 2 then [Sym(o.s0(x[0])), Sym(o.s1(x[0], x[1])), Sym(o.s2(x[1], 0)), '=']
    else
      [Sym(o.s0(x[0])), Sym(o.s1(x[0], x[1])), Sym(o.s2(x[1], x[2])), Sym(o.s3(x[2]))]
      + EncodeWith(x[3..], o)
  }

  /** The text of a byte string: 24-bit groups as four sextets, a last group of one
      or two bytes zero-filled and padded. */
  function EncodeSpec(x: seq<Byte>): string {
    EncodeWith(x, BITS)
  }

  function DecodeWith(v: seq<Sextet>, o: Bits): seq<Byte> {
    if |v| < 2 then []
    else if |v| == 2 then [o.b0(v[0], v[1])]
    else if |v| == 3 then [o.b0(v[0], v[1]), o.b1(v[1], v[2])]
    else [o.b0(v[0], v[1]), o.b1(v[1], v[2]), o.b2(v[2], v[3])] + DecodeWith(v[4..], o)
  }

  /** The bytes of a list of sextets: one byte per eight complete bits. */
  function DecodeSpec(v: seq<Sextet>): seq<Byte> {
    DecodeWith(v, BITS)
  }

  predicate Valid(s: string) {
    forall i :: 0 <= i < |s| ==> Val(s[i]).Some?
  }

  function Vals(s: string): (v: seq<Sextet>)
    requires Valid(s)
    ensures |v| == |s| && forall i :: 0 <= i < |s| ==> Val(s[i]) == Some(v[i])
  {
    seq(|s|, i requires 0 <= i < |s| => Val(s[i]).value)
  }

  predicate Space(c: char) {
    c == ' ' || c == '\t' || c == '\n' || c == '\r' || c as int == 12
  }

  function Cleaned(s: string): string {
    if s == [] then []
    else (if Space(s[0]) || s[0] == '=' then [] else [s[0]]) + Cleaned(s[1..])
  }

  function WithoutSpace(s: string): string {
    if s == [] then []
    else (if Space(s[0]) then [] else [s[0]]) + WithoutSpace(s[1..])
  }

  /** What stands before the first padding character. */
  function BeforePad(s: string): string {
    if s == [] || s[0] == '=' then [] else [s[0]] + BeforePad(s[1..])
  }

  // ------------------------------------------------------ bits and shifts

  lemma SmallMultiple(d: int, t: int)
    requires d > 0 && -d < d * t < d
    ensures t == 0
  {
  }

  lemma SplitLow(q: int, d: int, r: int)
    requires d > 0 && 0 <= r < d
    ensures (q * d + r) / d == q && (q * d + r) % d == r
  {
    var n := q * d + r;
    var k, m := n / d, n % d;
    assert n == d * k + m;
    assert d * (k - q) == d * k - q * d == r - m;
    SmallMultiple(d, k - q);
  }

  /** Base-64 digits of a 24-bit group. */
  lemma Digits64(a: int, b: int, c: int, d: int, n: int)
    requires 0 <= a < 64 && 0 <= b < 64 && 0 <= c < 64 && 0 <= d < 64
    requires n == a * 0x40000 + b * 0x1000 + c * 0x40 + d
    ensures n / 0x40000 % 64 == a && n / 0x1000 % 64 == b && n / 0x40 % 64 == c && n % 64 == d
  {
    SplitLow(a, 0x40000, b * 0x1000 + c * 0x40 + d);
    SplitLow(a * 64 + b, 0x1000, c * 0x40 + d);
    SplitLow(a * 0x1000 + b * 0x40 + c, 0x40, d);
    SplitLow(a, 64, b);
    SplitLow(a * 64 + b, 64, c);
    SplitLow(0, 64, a);
  }

  /** Base-256 digits of a 24-bit group. */
  lemma Digits256(a: int, b: int, c: int, n: int)
    requires 0 <= a < 256 && 0 <= b < 256 && 0 <= c < 256
    requires n == a * 0x10000 + b * 0x100 + c
    ensures n / 0x10000 % 256 == a && n / 0x100 % 256 == b && n % 256 == c
  {
    SplitLow(a, 0x10000, b * 0x100 + c);
    SplitLow(a * 256 + b, 0x100, c);
    SplitLow(0, 256, a);
    SplitLow(a, 256, b);
  }

  /** Three bytes and their four sextets are the same 24 bits. */
  lemma SameBits(a: Byte, b: Byte, c: Byte)
    ensures S0(a) as int * 0x40000 + S1(a, b) as int * 0x1000 + S2(b, c) as int * 0x40 + S3(c) as int
            == a as int * 0x10000 + b as int * 0x100 + c as int
  {
  }

  lemma SameBitsBack(p: Sextet, q: Sextet, r: Sextet, s: Sextet)
    ensures p as int * 0x40000 + q as int * 0x1000 + r as int * 0x40 + s as int
            == B0(p, q) as int * 0x10000 + B1(q, r) as int * 0x100 + B2(r, s) as int
  {
  }

  // ------------------------------------------------------ the three routines

  function SymbolAt(v: int): (c: char)
    requires 0 <= v < 64
    ensures c == Sym(v)
  {
    AlphabetIsSym(v);
    ALPHABET[v]
  }

  /** Encode one group of one to three bytes by shifting its 24 bits. */
  method EncodeChunk(chunk: seq<Byte>) returns (piece: string)
    requires 1 <= |chunk| <= 3
    ensures piece == EncodeSpec(chunk)
  {
    var b0: Byte := chunk[0];
    var b1: Byte := if |chunk| > 1 then chunk[1] else 0;
    var b2: Byte := if |chunk| > 2 then chunk[2] else 0;
    var n: int := b0 as int * 0x10000 + b1 as int * 0x100 + b2 as int;
    SameBits(b0, b1, b2);
    Digits64(S0(b0), S1(b0, b1), S2(b1, b2), S3(b2), n);
    piece := [SymbolAt(n / 0x40000 % 64), SymbolAt(n / 0x1000 % 64),
              if |chunk| > 1 then SymbolAt(n / 0x40 % 64) else '=',
              if |chunk| > 2 then SymbolAt(n % 64) else '='];
    assert |chunk| == 3 ==> EncodeSpec(chunk[3..]) == [];
  }

  lemma EncodeStep(x: seq<Byte>, o: Bits)
    requires |x| >= 3
    ensures EncodeWith(x, o) == EncodeWith(x[..3], o) + EncodeWith(x[3..], o)
  {
    assert x[..3][3..] == [];
  }

  method Encode(input: seq<Byte>) returns (out: string)
    ensures out == EncodeSpec(input)
  {
    out := "";
    var i := 0;
    while i < |input|
      invariant i <= |input| && EncodeSpec(input) == out + EncodeSpec(input[i..])
    {
      var rest := input[i..];
      var len := if |rest| < 3 then |rest| else 3;
      var piece := EncodeChunk(rest[..len]);
      if |rest| >= 3 { EncodeStep(rest, BITS); } else { assert rest[..len] == rest; }
      assert rest[len..] == input[i + len..];
      out := out + piece;
      i := i + len;
    }
  }

  method Clean(s: string) returns (out: string)
    ensures out == Cleaned(s)
  {
    out := "";
    for i := 0 to |s|
      invariant Cleaned(s) == out + Cleaned(s[i..])
    {
      if !(Space(s[i]) || s[i] == '=') { out := out + [s[i]]; }
      assert s[i..][1..] == s[i + 1..];
    }
  }

  /** One chunk: accumulate up to 24 bits, shift a short chunk up, cut bytes off. */
  method DecodeChunk(chunk: string) returns (r: Option<seq<Byte>>)
    requires 2 <= |chunk| <= 4
    ensures r.Some? <==> Valid(chunk)
    ensures r.Some? ==> r.value == DecodeSpec(Vals(chunk))
  {
    var n: int := 0;
    ghost var vs: seq<Sextet> := [];
    for i := 0 to |chunk|
      invariant |vs| == i && forall k :: 0 <= k < i ==> Val(chunk[k]) == Some(vs[k])
      invariant n == Packed(vs)
    {
      var v := Val(chunk[i]);
      if v.None? { return None; }
      n := n * 64 + v.value as int;
      assert (vs + [v.value])[..i] == vs;
      vs := vs + [v.value];
    }
    if |chunk| == 2 { n := n * 0x1000; } else if |chunk| == 3 { n := n * 64; }
    assert vs == Vals(chunk);
    ChunkBytes(vs, n);
    var out: seq<Byte> := [n / 0x10000 % 256];
    if |chunk| > 2 { out := out + [n / 0x100 % 256]; }
    if |chunk| > 3 { out := out + [n % 256]; }
    return Some(out);
  }

  ghost function Packed(vs: seq<Sextet>): int {
    if vs == [] then 0 else Packed(vs[..|vs| - 1]) * 64 + vs[|vs| - 1] as int
  }

  lemma PackedTwo(v: seq<Sextet>)
    requires |v| >= 2
    ensures Packed(v[..2]) == v[0] as int * 64 + v[1] as int
  {
    assert v[..2][..1] == [v[0]] && [v[0]][..0] == [];
    assert Packed([v[0]]) == v[0] as int;
  }

  lemma PackedIs(v: seq<Sextet>)
    requires 2 <= |v| <= 4
    ensures |v| == 2 ==> Packed(v) == v[0] as int * 64 + v[1] as int
    ensures |v| == 3 ==> Packed(v) == (v[0] as int * 64 + v[1] as int) * 64 + v[2] as int
    ensures |v| == 4 ==> Packed(v) == ((v[0] as int * 64 + v[1] as int) * 64 + v[2] as int) * 64 + v[3] as int
  {
    PackedTwo(v);
    if |v| == 2 { assert v[..2] == v; }
    else if |v| == 4 { assert v[..3][..2] == v[..2]; }
  }

  lemma ChunkBytes(v: seq<Sextet>, n: int)
    requires 2 <= |v| <= 4
    requires n == Packed(v) * (if |v| == 2 then 0x1000 else if |v| == 3 then 64 else 1)
    ensures n / 0x10000 % 256 == B0(v[0], v[1])
    ensures |v| > 2 ==> n / 0x100 % 256 == B1(v[1], v[2])
    ensures |v| > 3 ==> n % 256 == B2(v[2], v[3])
    ensures |v| == 4 ==> DecodeSpec(v[4..]) == []
  {
    PackedIs(v);
    var c: Sextet := if |v| > 2 then v[2] else 0;
    var d: Sextet := if |v| > 3 then v[3] else 0;
    SameBitsBack(v[0], v[1], c, d);
    Digits256(B0(v[0], v[1]), B1(v[1], c), B2(c, d), n);
  }

  lemma DecodeStep(v: seq<Sextet>, o: Bits)
    requires |v| >= 4
    ensures DecodeWith(v, o) == DecodeWith(v[..4], o) + DecodeWith(v[4..], o)
  {
    assert v[..4][4..] == [];
  }

  /** The sextets of a valid text, else none. */
  ghost function ValsOf(s: string): (v: seq<Sextet>)
    ensures Valid(s) ==> |v| == |s|
  {
    if Valid(s) then Vals(s) else []
  }

  lemma SliceVals(s: string, i: nat, j: nat)
    requires Valid(s) && i <= j <= |s|
    ensures Valid(s[i..j]) && Vals(s[i..j]) == Vals(s)[i..j]
  {
    forall k | 0 <= k < j - i ensures Val(s[i..j][k]) == Some(Vals(s)[i + k]) {}
  }

  lemma ChunkValid(c: string, i: nat, len: nat)
    requires i + len <= |c|
    ensures Valid(c) ==> Valid(c[i..i + len])
    ensures Valid(c[i..i + len]) ==> forall k :: i <= k < i + len ==> Val(c[k]).Some?
  {
    var chunk := c[i..i + len];
    if Valid(chunk) {
      forall k | i <= k < i + len ensures Val(c[k]).Some? { assert c[k] == chunk[k - i]; }
    }
  }

  /** The kernel's decoder: succeeds exactly when what remains without whitespace
      and padding is in the alphabet and is not one character over. */
  method Decode(input: string) returns (r: Decoded)
    ensures r.Ok? <==> Valid(Cleaned(input)) && |Cleaned(input)| % 4 != 1
    ensures r.Ok? ==> r.bytes == DecodeSpec(Vals(Cleaned(input)))
  {
    var c := Clean(input);
    r := DecodeClean(c);
  }

  /** The first `i` characters have been decoded to `out`. */
  ghost predicate DecodedTo(c: string, i: nat, out: seq<Byte>, o: Bits)
    requires i <= |c|
  {
    Valid(c) ==> DecodeWith(ValsOf(c), o) == out + DecodeWith(ValsOf(c)[i..], o)
  }

  lemma Chain(whole: seq<Byte>, out: seq<Byte>, tail: seq<Byte>, piece: seq<Byte>, rest: seq<Byte>)
    requires whole == out + tail && tail == piece + rest
    ensures whole == out + piece + rest
  {
  }

  lemma DecodeMore(c: string, i: nat, len: nat, out: seq<Byte>, piece: seq<Byte>, o: Bits)
    requires i + len <= |c| && (len == 4 || i + len == |c|) && DecodedTo(c, i, out, o)
    requires Valid(c[i..i + len]) && piece == DecodeWith(Vals(c[i..i + len]), o)
    ensures DecodedTo(c, i + len, out + piece, o)
  {
    if Valid(c) {
      var v := ValsOf(c);
      TakeChunk(c, i, len, o);
      Chain(DecodeWith(v, o), out, DecodeWith(v[i..], o), piece, DecodeWith(v[i + len..], o));
    }
  }

  lemma DecodedAll(c: string, out: seq<Byte>, o: Bits)
    requires DecodedTo(c, |c|, out, o)
    ensures Valid(c) ==> out == DecodeWith(Vals(c), o)
  {
  }

  lemma NothingDecoded(c: string, o: Bits)
    ensures DecodedTo(c, 0, [], o)
  {
    if Valid(c) { assert ValsOf(c)[0..] == ValsOf(c); }
  }

  method DecodeClean(c: string) returns (r: Decoded)
    ensures r.Ok? <==> Valid(c) && |c| % 4 != 1
    ensures r.Ok? ==> r.bytes == DecodeSpec(Vals(c))
  {
    var out: seq<Byte> := [];
    var i := 0;
    NothingDecoded(c, BITS);
    while i < |c|
      invariant i <= |c| && (i % 4 == 0 || i == |c|) && (i == |c| ==> |c| % 4 != 1)
      invariant forall k :: 0 <= k < i ==> Val(c[k]).Some?
      invariant DecodedTo(c, i, out, BITS)
    {
      var len := if |c| - i < 4 then |c| - i else 4;
      if len == 1 { return Truncated; }
      var bytes := DecodeChunk(c[i..i + len]);
      ChunkValid(c, i, len);
      if bytes.None? { return Invalid; }
      DecodeMore(c, i, len, out, bytes.value, BITS);
      out := out + bytes.value;
      i := i + len;
    }
    DecodedAll(c, out, BITS);
    return Ok(out);
  }

  lemma TakeChunk(c: string, i: nat, len: nat, o: Bits)
    requires Valid(c) && i + len <= |c| && (len == 4 || i + len == |c|)
    ensures Valid(c[i..i + len])
    ensures DecodeWith(ValsOf(c)[i..], o)
            == DecodeWith(Vals(c[i..i + len]), o) + DecodeWith(ValsOf(c)[i + len..], o)
  {
    SliceVals(c, i, i + len);
    var rest := Vals(c)[i..];
    assert rest[..len] == Vals(c)[i..i + len] && rest[len..] == Vals(c)[i + len..];
    if len == 4 { DecodeStep(rest, o); } else { assert rest[..len] == rest && rest[len..] == []; }
  }

  /** Linear search of the alphabet table. */
  method Position(c: char) returns (v: Option<Sextet>)
    ensures v == Val(c)
  {
    for i := 0 to 64
      invariant forall k: Sextet :: k < i ==> Sym(k) != c
    {
      AlphabetIsSym(i);
      if ALPHABET[i] == c { ValSym(i); return Some(i); }
    }
    if Val(c).Some? { SymVal(c); }
    return None;
  }

  /** What the accumulator has cut off the current group of four after `r` sextets. */
  ghost function Partial(v: seq<Sextet>, base: nat, r: nat, o: Bits): seq<Byte>
    requires base + r <= |v| && r < 4
  {
    if r < 2 then []
    else if r == 2 then [o.b0(v[base], v[base + 1])]
    else [o.b0(v[base], v[base + 1]), o.b1(v[base + 1], v[base + 2])]
  }

  /** Shift one sextet in; cut a byte off when eight bits are there. */
  method ShiftIn(buf: int, bits: int, v: Sextet) returns (buf': int, bits': int, cut: seq<Byte>)
    requires 0 <= buf < 0x1_0000_0000 && (bits == 0 || bits == 2 || bits == 4 || bits == 6)
    ensures 0 <= buf' < 0x1_0000_0000 && buf' % 64 == v as int
    ensures bits' == (if bits == 0 then 6 else bits - 2)
    ensures bits == 0 ==> cut == []
    ensures bits == 6 ==> cut == [B0(buf % 64, v)]
    ensures bits == 4 ==> cut == [B1(buf % 64, v)]
    ensures bits == 2 ==> cut == [B2(buf % 64, v)]
  {
    LowTwelve(buf, v);
    buf' := (buf * 64 + v as int) % 0x1_0000_0000;
    bits' := bits + 6;
    cut := [];
    if bits' >= 8 {
      bits' := bits' - 8;
      LastByte(buf % 64, v, buf');
      cut := [if bits' == 4 then buf' / 16 % 256 else if bits' == 2 then buf' / 4 % 256 else buf' % 256];
    }
  }

  lemma Regroup(whole: seq<Byte>, done: seq<Byte>, part: seq<Byte>, cut: seq<Byte>, rest: seq<Byte>)
    requires whole == done + (part + cut + rest)
    ensures whole == done + part + cut + rest && done + (part + cut) == done + part + cut
  {
  }

  /** After `k` sextets of the group at `base`: the whole decodes to what is done
      and the rest, and the output is what is done and what was cut since. */
  ghost predicate Progress(p: string, base: nat, k: nat, done: seq<Byte>, out: seq<Byte>, o: Bits)
    requires base + k <= |p| && k < 4
  {
    Valid(p) ==>
      && DecodeWith(ValsOf(p), o) == done + DecodeWith(ValsOf(p)[base..], o)
      && out == done + Partial(ValsOf(p), base, k, o)
  }

  /** The byte that shifting in the sextet after `k` others cuts off. */
  ghost function Cut(k: nat, a: Sextet, v: Sextet, o: Bits): seq<Byte> {
    if k == 0 then [] else if k == 1 then [o.b0(a, v)] else if k == 2 then [o.b1(a, v)] else [o.b2(a, v)]
  }

  lemma Advance(p: string, base: nat, k: nat, done: seq<Byte>, out: seq<Byte>,
                a: Sextet, v: Sextet, o: Bits)
    requires base + k < |p| && k < 3 && Progress(p, base, k, done, out, o)
    requires Val(p[base + k]) == Some(v) && (k > 0 ==> Val(p[base + k - 1]) == Some(a))
    ensures Progress(p, base, k + 1, done, out + Cut(k, a, v, o), o)
  {
    if Valid(p) {
      Regroup(done + (Partial(ValsOf(p), base, k, o) + Cut(k, a, v, o) + []), done,
              Partial(ValsOf(p), base, k, o), Cut(k, a, v, o), []);
      assert Partial(ValsOf(p), base, k, o) + Cut(k, a, v, o) == Partial(ValsOf(p), base, k + 1, o);
    }
  }

  lemma AdvanceGroup(p: string, base: nat, done: seq<Byte>, out: seq<Byte>,
                a: Sextet, v: Sextet, o: Bits)
    requires base + 4 <= |p| && Progress(p, base, 3, done, out, o)
    requires Val(p[base + 2]) == Some(a) && Val(p[base + 3]) == Some(v)
    ensures Progress(p, base + 4, 0, out + Cut(3, a, v, o), out + Cut(3, a, v, o), o)
  {
    if Valid(p) {
      var w := ValsOf(p);
      assert w[base..][4..] == w[base + 4..];
      assert DecodeWith(w[base..], o) == Partial(w, base, 3, o) + Cut(3, a, v, o) + DecodeWith(w[base + 4..], o);
      Regroup(DecodeWith(w, o), done, Partial(w, base, 3, o), Cut(3, a, v, o), DecodeWith(w[base + 4..], o));
    }
  }

  lemma Arrived(p: string, base: nat, k: nat, done: seq<Byte>, out: seq<Byte>, o: Bits)
    requires base + k == |p| && k < 4 && Progress(p, base, k, done, out, o)
    ensures Valid(p) ==> out == DecodeWith(Vals(p), o)
  {
    if Valid(p) { assert DecodeWith(ValsOf(p)[base..], o) == Partial(ValsOf(p), base, k, o); }
  }

  lemma NothingYet(p: string, o: Bits)
    ensures Progress(p, 0, 0, [], [], o)
  {
    if Valid(p) { assert ValsOf(p)[0..] == ValsOf(p); }
  }

  /** The proxy's decoder: stops at the first padding character, refuses anything
      else outside the alphabet, and drops the high bits of its 32-bit buffer. */
  method ProxyDecode(input: string) returns (r: Option<seq<Byte>>)
    ensures r.Some? <==> Valid(BeforePad(input))
    ensures r.Some? ==> r.value == DecodeSpec(Vals(BeforePad(input)))
  {
    var out: seq<Byte> := [];
    var buf: int, bits: int := 0, 0;
    ghost var p := BeforePad(input);
    ghost var base, k := 0, 0;
    ghost var done: seq<Byte> := [];
    PadPrefix(input);
    NothingYet(p, BITS);
    for i := 0 to |input|
      invariant i <= |p| && i == base + k && k < 4 && 0 <= buf < 0x1_0000_0000
      invariant bits == if k == 0 then 0 else 8 - 2 * k
      invariant forall j :: 0 <= j < i ==> Val(input[j]).Some?
      invariant i > 0 ==> buf % 64 == Val(input[i - 1]).value
      invariant Progress(p, base, k, done, out, BITS)
    {
      if input[i] == '=' {
        Arrived(p, base, k, done, out, BITS);
        return Some(out);
      }
      var v := Position(input[i]);
      if v.None? {
        assert p[i] == input[i];
        return None;
      }
      assert p[i] == input[i] && (i > 0 ==> p[i - 1] == input[i - 1]);
      var cut;
      ghost var last := buf % 64;
      buf, bits, cut := ShiftIn(buf, bits, v.value);
      if k == 3 {
        AdvanceGroup(p, base, done, out, last, v.value, BITS);
        done, base, k := out + cut, base + 4, 0;
      } else {
        Advance(p, base, k, done, out, last, v.value, BITS);
        k := k + 1;
      }
      out := out + cut;
    }
    Arrived(p, base, k, done, out, BITS);
    return Some(out);
  }

  lemma {:induction false} PadPrefix(s: string)
    ensures |BeforePad(s)| <= |s| && BeforePad(s) == s[..|BeforePad(s)|]
    ensures |BeforePad(s)| < |s| ==> s[|BeforePad(s)|] == '='
    ensures forall i :: 0 <= i < |BeforePad(s)| ==> s[i] != '='
  {
    if s != [] && s[0] != '=' {
      PadPrefix(s[1..]);
      assert s == [s[0]] + s[1..];
    }
  }

  lemma LowTwelve(before: int, v: Sextet)
    requires before >= 0
    ensures ((before * 64 + v as int) % 0x1_0000_0000) % 0x1000 == before % 64 * 64 + v as int
    ensures ((before * 64 + v as int) % 0x1_0000_0000) % 64 == v as int
  {
    var n := before * 64 + v as int;
    var m := n % 0x1_0000_0000;
    var q, k := before / 64, n / 0x1_0000_0000;
    assert m == (q - k * 0x10_0000) * 0x1000 + (before % 64 * 64 + v as int);
    SplitLow(q - k * 0x10_0000, 0x1000, before % 64 * 64 + v as int);
    SplitLow((q - k * 0x10_0000) * 64 + before % 64, 64, v as int);
  }

  lemma LastByte(a: int, v: Sextet, buf: int)
    requires 0 <= a < 64 && buf >= 0 && buf % 0x1000 == a * 64 + v as int
    ensures buf / 16 % 256 == a * 4 + v as int / 16
    ensures buf / 4 % 256 == a % 16 * 16 + v as int / 4
    ensures buf % 256 == a % 4 * 64 + v as int
  {
    var q, w := buf / 0x1000, v as int;
    SplitLow(q * 256 + (a * 4 + w / 16), 16, w % 16);
    SplitLow(q, 256, a * 4 + w / 16);
    SplitLow(q * 1024 + (a * 16 + w / 4), 4, w % 4);
    SplitLow(q * 4 + a / 16, 256, a % 16 * 16 + w / 4);
    SplitLow(q * 16 + a / 4, 256, a % 4 * 64 + w);
  }

  // ------------------------------------------------------------ round trips

  function Sextets(x: seq<Byte>, o: Bits): (v: seq<Sextet>) {
    if x == [] then []
    else if |x| == 1 then [o.s0(x[0]), o.s1(x[0], 0)]
    else if |x| == 2 then [o.s0(x[0]), o.s1(x[0], x[1]), o.s2(x[1], 0)]
    else [o.s0(x[0]), o.s1(x[0], x[1]), o.s2(x[1], x[2]), o.s3(x[2])] + Sextets(x[3..], o)
  }

  lemma GroupBack(a: Byte, b: Byte, c: Byte)
    ensures B0(S0(a), S1(a, b)) == a
    ensures B1(S1(a, b), S2(b, c)) == b
    ensures B2(S2(b, c), S3(c)) == c
  {
    SplitLow(a % 4, 16, b / 16);
    SplitLow(b % 16, 4, c / 64);
  }

  lemma BitsLaws()
    ensures GroupLaws(BITS)
  {
    forall a: Byte, b: Byte, c: Byte ensures GroupAt(BITS, a, b, c) { GroupBack(a, b, c); }
  }

  lemma {:induction false} SextetsLength(x: seq<Byte>, o: Bits) returns (groups: nat)
    ensures var n := |Sextets(x, o)|; n == 4 * groups || n == 4 * groups + 2 || n == 4 * groups + 3
  {
    if |x| >= 3 {
      groups := SextetsLength(x[3..], o);
      groups := groups + 1;
    } else {
      groups := 0;
    }
  }

  lemma {:induction false} SextetsDecode(x: seq<Byte>, o: Bits)
    requires GroupLaws(o)
    ensures DecodeWith(Sextets(x, o), o) == x
  {
    if |x| == 1 { assert GroupAt(o, x[0], 0, 0); }
    if |x| == 2 { assert GroupAt(o, x[0], x[1], 0); }
    if |x| >= 3 {
      assert GroupAt(o, x[0], x[1], x[2]);
      SextetsDecode(x[3..], o);
      var v := Sextets(x, o);
      assert v[4..] == Sextets(x[3..], o);
      assert x == [x[0], x[1], x[2]] + x[3..];
    }
  }

  function Text(v: seq<Sextet>): (s: string)
    ensures |s| == |v|
  {
    seq(|v|, i requires 0 <= i < |v| => Sym(v[i]))
  }

  lemma TextConcat(a: seq<Sextet>, b: seq<Sextet>)
    ensures Text(a + b) == Text(a) + Text(b)
  {
  }

  lemma TextVals(v: seq<Sextet>)
    ensures Valid(Text(v)) && Vals(Text(v)) == v
  {
    forall i | 0 <= i < |v| ensures Val(Text(v)[i]) == Some(v[i]) { ValSym(v[i]); }
  }

  /** The encoder's text is its sextets followed by at most two padding characters. */
  lemma {:induction false} EncodedShape(x: seq<Byte>, o: Bits) returns (pad: string)
    ensures EncodeWith(x, o) == Text(Sextets(x, o)) + pad
    ensures pad == "" || pad == "=" || pad == "=="
  {
    if x == [] { pad := ""; }
    else if |x| == 1 { pad := "=="; }
    else if |x| == 2 { pad := "="; }
    else {
      pad := EncodedShape(x[3..], o);
      var four: seq<Sextet> := [o.s0(x[0]), o.s1(x[0], x[1]), o.s2(x[1], x[2]), o.s3(x[2])];
      TextConcat(four, Sextets(x[3..], o));
      assert Text(four) == [Sym(four[0]), Sym(four[1]), Sym(four[2]), Sym(four[3])];
    }
  }

  lemma {:induction false} CleanPlain(s: string, pad: string)
    requires (forall i :: 0 <= i < |s| ==> !Space(s[i]) && s[i] != '=')
    requires forall i :: 0 <= i < |pad| ==> pad[i] == '='
    ensures Cleaned(s + pad) == s && BeforePad(s + pad) == s
  {
    if s == [] {
      assert s + pad == pad;
      if pad != [] { CleanPlain([], pad[1..]); assert [] + pad[1..] == pad[1..]; }
    } else {
      assert (s + pad)[1..] == s[1..] + pad;
      CleanPlain(s[1..], pad);
    }
  }

  lemma {:induction false} CleanedIgnoresSpace(s: string)
    ensures Cleaned(s) == Cleaned(WithoutSpace(s))
  {
    if s != [] {
      CleanedIgnoresSpace(s[1..]);
      if !Space(s[0]) {
        assert WithoutSpace(s) == [s[0]] + WithoutSpace(s[1..]);
        assert WithoutSpace(s)[1..] == WithoutSpace(s[1..]);
      } else {
        assert WithoutSpace(s) == WithoutSpace(s[1..]);
      }
    }
  }

  /** Both decoders read a valid plain text, padded or not, as the same bytes. */
  lemma PlainAgrees(s: string, pad: string)
    requires Valid(s) && forall i :: 0 <= i < |pad| ==> pad[i] == '='
    ensures Cleaned(s + pad) == s == BeforePad(s + pad)
  {
    forall i | 0 <= i < |s| ensures !Space(s[i]) && s[i] != '=' { assert Val(s[i]).Some?; }
    CleanPlain(s, pad);
  }

  lemma TextDecodes(x: seq<Byte>, s: string, o: Bits)
    requires s == Text(Sextets(x, o)) && GroupLaws(o)
    ensures Valid(s) && |s| % 4 != 1 && DecodeWith(Vals(s), o) == x
  {
    SextetsDecode(x, o);
    TextVals(Sextets(x, o));
    var groups := SextetsLength(x, o);
  }

  /** For every byte string, the text the encoder makes decodes to it: by the kernel
      even with whitespace inserted anywhere, and by the proxy as it stands. */
  lemma RoundTrip(x: seq<Byte>, text: string)
    requires WithoutSpace(text) == EncodeSpec(x)
    ensures Valid(Cleaned(text)) && |Cleaned(text)| % 4 != 1 && DecodeSpec(Vals(Cleaned(text))) == x
    ensures Valid(BeforePad(EncodeSpec(x))) && DecodeSpec(Vals(BeforePad(EncodeSpec(x)))) == x
  {
    var pad := EncodedShape(x, BITS);
    var s := Text(Sextets(x, BITS));
    BitsLaws();
    TextDecodes(x, s, BITS);
    PlainAgrees(s, pad);
    CleanedIgnoresSpace(text);
    assert Cleaned(text) == s == BeforePad(EncodeSpec(x));
  }

  /** The three routines together. */
  method RoundTripRuns(x: seq<Byte>, spaced: string) returns (kernel: Decoded, proxy: Option<seq<Byte>>)
    requires WithoutSpace(spaced) == EncodeSpec(x)
    ensures kernel == Ok(x) && proxy == Some(x)
  {
    var text := Encode(x);
    RoundTrip(x, spaced);
    kernel := Decode(spaced);
    proxy := ProxyDecode(text);
  }
}
