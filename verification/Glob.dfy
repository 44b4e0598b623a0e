/**
 The `*`-only glob matcher: a greedy loop over the literal parts between stars,
 proved equal to declarative matching, where each `*` covers some substring and
 everything else matches literally.
 */
module Glob {
  import Text

  /** Declarative matching. */
  predicate Matches(pattern: string, input: string) {
    if pattern == [] then input == []
    else if pattern[0] == '*' then
      exists n :: 0 <= n <= |input| && Matches(pattern[1..], input[n..])
    else
      input != [] && input[0] == pattern[0] && Matches(pattern[1..], input[1..])
  }

  /** Matching of the parts after a star: each may start anywhere later, the last
      one must end the input. */
  ghost predicate MatchesParts(parts: seq<string>, input: string)
    requires parts != []
  {
    exists n :: PartAt(parts, input, n)
  }

  /** A literal prefix consumes itself. */
  lemma {:induction false} LiteralThen(lit: string, rest: string, input: string)
    requires '*' !in lit
    ensures Matches(lit + rest, input) <==> lit <= input && Matches(rest, input[|lit|..])
  {
    if lit == [] {
      assert lit + rest == rest && input[0..] == input;
    } else {
      assert (lit + rest)[1..] == lit[1..] + rest;
      if input != [] && input[0] == lit[0] {
        LiteralThen(lit[1..], rest, input[1..]);
        assert lit == [lit[0]] + lit[1..] && input == [input[0]] + input[1..];
        if lit[1..] <= input[1..] { assert input[1..][|lit| - 1..] == input[|lit|..]; }
      }
    }
  }

  lemma LiteralOnly(lit: string, input: string)
    requires '*' !in lit
    ensures Matches(lit, input) <==> lit == input
  {
    LiteralThen(lit, [], input);
    assert lit + [] == lit;
    if lit <= input && input[|lit|..] == [] { assert input == lit; }
  }

  ghost predicate PartAt(parts: seq<string>, input: string, n: int)
    requires parts != []
  {
    && 0 <= n <= |input| && parts[0] <= input[n..]
    && if |parts| == 1 then n + |parts[0]| == |input|
       else MatchesParts(parts[1..], input[n + |parts[0]|..])
  }

  lemma SomePart(parts: seq<string>, input: string) returns (n: int)
    requires parts != [] && MatchesParts(parts, input)
    ensures PartAt(parts, input, n)
  {
    n :| PartAt(parts, input, n);
  }

  ghost predicate NoStars(parts: seq<string>) {
    forall i :: 0 <= i < |parts| ==> '*' !in parts[i]
  }

  lemma {:induction false} PartAtIff(parts: seq<string>, input: string, n: nat)
    requires parts != [] && NoStars(parts) && n <= |input|
    ensures Matches(Text.Join(parts, '*'), input[n..]) <==> PartAt(parts, input, n)
    decreases |parts|, 0
  {
    var t := input[n..];
    if |parts| == 1 {
      LiteralOnly(parts[0], t);
      if parts[0] <= t { assert |parts[0]| == |t| ==> parts[0] == t; }
    } else {
      var rest := ['*'] + Text.Join(parts[1..], '*');
      assert Text.Join(parts, '*') == parts[0] + rest;
      LiteralThen(parts[0], rest, t);
      if parts[0] <= t {
        assert t[|parts[0]|..] == input[n + |parts[0]|..];
        StarThenParts(parts[1..], input[n + |parts[0]|..]);
      }
    }
  }

  /** The declarative meaning of a star followed by the joined parts. */
  lemma {:induction false} StarThenParts(parts: seq<string>, input: string)
    requires parts != [] && NoStars(parts)
    ensures Matches(['*'] + Text.Join(parts, '*'), input) <==> MatchesParts(parts, input)
    decreases |parts|, 1
  {
    var q := Text.Join(parts, '*');
    assert (['*'] + q)[1..] == q;
    forall n | 0 <= n <= |input|
      ensures Matches(q, input[n..]) <==> PartAt(parts, input, n)
    {
      PartAtIff(parts, input, n);
    }
    if MatchesParts(parts, input) {
      var n := SomePart(parts, input);
      assert Matches(q, input[n..]);
    }
    if Matches(['*'] + q, input) {
      var n :| 0 <= n <= |input| && Matches(q, input[n..]);
      assert PartAt(parts, input, n);
    }
  }

  /** A leading star can always cover more: a match of a suffix is a match. */
  lemma SuffixMatch(parts: seq<string>, input: string, k: nat)
    requires parts != [] && k <= |input| && MatchesParts(parts, input[k..])
    ensures MatchesParts(parts, input)
  {
    var n := SomePart(parts, input[k..]);
    assert input[k..][n..] == input[k + n..];
    if |parts| > 1 {
      assert input[k..][n + |parts[0]|..] == input[k + n + |parts[0]|..];
    }
    assert PartAt(parts, input, k + n);
  }

  ghost predicate Leftmost(part: string, input: string, pos: int) {
    && 0 <= pos <= |input| && part <= input[pos..]
    && forall n :: 0 <= n < pos ==> !(part <= input[n..])
  }

  /** Leftmost-first loses no solution: any later occurrence leaves a suffix of
      what the leftmost one leaves. */
  lemma LeftmostSuffices(parts: seq<string>, input: string, pos: nat)
    requires |parts| > 1 && Leftmost(parts[0], input, pos)
    ensures MatchesParts(parts, input) <==> MatchesParts(parts[1..], input[pos + |parts[0]|..])
  {
    var after := input[pos + |parts[0]|..];
    if MatchesParts(parts[1..], after) {
      assert PartAt(parts, input, pos);
    }
    if MatchesParts(parts, input) {
      var n := SomePart(parts, input);
      assert pos <= n;
      assert after[n - pos..] == input[n + |parts[0]|..];
      SuffixMatch(parts[1..], after, n - pos);
    }
  }

  method Find(part: string, input: string) returns (pos: int)
    ensures pos >= 0 ==> Leftmost(part, input, pos)
    ensures pos < 0 ==> forall n :: 0 <= n <= |input| ==> !(part <= input[n..])
  {
    pos := 0;
    while pos <= |input|
      invariant 0 <= pos <= |input| + 1
      invariant forall n :: 0 <= n < pos ==> !(part <= input[n..])
    {
      if part <= input[pos..] { return; }
      pos := pos + 1;
    }
    pos := -1;
  }

  predicate EndsWith(s: string, part: string) {
    |part| <= |s| && s[|s| - |part|..] == part
  }

  lemma LastPart(part: string, input: string)
    ensures MatchesParts([part], input) <==> EndsWith(input, part)
  {
    if EndsWith(input, part) {
      assert PartAt([part], input, |input| - |part|);
    }
  }

  lemma FirstPart(pattern: string, input: string)
    requires '*' in pattern
    ensures var parts := Text.Split(pattern, '*');
            && |parts| > 1 && NoStars(parts)
            && (Matches(pattern, input) <==>
                  parts[0] <= input && MatchesParts(parts[1..], input[|parts[0]|..]))
  {
    var parts := Text.Split(pattern, '*');
    Text.SplitHasNoSeparator(pattern, '*');
    Text.JoinSplit(pattern, '*');
    var rest := ['*'] + Text.Join(parts[1..], '*');
    assert pattern == parts[0] + rest;
    LiteralThen(parts[0], rest, input);
    if parts[0] <= input { StarThenParts(parts[1..], input[|parts[0]|..]); }
  }

  method GlobMatch(pattern: string, input: string) returns (matched: bool)
    ensures matched <==> Matches(pattern, input)
  {
    var parts := Text.Split(pattern, '*');
    Text.SplitHasNoSeparator(pattern, '*');
    Text.JoinSplit(pattern, '*');
    if |parts| == 1 {
      LiteralOnly(pattern, input);
      return pattern == input;
    }
    FirstPart(pattern, input);
    var rest := input;
    for i := 0 to |parts|
      invariant i == 0 ==> rest == input
      invariant 0 < i < |parts| ==> (Matches(pattern, input) <==> MatchesParts(parts[i..], rest))
      invariant i == |parts| ==> parts[i - 1] == [] && Matches(pattern, input)
    {
      var part := parts[i];
      if part == [] {
        if i > 0 { SkipEmpty(parts[i..], rest); }
        continue;
      }
      if i == 0 {
        if !(part <= rest) { return false; }
        rest := rest[|part|..];
      } else if i == |parts| - 1 {
        LastPart(part, rest);
        assert parts[i..] == [part];
        return EndsWith(rest, part);
      } else {
        var pos := Find(part, rest);
        if pos < 0 { return false; }
        LeftmostSuffices(parts[i..], rest, pos);
        assert parts[i..][1..] == parts[i + 1..];
        rest := rest[pos + |part|..];
      }
    }
    return parts[|parts| - 1] == [] || |parts| == 1;
  }

  lemma SkipEmpty(parts: seq<string>, input: string)
    requires parts != [] && parts[0] == []
    ensures |parts| == 1 ==> MatchesParts(parts, input)
    ensures |parts| > 1 ==> (MatchesParts(parts, input) <==> MatchesParts(parts[1..], input))
  {
    if |parts| == 1 {
      assert PartAt(parts, input, |input|);
    } else {
      assert input[0..] == input;
      LeftmostSuffices(parts, input, 0);
    }
  }
}
