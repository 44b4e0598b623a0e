/**
 POSIX single-quoting of arguments for `sh -c`, against the quoting rules of
 sections 2.2.1 and 2.2.2 of the POSIX Shell Command Language. The tokenizer
 gives no answer (`None`) where an unquoted character has another meaning to the
 shell, so a quoted argument that leaked one would show.
 */
module ShellQuote {

  datatype Option<T> = None | Some(value: T)

  /** Every quote becomes: close, escaped quote, open. */
  function Escaped(s: string): string {
    if s == [] then []
    else (if s[0] == '\'' then "'\\''" else [s[0]]) + Escaped(s[1..])
  }

  function Shq(s: string): string {
    "'" + Escaped(s) + "'"
  }

  /** Characters that are not literal when unquoted. */
  predicate Special(c: char) {
    c == '|' || c == '&' || c == ';' || c == '<' || c == '>' || c == '(' || c == ')' || c == '$' ||
    c == '`' || c == '\"' || c == '*' || c == '?' || c == '[' || c == ']' || c == '#' || c == '~' ||
    c == '=' || c == '%' || c == '!' || c == '{' || c == '}' || c == '\t' || c == '\n'
  }

  /** Characters that stand for themselves when unquoted. */
  predicate Literal(c: char) {
    !Special(c) && c != ' ' && c != '\'' && c != '\\'
  }

  function Word(cur: Option<string>): string {
    if cur.Some? then cur.value else ""
  }

  function Cons(w: string, rest: Option<seq<string>>): Option<seq<string>> {
    if rest.Some? then Some([w] + rest.value) else None
  }

  /** Split a command line into words; `cur` is the word being read, if any. */
  function Lex(s: string, cur: Option<string>): Option<seq<string>>
    decreases |s|
  {
    if s == [] then Some(if cur.Some? then [cur.value] else [])
    else if s[0] == ' ' then
      if cur.Some? then Cons(cur.value, Lex(s[1..], None)) else Lex(s[1..], None)
    else if s[0] == '\'' then Quoted(s[1..], Word(cur))
    else if s[0] == '\\' then
      if |s| < 2 || s[1] == '\n' then None else Lex(s[2..], Some(Word(cur) + [s[1]]))
    else if Special(s[0]) then None
    else Lex(s[1..], Some(Word(cur) + [s[0]]))
  }

  /** Inside single quotes everything is literal up to the next single quote. */
  function Quoted(s: string, acc: string): Option<seq<string>>
    decreases |s|
  {
    if s == [] then None
    else if s[0] == '\'' then Lex(s[1..], Some(acc))
    else Quoted(s[1..], acc + [s[0]])
  }

  function Tokenize(s: string): Option<seq<string>> {
    Lex(s, None)
  }

  lemma LexQuote(s: string, cur: Option<string>)
    ensures Lex("'" + s, cur) == Quoted(s, Word(cur))
  {
    assert ("'" + s)[1..] == s;
  }

  lemma LexEscape(s: string, cur: Option<string>)
    ensures Lex("\\'" + s, cur) == Lex(s, Some(Word(cur) + "'"))
  {
    assert ("\\'" + s)[2..] == s;
  }

  lemma LexLiteral(c: char, s: string, cur: Option<string>)
    requires Literal(c)
    ensures Lex([c] + s, cur) == Lex(s, Some(Word(cur) + [c]))
  {
    assert ([c] + s)[1..] == s;
  }

  lemma LexSpace(s: string, w: string)
    ensures Lex(" " + s, Some(w)) == Cons(w, Lex(s, None))
  {
    assert (" " + s)[1..] == s;
  }

  lemma CloseQuote(s: string, acc: string)
    ensures Quoted("'" + s, acc) == Lex(s, Some(acc))
  {
    assert ("'" + s)[1..] == s;
  }

  lemma QuotedLiteral(c: char, s: string, acc: string)
    requires c != '\''
    ensures Quoted([c] + s, acc) == Quoted(s, acc + [c])
  {
    assert ([c] + s)[1..] == s;
  }

  lemma CloseEscapeOpen(rest: string, acc: string)
    ensures Quoted("'\\''" + rest, acc) == Quoted(rest, acc + "'")
  {
    assert "'\\''" + rest == "'" + ("\\'" + ("'" + rest));
    CloseQuote("\\'" + ("'" + rest), acc);
    LexEscape("'" + rest, Some(acc));
    LexQuote(rest, Some(acc + "'"));
  }

  lemma EscapedStep(p: string, t: string, acc: string)
    requires p != []
    ensures Quoted(Escaped(p) + "'" + t, acc) == Quoted(Escaped(p[1..]) + "'" + t, acc + [p[0]])
  {
    var rest := Escaped(p[1..]) + "'" + t;
    if p[0] == '\'' {
      assert Escaped(p) + "'" + t == "'\\''" + rest;
      CloseEscapeOpen(rest, acc);
    } else {
      assert Escaped(p) + "'" + t == [p[0]] + rest;
      QuotedLiteral(p[0], rest, acc);
    }
  }

  /** The body of a quoted argument adds exactly that argument to the word. */
  lemma {:induction false} EscapedReads(p: string, t: string, acc: string)
    ensures Quoted(Escaped(p) + "'" + t, acc) == Lex(t, Some(acc + p))
  {
    if p == [] {
      assert Escaped(p) + "'" + t == "'" + t && acc + p == acc;
      CloseQuote(t, acc);
    } else {
      EscapedStep(p, t, acc);
      EscapedReads(p[1..], t, acc + [p[0]]);
      assert acc + [p[0]] + p[1..] == acc + p;
    }
  }

  predicate AllLiteral(w: string) {
    forall i :: 0 <= i < |w| ==> Literal(w[i])
  }

  /** A command word written as it is, or an argument passed through `Shq`. */
  datatype Piece = Plain(text: string) | Arg(text: string) {
    predicate Ok() {
      Plain? ==> text != "" && AllLiteral(text)
    }

    function Render(): string {
      if Arg? then Shq(text) else text
    }
  }

  /** `join(" ")` of the rendered pieces. */
  function CommandLine(ps: seq<Piece>): string {
    if ps == [] then ""
    else if |ps| == 1 then ps[0].Render()
    else ps[0].Render() + " " + CommandLine(ps[1..])
  }

  function Texts(ps: seq<Piece>): seq<string> {
    seq(|ps|, i requires 0 <= i < |ps| => ps[i].text)
  }

  lemma {:induction false} PlainReads(w: string, t: string, acc: string)
    requires AllLiteral(w)
    ensures Lex(w + t, Some(acc)) == Lex(t, Some(acc + w))
  {
    if w == [] {
      assert w + t == t && acc + w == acc;
    } else {
      LexLiteral(w[0], w[1..] + t, Some(acc));
      assert w + t == [w[0]] + (w[1..] + t);
      PlainReads(w[1..], t, acc + [w[0]]);
      assert acc + [w[0]] + w[1..] == acc + w;
    }
  }

  lemma ArgReads(w: string, t: string)
    ensures Lex(Shq(w) + t, None) == Lex(t, Some(w))
  {
    assert Shq(w) + t == "'" + (Escaped(w) + "'" + t);
    LexQuote(Escaped(w) + "'" + t, None);
    EscapedReads(w, t, "");
    assert "" + w == w;
  }

  lemma WordReads(w: string, t: string)
    requires AllLiteral(w) && w != ""
    ensures Lex(w + t, None) == Lex(t, Some(w))
  {
    LexLiteral(w[0], w[1..] + t, None);
    assert w + t == [w[0]] + (w[1..] + t) && "" + [w[0]] == [w[0]];
    PlainReads(w[1..], t, [w[0]]);
    assert [w[0]] + w[1..] == w;
  }

  lemma PieceReads(p: Piece, t: string)
    requires p.Ok()
    ensures Lex(p.Render() + t, None) == Lex(t, Some(p.text))
  {
    if p.Arg? { ArgReads(p.text, t); } else { WordReads(p.text, t); }
  }

  /** The shell sees exactly the words that were meant: every argument, whatever
      it contains, is one word with exactly its characters. */
  lemma {:induction false} QuotingIsExact(ps: seq<Piece>)
    requires forall i :: 0 <= i < |ps| ==> ps[i].Ok()
    ensures Tokenize(CommandLine(ps)) == Some(Texts(ps))
  {
    if ps == [] {
      assert Texts(ps) == [];
    } else if |ps| == 1 {
      PieceReads(ps[0], "");
      assert ps[0].Render() + "" == ps[0].Render() && Texts(ps) == [ps[0].text];
    } else {
      var rest := CommandLine(ps[1..]);
      PieceReads(ps[0], " " + rest);
      assert ps[0].Render() + (" " + rest) == CommandLine(ps);
      LexSpace(rest, ps[0].text);
      QuotingIsExact(ps[1..]);
      assert Texts(ps) == [ps[0].text] + Texts(ps[1..]);
    }
  }

  function RemoveCommand(paths: seq<string>): seq<Piece> {
    [Plain("rm"), Plain("-rf"), Plain("--")] + seq(|paths|, i requires 0 <= i < |paths| => Arg(paths[i]))
  }

  /** The sync delete command removes exactly the given paths. */
  lemma RemovesExactly(paths: seq<string>)
    ensures Tokenize(CommandLine(RemoveCommand(paths))) == Some(["rm", "-rf", "--"] + paths)
  {
    assert Plain("rm").Ok() && Plain("-rf").Ok() && Plain("--").Ok();
    QuotingIsExact(RemoveCommand(paths));
    assert Texts(RemoveCommand(paths)) == ["rm", "-rf", "--"] + paths;
  }
}
