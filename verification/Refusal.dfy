/**
 Why a path is refused for state sync, as the text the code reports, and what a
 search of that text for the cache tier's name finds.
 */
module Refusal {
  import opened PathSyntax
  import Text

  const CACHE_WORDS: string := "cache/scratch"

  const ABSOLUTE: string := " is absolute; only " + "workspace-relative paths " + "are allowed"
  const PARENT: string := " contains `..`"
  const ROOT: string := " names the workspace " + "root, not a file"

  predicate HasAt(s: string, words: string, i: nat) {
    i + |words| <= |s| && s[i..i + |words|] == words
  }

  predicate Contains(s: string, words: string) {
    exists i :: 0 <= i <= |s| && HasAt(s, words, i)
  }

  function FirstIgnored(rel: seq<string>): string {
    if rel == [] then "" else if rel[0] in SNAPSHOT_IGNORES then rel[0] else FirstIgnored(rel[1..])
  }

  function CacheTierText(part: string): string {
    " is in the " + CACHE_WORDS + (" tier (`" + part + "`), which never syncs")
  }

  /** A reason that quotes the path. */
  function Quoting(raw: string, why: string): string {
    "path `" + raw + "`" + why
  }

  /** The text a refused path is refused with. */
  function Reason(raw: string): string {
    if raw == "" then "empty path"
    else if raw[0] == '/' then Quoting(raw, ABSOLUTE)
    else if ".." in Text.Split(raw, '/') then Quoting(raw, PARENT)
    else
      var rel := Normal(Text.Split(raw, '/'));
      if rel == [] then Quoting(raw, ROOT) else Quoting(raw, CacheTierText(FirstIgnored(rel)))
  }

  lemma WithoutChar(s: string, words: string, c: char)
    requires c in words && c !in s
    ensures !Contains(s, words)
  {
    var j :| 0 <= j < |words| && words[j] == c;
    forall i: nat | i <= |s| ensures !HasAt(s, words, i) {
      if i + |words| <= |s| { assert s[i..i + |words|][j] == s[i + j] && s[i + j] in s; }
    }
  }

  lemma HasAtLeft(a: string, b: string, words: string, i: nat)
    requires i + |words| <= |a|
    ensures HasAt(a + b, words, i) <==> HasAt(a, words, i)
  {
    assert (a + b)[i..i + |words|] == a[i..i + |words|];
  }

  lemma HasAtRight(a: string, b: string, words: string, i: nat)
    ensures HasAt(a + b, words, |a| + i) <==> HasAt(b, words, i)
  {
    if i + |words| <= |b| {
      assert (a + b)[|a| + i..|a| + i + |words|] == b[i..i + |words|];
    }
  }

  lemma NotAcross(s: string, words: string, i: nat, at: nat)
    requires at < |s| && s[at] !in words && i <= at < i + |words|
    ensures !HasAt(s, words, i)
  {
    if i + |words| <= |s| { assert s[i..i + |words|][at - i] == s[at]; }
  }

  /** Words without a backtick are in a text with one iff they are in one of its sides. */
  lemma ContainsAcross(a: string, b: string, words: string)
    requires '`' !in words && words != ""
    ensures Contains(a + "`" + b, words) <==> Contains(a, words) || Contains(b, words)
  {
    var left := a + "`";
    if i: nat :| i <= |left + b| && HasAt(left + b, words, i) {
      if i + |words| <= |a| {
        assert left + b == a + ("`" + b);
        HasAtLeft(a, "`" + b, words, i);
      } else if i <= |a| {
        NotAcross(left + b, words, i, |a|);
      } else {
        HasAtRight(left, b, words, i - |left|);
      }
    }
    if i: nat :| i <= |a| && HasAt(a, words, i) {
      assert left + b == a + ("`" + b);
      HasAtLeft(a, "`" + b, words, i);
    }
    if i: nat :| i <= |b| && HasAt(b, words, i) { HasAtRight(left, b, words, i); }
  }

  lemma WordsFacts()
    ensures '/' in CACHE_WORDS && '`' !in CACHE_WORDS && CACHE_WORDS != ""
  {
    assert CACHE_WORDS[5] == '/';
  }

  lemma QuotingContains(raw: string, why: string)
    ensures Contains(Quoting(raw, why), CACHE_WORDS) <==>
            Contains(raw, CACHE_WORDS) || Contains(why, CACHE_WORDS)
  {
    WordsFacts();
    var quoted := "path " + "`" + raw;
    assert "path `" + raw == quoted;
    ContainsAcross(quoted, why, CACHE_WORDS);
    ContainsAcross("path ", raw, CACHE_WORDS);
    WithoutChar("path ", CACHE_WORDS, '/');
  }

  lemma PlainReasons()
    ensures !Contains(ABSOLUTE, CACHE_WORDS) && !Contains(PARENT, CACHE_WORDS) && !Contains(ROOT, CACHE_WORDS)
    ensures !Contains("empty path", CACHE_WORDS)
  {
    WordsFacts();
    assert '/' !in " is absolute; only " && '/' !in "workspace-relative paths " && '/' !in "are allowed";
    assert '/' !in " names the workspace " && '/' !in "root, not a file";
    WithoutChar(ABSOLUTE, CACHE_WORDS, '/');
    WithoutChar(PARENT, CACHE_WORDS, '/');
    WithoutChar(ROOT, CACHE_WORDS, '/');
    WithoutChar("empty path", CACHE_WORDS, '/');
  }

  lemma CacheReason(part: string)
    ensures Contains(CacheTierText(part), CACHE_WORDS)
  {
    var rest := CACHE_WORDS + (" tier (`" + part + "`), which never syncs");
    HasAtLeft(CACHE_WORDS, " tier (`" + part + "`), which never syncs", CACHE_WORDS, 0);
    HasAtRight(" is in the ", rest, CACHE_WORDS, 0);
    assert CacheTierText(part) == " is in the " + rest;
  }

  /** The reason for refusing a path contains the cache tier's name iff the path is in the
      cache tier or its own text contains that name. */
  lemma ReasonMentionsIff(raw: string)
    requires !SyncablePath(raw).Ok?
    ensures Contains(Reason(raw), CACHE_WORDS) <==>
            SyncablePath(raw).CacheTier? || Contains(raw, CACHE_WORDS)
  {
    PlainReasons();
    if raw == "" {
      WordsFacts();
      WithoutChar(raw, CACHE_WORDS, '/');
    } else if raw[0] == '/' {
      QuotingContains(raw, ABSOLUTE);
    } else if ".." in Text.Split(raw, '/') {
      QuotingContains(raw, PARENT);
    } else {
      var rel := Normal(Text.Split(raw, '/'));
      QuotingContains(raw, ROOT);
      QuotingContains(raw, CacheTierText(FirstIgnored(rel)));
      CacheReason(FirstIgnored(rel));
    }
  }
}
