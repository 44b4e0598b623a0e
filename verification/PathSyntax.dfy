/**
 Workspace paths as text. A delta, a listing and a manifest name files by
 `/`-separated strings; the rest of the model uses lists of components. The two
 agree: the canonical strings are exactly the joined clean component lists, and
 a file is the string prefix of another up to a `/` exactly when its component
 list is a strict ancestor.
 */
module PathSyntax {
  import opened Workspace
  import Text

  const SNAPSHOT_IGNORES: set<string> := {
    "node_modules", "target", ".venv", "venv", "__pycache__", ".pytest_cache",
    ".mypy_cache", ".ruff_cache", ".cache", ".aktmp", ".DS_Store"
  }

  datatype Syncable = Ok(path: string) | CacheTier | Invalid

  /** The components `std::path` sees: empty and `.` components vanish. */
  function Normal(parts: seq<string>): seq<string> {
    if parts == [] then []
    else (if parts[0] == "" || parts[0] == "." then [] else [parts[0]]) + Normal(parts[1..])
  }

  function SyncablePath(raw: string): Syncable {
    var parts := Text.Split(raw, '/');
    if raw == "" || raw[0] == '/' || ".." in parts then Invalid
    else
      var rel := Normal(parts);
      if rel == [] then Invalid
      else if exists i :: 0 <= i < |rel| && rel[i] in SNAPSHOT_IGNORES then CacheTier
      else Ok(Text.Join(rel, '/'))
  }

  predicate CleanName(n: Name) {
    n != "" && n != "." && n != ".." && '/' !in n && n !in SNAPSHOT_IGNORES
  }

  predicate Clean(p: Path) {
    p != [] && forall i :: 0 <= i < |p| ==> CleanName(p[i])
  }

  lemma {:induction false} NormalSelects(parts: seq<string>)
    ensures forall i :: 0 <= i < |Normal(parts)| ==>
      Normal(parts)[i] in parts && Normal(parts)[i] != "" && Normal(parts)[i] != "."
  {
    if parts != [] {
      NormalSelects(parts[1..]);
    }
  }

  lemma {:induction false} NormalKeepsClean(p: Path)
    requires forall i :: 0 <= i < |p| ==> CleanName(p[i])
    ensures Normal(p) == p
  {
    if p != [] {
      NormalKeepsClean(p[1..]);
      assert CleanName(p[0]) && p == [p[0]] + p[1..];
    }
  }

  /** A path is accepted unchanged exactly when it is a clean component list
      joined by slashes; `..`, absolute, doubled-slash, `.` and cache paths are
      all refused or rewritten. */
  lemma CanonicalIffClean(raw: string)
    ensures SyncablePath(raw) == Ok(raw) <==> Clean(Text.Split(raw, '/'))
    ensures Text.Join(Text.Split(raw, '/'), '/') == raw
  {
    var parts := Text.Split(raw, '/');
    Text.JoinSplit(raw, '/');
    Text.SplitHasNoSeparator(raw, '/');
    if Clean(parts) {
      NormalKeepsClean(parts);
      assert parts[0] != "" && '/' !in parts[0];
    }
    if SyncablePath(raw) == Ok(raw) {
      var rel := Normal(parts);
      NormalSelects(parts);
      Text.SplitJoin(rel, '/');
    }
  }

  /** Canonical strings and clean component lists correspond one to one. */
  lemma CleanRoundTrip(p: Path)
    requires Clean(p)
    ensures Text.Split(Text.Join(p, '/'), '/') == p
    ensures SyncablePath(Text.Join(p, '/')) == Ok(Text.Join(p, '/'))
  {
    Text.SplitJoin(p, '/');
    CanonicalIffClean(Text.Join(p, '/'));
  }

  /** The text test for a file ancestor, `path[..separator]`, is the ancestor
      relation of component lists. */
  lemma AncestorTextIff(p: Path, q: Path)
    requires Clean(p) && Clean(q)
    ensures (exists i :: 0 <= i < |Text.Join(q, '/')| && Text.Join(q, '/')[i] == '/'
                         && Text.Join(q, '/')[..i] == Text.Join(p, '/'))
            <==> Above(p, q)
  {
    var a, b := Text.Join(p, '/'), Text.Join(q, '/');
    Text.SplitJoin(p, '/');
    Text.SplitJoin(q, '/');
    if i :| 0 <= i < |b| && b[i] == '/' && b[..i] == a {
      assert b == b[..i] + ['/'] + b[i + 1..];
      Text.SplitConcat(b[..i], '/', b[i + 1..]);
    }
    if Above(p, q) {
      assert q == p + q[|p|..];
      Text.JoinConcat(p, q[|p|..], '/');
      assert b[|a|] == '/' && b[..|a|] == a;
    }
  }
}
