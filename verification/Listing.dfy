/**
 Reading the service's listing of a sandbox: which listings are accepted, and the
 manifest an accepted one stands for.
 */
module Listing {
  import opened Workspace
  import opened PathSyntax
  import opened ManifestSync
  import opened Refusal
  import Text

  datatype Option<T> = None | Some(value: T)

  datatype RawFile = RawFile(path: string, sha256: string, mode: nat)

  predicate HexDigest(s: string) {
    |s| == 64 && forall i :: 0 <= i < 64 ==>
      '0' <= s[i] <= '9' || 'a' <= s[i] <= 'f' || 'A' <= s[i] <= 'F'
  }

  function Lower(s: string): string {
    seq(|s|, i requires 0 <= i < |s| =>
      if 'A' <= s[i] <= 'F' then s[i] - 'A' + 'a' else s[i])
  }

  /** One listed file: left out, a reason to refuse the listing, or the entry of a path.
      An invalid path is left out too when its text contains the cache tier's name. */
  datatype Item = Skipped | Bad | Held(path: Path, entry: Entry)

  function ItemOf(f: RawFile): Item {
    match SyncablePath(f.path)
    case CacheTier => Skipped
    case Invalid => if Contains(f.path, CACHE_WORDS) then Skipped else Bad
    case Ok(raw) =>
      if HexDigest(f.sha256) then
        Held(Text.Split(raw, '/'), Entry("sha256:" + Lower(f.sha256), f.mode % 0x200))
      else Bad
  }

  /** The code decides by the words of the reason a path is refused with. */
  method ReadItem(f: RawFile) returns (item: Item)
    ensures item == ItemOf(f)
  {
    match SyncablePath(f.path) {
      case Ok(raw) =>
        if !HexDigest(f.sha256) { return Bad; }
        return Held(Text.Split(raw, '/'), Entry("sha256:" + Lower(f.sha256), f.mode % 0x200));
      case _ =>
        ReasonMentionsIff(f.path);
        return if Contains(Reason(f.path), CACHE_WORDS) then Skipped else Bad;
    }
  }

  function Items(files: seq<RawFile>): (items: seq<Item>)
    ensures |items| == |files| && forall i :: 0 <= i < |files| ==> items[i] == ItemOf(files[i])
  {
    seq(|files|, i requires 0 <= i < |files| => ItemOf(files[i]))
  }

  lemma ItemIsClean(f: RawFile)
    requires ItemOf(f).Held?
    ensures Clean(ItemOf(f).path) && ItemOf(f).entry.mode < 0x200
  {
    var rel := Normal(Text.Split(f.path, '/'));
    NormalSelects(Text.Split(f.path, '/'));
    Text.SplitHasNoSeparator(f.path, '/');
    Text.SplitJoin(rel, '/');
  }

  // ------------------------------------------------------- specification

  /** The entries, unless an item is bad or a path occurs twice. */
  function Collected(items: seq<Item>): Option<Manifest> {
    if items == [] then Some(map[])
    else
      var n := |items| - 1;
      var m := Collected(items[..n]);
      match items[n]
      case Skipped => m
      case Bad => None
      case Held(p, e) => if m.Some? && p !in m.value then Some(m.value[p := e]) else None
  }

  ghost function Parsed(items: seq<Item>): Option<Manifest> {
    var m := Collected(items);
    if m.Some? && ShapeOk(m.value) then m else None
  }

  predicate SamePath(a: Item, b: Item) {
    a.Held? && b.Held? && a.path == b.path
  }

  ghost predicate Proper(items: seq<Item>) {
    && (forall i :: 0 <= i < |items| ==> !items[i].Bad?)
    && (forall i, j :: 0 <= i < j < |items| ==> !SamePath(items[i], items[j]))
  }

  predicate FileAbove(a: Item, b: Item) {
    a.Held? && b.Held? && Above(a.path, b.path)
  }

  /** No bad item, no path twice, and the shape of a tree. */
  ghost predicate Acceptable(items: seq<Item>) {
    && Proper(items) && (forall i :: 0 <= i < |items| && items[i].Held? ==> items[i].path != [])
    && (forall i, j :: 0 <= i < |items| && 0 <= j < |items| ==> !FileAbove(items[i], items[j]))
  }

  ghost predicate Reads(items: seq<Item>, m: Manifest) {
    && (forall i :: 0 <= i < |items| && items[i].Held? ==>
          items[i].path in m && m[items[i].path] == items[i].entry)
    && (forall p :: p in m ==> exists i :: 0 <= i < |items| && items[i].Held? && items[i].path == p)
  }

  lemma ReadsOneMore(items: seq<Item>, n: nat, m: Manifest)
    requires n + 1 == |items| && Reads(items[..n], m) && items[n].Held? && items[n].path !in m
    ensures Reads(items, m[items[n].path := items[n].entry])
  {
    var init, m' := items[..n], m[items[n].path := items[n].entry];
    forall i | 0 <= i < |items| && items[i].Held?
      ensures items[i].path in m' && m'[items[i].path] == items[i].entry
    {
      assert i < n ==> init[i] == items[i];
    }
    forall p | p in m' ensures exists i :: 0 <= i < |items| && items[i].Held? && items[i].path == p {
      if p in m {
        var i :| 0 <= i < n && init[i].Held? && init[i].path == p;
        assert items[i].path == p;
      }
    }
  }

  lemma ReadsSkipped(items: seq<Item>, n: nat, m: Manifest)
    requires n + 1 == |items| && Reads(items[..n], m) && !items[n].Held?
    ensures Reads(items, m)
  {
    var init := items[..n];
    forall i | 0 <= i < |items| && items[i].Held?
      ensures items[i].path in m && m[items[i].path] == items[i].entry
    {
      assert init[i] == items[i];
    }
    forall p | p in m ensures exists i :: 0 <= i < |items| && items[i].Held? && items[i].path == p {
      var i :| 0 <= i < n && init[i].Held? && init[i].path == p;
      assert items[i].path == p;
    }
  }

  lemma ProperOneMore(items: seq<Item>, n: nat, m: Manifest)
    requires n + 1 == |items| && Reads(items[..n], m) && Proper(items[..n])
    ensures Proper(items) <==> !items[n].Bad? && (items[n].Held? ==> items[n].path !in m)
  {
    var init := items[..n];
    assert forall i :: 0 <= i < n ==> init[i] == items[i];
    if items[n].Held? && items[n].path in m {
      var i :| 0 <= i < n && init[i].Held? && init[i].path == items[n].path;
      assert SamePath(items[i], items[n]);
    }
  }

  /** The entries are collected iff the items are proper, and then exactly they are. */
  lemma {:induction false} CollectedIff(items: seq<Item>)
    ensures Collected(items).Some? <==> Proper(items)
    ensures Collected(items).Some? ==> Reads(items, Collected(items).value)
  {
    if items != [] {
      var n := |items| - 1;
      CollectedIff(items[..n]);
      if Collected(items[..n]).Some? {
        var m := Collected(items[..n]).value;
        ProperOneMore(items, n, m);
        if items[n].Skipped? { ReadsSkipped(items, n, m); }
        if items[n].Held? && items[n].path !in m { ReadsOneMore(items, n, m); }
      } else {
        ProperPrefix(items, n);
      }
    }
  }

  lemma ProperPrefix(items: seq<Item>, n: nat)
    requires n <= |items| && !Proper(items[..n])
    ensures !Proper(items)
  {
    var init := items[..n];
    if i :| 0 <= i < n && init[i].Bad? {
      assert items[i].Bad?;
    } else {
      var i, j :| 0 <= i < j < n && SamePath(init[i], init[j]);
      assert SamePath(items[i], items[j]);
    }
  }

  lemma ShapeOfListing(items: seq<Item>, m: Manifest)
    requires Reads(items, m)
    ensures ShapeOk(m) <==>
            && (forall i :: 0 <= i < |items| && items[i].Held? ==> items[i].path != [])
            && (forall i, j :: 0 <= i < |items| && 0 <= j < |items| ==> !FileAbove(items[i], items[j]))
  {
    if !ShapeOk(m) && [] !in m {
      var k, l :| k in m && l in m && Above(k, l);
      var i :| 0 <= i < |items| && items[i].Held? && items[i].path == k;
      var j :| 0 <= j < |items| && items[j].Held? && items[j].path == l;
      assert FileAbove(items[i], items[j]);
    }
  }

  /** A listing is accepted iff it is acceptable, and then it is read as the manifest
      with exactly its entries. */
  lemma ParsedIff(items: seq<Item>)
    ensures Parsed(items).Some? <==> Acceptable(items)
    ensures Parsed(items).Some? ==> Reads(items, Parsed(items).value)
  {
    CollectedIff(items);
    if Collected(items).Some? { ShapeOfListing(items, Collected(items).value); }
  }

  // --------------------------------------------------- invalid paths

  ghost predicate ListsInvalid(files: seq<RawFile>) {
    exists i :: 0 <= i < |files| && SyncablePath(files[i].path).Invalid?
  }

  /** Some invalid path does not contain the tier's name. */
  ghost predicate ListsUnmasked(files: seq<RawFile>) {
    exists i :: 0 <= i < |files| && SyncablePath(files[i].path).Invalid? && !Contains(files[i].path, CACHE_WORDS)
  }

  /** A listing is refused for an invalid path iff one does not contain the tier's name. */
  lemma RefusedForPathIff(files: seq<RawFile>)
    ensures (exists i :: 0 <= i < |files| && SyncablePath(files[i].path).Invalid? && Items(files)[i].Bad?) <==>
            ListsUnmasked(files)
    ensures ListsUnmasked(files) ==> Parsed(Items(files)).None?
  {
    ParsedIff(Items(files));
    if ListsUnmasked(files) {
      var i :| 0 <= i < |files| && SyncablePath(files[i].path).Invalid? && !Contains(files[i].path, CACHE_WORDS);
      assert Items(files)[i].Bad?;
    }
  }

  /** The acceptance of a listing in terms of its files. */
  lemma AcceptedIff(files: seq<RawFile>)
    ensures Parsed(Items(files)).Some? <==>
            && !ListsUnmasked(files)
            && (forall i :: 0 <= i < |files| && SyncablePath(files[i].path).Ok? ==> HexDigest(files[i].sha256))
            && (forall i, j :: 0 <= i < j < |files| ==> !SamePath(Items(files)[i], Items(files)[j]))
            && (forall i, j :: 0 <= i < |files| && 0 <= j < |files| ==>
                  !FileAbove(Items(files)[i], Items(files)[j]))
  {
    var items := Items(files);
    ParsedIff(items);
    forall i | 0 <= i < |files| && items[i].Held? ensures items[i].path != [] { ItemIsClean(files[i]); }
    BadItemsIff(files);
  }

  lemma BadItemsIff(files: seq<RawFile>)
    ensures (forall i :: 0 <= i < |files| ==> !Items(files)[i].Bad?) <==>
            && !ListsUnmasked(files)
            && (forall i :: 0 <= i < |files| && SyncablePath(files[i].path).Ok? ==> HexDigest(files[i].sha256))
  {
    RefusedForPathIff(files);
    if !ListsUnmasked(files) &&
       forall i :: 0 <= i < |files| && SyncablePath(files[i].path).Ok? ==> HexDigest(files[i].sha256)
    {
      forall i | 0 <= i < |files| ensures !Items(files)[i].Bad? { assert ItemOf(files[i]) == Items(files)[i]; }
    } else if !ListsUnmasked(files) {
      var i :| 0 <= i < |files| && SyncablePath(files[i].path).Ok? && !HexDigest(files[i].sha256);
      assert Items(files)[i].Bad?;
    }
  }

  /** A listing with an invalid path that is accepted all the same: `../cache/scratch`. */
  lemma HostileListing(sha256: string, mode: nat)
    ensures var files := [RawFile(".." + ['/'] + CACHE_WORDS, sha256, mode)];
            ListsInvalid(files) && Parsed(Items(files)) == Some(map[])
  {
    var f := RawFile(".." + ['/'] + CACHE_WORDS, sha256, mode);
    EscapingPath();
    var files := [f];
    assert files[0] == f && ItemOf(f).Skipped?;
    var items := Items(files);
    assert items[..0] == [] && Collected(items[..0]) == Some(map[]);
    assert Collected(items) == Some(map[]);
  }

  lemma EscapingPath()
    ensures var path := ".." + ['/'] + CACHE_WORDS;
            SyncablePath(path).Invalid? && Contains(path, CACHE_WORDS)
  {
    var path := ".." + ['/'] + CACHE_WORDS;
    Text.SplitConcat("..", '/', CACHE_WORDS);
    Text.SplitPlain("..", '/');
    assert Text.Split(path, '/')[0] == "..";
    HasAtRight(".." + ['/'], CACHE_WORDS, CACHE_WORDS, 0);
  }

  // ------------------------------------------------------------ the loop

  lemma {:induction false} CollectedStops(items: seq<Item>, n: nat)
    requires n <= |items| && Collected(items[..n]).None?
    ensures Collected(items).None?
    decreases |items|
  {
    if n < |items| {
      var init := items[..|items| - 1];
      assert init[..n] == items[..n];
      CollectedStops(init, n);
    } else {
      assert items[..n] == items;
    }
  }

  method Collect(items: seq<Item>) returns (r: Option<Manifest>)
    ensures r == Collected(items)
  {
    var m: Manifest := map[];
    for n := 0 to |items|
      invariant Collected(items[..n]) == Some(m)
    {
      assert items[..n + 1][..n] == items[..n];
      match items[n] {
        case Skipped =>
        case Bad =>
          CollectedStops(items, n + 1);
          return None;
        case Held(path, entry) =>
          if path in m {
            CollectedStops(items, n + 1);
            return None;
          }
          m := m[path := entry];
      }
    }
    assert items[..|items|] == items;
    return Some(m);
  }

  lemma ReadIsClean(files: seq<RawFile>, m: Manifest)
    requires Reads(Items(files), m)
    ensures forall p :: p in m ==> Clean(p) && m[p].mode < 0x200
  {
    forall p | p in m ensures Clean(p) && m[p].mode < 0x200 {
      var i :| 0 <= i < |files| && Items(files)[i].Held? && Items(files)[i].path == p;
      ItemIsClean(files[i]);
    }
  }

  method ReadItems(files: seq<RawFile>) returns (items: seq<Item>)
    ensures items == Items(files)
  {
    items := [];
    for n := 0 to |files|
      invariant |items| == n && forall i :: 0 <= i < n ==> items[i] == ItemOf(files[i])
    {
      var item := ReadItem(files[n]);
      items := items + [item];
    }
  }

  method ParseListing(files: seq<RawFile>) returns (r: Option<Manifest>)
    ensures r == Parsed(Items(files))
    ensures r.Some? <==> Acceptable(Items(files))
    ensures r.Some? ==> Reads(Items(files), r.value) && Listable(r.value)
  {
    var items := ReadItems(files);
    ParsedIff(items);
    var m := Collect(items);
    if m.None? { return None; }
    CollectedIff(items);
    ReadIsClean(files, m.value);
    var ok := ValidateManifestShape(m.value);
    return if ok then m else None;
  }
}
