/**
 Sync manifests: what must be transferred to bring one tree to another, and why
 the pulled delta replays to exactly the tree the remote listed.
 */
module ManifestSync {
  import opened Workspace
  import opened PathSyntax
  import opened DeltaReplay

  type Hash = string
  type Hasher = seq<bv8> -> Hash

  datatype Entry = Entry(blob: Hash, mode: nat)
  type Manifest = map<Path, Entry>

  function ManifestOf(files: Files, hash: Hasher): Manifest {
    map p | p in files :: Entry(hash(files[p].contents), files[p].mode)
  }

  ghost predicate ShapeOk(m: Manifest) {
    [] !in m && forall k, l :: k in m && l in m ==> !Above(k, l)
  }

  /** What a remote listing is checked for: clean paths, permission bits only,
      the shape of a tree. */
  ghost predicate Listable(m: Manifest) {
    && ShapeOk(m)
    && forall p :: p in m ==> Clean(p) && m[p].mode < 0x200
  }

  predicate Changed(known: Manifest, remote: Manifest, p: Path) {
    p in remote && !(p in known && known[p] == remote[p])
  }

  method ValidateManifestShape(m: Manifest) returns (ok: bool)
    requires forall p :: p in m ==> Clean(p)
    ensures ok <==> ShapeOk(m)
  {
    var todo := m.Keys;
    while todo != {}
      invariant todo <= m.Keys
      invariant forall k, l :: k in m && l in m && l !in todo ==> !Above(k, l)
      decreases |todo|
    {
      var path :| path in todo;
      for i := 1 to |path|
        invariant forall j :: 1 <= j < i ==> path[..j] !in m
      {
        if path[..i] in m {
          assert Above(path[..i], path);
          return false;
        }
      }
      todo := todo - {path};
    }
    return true;
  }

  datatype PushPlan = PushPlan(upserts: seq<Path>, deletes: seq<Path>)

  ghost predicate Lists(ps: seq<Path>, s: iset<Path>) {
    Distinct(ps) && forall p :: p in ps <==> p in s
  }

  /** The paths of `current` that `target` lacks. */
  method Vanished(current: Manifest, target: Manifest) returns (dels: seq<Path>)
    ensures Lists(dels, iset p | p in current && p !in target)
  {
    dels := [];
    var todo := current.Keys;
    while todo != {}
      invariant todo <= current.Keys && Distinct(dels)
      invariant forall p :: p in dels <==> p in current && p !in target && p !in todo
      decreases |todo|
    {
      var p :| p in todo;
      if p !in target { dels := dels + [p]; }
      todo := todo - {p};
    }
  }

  /** The transfer plan from `current` to `target`: every differing path once,
      every vanished path once. */
  method MakePushPlan(current: Manifest, target: Manifest) returns (plan: PushPlan)
    ensures Lists(plan.upserts, iset p | Changed(current, target, p))
    ensures Lists(plan.deletes, iset p | p in current && p !in target)
    ensures plan.upserts == [] && plan.deletes == [] <==> current == target
  {
    var ups: seq<Path> := [];
    var todo := target.Keys;
    while todo != {}
      invariant todo <= target.Keys && Distinct(ups)
      invariant forall p :: p in ups <==> Changed(current, target, p) && p !in todo
      decreases |todo|
    {
      var p :| p in todo;
      if Changed(current, target, p) { ups := ups + [p]; }
      todo := todo - {p};
    }
    var dels := Vanished(current, target);
    if ups == [] && dels == [] {
      forall p ensures p in current <==> p in target {
        assert p !in dels && p !in ups;
      }
      forall p | p in target ensures p in current && current[p] == target[p] {
        assert p !in ups;
      }
    }
    assert ups != [] ==> ups[0] in ups;
    assert dels != [] ==> dels[0] in dels;
    plan := PushPlan(ups, dels);
  }

  /** The delta is the difference between `known` and `remote`, in any order,
      with contents that hash to what was listed. */
  ghost predicate IsDiff(delta: Delta, known: Manifest, remote: Manifest, hash: Hasher) {
    && Lists(UpsertPaths(delta.upserts), iset p | Changed(known, remote, p))
    && (forall u :: u in delta.upserts ==>
          u.path in remote && remote[u.path] == Entry(hash(u.data.contents), u.data.mode))
    && Lists(delta.deletes, iset p | p in known && p !in remote)
  }

  lemma {:induction false} UpsertMapAt(us: seq<Upsert>, i: nat)
    requires i < |us| && Distinct(UpsertPaths(us))
    ensures us[i].path in UpsertMap(us) && UpsertMap(us)[us[i].path] == Masked(us[i].data)
  {
    var n := |us| - 1;
    assert UpsertPaths(us)[i] == us[i].path && UpsertPaths(us)[n] == us[n].path;
    if i < n {
      assert UpsertPaths(us[..n]) == UpsertPaths(us)[..n];
      UpsertMapAt(us[..n], i);
    }
  }

  lemma DiffIsValid(known: Manifest, remote: Manifest, delta: Delta, hash: Hasher,
                    prefixes: seq<Path>)
    requires Listable(remote) && (forall p :: p in known ==> Clean(p))
    requires IsDiff(delta, known, remote, hash)
    requires forall p :: p in Touched(delta) ==> InPrefixes(p, prefixes)
    ensures Valid(delta, prefixes)
  {
    var ups, all := UpsertPaths(delta.upserts), Touched(delta);
    assert forall p :: p in all <==> p in ups || p in delta.deletes;
    forall i, j | 0 <= i < j < |all| ensures all[i] != all[j] {
      if i < |ups| <= j { assert all[i] in ups && all[j] in delta.deletes; }
    }
    forall i, j | 0 <= i < |ups| && 0 <= j < |ups| ensures !Above(ups[i], ups[j]) {
      assert ups[i] in ups && ups[j] in ups;
    }
  }

  lemma DiffKeys(known: Manifest, base: Files, remote: Manifest, delta: Delta, hash: Hasher)
    requires IsDiff(delta, known, remote, hash) && known.Keys == base.Keys
    ensures Applied(base, delta).Keys == remote.Keys
  {
    forall p ensures p in Applied(base, delta) <==> p in remote {
      assert p in UpsertPaths(delta.upserts) <==> Changed(known, remote, p);
      assert p in delta.deletes <==> p in known && p !in remote;
    }
  }

  lemma PulledValue(base: Files, listed: Entry, delta: Delta, hash: Hasher, i: nat)
    requires i < |delta.upserts| && Distinct(UpsertPaths(delta.upserts)) && listed.mode < 0x200
    requires listed == Entry(hash(delta.upserts[i].data.contents), delta.upserts[i].data.mode)
    ensures var p, after := delta.upserts[i].path, Applied(base, delta);
            p in after && Entry(hash(after[p].contents), after[p].mode) == listed
  {
    UpsertMapAt(delta.upserts, i);
  }

  lemma DiffValue(base: Files, remote: Manifest, delta: Delta, hash: Hasher, p: Path)
    requires IsDiff(delta, ManifestOf(base, hash), remote, hash)
    requires p in Applied(base, delta) && p in remote && remote[p].mode < 0x200
    ensures var f := Applied(base, delta)[p]; Entry(hash(f.contents), f.mode) == remote[p]
  {
    var ups := UpsertPaths(delta.upserts);
    assert p in ups <==> Changed(ManifestOf(base, hash), remote, p);
    if p in ups {
      var i :| 0 <= i < |ups| && ups[i] == p;
      assert delta.upserts[i] in delta.upserts;
      PulledValue(base, remote[p], delta, hash, i);
    } else {
      assert p !in UpsertMap(delta.upserts) && p in base;
    }
  }

  lemma DiffApplied(base: Files, remote: Manifest, delta: Delta, hash: Hasher)
    requires Listable(remote)
    requires IsDiff(delta, ManifestOf(base, hash), remote, hash)
    ensures ManifestOf(Applied(base, delta), hash) == remote
    ensures WellShaped(Applied(base, delta))
  {
    DiffKeys(ManifestOf(base, hash), base, remote, delta, hash);
    forall p | p in remote
      ensures ManifestOf(Applied(base, delta), hash)[p] == remote[p]
    {
      DiffValue(base, remote, delta, hash, p);
    }
  }

  /** The delta a synced backend pulls passes the kernel's structural checks and
      replays: the result is the tree the remote listed, whatever the order of
      the lists and whichever files became directories or the reverse. */
  lemma DiffReplays(base: Files, remote: Manifest, delta: Delta, hash: Hasher,
                    prefixes: seq<Path>)
    requires WellShaped(base) && (forall p :: p in base ==> Clean(p)) && Listable(remote)
    requires IsDiff(delta, ManifestOf(base, hash), remote, hash)
    requires forall p :: p in Touched(delta) ==> InPrefixes(p, prefixes)
    ensures Valid(delta, prefixes)
    ensures DeletesReachable(base, delta.deletes) && WellShaped(Applied(base, delta))
    ensures ManifestOf(Applied(base, delta), hash) == remote
  {
    DiffIsValid(ManifestOf(base, hash), remote, delta, hash, prefixes);
    DiffApplied(base, remote, delta, hash);
    forall i, k | 0 <= i < |delta.deletes| && k in base ensures !Above(k, delta.deletes[i]) {
      assert delta.deletes[i] in delta.deletes;
    }
  }
}
