/**
 The state-sync protocol of the Cube backend against an untrusted remote.

 Every remote call takes its answer from `script`, an arbitrary list of turns:
 the service may drift, lie or fail at any point. A turn also carries arbitrary
 changes made meanwhile by tasks of other branches to the backend's maps; what a
 turn cannot change is this branch's handle and, while the held sandbox gate is the
 one in the gate map, this sandbox's cache entry (the service is taken to hand out
 each sandbox id once). `trace` records this backend's own remote calls.
 */
module SyncProtocol {
  import opened Workspace
  import opened PathSyntax
  import opened DeltaReplay
  import opened ManifestSync
  import opened Listing
  import Transition

  type Branch = string
  type Sandbox = string

  datatype Reply = Listing(files: seq<RawFile>) | Blob(bytes: seq<bv8>) | Created(id: Sandbox)
                 | Accepted | Lost

  datatype Turn = Turn(reply: Reply, gateFree: bool,
                       sandboxes: map<Branch, Sandbox>, synced: map<Sandbox, Manifest>)

  datatype Event =
    | Listed(sandbox: Sandbox, manifest: Manifest, files: seq<RawFile>)
    | Unlisted(sandbox: Sandbox)      // no answer to a listing, or not an acceptable one
    | Pushed(sandbox: Sandbox)
    | Ran(sandbox: Sandbox)
    | Pulled(sandbox: Sandbox, path: Path)

  // --------------------------------------------------------- map plumbing

  /** `now`, except that key `k` is as it was. */
  function Keeping<K, V>(now: map<K, V>, was: map<K, V>, k: K): map<K, V> {
    if k in was then now[k := was[k]] else now - {k}
  }

  ghost predicate SameAt<K, V>(now: map<K, V>, was: map<K, V>, k: K) {
    (k in now <==> k in was) && (k in now ==> now[k] == was[k])
  }

  /** The sandbox answered a listing, accepted and read as `m`. */
  ghost predicate IsListing(e: Event, sandbox: Sandbox, m: Manifest) {
    e.Listed? && e == Listed(sandbox, m, e.files) && Parsed(Items(e.files)) == Some(m)
  }

  ghost predicate HasEntry(synced: map<Sandbox, Manifest>, s: Sandbox, m: Manifest) {
    s in synced && synced[s] == m
  }

  /** From position `n` on, every run directly follows a listing of the target. */
  ghost predicate RunsOnlyAtTarget(trace: seq<Event>, n: nat, target: Manifest) {
    forall i :: n <= i < |trace| && trace[i].Ran? ==>
      i > n && IsListing(trace[i - 1], trace[i].sandbox, target)
  }

  ghost predicate NoRun(trace: seq<Event>, n: nat) {
    forall i :: n <= i < |trace| ==> !trace[i].Ran?
  }

  /** At position `i` the action ran, and the next thing seen was a listing of `m`. */
  ghost predicate RanThenListed(trace: seq<Event>, i: nat, sandbox: Sandbox, m: Manifest) {
    i + 1 < |trace| && trace[i] == Ran(sandbox) && IsListing(trace[i + 1], sandbox, m)
  }

  lemma OneRun(upTo: seq<Event>, trace: seq<Event>, n: nat, sandbox: Sandbox, target: Manifest)
    requires n < |upTo| && NoRun(upTo, n) && IsListing(upTo[|upTo| - 1], sandbox, target)
    requires upTo + [Ran(sandbox)] <= trace && NoRun(trace, |upTo| + 1)
    ensures RunsOnlyAtTarget(trace, n, target) && trace[|upTo|] == Ran(sandbox) && upTo <= trace
  {
    var at := |upTo|;
    assert trace[..at + 1] == upTo + [Ran(sandbox)];
    assert forall i :: 0 <= i < at ==> trace[i] == trace[..at + 1][i] == upTo[i];
    assert trace[at] == trace[..at + 1][at];
  }

  /** From position `n` on, every listing asked for was given. */
  ghost predicate AllListed(trace: seq<Event>, n: nat) {
    forall i :: n <= i < |trace| ==> !trace[i].Unlisted?
  }

  class CubeBackend {
    const hash: Hasher
    var sandboxes: map<Branch, Sandbox>
    var synced: map<Sandbox, Manifest>
    var script: seq<Turn>
    ghost var trace: seq<Event>

    constructor (hash: Hasher, script: seq<Turn>)
      ensures this.hash == hash && this.script == script
      ensures sandboxes == map[] && synced == map[] && trace == []
    {
      this.hash, this.script := hash, script;
      sandboxes, synced, trace := map[], map[], [];
    }

    /** One await on the remote: take the next answer; meanwhile other branches'
        tasks may change every entry that is not ours. */
    method Await(branch: Branch, own: Option<Sandbox>) returns (turn: Turn)
      modifies this
      ensures SameAt(sandboxes, old(sandboxes), branch)
      ensures own.Some? ==> SameAt(synced, old(synced), own.value)
      ensures trace == old(trace)
      ensures old(script) == [] ==> turn.reply.Lost? && script == [] && synced == old(synced)
      ensures old(script) != [] ==> turn == old(script)[0] && script == old(script)[1..]
      ensures old(script) != [] && own.None? ==> synced == turn.synced
    {
      if script == [] {
        return Turn(Lost, false, map[], map[]);
      }
      turn := script[0];
      script := script[1..];
      sandboxes := Keeping(turn.sandboxes, sandboxes, branch);
      synced := if own.Some? then Keeping(turn.synced, synced, own.value) else turn.synced;
    }

    /** `remote_manifest`: list the sandbox and check the listing. */
    method RemoteManifest(branch: Branch, own: Option<Sandbox>, sandbox: Sandbox)
      returns (r: Option<Manifest>)
      modifies this
      ensures SameAt(sandboxes, old(sandboxes), branch)
      ensures own.Some? ==> SameAt(synced, old(synced), own.value)
      ensures r == if |old(script)| > 0 && old(script)[0].reply.Listing?
                   then Parsed(Items(old(script)[0].reply.files)) else None
      ensures r.Some? ==> Listable(r.value)
      ensures r.Some? ==> trace == old(trace) + [Listed(sandbox, r.value, old(script)[0].reply.files)]
      ensures r.None? ==> trace == old(trace) + [Unlisted(sandbox)]
    {
      var turn := Await(branch, own);
      r := None;
      if turn.reply.Listing? { r := ParseListing(turn.reply.files); }
      trace := trace + [if r.Some? then Listed(sandbox, r.value, turn.reply.files) else Unlisted(sandbox)];
    }

    /** The same, as the protocol uses it: one event more, a listing of the sandbox or the
        lack of one. */
    method AskListing(branch: Branch, own: Option<Sandbox>, sandbox: Sandbox)
      returns (r: Option<Manifest>)
      modifies this
      ensures SameAt(sandboxes, old(sandboxes), branch)
      ensures own.Some? ==> SameAt(synced, old(synced), own.value)
      ensures old(trace) <= trace && |trace| == |old(trace)| + 1
      ensures r.Some? ==> Listable(r.value) && IsListing(trace[|trace| - 1], sandbox, r.value)
      ensures r.None? ==> trace[|trace| - 1] == Unlisted(sandbox)
    {
      r := RemoteManifest(branch, own, sandbox);
    }

    /** Try one candidate: skipped while its gate is taken, else listed and cached. */
    method TryCandidate(branch: Branch, sandbox: Sandbox, target: Manifest)
      returns (ok: bool, found: bool)
      modifies this
      ensures SameAt(sandboxes, old(sandboxes), branch)
      ensures old(trace) <= trace && NoRun(trace, |old(trace)|)
      ensures ok ==> AllListed(trace, |old(trace)|)
      ensures !ok ==> |trace| > |old(trace)| && trace[|trace| - 1] == Unlisted(sandbox)
      ensures found ==> ok && |trace| > |old(trace)| && IsListing(trace[|trace| - 1], sandbox, target)
    {
      var turn := Await(branch, None);
      if !turn.gateFree { return true, false; }
      var current := AskListing(branch, None, sandbox);
      if current.None? { return false, false; }
      synced := synced[sandbox := current.value];
      return true, current.value == target;
    }

    /** A sandbox other than ours that lists as exactly `target` right now. One candidate
        that cannot be listed fails the whole search. */
    method QuiescentSource(branch: Branch, target: Manifest)
      returns (ok: bool, source: Option<Sandbox>)
      modifies this
      ensures SameAt(sandboxes, old(sandboxes), branch)
      ensures old(trace) <= trace && NoRun(trace, |old(trace)|)
      ensures ok && source.Some? ==>
                |trace| > |old(trace)| && IsListing(trace[|trace| - 1], source.value, target)
      ensures ok <==> AllListed(trace, |old(trace)|)
      ensures !ok ==> |trace| > |old(trace)| && trace[|trace| - 1].Unlisted? &&
                      HasEntry(old(synced), trace[|trace| - 1].sandbox, target)
    {
      var candidates := set s | s in synced && synced[s] == target;
      while candidates != {}
        invariant SameAt(sandboxes, old(sandboxes), branch)
        invariant old(trace) <= trace && NoRun(trace, |old(trace)|) && AllListed(trace, |old(trace)|)
        invariant forall s :: s in candidates ==> HasEntry(old(synced), s, target)
        decreases |candidates|
      {
        var sandbox :| sandbox in candidates;
        candidates := candidates - {sandbox};
        var found;
        ok, found := TryCandidate(branch, sandbox, target);
        if !ok { return false, None; }
        if found { return true, Some(sandbox); }
      }
      return true, None;
    }

    /** Get or create the branch's sandbox, cloning one that already holds the
        target when there is such a one. */
    method SandboxFor(branch: Branch, target: Manifest) returns (r: Option<Sandbox>)
      modifies this
      ensures r.Some? ==> branch in sandboxes && sandboxes[branch] == r.value
      ensures r.None? ==> branch !in sandboxes
      ensures old(trace) <= trace && NoRun(trace, |old(trace)|)
    {
      if branch in sandboxes {
        var id := sandboxes[branch];
        var _ := Await(branch, None);
        return Some(id);
      }
      var ok, source := QuiescentSource(branch, target);
      if !ok { return None; }
      if source.Some? {
        var snapshot := Await(branch, None);
        if !snapshot.reply.Accepted? { return None; }
      }
      var created := Await(branch, None);
      if !created.reply.Created? { return None; }
      var id := created.reply.id;
      if source.Some? {
        synced := synced[id := target];
      }
      sandboxes := sandboxes[branch := id];
      var _ := Await(branch, None);      // for the gate
      return Some(id);
    }

    /** Forget a sandbox whose tree can no longer be vouched for. The handle, the cache
        entry and the gate are gone before the deletion is awaited, so from there on
        the cache entry is no longer protected: it is present on return iff another
        task put it back during that await. */
    method Poison(branch: Branch, sandbox: Sandbox) returns (ghost deletion: Option<Turn>)
      modifies this
      ensures branch !in sandboxes && trace == old(trace)
      ensures deletion == if old(script) == [] then None else Some(old(script)[0])
      ensures sandbox in synced <==> deletion.Some? && sandbox in deletion.value.synced
    {
      sandboxes := sandboxes - {branch};
      synced := synced - {sandbox};
      assert sandbox !in synced;
      deletion := if script == [] then None else Some(script[0]);
      var _ := Await(branch, None);
    }

    /** Push the difference to the base manifest; succeeds only when a listing
        made after every push equals the target. */
    method SyncIn(branch: Branch, sandbox: Sandbox, target: Manifest, blobs: map<Hash, seq<bv8>>)
      returns (ok: bool)
      requires branch in sandboxes && sandboxes[branch] == sandbox
      modifies this
      ensures branch in sandboxes && sandboxes[branch] == sandbox
      ensures old(trace) <= trace && NoRun(trace, |old(trace)|)
      ensures ok ==> |trace| > |old(trace)| && IsListing(trace[|trace| - 1], sandbox, target)
      ensures ok ==> sandbox in synced && synced[sandbox] == target && Listable(target)
    {
      var current := AskListing(branch, Some(sandbox), sandbox);
      if current.None? { return false; }
      var plan := MakePushPlan(current.value, target);
      var pushed := Push(branch, sandbox, plan, target, blobs);
      if !pushed { return false; }
      if plan.upserts != [] || plan.deletes != [] {
        var verified := AskListing(branch, Some(sandbox), sandbox);
        if verified != Some(target) { return false; }
      }
      synced := synced[sandbox := target];
      return true;
    }

    method Push(branch: Branch, sandbox: Sandbox, plan: PushPlan, target: Manifest,
                blobs: map<Hash, seq<bv8>>) returns (ok: bool)
      requires Lists(plan.upserts, iset p | p in plan.upserts && p in target)
      modifies this
      ensures SameAt(sandboxes, old(sandboxes), branch)
      ensures old(trace) <= trace && NoRun(trace, |old(trace)|)
      ensures plan.upserts == [] && plan.deletes == [] ==> trace == old(trace)
    {
      for n := 0 to |plan.deletes|
        invariant SameAt(sandboxes, old(sandboxes), branch)
        invariant old(trace) <= trace && NoRun(trace, |old(trace)|)
        invariant n == 0 ==> trace == old(trace)
      {
        var turn := Await(branch, Some(sandbox));
        if !turn.reply.Accepted? { return false; }
        trace := trace + [Pushed(sandbox)];
      }
      for n := 0 to |plan.upserts|
        invariant SameAt(sandboxes, old(sandboxes), branch)
        invariant old(trace) <= trace && NoRun(trace, |old(trace)|)
        invariant n == 0 && plan.deletes == [] ==> trace == old(trace)
      {
        assert plan.upserts[n] in plan.upserts;
        var cleared := Await(branch, Some(sandbox));
        if !cleared.reply.Accepted? { return false; }
        if target[plan.upserts[n]].blob !in blobs { return false; }
        var written := Await(branch, Some(sandbox));
        if !written.reply.Accepted? { return false; }
        trace := trace + [Pushed(sandbox)];
      }
      return true;
    }

    /** Pull the delta against the cached base: every pulled file hashes to its
        listing entry, and the tree is listed again once anything was pulled. */
    method SyncOut(branch: Branch, sandbox: Sandbox, ghost target: Manifest)
      returns (r: Option<Delta>, remote: Manifest)
      requires branch in sandboxes && sandboxes[branch] == sandbox
      requires sandbox in synced && synced[sandbox] == target
      modifies this
      ensures branch in sandboxes && sandboxes[branch] == sandbox
      ensures old(trace) <= trace && NoRun(trace, |old(trace)|)
      ensures r.Some? ==> Listable(remote) && IsDiff(r.value, target, remote, hash)
      ensures r.Some? ==> sandbox in synced && synced[sandbox] == remote
      ensures r.Some? ==> |trace| > |old(trace)| && IsListing(trace[|trace| - 1], sandbox, remote)
                          && IsListing(trace[|old(trace)|], sandbox, remote)
    {
      remote := map[];
      var listed := AskListing(branch, Some(sandbox), sandbox);
      if listed.None? { return None, remote; }
      remote := listed.value;
      var known := if sandbox in synced then synced[sandbox] else map[];
      var delta := PullDelta(branch, sandbox, known, remote);
      if delta.None? { return None, remote; }
      if delta.value.upserts != [] {
        var verified := AskListing(branch, Some(sandbox), sandbox);
        if verified != Some(remote) { return None, remote; }
      }
      synced := synced[sandbox := remote];
      return delta, remote;
    }

    /** The difference between what was known and what is listed, contents included. */
    method PullDelta(branch: Branch, sandbox: Sandbox, known: Manifest, remote: Manifest)
      returns (r: Option<Delta>)
      modifies this
      ensures SameAt(sandboxes, old(sandboxes), branch)
      ensures SameAt(synced, old(synced), sandbox)
      ensures old(trace) <= trace && NoRun(trace, |old(trace)|)
      ensures r.Some? ==> IsDiff(r.value, known, remote, hash)
      ensures r.Some? && r.value.upserts == [] ==> trace == old(trace)
    {
      var ups := Pull(branch, sandbox, known, remote);
      if ups.None? { return None; }
      var dels := Vanished(known, remote);
      return Some(Delta(ups.value, dels));
    }

    method Pull(branch: Branch, sandbox: Sandbox, known: Manifest, remote: Manifest)
      returns (r: Option<seq<Upsert>>)
      modifies this
      ensures SameAt(sandboxes, old(sandboxes), branch)
      ensures SameAt(synced, old(synced), sandbox)
      ensures old(trace) <= trace && NoRun(trace, |old(trace)|)
      ensures r.Some? ==> Lists(UpsertPaths(r.value), iset p | Changed(known, remote, p))
      ensures r.Some? ==> forall u :: u in r.value ==>
                u.path in remote && remote[u.path] == Entry(hash(u.data.contents), u.data.mode)
      ensures r == Some([]) ==> trace == old(trace)
    {
      var ups: seq<Upsert> := [];
      var todo := remote.Keys;
      while todo != {}
        invariant todo <= remote.Keys && Distinct(UpsertPaths(ups))
        invariant SameAt(sandboxes, old(sandboxes), branch)
        invariant SameAt(synced, old(synced), sandbox)
        invariant old(trace) <= trace && NoRun(trace, |old(trace)|)
        invariant forall p :: p in UpsertPaths(ups) <==> Changed(known, remote, p) && p !in todo
        invariant forall u :: u in ups ==>
          u.path in remote && remote[u.path] == Entry(hash(u.data.contents), u.data.mode)
        invariant ups == [] ==> trace == old(trace)
        decreases |todo|
      {
        var p :| p in todo;
        if Changed(known, remote, p) {
          var turn := Await(branch, Some(sandbox));
          if !turn.reply.Blob? { return None; }
          trace := trace + [Pulled(sandbox, p)];
          if hash(turn.reply.bytes) != remote[p].blob { return None; }
          var u := Upsert(p, FileData(turn.reply.bytes, remote[p].mode));
          assert UpsertPaths(ups + [u]) == UpsertPaths(ups) + [p];
          ups := ups + [u];
        }
        todo := todo - {p};
      }
      return Some(ups);
    }

    /** Run one action of `branch` from the base state `target`. */
    method Execute(branch: Branch, target: Manifest, blobs: map<Hash, seq<bv8>>)
      returns (r: Option<Delta>, remote: Manifest, sandbox: Option<Sandbox>, ghost deletion: Option<Turn>)
      modifies this
      ensures old(trace) <= trace
      ensures RunsOnlyAtTarget(trace, |old(trace)|, target)
      ensures r.None? ==> branch !in sandboxes
      ensures r.None? && sandbox.Some? ==>
                (sandbox.value in synced <==> deletion.Some? && sandbox.value in deletion.value.synced)
      ensures r.Some? ==> sandbox.Some? && branch in sandboxes && sandboxes[branch] == sandbox.value
      ensures r.Some? ==> Listable(target) && Listable(remote)
      ensures r.Some? ==> IsDiff(r.value, target, remote, hash)
      ensures r.Some? ==> sandbox.value in synced && synced[sandbox.value] == remote
      ensures r.Some? ==>
                exists i :: |old(trace)| <= i && RanThenListed(trace, i, sandbox.value, remote)
      ensures r.Some? ==> IsListing(trace[|trace| - 1], sandbox.value, remote)
    {
      remote := map[];
      var ready;
      ready, sandbox, deletion := Prepare(branch, target, blobs);
      if !ready { return None, remote, sandbox, deletion; }
      ghost var upTo := trace;
      r, remote, deletion := RunAndPull(branch, sandbox.value, target);
      OneRun(upTo, trace, |old(trace)|, sandbox.value, target);
      if r.Some? { assert RanThenListed(trace, |upTo|, sandbox.value, remote); }
    }

    /** Get a sandbox and bring it to the target. */
    method Prepare(branch: Branch, target: Manifest, blobs: map<Hash, seq<bv8>>)
      returns (ready: bool, sandbox: Option<Sandbox>, ghost deletion: Option<Turn>)
      modifies this
      ensures old(trace) <= trace && NoRun(trace, |old(trace)|)
      ensures !ready ==> branch !in sandboxes
      ensures !ready && sandbox.Some? ==>
                (sandbox.value in synced <==> deletion.Some? && sandbox.value in deletion.value.synced)
      ensures ready ==> sandbox.Some? && branch in sandboxes && sandboxes[branch] == sandbox.value
      ensures ready ==> Listable(target) && sandbox.value in synced && synced[sandbox.value] == target
      ensures ready ==> |trace| > |old(trace)| && IsListing(trace[|trace| - 1], sandbox.value, target)
    {
      deletion := None;
      sandbox := SandboxFor(branch, target);
      if sandbox.None? { return false, sandbox, deletion; }
      ready := SyncIn(branch, sandbox.value, target, blobs);
      if !ready { deletion := Poison(branch, sandbox.value); }
    }

    /** The action itself, in a sandbox that just listed as the target, and the pull. */
    method RunAndPull(branch: Branch, s: Sandbox, target: Manifest)
      returns (r: Option<Delta>, remote: Manifest, ghost deletion: Option<Turn>)
      requires branch in sandboxes && sandboxes[branch] == s && s in synced && synced[s] == target
      requires |trace| > 0 && IsListing(trace[|trace| - 1], s, target)
      modifies this
      ensures old(trace) + [Ran(s)] <= trace && NoRun(trace, |old(trace)| + 1)
      ensures r.None? ==> branch !in sandboxes
      ensures r.None? ==> (s in synced <==> deletion.Some? && s in deletion.value.synced)
      ensures r.Some? ==> branch in sandboxes && sandboxes[branch] == s
      ensures r.Some? ==> s in synced && synced[s] == remote
      ensures r.Some? ==> Listable(remote) && IsDiff(r.value, target, remote, hash)
      ensures r.Some? ==> |trace| > |old(trace)| + 1 && IsListing(trace[|old(trace)| + 1], s, remote)
                          && IsListing(trace[|trace| - 1], s, remote)
    {
      remote, deletion := map[], None;
      trace := trace + [Ran(s)];
      var ran := Await(branch, Some(s));
      if ran.reply.Lost? {
        deletion := Poison(branch, s);
        return None, remote, deletion;
      }
      r, remote := SyncOut(branch, s, target);
      if r.None? { deletion := Poison(branch, s); }
    }

    /** Snapshot a quiescent source and clone it; `failed` is an error, no clone means
        there was no source. */
    method CloneSource(target: Manifest, to: Branch) returns (failed: bool, clone: Option<Sandbox>)
      modifies this
      ensures SameAt(sandboxes, old(sandboxes), to)
      ensures old(trace) <= trace && NoRun(trace, |old(trace)|)
    {
      var ok, source := QuiescentSource(to, target);
      if !ok { return true, None; }
      if source.None? { return false, None; }
      var snapshot := Await(to, None);
      if !snapshot.reply.Accepted? { return true, None; }
      var cloned := Await(to, None);
      if !cloned.reply.Created? { return true, None; }
      return false, Some(cloned.reply.id);
    }

    /** Cache the clone, then wait for the lock on the handles and register it. No gate is
        held, so the entry is still `m` iff no other task changed it meanwhile. */
    method Register(to: Branch, clone: Sandbox, m: Manifest) returns (ghost waiting: Option<Turn>)
      modifies this
      ensures trace == old(trace) && to in sandboxes && sandboxes[to] == clone
      ensures waiting == if old(script) == [] then None else Some(old(script)[0])
      ensures HasEntry(synced, clone, m) <==> waiting.None? || HasEntry(waiting.value.synced, clone, m)
    {
      synced := synced[clone := m];
      waiting := if script == [] then None else Some(script[0]);
      var _ := Await(to, None);
      sandboxes := sandboxes[to := clone];
    }

    /** Clone a live sandbox for a new branch; true only when the clone itself
        listed as the source state. */
    method Fork(target: Manifest, to: Branch)
      returns (r: Option<bool>, ghost listed: Option<Manifest>, ghost waiting: Option<Turn>)
      modifies this
      ensures old(trace) <= trace && NoRun(trace, |old(trace)|)
      ensures r.None? && to !in old(sandboxes) ==> to !in sandboxes
      ensures r == Some(true) <==> listed == Some(target)
      ensures r == Some(false) && listed.None? ==> SameAt(sandboxes, old(sandboxes), to)
      ensures listed.Some? ==>
                && r.Some? && to in sandboxes
                && |trace| > |old(trace)| && IsListing(trace[|trace| - 1], sandboxes[to], listed.value)
                && (HasEntry(synced, sandboxes[to], listed.value) <==>
                      waiting.None? || HasEntry(waiting.value.synced, sandboxes[to], listed.value))
    {
      listed, waiting := None, None;
      var failed, clone := CloneSource(target, to);
      if failed { return None, listed, waiting; }
      if clone.None? { return Some(false), listed, waiting; }
      var current := AskListing(to, None, clone.value);
      if current.None? {
        sandboxes := sandboxes[to := clone.value];
        ghost var _ := Poison(to, clone.value);
        return None, listed, waiting;
      }
      listed := current;
      waiting := Register(to, clone.value, current.value);
      r := Some(current.value == target);
    }

    /** Delete the branch's sandbox; a failed deletion keeps the handle. */
    method Discard(branch: Branch) returns (ok: bool)
      modifies this
      ensures trace == old(trace)
      ensures ok ==> branch !in sandboxes
      ensures ok && branch in old(sandboxes) ==> old(sandboxes)[branch] !in synced
      ensures !ok ==> branch in old(sandboxes) && SameAt(sandboxes, old(sandboxes), branch)
    {
      if branch !in sandboxes { return true; }
      var s := sandboxes[branch];
      var locked := Await(branch, None);
      var deleted := Await(branch, Some(s));
      if !deleted.reply.Accepted? { return false; }
      sandboxes := sandboxes - {branch};
      synced := synced - {s};
      return true;
    }
  }

  lemma PulledDeltaOutcome(base: Files, remote: Manifest, delta: Delta, hash: Hasher,
                           prefixes: seq<Path>)
    requires WellShaped(base) && (forall p :: p in base ==> Clean(p)) && Listable(remote)
    requires IsDiff(delta, ManifestOf(base, hash), remote, hash)
    ensures Valid(delta, prefixes) <==> forall p :: p in Touched(delta) ==> InPrefixes(p, prefixes)
    ensures Valid(delta, prefixes) ==>
              && DeletesReachable(base, delta.deletes) && WellShaped(Applied(base, delta))
              && ManifestOf(Applied(base, delta), hash) == remote
  {
    if forall p :: p in Touched(delta) ==> InPrefixes(p, prefixes) {
      DiffReplays(base, remote, delta, hash, prefixes);
    }
  }

  /** One state-synced step end to end: run remotely, replay on the mirror. When
      the remote run succeeds from a base state that is a tree of clean paths, the
      step is committed exactly when the delta stays inside the writable prefixes,
      and the committed files are what the remote listed after the run. */
  method SyncedStep(backend: CubeBackend, mirror: Mirror, branch: Branch, base: Files,
                    blobs: map<Hash, seq<bv8>>, prefixes: seq<Path>)
    returns (outcome: Option<Transition.Outcome>, delta: Option<Delta>, remote: Manifest)
    requires TreeOk(mirror.tree) && WellShaped(base) && forall p :: p in base ==> Clean(p)
    modifies backend, mirror
    ensures outcome.None? ==> mirror.tree == old(mirror.tree) && branch !in backend.sandboxes
    ensures outcome.Some? ==> delta.Some? && !outcome.value.Failed?
    ensures outcome.Some? ==> (outcome.value.Committed? <==>
              forall p :: p in Touched(delta.value) ==> InPrefixes(p, prefixes))
    ensures outcome.Some? && outcome.value.Committed? ==>
              && ManifestOf(outcome.value.files, backend.hash) == remote
              && Exactly(mirror.tree, outcome.value.files)
              && |backend.trace| > 0 && branch in backend.sandboxes
              && IsListing(backend.trace[|backend.trace| - 1], backend.sandboxes[branch], remote)
    ensures outcome.Some? && outcome.value.Denied? ==> mirror.tree == old(mirror.tree)
  {
    var target := ManifestOf(base, backend.hash);
    var sandbox;
    ghost var deletion;
    delta, remote, sandbox, deletion := backend.Execute(branch, target, blobs);
    if delta.None? { return None, delta, remote; }
    PulledDeltaOutcome(base, remote, delta.value, backend.hash, prefixes);
    var result := Transition.SyncedTransition(mirror, base, delta.value, prefixes);
    outcome := Some(result);
  }
}
