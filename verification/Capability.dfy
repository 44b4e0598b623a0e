/**
 Capability leases: constraints on parameters, the check of an invocation, and
 attenuation. A child constraint that `narrows` its parent's is meant to allow no
 value the parent refuses; the one exception is `Forbidden`, which narrows every
 constraint and still allows an absent or `false` parameter.
 */
module Capability {
  import opened Budget
  import Glob

  datatype Option<T> = None | Some(value: T)

  /** An IEEE double up to rounding and the sign of zero. */
  datatype F64 = NaN | NegInf | Fin(r: real) | PosInf

  predicate Le(a: F64, b: F64) {
    match (a, b)
    case (NaN, _) => false
    case (_, NaN) => false
    case (NegInf, _) => true
    case (_, PosInf) => true
    case (Fin(x), Fin(y)) => x <= y
    case _ => false
  }

  /** A JSON number; integers and floats never compare equal. */
  datatype Number = Int(i: int) | Float(f: real)

  datatype Value = Null | Bool(b: bool) | Num(n: Number) | Str(s: string)
                 | Arr(items: seq<Value>) | Obj(fields: map<string, Value>)

  function AsF64(n: Number): F64 {
    match n
    case Int(i) => Fin(i as real)
    case Float(f) => Fin(f)
  }

  datatype Constraint =
    | Equals(want: Value)
    | OneOf(values: seq<Value>)
    | Pattern(pattern: string)
    | Prefix(prefix: string)
    | Max(max: F64)
    | Forbidden
  {
    /** Does the constraint accept this value (`None`: not supplied)? */
    predicate Allows(v: Option<Value>) {
      match this
      case Equals(want) => v == Some(want)
      case OneOf(values) => v.Some? && v.value in values
      case Pattern(p) => v.Some? && v.value.Str? && Glob.Matches(p, v.value.s)
      case Prefix(p) => v.Some? && v.value.Str? && p <= v.value.s
      case Max(m) => v.Some? && v.value.Num? && Le(AsF64(v.value.n), m)
      case Forbidden => v == None || v == Some(Bool(false))
    }

    /** Equality as derived for a record holding a double: NaN differs from itself. */
    predicate Same(other: Constraint) {
      this == other && !(Max? && max.NaN?)
    }

    predicate Narrows(parent: Constraint) {
      if Same(parent) then true
      else
        match (this, parent)
        case (Equals(v), OneOf(values)) => v in values
        case (Equals(v), Pattern(p)) => v.Str? && Glob.Matches(p, v.s)
        case (Equals(v), Prefix(p)) => v.Str? && p <= v.s
        case (Equals(v), Max(m)) => v.Num? && Le(AsF64(v.n), m)
        case (OneOf(values), _) =>
          forall i :: 0 <= i < |values| ==> parent.Allows(Some(values[i]))
        case (Prefix(c), Prefix(p)) => p <= c
        case (Max(c), Max(p)) => Le(c, p)
        case (Forbidden, _) => true
        case _ => false
    }

    /** Some JSON value, or its absence, is accepted. */
    predicate Satisfiable() {
      match this
      case OneOf(values) => values != []
      case Max(m) => m.Fin? || m.PosInf?
      case _ => true
    }
  }

  /** Narrowing means inclusion, except for `Forbidden` under another constraint. */
  lemma NarrowsIncludes(c: Constraint, p: Constraint, v: Option<Value>)
    requires c.Narrows(p) && c.Allows(v)
    ensures p.Allows(v) || (c.Forbidden? && !p.Forbidden? && (v == None || v == Some(Bool(false))))
  {
    if c.OneOf? && !c.Same(p) {
      var i :| 0 <= i < |c.values| && c.values[i] == v.value;
    }
  }

  /** For all values exactly when the exception is absent. */
  lemma NarrowsIsInclusionIff(c: Constraint, p: Constraint)
    requires c.Narrows(p)
    ensures (forall v :: c.Allows(v) ==> p.Allows(v)) <==> (c.Forbidden? ==> p.Forbidden?)
  {
    if c.Forbidden? ==> p.Forbidden? {
      forall v | c.Allows(v) ensures p.Allows(v) { NarrowsIncludes(c, p, v); }
    } else {
      assert c.Allows(None) && !p.Allows(None);
    }
  }

  // ---------------------------------------------------------------- leases

  /** An insertion-ordered map from parameter to constraint. */
  type Constraints = seq<(string, Constraint)>

  predicate UniqueParams(cs: Constraints) {
    forall i, j :: 0 <= i < j < |cs| ==> cs[i].0 != cs[j].0
  }

  predicate Constrains(cs: Constraints, param: string, c: Constraint) {
    (param, c) in cs
  }

  datatype Lease = Lease(
    id: string, principal: string, operation: string, constraints: Constraints,
    remainingUses: nat, expiresAt: int, boundBranch: Option<string>, budget: ResourceBudget,
    parentLease: Option<string>, preconditions: map<string, Value>, revoked: bool)

  datatype Invocation = Invocation(principal: string, operation: string, params: Value,
                                   branch: Option<string>, now: int)

  function Param(params: Value, name: string): Option<Value> {
    if params.Obj? && name in params.fields then Some(params.fields[name]) else None
  }

  predicate Violates(inv: Invocation, c: (string, Constraint)) {
    !c.1.Allows(Param(inv.params, c.0))
  }

  predicate Alive(lease: Lease, inv: Invocation) {
    !lease.revoked && inv.now < lease.expiresAt && lease.remainingUses > 0
  }

  predicate OnBranch(lease: Lease, inv: Invocation) {
    lease.boundBranch.Some? ==> inv.branch == lease.boundBranch
  }

  ghost predicate Authorizes(lease: Lease, inv: Invocation) {
    && Alive(lease, inv) && OnBranch(lease, inv)
    && lease.principal == inv.principal && lease.operation == inv.operation
    && forall i :: 0 <= i < |lease.constraints| ==> !Violates(inv, lease.constraints[i])
  }

  datatype CheckResult = Ok | Revoked | Expired | Exhausted | WrongPrincipal | WrongOperation
                       | WrongBranch | ConstraintViolated(param: string)

  /** Authorized, or the first reason in a fixed order why not. */
  method Check(lease: Lease, inv: Invocation) returns (r: CheckResult)
    ensures r.Ok? <==> Authorizes(lease, inv)
    ensures r.Revoked? <==> lease.revoked
    ensures r.Expired? <==> !lease.revoked && inv.now >= lease.expiresAt
    ensures r.Exhausted? <==> !lease.revoked && inv.now < lease.expiresAt && lease.remainingUses == 0
    ensures r.WrongPrincipal? <==> Alive(lease, inv) && lease.principal != inv.principal
    ensures r.WrongOperation? <==>
              Alive(lease, inv) && lease.principal == inv.principal && lease.operation != inv.operation
    ensures r.WrongBranch? <==>
              && Alive(lease, inv) && lease.principal == inv.principal && lease.operation == inv.operation
              && !OnBranch(lease, inv)
    ensures r.ConstraintViolated? <==>
              && Alive(lease, inv) && lease.principal == inv.principal && lease.operation == inv.operation
              && OnBranch(lease, inv)
              && exists i :: 0 <= i < |lease.constraints| && Violates(inv, lease.constraints[i])
    ensures r.ConstraintViolated? ==>
              exists i :: 0 <= i < |lease.constraints| && lease.constraints[i].0 == r.param
                && Violates(inv, lease.constraints[i])
                && forall j :: 0 <= j < i ==> !Violates(inv, lease.constraints[j])
  {
    if lease.revoked { return Revoked; }
    if inv.now >= lease.expiresAt { return Expired; }
    if lease.remainingUses == 0 { return Exhausted; }
    if lease.principal != inv.principal { return WrongPrincipal; }
    if lease.operation != inv.operation { return WrongOperation; }
    if lease.boundBranch.Some? && inv.branch != lease.boundBranch { return WrongBranch; }
    for i := 0 to |lease.constraints|
      invariant forall j :: 0 <= j < i ==> !Violates(inv, lease.constraints[j])
    {
      if Violates(inv, lease.constraints[i]) {
        return ConstraintViolated(lease.constraints[i].0);
      }
    }
    return Ok;
  }

  datatype Request = Request(id: string, child: string, constraints: Constraints, uses: nat,
                             expiresAt: int, budget: ResourceBudget, now: int)

  ghost predicate NarrowedIn(child: Constraints, p: (string, Constraint)) {
    exists c :: Constrains(child, p.0, c) && c.Narrows(p.1)
  }

  /** Every constrained parameter of the parent is constrained, and narrowed. */
  ghost predicate AllNarrowed(child: Constraints, parent: Constraints) {
    forall i :: 0 <= i < |parent| ==> NarrowedIn(child, parent[i])
  }

  ghost predicate MayAttenuate(parent: Lease, r: Request) {
    && !parent.revoked && r.now < parent.expiresAt
    && r.uses <= parent.remainingUses && r.expiresAt <= parent.expiresAt
    && r.budget.FitsWithin(parent.budget)
    && AllNarrowed(r.constraints, parent.constraints)
  }

  function Attenuated(parent: Lease, r: Request): Lease {
    Lease(r.id, r.child, parent.operation, r.constraints, r.uses, r.expiresAt,
          parent.boundBranch, r.budget, Some(parent.id), parent.preconditions, false)
  }

  function Lookup(cs: Constraints, param: string): (c: Option<Constraint>)
    requires UniqueParams(cs)
    ensures c.Some? ==> Constrains(cs, param, c.value)
    ensures forall d :: Constrains(cs, param, d) ==> c == Some(d)
  {
    if cs == [] then None
    else if cs[0].0 == param then Some(cs[0].1)
    else Lookup(cs[1..], param)
  }

  datatype AttenuationResult = Granted(lease: Lease) | ParentUnusable | UsesExceedParent
                             | ExpiryExceedsParent | BudgetExceedsParent
                             | ConstraintWidened(param: string)

  method Attenuate(parent: Lease, r: Request) returns (a: AttenuationResult)
    requires UniqueParams(parent.constraints) && UniqueParams(r.constraints)
    ensures a.Granted? <==> MayAttenuate(parent, r)
    ensures a.Granted? ==> a.lease == Attenuated(parent, r)
    ensures a.ConstraintWidened? ==> !AllNarrowed(r.constraints, parent.constraints)
  {
    if parent.revoked || r.now >= parent.expiresAt { return ParentUnusable; }
    if r.uses > parent.remainingUses { return UsesExceedParent; }
    if r.expiresAt > parent.expiresAt { return ExpiryExceedsParent; }
    if !r.budget.FitsWithin(parent.budget) { return BudgetExceedsParent; }
    for i := 0 to |parent.constraints|
      invariant forall j :: 0 <= j < i ==> NarrowedIn(r.constraints, parent.constraints[j])
    {
      var found := Lookup(r.constraints, parent.constraints[i].0);
      if found.None? || !found.value.Narrows(parent.constraints[i].1) {
        return ConstraintWidened(parent.constraints[i].0);
      }
    }
    return Granted(Attenuated(parent, r));
  }

  // ------------------------------------------------- one attenuation, exactly

  /** The child forbids a parameter that the parent constrains otherwise. */
  ghost predicate ForbidsOver(child: Constraints, parent: Constraints, param: string) {
    && Constrains(child, param, Forbidden)
    && exists p :: Constrains(parent, param, p) && !p.Forbidden?
  }

  ghost predicate Usable(lease: Lease) {
    && lease.remainingUses > 0
    && forall i :: 0 <= i < |lease.constraints| ==> lease.constraints[i].1.Satisfiable()
  }

  function Unstarred(pattern: string): string {
    if pattern == [] then []
    else (if pattern[0] == '*' then [] else [pattern[0]]) + Unstarred(pattern[1..])
  }

  lemma {:induction false} UnstarredMatches(pattern: string)
    ensures Glob.Matches(pattern, Unstarred(pattern))
  {
    if pattern != [] {
      UnstarredMatches(pattern[1..]);
      var u := Unstarred(pattern);
      if pattern[0] == '*' { assert u[0..] == u; }
      else { assert u[1..] == Unstarred(pattern[1..]); }
    }
  }

  /** A value the constraint accepts; `false` for a forbidden parameter. */
  function Sample(c: Constraint): Value
    requires c.Satisfiable()
  {
    match c
    case Equals(want) => want
    case OneOf(values) => values[0]
    case Pattern(p) => Str(Unstarred(p))
    case Prefix(p) => Str(p)
    case Max(m) => if m.Fin? then Num(Float(m.r)) else Num(Int(0))
    case Forbidden => Bool(false)
  }

  lemma SampleAllowed(c: Constraint)
    requires c.Satisfiable()
    ensures c.Allows(Some(Sample(c)))
  {
    if c.Pattern? { UnstarredMatches(c.pattern); }
  }

  /** Parameters that satisfy every constraint, with the forbidden ones absent. */
  function SampleParams(cs: Constraints): map<string, Value>
    requires AllSatisfiable(cs)
  {
    if cs == [] then map[]
    else
      var n := |cs| - 1;
      var rest := SampleParams(cs[..n]);
      if cs[n].1.Forbidden? then rest else rest[cs[n].0 := Sample(cs[n].1)]
  }

  predicate AllSatisfiable(cs: Constraints) {
    forall i :: 0 <= i < |cs| ==> cs[i].1.Satisfiable()
  }

  lemma {:induction false} SampleAbsent(cs: Constraints, k: string)
    requires AllSatisfiable(cs) && forall i :: 0 <= i < |cs| ==> cs[i].0 != k
    ensures k !in SampleParams(cs)
  {
    if cs != [] { SampleAbsent(cs[..|cs| - 1], k); }
  }

  lemma {:induction false} SampleAt(cs: Constraints, i: nat)
    requires UniqueParams(cs) && AllSatisfiable(cs) && i < |cs|
    ensures var m := SampleParams(cs);
            if cs[i].1.Forbidden? then cs[i].0 !in m
            else cs[i].0 in m && m[cs[i].0] == Sample(cs[i].1)
  {
    var n := |cs| - 1;
    if i == n { SampleAbsent(cs[..n], cs[n].0); } else { SampleAt(cs[..n], i); }
  }

  lemma SampleInvocation(lease: Lease) returns (inv: Invocation)
    requires UniqueParams(lease.constraints) && Usable(lease) && !lease.revoked
    ensures Authorizes(lease, inv)
    ensures forall i :: 0 <= i < |lease.constraints| && lease.constraints[i].1.Forbidden? ==>
              Param(inv.params, lease.constraints[i].0) == None
  {
    var m := SampleParams(lease.constraints);
    inv := Invocation(lease.principal, lease.operation, Obj(m), lease.boundBranch,
                      lease.expiresAt - 1);
    forall i | 0 <= i < |lease.constraints| ensures !Violates(inv, lease.constraints[i]) {
      SampleAt(lease.constraints, i);
      SampleAllowed(lease.constraints[i].1);
    }
    forall i | 0 <= i < |lease.constraints| && lease.constraints[i].1.Forbidden?
      ensures Param(inv.params, lease.constraints[i].0) == None
    {
      SampleAt(lease.constraints, i);
    }
  }

  /** The parent would accept what the child accepts, up to the forbidden ones. */
  lemma ChildIncluded(parent: Lease, child: Lease, inv: Invocation, i: nat)
    requires AllNarrowed(child.constraints, parent.constraints) && i < |parent.constraints|
    requires forall j :: 0 <= j < |child.constraints| ==> !Violates(inv, child.constraints[j])
    ensures var p := parent.constraints[i];
            !Violates(inv, p) || (ForbidsOver(child.constraints, parent.constraints, p.0)
                                  && Constraint.Forbidden.Allows(Param(inv.params, p.0)))
  {
    var p := parent.constraints[i];
    assert NarrowedIn(child.constraints, p);
    var c :| Constrains(child.constraints, p.0, c) && c.Narrows(p.1);
    var j :| 0 <= j < |child.constraints| && child.constraints[j] == (p.0, c);
    NarrowsIncludes(c, p.1, Param(inv.params, p.0));
    assert Constrains(parent.constraints, p.0, p.1);
  }

  /** A granted child never exceeds its parent exactly when it can authorize
      nothing at all, or forbids no parameter the parent constrains otherwise. */
  lemma AttenuationIsInclusionIff(parent: Lease, r: Request)
    requires UniqueParams(parent.constraints) && UniqueParams(r.constraints)
    requires MayAttenuate(parent, r)
    ensures (forall inv :: Authorizes(Attenuated(parent, r), inv) ==>
                             Authorizes(parent, inv.(principal := parent.principal)))
            <==> (!Usable(Attenuated(parent, r))
                  || forall p :: !ForbidsOver(r.constraints, parent.constraints, p))
  {
    var child := Attenuated(parent, r);
    if Usable(child) && exists p :: ForbidsOver(r.constraints, parent.constraints, p) {
      ForbiddenEscapes(parent, child);
    } else if Usable(child) {
      forall inv | Authorizes(child, inv) ensures Authorizes(parent, inv.(principal := parent.principal)) {
        forall i | 0 <= i < |parent.constraints| ensures !Violates(inv, parent.constraints[i]) {
          ChildIncluded(parent, child, inv, i);
        }
      }
    } else {
      forall inv ensures !Authorizes(child, inv) { UnusableRefuses(child, inv); }
    }
  }

  lemma UnusableRefuses(lease: Lease, inv: Invocation)
    requires !Usable(lease)
    ensures !Authorizes(lease, inv)
  {
  }

  lemma ForbiddenEscapes(parent: Lease, child: Lease)
    requires UniqueParams(child.constraints) && Usable(child) && !child.revoked
    requires exists p :: ForbidsOver(child.constraints, parent.constraints, p)
    ensures exists inv :: Authorizes(child, inv) && !Authorizes(parent, inv.(principal := parent.principal))
  {
    var p :| ForbidsOver(child.constraints, parent.constraints, p);
    var inv := SampleInvocation(child);
    var c :| Constrains(parent.constraints, p, c) && !c.Forbidden?;
    var i :| 0 <= i < |parent.constraints| && parent.constraints[i] == (p, c);
    var j :| 0 <= j < |child.constraints| && child.constraints[j] == (p, Forbidden);
    assert Param(inv.params, p) == None;
    assert Violates(inv.(principal := parent.principal), parent.constraints[i]);
  }

  // --------------------------------------------------------------- chains

  /** A lease as it stands later: uses may have been consumed, it may be revoked. */
  ghost predicate LaterForm(now: Lease, was: Lease) {
    && now.remainingUses <= was.remainingUses && (was.revoked ==> now.revoked)
    && now == was.(remainingUses := now.remainingUses, revoked := now.revoked)
  }

  /** `child` is a later form of a lease attenuated from `parent` as it stood. */
  ghost predicate Link(parent: Lease, child: Lease) {
    exists r :: MayAttenuate(parent, r) && LaterForm(child, Attenuated(parent, r))
  }

  ghost predicate LinkAt(chain: seq<Lease>, i: nat)
    requires i + 1 < |chain|
  {
    Link(chain[i], chain[i + 1])
  }

  /** Each lease as it stood when the next was attenuated from it; the leaf last. */
  ghost predicate IsChain(chain: seq<Lease>) {
    |chain| > 0 && forall i :: 0 <= i < |chain| - 1 ==> LinkAt(chain, i)
  }

  /** Some lease strictly below position `i` forbids `param`. */
  ghost predicate ForbiddenBelow(chain: seq<Lease>, i: nat, param: string) {
    exists j :: i < j < |chain| && Constrains(chain[j].constraints, param, Forbidden)
  }

  lemma LinkShrinks(parent: Lease, child: Lease)
    requires Link(parent, child)
    ensures child.remainingUses <= parent.remainingUses && child.expiresAt <= parent.expiresAt
    ensures child.budget.FitsWithin(parent.budget)
    ensures child.operation == parent.operation && child.boundBranch == parent.boundBranch
    ensures child.preconditions == parent.preconditions && child.parentLease == Some(parent.id)
    ensures !parent.revoked && AllNarrowed(child.constraints, parent.constraints)
  {
  }

  /** Along any chain: expiry, uses and budget only shrink, nothing else drifts. */
  lemma {:induction false} ChainShrinks(chain: seq<Lease>, i: nat)
    requires IsChain(chain) && i < |chain|
    ensures var leaf := chain[|chain| - 1];
            && leaf.remainingUses <= chain[i].remainingUses && leaf.expiresAt <= chain[i].expiresAt
            && leaf.budget.FitsWithin(chain[i].budget)
            && leaf.operation == chain[i].operation && leaf.boundBranch == chain[i].boundBranch
            && leaf.preconditions == chain[i].preconditions
            && (i < |chain| - 1 ==> !chain[i].revoked)
    decreases |chain| - i
  {
    if i < |chain| - 1 {
      ChainShrinks(chain, i + 1);
      assert LinkAt(chain, i);
      LinkShrinks(chain[i], chain[i + 1]);
    }
  }

  lemma {:induction false} ChainConstraint(chain: seq<Lease>, i: nat, k: nat, inv: Invocation)
    requires IsChain(chain) && i < |chain| && k < |chain[i].constraints|
    requires Authorizes(chain[|chain| - 1], inv)
    ensures var p := chain[i].constraints[k];
            !Violates(inv, p) || (ForbiddenBelow(chain, i, p.0)
                                  && Constraint.Forbidden.Allows(Param(inv.params, p.0)))
    decreases |chain| - i
  {
    if i < |chain| - 1 {
      assert LinkAt(chain, i);
      LinkShrinks(chain[i], chain[i + 1]);
      var p := chain[i].constraints[k];
      assert NarrowedIn(chain[i + 1].constraints, p);
      var c :| Constrains(chain[i + 1].constraints, p.0, c) && c.Narrows(p.1);
      var j :| 0 <= j < |chain[i + 1].constraints| && chain[i + 1].constraints[j] == (p.0, c);
      ChainConstraint(chain, i + 1, j, inv);
      if Violates(inv, (p.0, c)) {
        var l :| i + 1 < l < |chain| && Constrains(chain[l].constraints, p.0, Forbidden);
        assert ForbiddenBelow(chain, i, p.0);
      } else {
        NarrowsIncludes(c, p.1, Param(inv.params, p.0));
      }
    }
  }

  /** What the leaf of any chain of attenuations authorizes, every ancestor would
      have authorized under its own principal, as it stood, except where a lease
      below it forbids a parameter and the invocation omits it or sets `false`. */
  lemma ChainNeverWidens(chain: seq<Lease>, i: nat, inv: Invocation)
    requires IsChain(chain) && i < |chain| && Authorizes(chain[|chain| - 1], inv)
    ensures forall k :: 0 <= k < |chain[i].constraints| && Violates(inv, chain[i].constraints[k]) ==>
              && ForbiddenBelow(chain, i, chain[i].constraints[k].0)
              && Constraint.Forbidden.Allows(Param(inv.params, chain[i].constraints[k].0))
    ensures Authorizes(chain[i], inv.(principal := chain[i].principal))
            <==> forall k :: 0 <= k < |chain[i].constraints| ==> !Violates(inv, chain[i].constraints[k])
  {
    ChainShrinks(chain, i);
    forall k | 0 <= k < |chain[i].constraints| && Violates(inv, chain[i].constraints[k])
      ensures ForbiddenBelow(chain, i, chain[i].constraints[k].0)
      ensures Constraint.Forbidden.Allows(Param(inv.params, chain[i].constraints[k].0))
    {
      ChainConstraint(chain, i, k, inv);
    }
    var own := inv.(principal := chain[i].principal);
    forall k | 0 <= k < |chain[i].constraints|
      ensures Violates(own, chain[i].constraints[k]) <==> Violates(inv, chain[i].constraints[k])
    {
    }
  }

  // ---------------------------------------------------- automatic selection

  /** (branch-bound, soonest expiry), compared lexicographically. */
  predicate Better(a: Lease, b: Lease) {
    if a.boundBranch.Some? != b.boundBranch.Some? then a.boundBranch.Some?
    else a.expiresAt < b.expiresAt
  }

  predicate Presentable(l: Lease, now: int) {
    !l.revoked && l.expiresAt > now && l.remainingUses > 0
  }

  /** The first best lease that authorizes the invocation, if any does: skipping
      the leases that are not presentable loses none. */
  method ChooseLease(held: seq<Lease>, inv: Invocation) returns (chosen: Option<Lease>)
    ensures chosen.None? <==> forall i :: 0 <= i < |held| ==> !Authorizes(held[i], inv)
    ensures chosen.Some? ==>
              exists i :: 0 <= i < |held| && held[i] == chosen.value && Authorizes(held[i], inv)
                && (forall j :: 0 <= j < |held| && Authorizes(held[j], inv) ==>
                      !Better(held[j], chosen.value))
                && (forall j :: 0 <= j < i && Authorizes(held[j], inv) ==>
                      Better(chosen.value, held[j]))
  {
    chosen := None;
    ghost var at := 0;
    for n := 0 to |held|
      invariant chosen.None? <==> forall i :: 0 <= i < n ==> !Authorizes(held[i], inv)
      invariant chosen.Some? ==> at < n && held[at] == chosen.value && Authorizes(held[at], inv)
      invariant chosen.Some? ==> forall j :: 0 <= j < n && Authorizes(held[j], inv) ==>
                  !Better(held[j], chosen.value)
      invariant chosen.Some? ==> forall j :: 0 <= j < at && Authorizes(held[j], inv) ==>
                  Better(chosen.value, held[j])
    {
      if !Presentable(held[n], inv.now) { continue; }
      var r := Check(held[n], inv);
      if r.Ok? && (chosen.None? || Better(held[n], chosen.value)) {
        chosen := Some(held[n]);
        at := n;
      }
    }
  }

  const STEP_DEFAULT := ResourceBudget(60_000, 0x8000_0000, 0x1000_0000, 200_000, 0, 10)

  datatype AutoPlan = AutoPlan(lease: Lease, minted: bool, budget: ResourceBudget) | PolicyDenied

  /** Pick a lease or mint one, and a budget inside its envelope: the lease-budget
      denial cannot fire, and no larger budget within the request would fit. */
  method ResolveLease(held: seq<Lease>, inv: Invocation, minted: Option<Lease>,
                      asked: Option<ResourceBudget>) returns (plan: AutoPlan)
    ensures plan.PolicyDenied? <==>
              minted.None? && forall i :: 0 <= i < |held| ==> !Authorizes(held[i], inv)
    ensures plan.AutoPlan? ==>
              && (plan.minted <==> forall i :: 0 <= i < |held| ==> !Authorizes(held[i], inv))
              && (!plan.minted ==> plan.lease in held && Authorizes(plan.lease, inv))
              && (!plan.minted ==>
                    forall l :: l in held && Authorizes(l, inv) ==> !Better(l, plan.lease))
              && (plan.minted ==> Some(plan.lease) == minted)
    ensures plan.AutoPlan? ==>
              var want := if asked.Some? then asked.value else STEP_DEFAULT;
              && plan.budget.FitsWithin(plan.lease.budget) && plan.budget.FitsWithin(want)
              && forall b: ResourceBudget :: b.FitsWithin(want) && b.FitsWithin(plan.lease.budget)
                   ==> b.FitsWithin(plan.budget)
  {
    var chosen := ChooseLease(held, inv);
    if chosen.None? && minted.None? { return PolicyDenied; }
    var lease := if chosen.Some? then chosen.value else minted.value;
    var want := if asked.Some? then asked.value else STEP_DEFAULT;
    forall b: ResourceBudget | b.FitsWithin(want) && b.FitsWithin(lease.budget)
      ensures b.FitsWithin(want.ClampedTo(lease.budget))
    {
      ClampIsGreatest(want, lease.budget, b);
    }
    return AutoPlan(lease, chosen.None?, want.ClampedTo(lease.budget));
  }
}
