/** Unified resource accounting: one budget over six dimensions. */
module Budget {

  datatype Dim = Cpu | Memory | Network | Tokens | Cost | Risk

  datatype ResourceBudget =
    ResourceBudget(cpu: nat, memory: nat, network: nat, tokens: nat, cost: nat, risk: nat)
  {
    function Get(d: Dim): nat {
      match d
      case Cpu => cpu case Memory => memory case Network => network
      case Tokens => tokens case Cost => cost case Risk => risk
    }

    predicate FitsWithin(outer: ResourceBudget) {
      && cpu <= outer.cpu && memory <= outer.memory && network <= outer.network
      && tokens <= outer.tokens && cost <= outer.cost && risk <= outer.risk
    }

    function ClampedTo(outer: ResourceBudget): ResourceBudget {
      ResourceBudget(Min(cpu, outer.cpu), Min(memory, outer.memory), Min(network, outer.network),
                     Min(tokens, outer.tokens), Min(cost, outer.cost), Min(risk, outer.risk))
    }
  }

  function Min(a: nat, b: nat): nat {
    if a < b then a else b
  }

  function Sub(a: nat, b: nat): nat {
    if a < b then 0 else a - b
  }

  const DIMS: seq<Dim> := [Cpu, Memory, Network, Tokens, Cost, Risk]

  lemma FitsIff(a: ResourceBudget, b: ResourceBudget)
    ensures a.FitsWithin(b) <==> forall d: Dim :: a.Get(d) <= b.Get(d)
  {
    if forall d: Dim :: a.Get(d) <= b.Get(d) {
      assert a.Get(Cpu) <= b.Get(Cpu) && a.Get(Memory) <= b.Get(Memory);
      assert a.Get(Network) <= b.Get(Network) && a.Get(Tokens) <= b.Get(Tokens);
      assert a.Get(Cost) <= b.Get(Cost) && a.Get(Risk) <= b.Get(Risk);
    }
  }

  /** The clamped budget is the greatest one that fits both. */
  lemma ClampIsGreatest(a: ResourceBudget, b: ResourceBudget, c: ResourceBudget)
    ensures a.ClampedTo(b).FitsWithin(a) && a.ClampedTo(b).FitsWithin(b)
    ensures c.FitsWithin(a) && c.FitsWithin(b) <==> c.FitsWithin(a.ClampedTo(b))
  {
  }

  /** The dimensions where `a` exceeds `outer`, in the fixed order. */
  method ExceedingDimensions(a: ResourceBudget, outer: ResourceBudget) returns (over: seq<Dim>)
    ensures forall d :: d in over <==> a.Get(d) > outer.Get(d)
    ensures over == [] <==> a.FitsWithin(outer)
    ensures forall i, j :: 0 <= i < j < |over| ==> over[i] != over[j]
  {
    over := [];
    for i := 0 to |DIMS|
      invariant forall d :: d in over <==> d in DIMS[..i] && a.Get(d) > outer.Get(d)
      invariant forall i, j :: 0 <= i < j < |over| ==> over[i] != over[j]
    {
      assert DIMS[i] !in DIMS[..i];
      if a.Get(DIMS[i]) > outer.Get(DIMS[i]) { over := over + [DIMS[i]]; }
    }
    assert DIMS[..|DIMS|] == DIMS;
    forall d ensures d in DIMS { AllDims(d); }
    FitsIff(a, outer);
    if over != [] { assert over[0] in over; }
  }

  lemma AllDims(d: Dim)
    ensures d in DIMS
  {
    match d
    case Cpu => assert DIMS[0] == d;
    case Memory => assert DIMS[1] == d;
    case Network => assert DIMS[2] == d;
    case Tokens => assert DIMS[3] == d;
    case Cost => assert DIMS[4] == d;
    case Risk => assert DIMS[5] == d;
  }

  /** An account that is charged at step boundaries. */
  class Account {
    var left: ResourceBudget

    constructor (initial: ResourceBudget)
      ensures left == initial
    {
      left := initial;
    }

    /** Subtract the usage, floored at zero; report the exhausted dimensions. */
    method Charge(usage: ResourceBudget) returns (exhausted: seq<Dim>)
      modifies this
      ensures left == Charged(old(left), usage)
      ensures forall d :: d in exhausted <==> usage.Get(d) > old(left).Get(d)
    {
      exhausted := [];
      if usage.cpu > left.cpu { exhausted := exhausted + [Cpu]; left := left.(cpu := 0); }
      else { left := left.(cpu := left.cpu - usage.cpu); }
      if usage.memory > left.memory { exhausted := exhausted + [Memory]; left := left.(memory := 0); }
      else { left := left.(memory := left.memory - usage.memory); }
      if usage.network > left.network { exhausted := exhausted + [Network]; left := left.(network := 0); }
      else { left := left.(network := left.network - usage.network); }
      if usage.tokens > left.tokens { exhausted := exhausted + [Tokens]; left := left.(tokens := 0); }
      else { left := left.(tokens := left.tokens - usage.tokens); }
      if usage.cost > left.cost { exhausted := exhausted + [Cost]; left := left.(cost := 0); }
      else { left := left.(cost := left.cost - usage.cost); }
      if usage.risk > left.risk { exhausted := exhausted + [Risk]; left := left.(risk := 0); }
      else { left := left.(risk := left.risk - usage.risk); }
    }
  }

  function Charged(b: ResourceBudget, u: ResourceBudget): ResourceBudget {
    ResourceBudget(Sub(b.cpu, u.cpu), Sub(b.memory, u.memory), Sub(b.network, u.network),
                   Sub(b.tokens, u.tokens), Sub(b.cost, u.cost), Sub(b.risk, u.risk))
  }

  /** What is left after a run of charges. */
  function AfterCharges(b: ResourceBudget, usages: seq<ResourceBudget>): ResourceBudget {
    if usages == [] then b
    else Charged(AfterCharges(b, usages[..|usages| - 1]), usages[|usages| - 1])
  }

  /** Dimension `d` is reported exhausted by some charge of the run. */
  ghost predicate EverReported(b: ResourceBudget, usages: seq<ResourceBudget>, d: Dim) {
    exists i :: 0 <= i < |usages| && ReportedAt(b, usages, d, i)
  }

  function Total(usages: seq<ResourceBudget>, d: Dim): nat {
    if usages == [] then 0 else Total(usages[..|usages| - 1], d) + usages[|usages| - 1].Get(d)
  }

  lemma ChargedAt(b: ResourceBudget, u: ResourceBudget, d: Dim)
    ensures Charged(b, u).Get(d) == Sub(b.Get(d), u.Get(d))
  {
  }

  ghost predicate ReportedAt(b: ResourceBudget, usages: seq<ResourceBudget>, d: Dim, i: nat)
    requires i < |usages|
  {
    usages[i].Get(d) > AfterCharges(b, usages[..i]).Get(d)
  }

  lemma ReportedSplit(b: ResourceBudget, usages: seq<ResourceBudget>, d: Dim)
    requires usages != []
    ensures var n := |usages| - 1;
            EverReported(b, usages, d)
            <==> EverReported(b, usages[..n], d) || ReportedAt(b, usages, d, n)
  {
    var n := |usages| - 1;
    forall i | 0 <= i < n ensures ReportedAt(b, usages, d, i) <==> ReportedAt(b, usages[..n], d, i) {
      assert usages[..n][..i] == usages[..i];
    }
    if EverReported(b, usages[..n], d) {
      var i :| 0 <= i < n && ReportedAt(b, usages[..n], d, i);
      assert ReportedAt(b, usages, d, i);
    }
    if EverReported(b, usages, d) {
      var i :| 0 <= i < |usages| && ReportedAt(b, usages, d, i);
      assert i < n ==> ReportedAt(b, usages[..n], d, i);
    }
  }

  /** Over any run of charges the remainder is what the total leaves, floored at
      zero, and a dimension is ever reported exactly when its total exceeds the
      initial budget. */
  lemma {:induction false} ChargesConserve(b: ResourceBudget, usages: seq<ResourceBudget>, d: Dim)
    ensures AfterCharges(b, usages).Get(d) == Sub(b.Get(d), Total(usages, d))
    ensures EverReported(b, usages, d) <==> Total(usages, d) > b.Get(d)
  {
    if usages != [] {
      var n := |usages| - 1;
      ChargesConserve(b, usages[..n], d);
      ChargedAt(AfterCharges(b, usages[..n]), usages[n], d);
      ReportedSplit(b, usages, d);
    }
  }
}
