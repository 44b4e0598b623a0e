/**
 The state graph of an episode and the merge base that a merge picks from it.

 A state names the states it was made from: its parent and, for a merge, the
 merged head. States are numbered in the order of their creation, so parents have
 smaller numbers.
 */
module Ancestry {

  type Id = nat
  type Dag = map<Id, seq<Id>>

  datatype Option<T> = None | Some(value: T)

  ghost predicate Ordered(dag: Dag) {
    forall n, i :: n in dag && 0 <= i < |dag[n]| ==> dag[n][i] in dag && dag[n][i] < n
  }

  /** `x` is `y` or one of the states it was made from, at any distance. */
  ghost predicate Anc(dag: Dag, x: Id, y: Id)
    decreases y
  {
    x == y || (y in dag && exists i :: 0 <= i < |dag[y]| && dag[y][i] < y && Anc(dag, x, dag[y][i]))
  }

  ghost predicate Common(dag: Dag, x: Id, a: Id, b: Id) {
    Anc(dag, x, a) && Anc(dag, x, b)
  }

  /** A common ancestor that no other common ancestor descends from. */
  ghost predicate Lowest(dag: Dag, x: Id, a: Id, b: Id) {
    Common(dag, x, a, b) && forall c :: Common(dag, c, a, b) && Anc(dag, x, c) ==> c == x
  }

  lemma {:induction false} AncIsOlder(dag: Dag, x: Id, y: Id)
    requires Ordered(dag) && Anc(dag, x, y)
    ensures x <= y && (y in dag ==> x in dag)
    decreases y
  {
    if x != y {
      var i :| 0 <= i < |dag[y]| && dag[y][i] < y && Anc(dag, x, dag[y][i]);
      AncIsOlder(dag, x, dag[y][i]);
    }
  }

  lemma {:induction false} AncTransitive(dag: Dag, x: Id, y: Id, z: Id)
    requires Anc(dag, x, y) && Anc(dag, y, z)
    ensures Anc(dag, x, z)
    decreases z
  {
    if y != z {
      var i :| 0 <= i < |dag[z]| && dag[z][i] < z && Anc(dag, y, dag[z][i]);
      AncTransitive(dag, x, y, dag[z][i]);
    }
  }

  // ------------------------------------------------- breadth-first order

  /** The states a breadth-first walk expands, first to last. */
  ghost function Visit(dag: Dag, queue: seq<Id>, seen: set<Id>): seq<Id>
    requires Ordered(dag) && InDag(dag, queue)
    decreases dag.Keys - seen, |queue|
  {
    if queue == [] then []
    else if queue[0] in seen then Visit(dag, queue[1..], seen)
    else
      assert queue[0] in dag.Keys - seen && queue[0] !in dag.Keys - (seen + {queue[0]});
      [queue[0]] + Visit(dag, queue[1..] + dag[queue[0]], seen + {queue[0]})
  }

  ghost predicate InDag(dag: Dag, queue: seq<Id>) {
    forall q :: q in queue ==> q in dag
  }

  ghost function Order(dag: Dag, b: Id): seq<Id>
    requires Ordered(dag) && b in dag
  {
    Visit(dag, [b], {})
  }

  /** Parents of seen states are seen or waiting. */
  ghost predicate Closing(dag: Dag, queue: seq<Id>, seen: set<Id>) {
    seen <= dag.Keys && forall n :: n in seen ==> ParentsIn(dag, n, queue, seen)
  }

  ghost predicate ParentsIn(dag: Dag, n: Id, queue: seq<Id>, seen: set<Id>) {
    n in dag && forall i :: 0 <= i < |dag[n]| ==> dag[n][i] in queue || dag[n][i] in seen
  }

  ghost function Reached(dag: Dag, queue: seq<Id>, seen: set<Id>): set<Id>
    requires Ordered(dag) && InDag(dag, queue)
  {
    seen + set x | x in Visit(dag, queue, seen)
  }

  lemma StepFacts(dag: Dag, queue: seq<Id>, seen: set<Id>)
    requires Ordered(dag) && InDag(dag, queue) && Closing(dag, queue, seen) && queue != []
    ensures queue[0] in seen ==> InDag(dag, queue[1..]) && Closing(dag, queue[1..], seen)
    ensures queue[0] !in seen ==>
              InDag(dag, queue[1..] + dag[queue[0]]) &&
              Closing(dag, queue[1..] + dag[queue[0]], seen + {queue[0]})
  {
    var h := queue[0];
    forall x | x in queue ensures x == h || x in queue[1..] {}
    if h in seen {
      forall n | n in seen ensures ParentsIn(dag, n, queue[1..], seen) {
        assert ParentsIn(dag, n, queue, seen);
      }
    } else {
      forall n | n in seen + {h} ensures ParentsIn(dag, n, queue[1..] + dag[h], seen + {h}) {
        assert n != h ==> ParentsIn(dag, n, queue, seen);
      }
    }
  }

  /** The walk reaches a set closed under parents. */
  lemma {:induction false} VisitCloses(dag: Dag, queue: seq<Id>, seen: set<Id>)
    requires Ordered(dag) && InDag(dag, queue) && Closing(dag, queue, seen)
    ensures Closing(dag, [], Reached(dag, queue, seen))
    ensures forall q :: q in queue ==> q in Reached(dag, queue, seen)
    decreases dag.Keys - seen, |queue|
  {
    if queue == [] {
      assert Reached(dag, queue, seen) == seen;
      forall n | n in seen ensures ParentsIn(dag, n, [], seen) { assert ParentsIn(dag, n, queue, seen); }
    } else {
      var h := queue[0];
      StepFacts(dag, queue, seen);
      if h in seen {
        VisitCloses(dag, queue[1..], seen);
        assert Reached(dag, queue, seen) == Reached(dag, queue[1..], seen);
      } else {
        assert h in dag.Keys - seen && h !in dag.Keys - (seen + {h});
        VisitCloses(dag, queue[1..] + dag[h], seen + {h});
        assert Reached(dag, queue, seen) == Reached(dag, queue[1..] + dag[h], seen + {h});
      }
    }
  }

  lemma {:induction false} ClosedHasAncestors(dag: Dag, nodes: set<Id>, x: Id, y: Id)
    requires Closing(dag, [], nodes) && y in nodes && Anc(dag, x, y)
    ensures x in nodes
    decreases y
  {
    if x != y {
      var i :| 0 <= i < |dag[y]| && dag[y][i] < y && Anc(dag, x, dag[y][i]);
      assert ParentsIn(dag, y, [], nodes);
      ClosedHasAncestors(dag, nodes, x, dag[y][i]);
    }
  }

  /** Only ancestors are expanded, each once. */
  lemma {:induction false} VisitSound(dag: Dag, queue: seq<Id>, seen: set<Id>, root: Id)
    requires Ordered(dag) && InDag(dag, queue)
    requires forall q :: q in queue ==> Anc(dag, q, root)
    ensures forall x :: x in Visit(dag, queue, seen) ==> x !in seen && Anc(dag, x, root)
    ensures Distinct(Visit(dag, queue, seen))
    decreases dag.Keys - seen, |queue|
  {
    if queue != [] {
      var h := queue[0];
      if h in seen {
        VisitSound(dag, queue[1..], seen, root);
      } else {
        forall q | q in queue[1..] + dag[h] ensures Anc(dag, q, root) {
          if q in dag[h] { ParentOf(dag, q, h); AncTransitive(dag, q, h, root); }
        }
        assert h in dag.Keys - seen && h !in dag.Keys - (seen + {h});
        VisitSound(dag, queue[1..] + dag[h], seen + {h}, root);
      }
    }
  }

  ghost predicate Distinct(s: seq<Id>) {
    forall i, j :: 0 <= i < j < |s| ==> s[i] != s[j]
  }

  lemma ParentOf(dag: Dag, q: Id, h: Id)
    requires Ordered(dag) && h in dag && q in dag[h]
    ensures Anc(dag, q, h)
  {
    var i :| 0 <= i < |dag[h]| && dag[h][i] == q;
    assert dag[h][i] < h && Anc(dag, q, dag[h][i]);
  }

  /** The walk from `b` expands every ancestor of `b` exactly once and nothing else. */
  lemma OrderIsAncestors(dag: Dag, b: Id)
    requires Ordered(dag) && b in dag
    ensures forall x :: x in Order(dag, b) <==> Anc(dag, x, b)
    ensures Distinct(Order(dag, b))
  {
    VisitSound(dag, [b], {}, b);
    VisitCloses(dag, [b], {});
    forall x | Anc(dag, x, b) ensures x in Order(dag, b) {
      ClosedHasAncestors(dag, Reached(dag, [b], {}), x, b);
    }
  }

  // ------------------------------------------------------- the merge base

  /** The first state in `b`'s breadth-first order that is an ancestor of `a`. */
  ghost predicate Picked(dag: Dag, a: Id, b: Id, r: Id)
    requires Ordered(dag) && b in dag
  {
    && Anc(dag, r, a)
    && exists k :: 0 <= k < |Order(dag, b)| && Order(dag, b)[k] == r &&
         forall j :: 0 <= j < k ==> !Anc(dag, Order(dag, b)[j], a)
  }

  lemma PickedIsUnique(dag: Dag, a: Id, b: Id, r: Id, r': Id)
    requires Ordered(dag) && b in dag && Picked(dag, a, b, r) && Picked(dag, a, b, r')
    ensures r == r'
  {
    var order := Order(dag, b);
    var k :| 0 <= k < |order| && order[k] == r && forall j :: 0 <= j < k ==> !Anc(dag, order[j], a);
    var l :| 0 <= l < |order| && order[l] == r' && forall j :: 0 <= j < l ==> !Anc(dag, order[j], a);
    assert !(k < l) && !(l < k);
  }

  method Ancestors(dag: Dag, a: Id) returns (seen: set<Id>)
    requires Ordered(dag) && a in dag
    ensures forall x :: x in seen <==> Anc(dag, x, a)
  {
    seen := {};
    var queue := [a];
    ghost var done: seq<Id> := [];
    while queue != []
      invariant InDag(dag, queue)
      invariant Order(dag, a) == done + Visit(dag, queue, seen)
      invariant forall x :: x in seen <==> x in done
      decreases dag.Keys - seen, |queue|
    {
      var id := queue[0];
      queue := queue[1..];
      if id !in seen {
        assert id in dag.Keys - seen && id !in dag.Keys - (seen + {id});
        seen := seen + {id};
        queue := queue + dag[id];
        done := done + [id];
      }
    }
    assert done == Order(dag, a);
    OrderIsAncestors(dag, a);
  }

  lemma FirstMetIsPicked(dag: Dag, a: Id, b: Id, done: seq<Id>, id: Id, rest: seq<Id>)
    requires Ordered(dag) && b in dag && Order(dag, b) == done + ([id] + rest)
    requires Anc(dag, id, a) && forall x :: x in done ==> !Anc(dag, x, a)
    ensures Picked(dag, a, b, id) && Common(dag, id, a, b)
  {
    OrderIsAncestors(dag, b);
    var order := Order(dag, b);
    assert order[|done|] == id && id in order;
    assert forall j :: 0 <= j < |done| ==> order[j] == done[j] && done[j] in done;
  }

  /** The base the code picks: none exactly when there is no common ancestor or a
      state is missing, otherwise the first ancestor of `a` met walking from `b`. */
  method Lca(dag: Dag, a: Id, b: Id) returns (r: Option<Id>)
    requires Ordered(dag)
    ensures r.Some? <==> a in dag && b in dag && exists x :: Common(dag, x, a, b)
    ensures r.Some? ==> Common(dag, r.value, a, b) && Picked(dag, a, b, r.value)
  {
    if a !in dag { return None; }
    var ancestors := Ancestors(dag, a);
    if b !in dag { return None; }
    var seen: set<Id> := {};
    var queue := [b];
    ghost var done: seq<Id> := [];
    while queue != []
      invariant InDag(dag, queue)
      invariant Order(dag, b) == done + Visit(dag, queue, seen)
      invariant forall x :: x in seen <==> x in done
      invariant forall x :: x in done ==> x !in ancestors
      decreases dag.Keys - seen, |queue|
    {
      var id := queue[0];
      ghost var rest := if id in seen then [] else Visit(dag, queue[1..] + dag[id], seen + {id});
      if id in ancestors {
        FirstMetIsPicked(dag, a, b, done, id, rest);
        return Some(id);
      }
      queue := queue[1..];
      if id !in seen {
        assert id in dag.Keys - seen && id !in dag.Keys - (seen + {id});
        assert done + ([id] + rest) == (done + [id]) + rest;
        seen := seen + {id};
        queue := queue + dag[id];
        done := done + [id];
      }
    }
    assert done == Order(dag, b);
    OrderIsAncestors(dag, b);
    return None;
  }

  // ------------------------------------------- is it the lowest one?

  /** No state is expanded before one of its descendants. */
  ghost predicate DescendantsFirst(dag: Dag, order: seq<Id>) {
    forall i, j :: 0 <= i < j < |order| ==> !Anc(dag, order[i], order[j])
  }

  lemma OrderedPickIsLowest(dag: Dag, a: Id, b: Id, r: Id)
    requires Ordered(dag) && b in dag && Picked(dag, a, b, r)
    requires DescendantsFirst(dag, Order(dag, b))
    ensures Lowest(dag, r, a, b)
  {
    OrderIsAncestors(dag, b);
    var order := Order(dag, b);
    var k :| 0 <= k < |order| && order[k] == r && forall j :: 0 <= j < k ==> !Anc(dag, order[j], a);
    assert order[k] in order;
    forall c | Common(dag, c, a, b) && Anc(dag, r, c) ensures c == r {
      assert c in order;
      var j :| 0 <= j < |order| && order[j] == c;
      assert j >= k;
    }
  }

  /** An ancestor expanded too early is a wrong base for some state. */
  lemma EarlyAncestorIsNotLowest(dag: Dag, b: Id, i: nat, j: nat, r: Id)
    requires Ordered(dag) && b in dag && i < j < |Order(dag, b)|
    requires Anc(dag, Order(dag, b)[i], Order(dag, b)[j])
    requires Picked(dag, Order(dag, b)[j], b, r)
    ensures !Lowest(dag, r, Order(dag, b)[j], b)
  {
    OrderIsAncestors(dag, b);
    var order := Order(dag, b);
    var c := order[j];
    var k :| 0 <= k < |order| && order[k] == r && forall l :: 0 <= l < k ==> !Anc(dag, order[l], c);
    assert k <= i;
    assert c in order && order[k] != order[j];
    assert Common(dag, c, c, b) && Anc(dag, r, c);
  }

  lemma {:induction false} SomePick(dag: Dag, a: Id, b: Id, k: nat) returns (r: Id)
    requires Ordered(dag) && b in dag && k < |Order(dag, b)| && Anc(dag, Order(dag, b)[k], a)
    ensures Picked(dag, a, b, r)
  {
    var order := Order(dag, b);
    if j :| 0 <= j < k && Anc(dag, order[j], a) {
      r := SomePick(dag, a, b, j);
    } else {
      r := order[k];
      assert forall l :: 0 <= l < k ==> !Anc(dag, order[l], a);
    }
  }

  /** For a given `b`, the picked base is the lowest common ancestor whatever `a` is,
      if and only if the breadth-first order from `b` never meets a state before
      one of its descendants. */
  lemma LowestIff(dag: Dag, b: Id)
    requires Ordered(dag) && b in dag
    ensures (forall a, r :: a in dag && Picked(dag, a, b, r) ==> Lowest(dag, r, a, b)) <==>
            DescendantsFirst(dag, Order(dag, b))
  {
    var order := Order(dag, b);
    if DescendantsFirst(dag, order) {
      forall a, r | a in dag && Picked(dag, a, b, r) ensures Lowest(dag, r, a, b) {
        OrderedPickIsLowest(dag, a, b, r);
      }
    } else {
      var i, j :| 0 <= i < j < |order| && Anc(dag, order[i], order[j]);
      OrderIsAncestors(dag, b);
      assert order[j] in order;
      AncIsOlder(dag, order[j], b);
      var r := SomePick(dag, order[j], b, i);
      EarlyAncestorIsNotLowest(dag, b, i, j, r);
    }
  }

  ghost predicate Descending(s: seq<Id>, top: Id) {
    && (forall i :: 0 <= i < |s| ==> s[i] <= top)
    && (forall i, j :: 0 <= i < j < |s| ==> s[i] > s[j])
  }

  /** A history without merges is walked descendants first. */
  lemma {:induction false} LinearVisit(dag: Dag, h: Id, seen: set<Id>)
    requires Ordered(dag) && h in dag
    requires forall n :: n in dag && n <= h ==> |dag[n]| <= 1
    ensures Descending(Visit(dag, [h], seen), h)
    decreases h
  {
    assert [h][1..] == [];
    if h !in seen {
      var seen' := seen + {h};
      assert [h][1..] + dag[h] == dag[h];
      assert Visit(dag, [h], seen) == [h] + Visit(dag, dag[h], seen');
      if dag[h] != [] {
        var q := dag[h][0];
        assert dag[h] == [q] && q < h;
        LinearVisit(dag, q, seen');
      }
    }
  }

  lemma LinearHistoryIsLowest(dag: Dag, a: Id, b: Id, r: Id)
    requires Ordered(dag) && b in dag && Picked(dag, a, b, r)
    requires forall n :: n in dag && n <= b ==> |dag[n]| <= 1
    ensures Lowest(dag, r, a, b)
  {
    LinearVisit(dag, b, {});
    var order := Order(dag, b);
    forall i, j | 0 <= i < j < |order| ensures !Anc(dag, order[i], order[j]) {
      if Anc(dag, order[i], order[j]) { AncIsOlder(dag, order[i], order[j]); }
    }
    OrderedPickIsLowest(dag, a, b, r);
  }

  /** A state that is an ancestor of the other is found from its own side. */
  lemma AncestorIsItsOwnBase(dag: Dag, a: Id, b: Id, r: Id)
    requires Ordered(dag) && b in dag && Anc(dag, b, a) && Picked(dag, a, b, r)
    ensures r == b
  {
    assert Order(dag, b)[0] == b;
  }
}
