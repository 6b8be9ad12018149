/**
 Which nodes a predicate is asked about, and as which: positions count from one, in axis order, among
 the nodes that came that far.
 */
module Positions {
  import opened Wrappers
  import opened Xdm
  import opened XPathAst
  import opened Axes
  import opened Eval

  /** Positions in a list, each later than the one before. */
  predicate IsRising(picks: seq<nat>, limit: nat) {
    && (forall j | 0 <= j < |picks| :: picks[j] < limit)
    && forall i, j | 0 <= i < j < |picks| :: picks[i] < picks[j]
  }

  function Picked(nodes: seq<Node>, picks: seq<nat>): (r: seq<Node>)
    requires IsRising(picks, |nodes|)
    ensures |r| == |picks| && forall j | 0 <= j < |r| :: r[j] == nodes[picks[j]]
  {
    seq(|picks|, j requires 0 <= j < |picks| => nodes[picks[j]])
  }

  /**
   A predicate is asked about every node of a list with the node's position, from one up to the size of
   the list; the nodes it holds of are kept, in the order they had.
   */
  lemma KeptAreThose(w: World, nodes: seq<Node>, condition: Expr) returns (picks: seq<nat>)
    ensures IsRising(picks, |nodes|) && Kept(w, nodes, condition) == Picked(nodes, picks)
    ensures forall i: nat | i < |nodes| :: i in picks <==> w.holds(condition, Focus(nodes[i], i + 1, |nodes|))
  {
    picks := KeptFromThose(w, nodes, condition, 0);
  }

  lemma {:induction false} KeptFromThose(w: World, nodes: seq<Node>, condition: Expr, from: nat) returns (picks: seq<nat>)
    requires from <= |nodes|
    ensures IsRising(picks, |nodes|) && KeptFrom(w, nodes, condition, from) == Picked(nodes, picks)
    ensures forall i | i in picks :: from <= i
    ensures forall i: nat | from <= i < |nodes| :: i in picks <==> w.holds(condition, Focus(nodes[i], i + 1, |nodes|))
    decreases |nodes| - from
  {
    if from == |nodes| {
      picks := [];
    } else {
      picks := KeptFromThose(w, nodes, condition, from + 1);
      if w.holds(condition, Focus(nodes[from], from + 1, |nodes|)) {
        PickedFirst(nodes, from, picks);
        picks := [from] + picks;
      }
    }
  }

  lemma PickedFirst(nodes: seq<Node>, first: nat, picks: seq<nat>)
    requires IsRising(picks, |nodes|) && first < |nodes| && forall i | i in picks :: first < i
    ensures IsRising([first] + picks, |nodes|)
    ensures Picked(nodes, [first] + picks) == [nodes[first]] + Picked(nodes, picks)
  {
    assert forall j | 0 <= j < |picks| :: picks[j] in picks;
  }

  /** In a list without repetitions a node is kept exactly when the predicate holds of it where it stands. */
  lemma KeptExactly(w: World, nodes: seq<Node>, condition: Expr, i: nat)
    requires i < |nodes| && forall a, b | 0 <= a < b < |nodes| :: nodes[a] != nodes[b]
    ensures nodes[i] in Kept(w, nodes, condition) <==> w.holds(condition, Focus(nodes[i], i + 1, |nodes|))
  {
    var picks := KeptAreThose(w, nodes, condition);
    var kept := Picked(nodes, picks);
    if i in picks {
      var j :| 0 <= j < |picks| && picks[j] == i;
      assert kept[j] == nodes[i];
    }
    if nodes[i] in kept {
      var j :| 0 <= j < |kept| && kept[j] == nodes[i];
      assert picks[j] in picks;
    }
  }

  /** The predicate written `[k]`: true of whatever stands at that position. */
  ghost predicate IsAt(w: World, condition: Expr, k: nat) {
    forall f: Focus :: w.holds(condition, f) <==> f.position == k
  }

  /** The predicate written `[last()]`. */
  ghost predicate IsLast(w: World, condition: Expr) {
    forall f: Focus :: w.holds(condition, f) <==> f.position == f.size
  }

  /** `[k]` keeps just the k-th node, or none where there are fewer; counting begins with one. */
  lemma KeptAt(w: World, nodes: seq<Node>, condition: Expr, k: nat)
    requires IsAt(w, condition, k)
    ensures Kept(w, nodes, condition) == if 1 <= k <= |nodes| then [nodes[k - 1]] else []
  {
    var picks := KeptAreThose(w, nodes, condition);
    OnlyOne(picks, |nodes|, k - 1);
  }

  /** `[last()]` keeps just the last. */
  lemma KeptLast(w: World, nodes: seq<Node>, condition: Expr)
    requires IsLast(w, condition)
    ensures Kept(w, nodes, condition) == if nodes == [] then [] else [nodes[|nodes| - 1]]
  {
    var picks := KeptAreThose(w, nodes, condition);
    OnlyOne(picks, |nodes|, |nodes| - 1);
  }

  lemma Rises(picks: seq<nat>, limit: nat, i: nat, j: nat)
    requires IsRising(picks, limit) && i < j < |picks|
    ensures picks[i] < picks[j]
  {
  }

  lemma OnlyOne(picks: seq<nat>, limit: nat, only: int)
    requires IsRising(picks, limit) && forall i: nat | i < limit :: i in picks <==> i == only
    ensures picks == if 0 <= only < limit then [only] else []
  {
    forall j | 0 <= j < |picks| ensures picks[j] == only {
      assert picks[j] in picks;
    }
    if |picks| >= 2 {
      Rises(picks, limit, 0, 1);
    }
    assert picks != [] ==> picks[0] == only;
    if 0 <= only < limit {
      var o: nat := only;
      assert o in picks;
      assert picks == [o];
    }
  }

  /** Predicates are applied in turn, each counting anew in what the ones before it left. */
  lemma PredicatesInTurn(w: World, nodes: seq<Node>, first: Expr, second: Expr)
    ensures KeptByAll(w, nodes, [first]) == Kept(w, nodes, first)
    ensures KeptByAll(w, nodes, [first, second]) == Kept(w, Kept(w, nodes, first), second)
  {
    hide Kept;
    assert [first][1..] == [] && [first, second][1..] == [second] && [second][1..] == [];
    assert forall left :: KeptByAll(w, left, [second]) == KeptByAll(w, Kept(w, left, second), []);
    assert KeptByAll(w, nodes, [first]) == KeptByAll(w, Kept(w, nodes, first), []);
    assert KeptByAll(w, nodes, [first, second]) == KeptByAll(w, Kept(w, nodes, first), [second]);
  }

  /** A filter counts in document order, whichever way the nodes were come by: `(ancestor::*)[1]` is the outermost. */
  lemma FilterCountsInDocumentOrder(w: World, ns: Namespaces, e: Expr, condition: Expr, k: nat, focus: Focus)
    requires w.Valid() && IsNode(w.docs, focus.node) && IsAt(w, condition, k) && NodesOf(w, ns, e, focus).Ok?
    ensures var r := NodesOf(w, ns, FilterExpr(e, [condition]), focus);
            && r.Ok?
            && forall x :: x in r.value <==> x in NodesOf(w, ns, e, focus).value && IsKth(NodesOf(w, ns, e, focus).value, x, k)
  {
    var nodes := NodesOf(w, ns, e, focus).value;
    var sorted := Normalize(nodes);
    KeptAt(w, sorted, condition, k);
    PredicatesInTurn(w, sorted, condition, condition);
    assert NodesOf(w, ns, FilterExpr(e, [condition]), focus) == Ok(Kept(w, sorted, condition));
    KthIsThere(nodes, sorted, k);
  }

  /** `x` is the k-th of a list's nodes in document order, the k - 1 before it being all that precede it. */
  ghost predicate IsKth(nodes: seq<Node>, x: Node, k: nat) {
    exists before: seq<Node> :: Ascending(before) && |before| + 1 == k && forall y :: y in before <==> y in nodes && Before(y, x)
  }

  lemma KthIsThere(nodes: seq<Node>, sorted: seq<Node>, k: nat)
    requires Ascending(sorted) && forall x :: x in sorted <==> x in nodes
    ensures forall x | x in nodes :: IsKth(nodes, x, k) <==> 1 <= k <= |sorted| && x == sorted[k - 1]
  {
    forall x | x in nodes ensures IsKth(nodes, x, k) <==> 1 <= k <= |sorted| && x == sorted[k - 1] {
      var i: nat :| i < |sorted| && sorted[i] == x;
      var before := sorted[..i];
      forall y ensures y in before <==> y in nodes && Before(y, x) {
        BeforeIsTotalOrder(x, y, x);
        if y in nodes {
          var j: nat :| j < |sorted| && sorted[j] == y;
          assert j < i ==> Before(y, x) && before[j] == y;
          assert j > i ==> Before(x, y);
          BeforeIsTotalOrder(y, x, y);
        }
      }
      forall other: seq<Node> | Ascending(other) && forall y :: y in other <==> y in nodes && Before(y, x) ensures other == before {
        AscendingIsUnique(other, before);
      }
      assert IsKth(nodes, x, i + 1);
      BeforeIsTotalOrder(x, x, x);
      assert 1 <= k <= |sorted| && k - 1 != i ==> Before(sorted[k - 1], x) || Before(x, sorted[k - 1]);
    }
  }

  /** A union holds what either side holds, in document order. */
  lemma UnionIsBoth(w: World, ns: Namespaces, a: Expr, b: Expr, focus: Focus)
    requires w.Valid() && IsNode(w.docs, focus.node)
    ensures var left, right, both := NodesOf(w, ns, a, focus), NodesOf(w, ns, b, focus), NodesOf(w, ns, Binary(Union, a, b), focus);
            && (both.Ok? <==> left.Ok? && right.Ok?)
            && (both.Ok? ==> Ascending(both.value) && forall x :: x in both.value <==> x in left.value || x in right.value)
  {
  }

  // --- Along an axis --------------------------------------------------------------------------------

  /** Nearer along an axis: earlier in the document, or later on a reverse axis. */
  predicate Nearer(axis: Axis, a: Node, b: Node) {
    if IsReverse(axis) then Before(b, a) else Before(a, b)
  }

  /** A node that is on the axis and passes the test. */
  predicate Passes(w: World, ns: Namespaces, step: Step, n: Node, x: Node) {
    && x.document == n.document && IsNode(w.docs, x) && OnAxis(step.axis, n, x)
    && Matches(w.docs, ns, x, step.axis, step.test) == Ok(true)
  }

  predicate AlongAxis(axis: Axis, nodes: seq<Node>) {
    forall i, j | 0 <= i < j < |nodes| :: Nearer(axis, nodes[i], nodes[j])
  }

  /** The nodes a step's predicates count: all that pass, each once, nearest first. */
  lemma CandidatesAlongAxis(w: World, ns: Namespaces, step: Step, n: Node)
    requires IsNode(w.docs, n) && TestIsBound(ns, step.test)
    ensures forall x | x in AxisNodes(w.docs, n, step.axis) :: IsNode(w.docs, x)
    ensures var passing := Passing(w.docs, ns, AxisNodes(w.docs, n, step.axis), step.axis, step.test);
            passing.Ok? && AlongAxis(step.axis, passing.value) && forall x :: x in passing.value <==> Passes(w, ns, step, n, x)
  {
    AxisOrder(w.docs, n, step.axis);
    PassingMembers(w.docs, ns, AxisNodes(w.docs, n, step.axis), step.axis, step.test);
    PassingAlong(w.docs, ns, AxisNodes(w.docs, n, step.axis), step.axis, step.test);
  }

  lemma {:induction false} PassingAlong(docs: Documents, ns: Namespaces, nodes: seq<Node>, axis: Axis, test: NodeTest)
    requires (forall n | n in nodes :: IsNode(docs, n)) && AlongAxis(axis, nodes)
    ensures var r := Passing(docs, ns, nodes, axis, test); r.Ok? ==> AlongAxis(axis, r.value) && forall x | x in r.value :: x in nodes
  {
    if nodes != [] {
      PassingAlong(docs, ns, nodes[1..], axis, test);
      assert forall x | x in nodes[1..] :: Nearer(axis, nodes[0], x);
    }
  }

  /** A step with `[1]` selects the nearest node that passes, which on a reverse axis is the last in the document. */
  lemma FirstIsNearest(w: World, ns: Namespaces, axis: Axis, test: NodeTest, condition: Expr, n: Node, x: Node)
    requires IsNode(w.docs, n) && TestIsBound(ns, test) && IsAt(w, condition, 1)
    ensures var step := Step(axis, test, [condition]);
            Selected(w, ns, step, n).Ok? &&
            (x in Selected(w, ns, step, n).value
             <==> Passes(w, ns, step, n, x) && forall y | Passes(w, ns, step, n, y) && y != x :: Nearer(axis, x, y))
  {
    var step := Step(axis, test, [condition]);
    CandidatesAlongAxis(w, ns, step, n);
    var passing := Passing(w.docs, ns, AxisNodes(w.docs, n, axis), axis, test).value;
    KeptAt(w, passing, condition, 1);
    SelectedByOne(w, ns, step, n, condition);
    hide Passing, Matches, OnAxis, Kept;
    if passing != [] {
      NearestIsFirst(axis, passing, x);
    }
  }

  /** And one with `[last()]` the farthest. */
  lemma LastIsFarthest(w: World, ns: Namespaces, axis: Axis, test: NodeTest, condition: Expr, n: Node, x: Node)
    requires IsNode(w.docs, n) && TestIsBound(ns, test) && IsLast(w, condition)
    ensures var step := Step(axis, test, [condition]);
            Selected(w, ns, step, n).Ok? &&
            (x in Selected(w, ns, step, n).value
             <==> Passes(w, ns, step, n, x) && forall y | Passes(w, ns, step, n, y) && y != x :: Nearer(axis, y, x))
  {
    var step := Step(axis, test, [condition]);
    CandidatesAlongAxis(w, ns, step, n);
    var passing := Passing(w.docs, ns, AxisNodes(w.docs, n, axis), axis, test).value;
    KeptLast(w, passing, condition);
    SelectedByOne(w, ns, step, n, condition);
    hide Passing, Matches, OnAxis, Kept;
    if passing != [] {
      FarthestIsLast(axis, passing, x);
    }
  }

  lemma SelectedByOne(w: World, ns: Namespaces, step: Step, n: Node, condition: Expr)
    requires IsNode(w.docs, n) && step.predicates == [condition] && TestIsBound(ns, step.test)
    requires forall x | x in AxisNodes(w.docs, n, step.axis) :: IsNode(w.docs, x)
    ensures var passing := Passing(w.docs, ns, AxisNodes(w.docs, n, step.axis), step.axis, step.test);
            passing.Ok? && Selected(w, ns, step, n) == Ok(Kept(w, passing.value, condition))
  {
    PassingMembers(w.docs, ns, AxisNodes(w.docs, n, step.axis), step.axis, step.test);
    var passing := Passing(w.docs, ns, AxisNodes(w.docs, n, step.axis), step.axis, step.test).value;
    hide Kept, Passing;
    assert step.predicates[0] == condition && step.predicates[1..] == [];
    assert KeptByAll(w, passing, step.predicates) == KeptByAll(w, Kept(w, passing, condition), []);
    assert Selected(w, ns, step, n) == Ok(KeptByAll(w, passing, step.predicates));
  }

  lemma NearestIsFirst(axis: Axis, nodes: seq<Node>, x: Node)
    requires nodes != [] && AlongAxis(axis, nodes)
    ensures x == nodes[0] <==> x in nodes && forall y | y in nodes && y != x :: Nearer(axis, x, y)
  {
    assert nodes[0] in nodes;
    if x == nodes[0] {
      forall y | y in nodes && y != x ensures Nearer(axis, x, y) {
      }
    } else if x in nodes {
      assert Nearer(axis, nodes[0], x);
      BeforeIsTotalOrder(nodes[0], x, nodes[0]);
      assert !Nearer(axis, x, nodes[0]);
    }
  }

  lemma FarthestIsLast(axis: Axis, nodes: seq<Node>, x: Node)
    requires nodes != [] && AlongAxis(axis, nodes)
    ensures x == nodes[|nodes| - 1] <==> x in nodes && forall y | y in nodes && y != x :: Nearer(axis, y, x)
  {
    var last := nodes[|nodes| - 1];
    assert last in nodes;
    if x == last {
      forall y | y in nodes && y != x ensures Nearer(axis, y, x) {
      }
    } else if x in nodes {
      assert Nearer(axis, x, last);
      BeforeIsTotalOrder(last, x, last);
      assert !Nearer(axis, last, x);
    }
  }
}
