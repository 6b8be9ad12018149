/**
 Match patterns: reading one out of an expression, and testing a node against it from right to left.

 Section 5.2 of XSLT 1.0 says a node matches a pattern when evaluating the pattern from some
 ancestor-or-self of the node selects it. `PatternMeaning` shows that the walk up the parents gives
 that answer.
 */
module Pattern {
  import opened Wrappers
  import opened Xdm
  import opened Numbering
  import opened XPathAst
  import opened Axes
  import opened Eval

  /** What a pattern starts from: nothing in particular, the root, an ID or a key. */
  datatype Anchor = Anywhere | AtRoot | AtId(id: string) | AtKey(name: string, value: string)

  /** One step, on the child or the attribute axis, and whether a `//` stood before it. */
  datatype PatternStep = PatternStep(axis: Axis, test: NodeTest, predicates: seq<Expr>, afterAnyAncestor: bool)

  /** Everything between two `|`. */
  datatype Alternative = Alternative(anchor: Anchor, steps: seq<PatternStep>, priority: real)

  // --- Reading a pattern out of an expression -----------------------------------------------------

  /** The step written `//`. */
  predicate IsAnyAncestorMarker(step: Step) {
    step.axis == DescendantOrSelf && step.test == AnyNodeTest && step.predicates == []
  }

  /** The steps read so far, and whether a `//` is waiting for the step after it. */
  function Scan(steps: seq<Step>): Result<(seq<PatternStep>, bool)> {
    if steps == [] then
      Ok(([], false))
    else
      var step := steps[|steps| - 1];
      var before :- Scan(steps[..|steps| - 1]);
      if IsAnyAncestorMarker(step) then
        Ok((before.0, true))
      else if step.axis != Child && step.axis != Attribute then
        Err
      else
        Ok((before.0 + [PatternStep(step.axis, step.test, step.predicates, before.1)], false))
  }

  function StepsOfPattern(steps: seq<Step>): Result<seq<PatternStep>> {
    var scanned :- Scan(steps);
    if scanned.1 then Err else Ok(scanned.0)
  }

  /** The steps of a pattern out of those of a path, a `//` becoming a mark on what follows. */
  method PatternSteps(path: seq<Step>) returns (r: Result<seq<PatternStep>>)
    ensures r == StepsOfPattern(path)
  {
    var steps: seq<PatternStep> := [];
    var afterAnyAncestor := false;
    for i := 0 to |path|
      invariant Scan(path[..i]) == Ok((steps, afterAnyAncestor))
    {
      var step := path[i];
      assert path[..i + 1] == path[..i] + [step];
      if IsAnyAncestorMarker(step) {
        afterAnyAncestor := true;
        continue;
      }
      if step.axis != Child && step.axis != Attribute {
        ScanRefuses(path, i + 1);
        return Err;
      }
      steps := steps + [PatternStep(step.axis, step.test, step.predicates, afterAnyAncestor)];
      afterAnyAncestor := false;
    }
    assert path[..|path|] == path;
    r := if afterAnyAncestor then Err else Ok(steps);
  }

  lemma {:induction false} ScanRefuses(steps: seq<Step>, i: nat)
    requires i <= |steps| && Scan(steps[..i]).Err?
    ensures Scan(steps).Err?
    decreases |steps|
  {
    if i < |steps| {
      assert steps[..|steps| - 1][..i] == steps[..i];
      ScanRefuses(steps[..|steps| - 1], i);
    } else {
      assert steps[..i] == steps;
    }
  }

  /** Reading the call a pattern starts with. */
  function AnchorOf(e: Expr): Result<Anchor> {
    match e
    case Function(None, local, arguments) =>
      if local == "id" && |arguments| == 1 && arguments[0].Literal? then
        Ok(AtId(arguments[0].text))
      else if local == "key" && |arguments| == 2 && arguments[0].Literal? && arguments[1].Literal? then
        Ok(AtKey(arguments[0].text, arguments[1].text))
      else
        Err
    case _ => Err
  }

  /** The default priority of an alternative (section 5.5 of XSLT 1.0). */
  function DefaultPriority(anchor: Anchor, steps: seq<PatternStep>): real {
    if |steps| != 1 || anchor != Anywhere || steps[0].afterAnyAncestor || steps[0].predicates != [] then
      0.5
    else
      match steps[0].test
      case NamedTest(QualifiedName(_, _)) => 0.0
      case ProcessingInstructionTest(Some(_)) => 0.0
      case NamedTest(InNamespace(_)) => -0.25
      case _ => -0.5
  }

  function AlternativeOf(e: Expr): Result<Alternative> {
    match e
    case Function(_, _, _) =>
      var anchor :- AnchorOf(e);
      Ok(Alternative(anchor, [], 0.5))
    case PathExpr(path) =>
      var anchor :- match path.start
                    case ContextStart => Ok(Anywhere)
                    case RootStart => Ok(AtRoot)
                    case ExprStart(start) => AnchorOf(start);
      var steps :- StepsOfPattern(path.steps);
      Ok(Alternative(anchor, steps, DefaultPriority(anchor, steps)))
    case _ => Err
  }

  /** The alternatives a `|` separates, in order. */
  function Alternatives(e: Expr): Result<seq<Alternative>> {
    match e
    case Binary(Union, left, right) =>
      var first :- Alternatives(left);
      var rest :- Alternatives(right);
      Ok(first + rest)
    case _ =>
      var one :- AlternativeOf(e);
      Ok([one])
  }

  // --- Testing a node -----------------------------------------------------------------------------

  /** A node and a step: the hop that leads to the node is of the step's axis, and the test lets it through. */
  function NodePasses(docs: Documents, ns: Namespaces, n: Node, step: PatternStep): bool
    requires IsNode(docs, n)
  {
    var kind := Kind(docs, n);
    var onAxis := if step.axis == Attribute then kind == AttributeKind
                  else kind != AttributeKind && kind != NamespaceKind && kind != RootKind;
    onAxis && Matches(docs, ns, n, step.axis, step.test) == Ok(true)
  }

  /** Whether a node passes one step; with predicates, whether the step selects it from its parent. */
  function StepMatches(w: World, ns: Namespaces, n: Node, step: PatternStep): Result<bool>
    requires IsNode(w.docs, n)
  {
    if step.predicates == [] then
      Ok(NodePasses(w.docs, ns, n, step))
    else if n.hops == [] then
      Ok(false)
    else
      ParentIsNode(w.docs, n);
      var selected :- StepNodes(w, ns, Step(step.axis, step.test, step.predicates), [n.Parent().value]);
      Ok(n in selected)
  }

  /** The nodes a `key()` anchor names; a prefix nobody bound names none. */
  function KeyNodes(w: World, ns: Namespaces, name: string, value: string): seq<Node> {
    match Expanded(ns, name)
    case Ok(expanded) => w.keyed(expanded.0, expanded.1, value)
    case Err => []
  }

  /** `target` is the parent of `n`, or with `loose` any ancestor of it. */
  predicate Descends(n: Node, target: Node, loose: bool) {
    if loose then n.document == target.document && target.hops < n.hops else n.Parent() == Some(target)
  }

  method DescendsFrom(n: Node, target: Node, loose: bool) returns (r: bool)
    ensures r == Descends(n, target, loose)
  {
    var current := n.Parent();
    if !loose {
      return current == Some(target);
    }
    while current.Some?
      invariant current.Some? ==> current.value.document == n.document && current.value.hops < n.hops
      invariant Descends(n, target, true) ==> current.Some? && target.hops <= current.value.hops
      decreases if current.Some? then 1 + |current.value.hops| else 0
    {
      if current.value == target {
        return true;
      }
      current := current.value.Parent();
    }
    r := false;
  }

  /** After the leftmost step, what is above must be what the pattern starts from. */
  function AnchorHolds(w: World, ns: Namespaces, anchor: Anchor, n: Node, loose: bool): bool {
    match anchor
    case Anywhere => true
    case AtRoot => loose || n.Parent() == Some(n.RootNode())
    case AtId(id) => w.elementById(id).Some? && Descends(n, w.elementById(id).value, loose)
    case AtKey(name, value) => exists target :: target in KeyNodes(w, ns, name, value) && Descends(n, target, loose)
  }

  /** Whether a node is what the anchor of an alternative without steps names. */
  function IsAnchorTarget(w: World, ns: Namespaces, anchor: Anchor, n: Node): bool {
    match anchor
    case Anywhere => false
    case AtRoot => n == n.RootNode()
    case AtId(id) => w.elementById(id) == Some(n)
    case AtKey(name, value) => n in KeyNodes(w, ns, name, value)
  }

  /** The steps from `index` leftwards, matched at a node and upwards from it. */
  function MatchesFrom(w: World, ns: Namespaces, alt: Alternative, n: Node, index: nat): Result<bool>
    requires IsNode(w.docs, n) && index < |alt.steps|
    decreases index, 0
  {
    var step := alt.steps[index];
    var passes :- StepMatches(w, ns, n, step);
    if !passes then
      Ok(false)
    else if index == 0 then
      Ok(AnchorHolds(w, ns, alt.anchor, n, step.afterAnyAncestor))
    else if step.afterAnyAncestor then
      SearchUp(w, ns, alt, n, |n.hops|, index - 1)
    else if n.hops == [] then
      Ok(false)
    else
      ParentIsNode(w.docs, n);
      MatchesFrom(w, ns, alt, n.Parent().value, index - 1)
  }

  /** Whether an ancestor fewer than `k` hops down matches, the nearest asked first. */
  function SearchUp(w: World, ns: Namespaces, alt: Alternative, n: Node, k: nat, index: nat): Result<bool>
    requires IsNode(w.docs, n) && index < |alt.steps| && k <= |n.hops|
    decreases index, k + 1
  {
    if k == 0 then
      Ok(false)
    else
      var ancestor := Node(n.document, n.hops[..k - 1]);
      PrefixIsNode(w.docs, n, ancestor.hops);
      var found :- MatchesFrom(w, ns, alt, ancestor, index);
      if found then Ok(true) else SearchUp(w, ns, alt, n, k - 1, index)
  }

  function AlternativeMatches(w: World, ns: Namespaces, alt: Alternative, n: Node): Result<bool>
    requires IsNode(w.docs, n)
  {
    if alt.steps == [] then
      Ok(IsAnchorTarget(w, ns, alt.anchor, n))
    else
      MatchesFrom(w, ns, alt, n, |alt.steps| - 1)
  }

  /** Whether any alternative matches, asked in order. */
  function PatternMatches(w: World, ns: Namespaces, alternatives: seq<Alternative>, n: Node): Result<bool>
    requires IsNode(w.docs, n)
  {
    if alternatives == [] then
      Ok(false)
    else
      var first :- AlternativeMatches(w, ns, alternatives[0], n);
      if first then Ok(true) else PatternMatches(w, ns, alternatives[1..], n)
  }

  // --- The same as the walks that compute it --------------------------------------------------------

  method TestAnchor(w: World, ns: Namespaces, anchor: Anchor, n: Node, loose: bool) returns (r: bool)
    ensures r == AnchorHolds(w, ns, anchor, n, loose)
  {
    match anchor
    case Anywhere => r := true;
    case AtRoot => r := loose || n.Parent() == Some(n.RootNode());
    case AtId(id) =>
      var target := w.elementById(id);
      if target.None? {
        return false;
      }
      r := DescendsFrom(n, target.value, loose);
    case AtKey(name, value) =>
      var targets := KeyNodes(w, ns, name, value);
      for i := 0 to |targets|
        invariant forall target | target in targets[..i] :: !Descends(n, target, loose)
      {
        var descends := DescendsFrom(n, targets[i], loose);
        if descends {
          return true;
        }
        assert targets[..i + 1] == targets[..i] + [targets[i]];
      }
      assert targets[..|targets|] == targets;
      r := false;
  }

  /** The right-to-left walk: to the parent at each `/`, and through the ancestors at each `//`. */
  method MatchFrom(w: World, ns: Namespaces, alt: Alternative, n: Node, index: nat) returns (r: Result<bool>)
    requires IsNode(w.docs, n) && index < |alt.steps|
    ensures r == MatchesFrom(w, ns, alt, n, index)
    decreases index, 0
  {
    hide StepMatches, KeyNodes, AnchorHolds;
    var step := alt.steps[index];
    var passes :- StepMatches(w, ns, n, step);
    if !passes {
      return Ok(false);
    }
    if index == 0 {
      var holds := TestAnchor(w, ns, alt.anchor, n, step.afterAnyAncestor);
      return Ok(holds);
    }
    if step.afterAnyAncestor {
      r := SearchAncestors(w, ns, alt, n, index - 1);
      return;
    }
    if n.hops == [] {
      return Ok(false);
    }
    ParentIsNode(w.docs, n);
    r := MatchFrom(w, ns, alt, n.Parent().value, index - 1);
  }

  /** Tries the ancestors in turn, from the parent up, which is a search along one chain only. */
  method SearchAncestors(w: World, ns: Namespaces, alt: Alternative, n: Node, index: nat) returns (r: Result<bool>)
    requires IsNode(w.docs, n) && index < |alt.steps|
    ensures r == SearchUp(w, ns, alt, n, |n.hops|, index)
    decreases index, 1
  {
    hide StepMatches, AnchorHolds;
    var current := n.Parent();
    while current.Some?
      invariant current.Some? ==> |current.value.hops| < |n.hops|
                                  && current.value == Node(n.document, n.hops[..|current.value.hops|])
      invariant SearchUp(w, ns, alt, n, |n.hops|, index) ==
                SearchUp(w, ns, alt, n, if current.Some? then |current.value.hops| + 1 else 0, index)
      decreases if current.Some? then 1 + |current.value.hops| else 0
    {
      PrefixIsNode(w.docs, n, current.value.hops);
      var found :- MatchFrom(w, ns, alt, current.value, index);
      if found {
        return Ok(true);
      }
      current := current.value.Parent();
    }
    r := Ok(false);
  }

  // --- What a pattern means -------------------------------------------------------------------------

  /** `n` is selected by evaluating the steps from some node of `start`. */
  ghost predicate Forward(w: World, ns: Namespaces, steps: seq<Step>, start: iset<Node>, n: Node)
    decreases |steps|
  {
    if steps == [] then
      n in start
    else
      exists m :: IsNode(w.docs, m) && Forward(w, ns, steps[..|steps| - 1], start, m)
                  && SelectedBy(w, ns, steps[|steps| - 1], m, n)
  }

  ghost predicate SelectedBy(w: World, ns: Namespaces, step: Step, m: Node, n: Node)
    requires IsNode(w.docs, m)
  {
    Selected(w, ns, step, m).Ok? && n in Selected(w, ns, step, m).value
  }

  ghost function Members(nodes: seq<Node>): iset<Node> {
    iset x | x in nodes
  }

  /** Evaluating steps from a list of nodes is `Forward` from the set of them. */
  lemma {:induction false} ForwardIsEvaluation(w: World, ns: Namespaces, steps: seq<Step>, from: seq<Node>, n: Node)
    requires w.AreNodes(from) && StepsNodes(w, ns, steps, from).Ok?
    ensures n in StepsNodes(w, ns, steps, from).value <==> Forward(w, ns, steps, Members(from), n)
    decreases |steps|
  {
    hide Selected, NodesOf;
    if steps != [] {
      var init, last := steps[..|steps| - 1], steps[|steps| - 1];
      assert steps == init + [last];
      StepsNodesAppend(w, ns, init, [last], from);
      var reached := StepsNodes(w, ns, init, from).value;
      assert StepsNodes(w, ns, [last], reached) == StepNodes(w, ns, last, reached) by {
        assert [last][1..] == [];
      }
      forall m ensures m in reached <==> Forward(w, ns, init, Members(from), m) {
        ForwardIsEvaluation(w, ns, init, from, m);
      }
    }
  }

  /** Only the node a node hangs from can reach it by a step a pattern may hold. */
  lemma SelectedFromParent(w: World, ns: Namespaces, step: Step, m: Node, n: Node)
    requires ValidDocuments(w.docs) && IsNode(w.docs, m) && IsNode(w.docs, n)
    requires step.axis == Child || step.axis == Attribute
    requires TestIsBound(ns, step.test)
    ensures SelectedBy(w, ns, step, m, n) ==> n.Parent() == Some(m)
    ensures n.Parent() == Some(m) ==>
              (SelectedBy(w, ns, step, m, n)
               <==> StepMatches(w, ns, n, PatternStep(step.axis, step.test, step.predicates, false)) == Ok(true))
  {
    hide *;
    OnlyFromParent(w, ns, step, m, n);
    if n.Parent() == Some(m) {
      if step.predicates == [] {
        SelectedByTest(w, ns, step, m, n);
      } else {
        SelectedByPredicates(w, ns, step, m, n);
      }
    }
  }

  lemma OnlyFromParent(w: World, ns: Namespaces, step: Step, m: Node, n: Node)
    requires ValidDocuments(w.docs) && IsNode(w.docs, m) && IsNode(w.docs, n)
    requires step.axis == Child || step.axis == Attribute
    requires TestIsBound(ns, step.test)
    ensures SelectedBy(w, ns, step, m, n) ==> n.Parent() == Some(m)
  {
    AxisOrder(w.docs, m, step.axis);
    PassingMembers(w.docs, ns, AxisNodes(w.docs, m, step.axis), step.axis, step.test);
    if m.document == n.document && m.hops < n.hops && |n.hops| == |m.hops| + 1 {
      assert n.hops[..|n.hops| - 1] == m.hops;
    }
  }

  lemma SelectedByTest(w: World, ns: Namespaces, step: Step, m: Node, n: Node)
    requires ValidDocuments(w.docs) && IsNode(w.docs, m) && IsNode(w.docs, n) && n.Parent() == Some(m)
    requires step.axis == Child || step.axis == Attribute
    requires TestIsBound(ns, step.test) && step.predicates == []
    ensures SelectedBy(w, ns, step, m, n)
            <==> StepMatches(w, ns, n, PatternStep(step.axis, step.test, step.predicates, false)) == Ok(true)
  {
    AxisOrder(w.docs, m, step.axis);
    PassingMembers(w.docs, ns, AxisNodes(w.docs, m, step.axis), step.axis, step.test);
    ParentIsNode(w.docs, n);
    KindOfHop(w.docs, n);
  }

  lemma SelectedByPredicates(w: World, ns: Namespaces, step: Step, m: Node, n: Node)
    requires ValidDocuments(w.docs) && IsNode(w.docs, m) && IsNode(w.docs, n) && n.Parent() == Some(m)
    requires step.axis == Child || step.axis == Attribute
    requires TestIsBound(ns, step.test) && step.predicates != []
    ensures SelectedBy(w, ns, step, m, n)
            <==> StepMatches(w, ns, n, PatternStep(step.axis, step.test, step.predicates, false)) == Ok(true)
  {
    ParentIsNode(w.docs, n);
    StepFromOne(w, ns, step, m);
  }

  lemma StepFromOne(w: World, ns: Namespaces, step: Step, m: Node)
    requires IsNode(w.docs, m) && TestIsBound(ns, step.test)
    ensures StepNodes(w, ns, step, [m]).Ok?
    ensures forall x :: x in StepNodes(w, ns, step, [m]).value <==> SelectedBy(w, ns, step, m, x)
  {
  }

  /** Nothing, or one thing above or at the node: what `descendant-or-self::node()` connects. */
  predicate AtOrAbove(m: Node, n: Node) {
    m == n || (m.document == n.document && m.hops < n.hops && n.IsTreeNode())
  }

  lemma MarkerSelects(w: World, ns: Namespaces, marker: Step, m: Node, n: Node)
    requires IsNode(w.docs, m) && IsNode(w.docs, n) && IsAnyAncestorMarker(marker)
    ensures SelectedBy(w, ns, marker, m, n) <==> AtOrAbove(m, n)
  {
    AxisOrder(w.docs, m, DescendantOrSelf);
    PassingMembers(w.docs, ns, AxisNodes(w.docs, m, DescendantOrSelf), DescendantOrSelf, AnyNodeTest);
  }

  /** The node's ancestor-or-self that `k` hops lead to. */
  function Upto(n: Node, k: nat): Node
    requires k <= |n.hops|
  {
    Node(n.document, n.hops[..k])
  }

  /** Right to left: `n` matches the last step, and what it hangs from matches the steps before it. */
  ghost predicate Backward(w: World, ns: Namespaces, steps: seq<PatternStep>, start: iset<Node>, n: Node)
    requires IsNode(w.docs, n)
    decreases |steps|, 0
  {
    if steps == [] then
      n in start
    else
      var step := steps[|steps| - 1];
      && n.hops != []
      && StepMatches(w, ns, n, step) == Ok(true)
      && if step.afterAnyAncestor then BackwardAbove(w, ns, steps[..|steps| - 1], start, n, |n.hops| - 1)
         else IsNode(w.docs, n.Parent().value) && Backward(w, ns, steps[..|steps| - 1], start, n.Parent().value)
  }

  /** Some ancestor-or-self of `n` at most `k` hops down matches. */
  ghost predicate BackwardAbove(w: World, ns: Namespaces, steps: seq<PatternStep>, start: iset<Node>, n: Node, k: nat)
    requires IsNode(w.docs, n) && k <= |n.hops|
    decreases |steps|, 1
  {
    exists j | 0 <= j <= k :: IsNode(w.docs, Upto(n, j)) && Backward(w, ns, steps, start, Upto(n, j))
  }

  /** Every name test of the steps is in a namespace somebody bound. */
  predicate StepsAreBound(ns: Namespaces, steps: seq<Step>) {
    forall step | step in steps :: TestIsBound(ns, step.test)
  }

  /** The heart of it: walking a path forwards and its pattern backwards agree, whatever it starts from. */
  lemma {:induction false} BackwardIsForward(w: World, ns: Namespaces, steps: seq<Step>, start: iset<Node>, n: Node)
    requires ValidDocuments(w.docs) && IsNode(w.docs, n) && Scan(steps).Ok? && StepsAreBound(ns, steps)
    requires forall m | m in start :: IsNode(w.docs, m)
    ensures var (scanned, waiting) := Scan(steps).value;
            Forward(w, ns, steps, start, n) <==>
            if waiting then
              (n.IsTreeNode() && BackwardAbove(w, ns, scanned, start, n, |n.hops|)) || Backward(w, ns, scanned, start, n)
            else
              Backward(w, ns, scanned, start, n)
    decreases |steps|
  {
    hide StepMatches, Selected;
    if steps != [] {
      var init, last := steps[..|steps| - 1], steps[|steps| - 1];
      assert StepsAreBound(ns, init) && TestIsBound(ns, last.test);
      if IsAnyAncestorMarker(last) {
        MarkerCase(w, ns, steps, start, n);
      } else {
        StepCase(w, ns, steps, start, n);
      }
    }
  }

  lemma {:induction false} MarkerCase(w: World, ns: Namespaces, steps: seq<Step>, start: iset<Node>, n: Node)
    requires ValidDocuments(w.docs) && IsNode(w.docs, n) && Scan(steps).Ok? && StepsAreBound(ns, steps)
    requires forall m | m in start :: IsNode(w.docs, m)
    requires steps != [] && IsAnyAncestorMarker(steps[|steps| - 1])
    ensures Forward(w, ns, steps, start, n) <==>
            (n.IsTreeNode() && BackwardAbove(w, ns, Scan(steps).value.0, start, n, |n.hops|))
            || Backward(w, ns, Scan(steps).value.0, start, n)
    decreases |steps|, 0
  {
    hide StepMatches, Selected, Backward;
    var init, last := steps[..|steps| - 1], steps[|steps| - 1];
    var scanned := Scan(steps).value.0;
    assert Scan(init).Ok? && Scan(init).value.0 == scanned;
    forall m | IsNode(w.docs, m) ensures SelectedBy(w, ns, last, m, n) <==> AtOrAbove(m, n) {
      MarkerSelects(w, ns, last, m, n);
    }
    assert Upto(n, |n.hops|) == n;
    if Forward(w, ns, steps, start, n) {
      var m :| IsNode(w.docs, m) && Forward(w, ns, init, start, m) && SelectedBy(w, ns, last, m, n);
      BackwardIsForward(w, ns, init, start, m);
      UptoAncestor(m, n);
      if m != n && BackwardAbove(w, ns, scanned, start, m, |m.hops|) {
        StillAbove(w, ns, scanned, start, m, n);
      }
    }
    if n.IsTreeNode() && BackwardAbove(w, ns, scanned, start, n, |n.hops|) {
      var j :| 0 <= j <= |n.hops| && IsNode(w.docs, Upto(n, j)) && Backward(w, ns, scanned, start, Upto(n, j));
      var m := Upto(n, j);
      BackwardIsForward(w, ns, init, start, m);
      assert AtOrAbove(m, n);
    }
    if Backward(w, ns, scanned, start, n) {
      BackwardIsForward(w, ns, init, start, n);
      assert AtOrAbove(n, n);
    }
  }

  lemma StillAbove(w: World, ns: Namespaces, steps: seq<PatternStep>, start: iset<Node>, m: Node, n: Node)
    requires IsNode(w.docs, m) && IsNode(w.docs, n) && AtOrAbove(m, n) && BackwardAbove(w, ns, steps, start, m, |m.hops|)
    ensures BackwardAbove(w, ns, steps, start, n, |n.hops|)
  {
    hide Backward, IsNode;
    UptoAncestor(m, n);
    var j :| 0 <= j <= |m.hops| && IsNode(w.docs, Upto(m, j)) && Backward(w, ns, steps, start, Upto(m, j));
    assert Upto(m, j) == Upto(n, j);
  }

  lemma UptoAncestor(m: Node, n: Node)
    ensures AtOrAbove(m, n) ==> |m.hops| <= |n.hops| && m == Upto(n, |m.hops|)
  {
  }

  lemma {:induction false} StepCase(w: World, ns: Namespaces, steps: seq<Step>, start: iset<Node>, n: Node)
    requires ValidDocuments(w.docs) && IsNode(w.docs, n) && Scan(steps).Ok? && StepsAreBound(ns, steps)
    requires forall m | m in start :: IsNode(w.docs, m)
    requires steps != [] && !IsAnyAncestorMarker(steps[|steps| - 1])
    ensures Forward(w, ns, steps, start, n) <==> Backward(w, ns, Scan(steps).value.0, start, n)
    decreases |steps|, 0
  {
    hide StepMatches, Selected;
    var init, last := steps[..|steps| - 1], steps[|steps| - 1];
    var (before, waiting) := Scan(init).value;
    var scanned := Scan(steps).value.0;
    var step := PatternStep(last.axis, last.test, last.predicates, waiting);
    assert scanned == before + [step] && scanned[..|scanned| - 1] == before;
    assert TestIsBound(ns, last.test);
    SelectedOnlyFromParent(w, ns, last, step, n);
    if n.hops != [] {
      ParentIsNode(w.docs, n);
      var p := n.Parent().value;
      assert StepsAreBound(ns, init);
      BackwardIsForward(w, ns, init, start, p);
      ParentIsTreeNode(w.docs, n);
      AboveParent(w, ns, before, start, n);
      hide TestIsBound, StepsAreBound;
      assert Upto(p, |p.hops|) == p;
    }
  }

  /** What is above a node is its parent and what is above that. */
  lemma AboveParent(w: World, ns: Namespaces, steps: seq<PatternStep>, start: iset<Node>, n: Node)
    requires IsNode(w.docs, n) && n.hops != [] && IsNode(w.docs, n.Parent().value)
    ensures BackwardAbove(w, ns, steps, start, n, |n.hops| - 1)
       <==> BackwardAbove(w, ns, steps, start, n.Parent().value, |n.hops| - 1)
  {
    hide Backward, IsNode;
    var p := n.Parent().value;
    assert forall j | 0 <= j <= |p.hops| :: Upto(n, j) == Upto(p, j);
  }

  lemma SelectedOnlyFromParent(w: World, ns: Namespaces, last: Step, step: PatternStep, n: Node)
    requires ValidDocuments(w.docs) && IsNode(w.docs, n) && TestIsBound(ns, last.test)
    requires last.axis in {Child, Attribute}
    requires step == PatternStep(last.axis, last.test, last.predicates, step.afterAnyAncestor)
    ensures forall m | IsNode(w.docs, m) ::
              SelectedBy(w, ns, last, m, n) <==> n.Parent() == Some(m) && StepMatches(w, ns, n, step) == Ok(true)
  {
    hide StepMatches, Selected;
    forall m | IsNode(w.docs, m)
      ensures SelectedBy(w, ns, last, m, n) <==> n.Parent() == Some(m) && StepMatches(w, ns, n, step) == Ok(true)
    {
      SelectedFromParent(w, ns, last, m, n);
      MarkDoesNotMatter(w, ns, n, step);
    }
  }

  lemma MarkDoesNotMatter(w: World, ns: Namespaces, n: Node, step: PatternStep)
    requires IsNode(w.docs, n)
    ensures StepMatches(w, ns, n, step) == StepMatches(w, ns, n, step.(afterAnyAncestor := false))
  {
  }

  lemma ParentIsTreeNode(docs: Documents, n: Node)
    requires ValidDocuments(docs) && IsNode(docs, n) && n.hops != []
    ensures n.Parent().value.IsTreeNode()
  {
    ParentIsNode(docs, n);
    KindOfHop(docs, n.Parent().value);
  }

  // --- The anchor -----------------------------------------------------------------------------------

  /** Where the path of an alternative may start, for a node whose ancestors-or-self are tried. */
  ghost function StartOf(w: World, ns: Namespaces, anchor: Anchor, at: Node): iset<Node> {
    match anchor
    case Anywhere => iset m: Node | m.document == at.document && m.hops <= at.hops
    case AtRoot => iset{at.RootNode()}
    case AtId(id) => iset m | w.elementById(id) == Some(m)
    case AtKey(name, value) => Members(KeyNodes(w, ns, name, value))
  }

  predicate PatternStepsAreBound(ns: Namespaces, steps: seq<PatternStep>) {
    forall step | step in steps :: TestIsBound(ns, step.test)
  }

  /** With its prefixes bound a step always answers, and only nodes with a parent match one. */
  lemma StepAnswers(w: World, ns: Namespaces, n: Node, step: PatternStep)
    requires ValidDocuments(w.docs) && IsNode(w.docs, n) && TestIsBound(ns, step.test)
    ensures StepMatches(w, ns, n, step).Ok?
    ensures StepMatches(w, ns, n, step) == Ok(true) ==> n.hops != []
  {
    KindOfHop(w.docs, n);
    if n.hops != [] && step.predicates != [] {
      ParentIsNode(w.docs, n);
      StepFromOne(w, ns, Step(step.axis, step.test, step.predicates), n.Parent().value);
    }
  }

  /** The leftmost step and the anchor: what is asked is whether the path may start above the node. */
  lemma AnchorIsStart(w: World, ns: Namespaces, anchor: Anchor, n: Node, at: Node, loose: bool)
    requires IsNode(w.docs, n) && n.hops != [] && n.document == at.document && n.hops <= at.hops
    ensures IsNode(w.docs, n.Parent().value)
    ensures !loose ==> (AnchorHolds(w, ns, anchor, n, loose) <==> n.Parent().value in StartOf(w, ns, anchor, at))
    ensures loose ==> (AnchorHolds(w, ns, anchor, n, loose)
                       <==> BackwardAbove(w, ns, [], StartOf(w, ns, anchor, at), n, |n.hops| - 1))
  {
    ParentIsNode(w.docs, n);
    forall j | 0 <= j < |n.hops| ensures IsNode(w.docs, Upto(n, j)) {
      PrefixIsNode(w.docs, n, n.hops[..j]);
    }
    forall m: Node ensures m.document == n.document && m.hops < n.hops
                           <==> exists j :: 0 <= j <= |n.hops| - 1 && m == Upto(n, j) {
      if m.document == n.document && m.hops < n.hops {
        assert m == Upto(n, |m.hops|);
      }
    }
    if loose {
      var start := StartOf(w, ns, anchor, at);
      assert BackwardAbove(w, ns, [], start, n, |n.hops| - 1)
             <==> exists m: Node :: m.document == n.document && m.hops < n.hops && m in start;
      assert Upto(n, 0) == n.RootNode() && Upto(n, 0).hops < n.hops && Upto(n, 0).hops <= at.hops;
    }
  }

  /** The walk from the step at `index` is `Backward` over the steps up to it. */
  lemma {:induction false} MatchesFromIsBackward(w: World, ns: Namespaces, alt: Alternative, n: Node, index: nat, at: Node)
    requires ValidDocuments(w.docs) && IsNode(w.docs, n) && index < |alt.steps|
    requires PatternStepsAreBound(ns, alt.steps) && n.document == at.document && n.hops <= at.hops
    ensures MatchesFrom(w, ns, alt, n, index).Ok?
    ensures MatchesFrom(w, ns, alt, n, index) == Ok(true)
            <==> Backward(w, ns, alt.steps[..index + 1], StartOf(w, ns, alt.anchor, at), n)
    decreases index, 0
  {
    hide StepMatches, AnchorHolds, StartOf;
    var step, init := alt.steps[index], alt.steps[..index];
    assert alt.steps[..index + 1][..index] == init;
    StepAnswers(w, ns, n, step);
    if StepMatches(w, ns, n, step) == Ok(true) {
      ParentIsNode(w.docs, n);
      if index == 0 {
        AnchorIsStart(w, ns, alt.anchor, n, at, step.afterAnyAncestor);
      } else if step.afterAnyAncestor {
        SearchUpIsBackward(w, ns, alt, n, |n.hops|, index - 1, at);
      } else {
        MatchesFromIsBackward(w, ns, alt, n.Parent().value, index - 1, at);
      }
    }
  }

  lemma {:induction false} SearchUpIsBackward(w: World, ns: Namespaces, alt: Alternative, n: Node, k: nat, index: nat, at: Node)
    requires ValidDocuments(w.docs) && IsNode(w.docs, n) && index < |alt.steps| && k <= |n.hops|
    requires PatternStepsAreBound(ns, alt.steps) && n.document == at.document && n.hops <= at.hops
    ensures SearchUp(w, ns, alt, n, k, index).Ok?
    ensures SearchUp(w, ns, alt, n, k, index) == Ok(true)
            <==> k > 0 && BackwardAbove(w, ns, alt.steps[..index + 1], StartOf(w, ns, alt.anchor, at), n, k - 1)
    decreases index, k + 1
  {
    hide MatchesFrom, StartOf, Backward;
    if k > 0 {
      var ancestor := Upto(n, k - 1);
      PrefixIsNode(w.docs, n, ancestor.hops);
      MatchesFromIsBackward(w, ns, alt, ancestor, index, at);
      SearchUpIsBackward(w, ns, alt, n, k - 1, index, at);
    }
  }

  // --- Section 5.2 ------------------------------------------------------------------------------------

  /** Section 5.2: there is a context, the node or one above it, from which `e` yields the node. */
  ghost predicate SelectedFromAbove(w: World, ns: Namespaces, e: Expr, n: Node)
    requires w.Valid() && IsNode(w.docs, n)
  {
    exists k | 0 <= k <= |n.hops| :: SelectedFrom(w, ns, e, Upto(n, k), n)
  }

  ghost predicate SelectedFrom(w: World, ns: Namespaces, e: Expr, context: Node, n: Node)
    requires w.Valid()
  {
    IsNode(w.docs, context)
    && var r := NodesOf(w, ns, e, Focus(context, 1, 1)); r.Ok? && n in r.value
  }

  /** A node is selected from a set when it is selected from one of its members. */
  lemma {:induction false} ForwardFromOne(w: World, ns: Namespaces, steps: seq<Step>, start: iset<Node>, n: Node)
    ensures Forward(w, ns, steps, start, n) <==> exists a :: a in start && Forward(w, ns, steps, iset{a}, n)
    decreases |steps|
  {
    if steps != [] {
      var init := steps[..|steps| - 1];
      forall m ensures Forward(w, ns, init, start, m) <==> exists a :: a in start && Forward(w, ns, init, iset{a}, m) {
        ForwardFromOne(w, ns, init, start, m);
      }
      hide Selected;
      if Forward(w, ns, steps, start, n) {
        var m :| IsNode(w.docs, m) && Forward(w, ns, init, start, m) && SelectedBy(w, ns, steps[|steps| - 1], m, n);
        var a :| a in start && Forward(w, ns, init, iset{a}, m);
        assert Forward(w, ns, steps, iset{a}, n);
      }
      if a :| a in start && Forward(w, ns, steps, iset{a}, n) {
        var m :| IsNode(w.docs, m) && Forward(w, ns, init, iset{a}, m) && SelectedBy(w, ns, steps[|steps| - 1], m, n);
        assert Forward(w, ns, init, start, m);
      }
    }
  }

  /** What a pattern's expression may look like coming from the parser, with every prefix in it bound. */
  predicate IsBoundPattern(ns: Namespaces, e: Expr) {
    match e
    case Binary(Union, left, right) => IsBoundPattern(ns, left) && IsBoundPattern(ns, right)
    case PathExpr(path) =>
      && StepsAreBound(ns, path.steps)
      && (path.start.ContextStart? ==> path.steps != [])
      && (path.start.ExprStart? ==> IsBoundAnchor(ns, path.start.expr))
    case _ => IsBoundAnchor(ns, e)
  }

  predicate IsBoundAnchor(ns: Namespaces, e: Expr) {
    AnchorOf(e).Ok? && AnchorOf(e).value.AtKey? ==> Expanded(ns, AnchorOf(e).value.name).Ok?
  }

  /** The literals a pattern gives to `id()`. */
  function IdsOf(e: Expr): set<string> {
    match e
    case Binary(Union, left, right) => IdsOf(left) + IdsOf(right)
    case PathExpr(path) => if path.start.ExprStart? then AnchorIds(path.start.expr) else {}
    case _ => AnchorIds(e)
  }

  function AnchorIds(e: Expr): set<string> {
    match AnchorOf(e)
    case Ok(AtId(id)) => {id}
    case _ => {}
  }

  /** The one element looked up for a pattern is all that `id()` would find. */
  ghost predicate IdAgrees(w: World, id: string) {
    forall m :: w.elementById(id) == Some(m) <==> m in IdNodes(w, id)
  }

  /** What an anchor's expression yields, from any context, is the anchor's start. */
  lemma AnchorYields(w: World, ns: Namespaces, e: Expr, context: Node, n: Node)
    requires w.Valid() && IsNode(w.docs, context) && AnchorOf(e).Ok? && IsBoundAnchor(ns, e)
    requires forall id | id in AnchorIds(e) :: IdAgrees(w, id)
    ensures NodesOf(w, ns, e, Focus(context, 1, 1)).Ok?
    ensures forall m :: m in NodesOf(w, ns, e, Focus(context, 1, 1)).value <==> m in StartOf(w, ns, AnchorOf(e).value, n)
  {
    match AnchorOf(e).value
    case AtId(id) =>
      assert id in AnchorIds(e) && NodesOf(w, ns, e, Focus(context, 1, 1)) == Ok(IdNodes(w, id));
    case AtKey(name, value) =>
      assert NodesOf(w, ns, e, Focus(context, 1, 1)) == Ok(Normalize(KeyNodes(w, ns, name, value)));
  }

  lemma {:induction false} ScanKeepsBound(ns: Namespaces, steps: seq<Step>)
    requires Scan(steps).Ok? && StepsAreBound(ns, steps)
    ensures PatternStepsAreBound(ns, Scan(steps).value.0)
    ensures steps != [] && !Scan(steps).value.1 ==> Scan(steps).value.0 != []
    decreases |steps|
  {
    if steps != [] {
      ScanKeepsBound(ns, steps[..|steps| - 1]);
    }
  }

  /** With its prefixes bound a path never raises, whatever it walks from. */
  lemma {:induction false} BoundStepsAnswer(w: World, ns: Namespaces, steps: seq<Step>, from: seq<Node>)
    requires w.AreNodes(from) && StepsAreBound(ns, steps)
    ensures StepsNodes(w, ns, steps, from).Ok?
    decreases |steps|
  {
    if steps != [] {
      BoundStepsAnswer(w, ns, steps[1..], StepNodes(w, ns, steps[0], from).value);
    }
  }

  /** Where a path starts when it is evaluated from a context. */
  function StartNodes(w: World, ns: Namespaces, path: Path, context: Node): (r: Result<seq<Node>>)
    requires w.Valid() && IsNode(w.docs, context)
    ensures r.Ok? ==> w.AreNodes(r.value)
  {
    match path.start
    case RootStart => Ok([context.RootNode()])
    case ContextStart => Ok([context])
    case ExprStart(e) => NodesOf(w, ns, e, Focus(context, 1, 1))
  }

  lemma PathSelects(w: World, ns: Namespaces, path: Path, context: Node, n: Node)
    requires w.Valid() && IsNode(w.docs, context) && StepsAreBound(ns, path.steps)
    requires StartNodes(w, ns, path, context).Ok?
    ensures NodesOf(w, ns, PathExpr(path), Focus(context, 1, 1)).Ok?
    ensures SelectedFrom(w, ns, PathExpr(path), context, n)
            <==> Forward(w, ns, path.steps, Members(StartNodes(w, ns, path, context).value), n)
  {
    hide StepNodes;
    var from := StartNodes(w, ns, path, context).value;
    BoundStepsAnswer(w, ns, path.steps, from);
    ForwardIsEvaluation(w, ns, path.steps, from, n);
  }

  /** Right to left, a path pattern matches just what walking its steps from the anchor's set reaches. */
  lemma PathMatches(w: World, ns: Namespaces, path: Path, n: Node)
    requires w.Valid() && IsNode(w.docs, n)
    requires AlternativeOf(PathExpr(path)).Ok? && IsBoundPattern(ns, PathExpr(path))
    ensures var alt := AlternativeOf(PathExpr(path)).value;
            AlternativeMatches(w, ns, alt, n).Ok? &&
            (AlternativeMatches(w, ns, alt, n) == Ok(true) <==> Forward(w, ns, path.steps, StartOf(w, ns, alt.anchor, n), n))
  {
    hide StepMatches, NodesOf, Forward, MatchesFrom, AnchorHolds;
    var alt := AlternativeOf(PathExpr(path)).value;
    var start := StartOf(w, ns, alt.anchor, n);
    StartIsValid(w, ns, alt.anchor, n);
    ScanKeepsBound(ns, path.steps);
    if alt.steps == [] {
      StepsOfNothing(path.steps);
      NothingToWalk(w, ns, start, n);
      assert path.start.RootStart? ==> alt.anchor == AtRoot;
    } else {
      BackwardIsForward(w, ns, path.steps, start, n);
      MatchesFromIsBackward(w, ns, alt, n, |alt.steps| - 1, n);
      assert alt.steps[..|alt.steps|] == alt.steps;
    }
  }

  /** A path pattern means what section 5.2 says. */
  lemma PathMeaning(w: World, ns: Namespaces, path: Path, n: Node)
    requires w.Valid() && IsNode(w.docs, n)
    requires AlternativeOf(PathExpr(path)).Ok? && IsBoundPattern(ns, PathExpr(path))
    requires forall id | id in IdsOf(PathExpr(path)) :: IdAgrees(w, id)
    ensures var alt := AlternativeOf(PathExpr(path)).value;
            AlternativeMatches(w, ns, alt, n).Ok? &&
            (AlternativeMatches(w, ns, alt, n) == Ok(true) <==> SelectedFromAbove(w, ns, PathExpr(path), n))
    ensures forall context | IsNode(w.docs, context) :: NodesOf(w, ns, PathExpr(path), Focus(context, 1, 1)).Ok?
  {
    hide StepMatches, NodesOf, Forward, MatchesFrom, AnchorHolds, AlternativeMatches;
    PathMatches(w, ns, path, n);
    forall k | 0 <= k <= |n.hops| ensures IsNode(w.docs, Upto(n, k)) {
      PrefixIsNode(w.docs, n, n.hops[..k]);
    }
    forall context | IsNode(w.docs, context)
      ensures NodesOf(w, ns, PathExpr(path), Focus(context, 1, 1)).Ok?
      ensures StartNodes(w, ns, path, context).Ok?
      ensures SelectedFrom(w, ns, PathExpr(path), context, n)
              <==> Forward(w, ns, path.steps, Members(StartNodes(w, ns, path, context).value), n)
    {
      if path.start.ExprStart? {
        AnchorYields(w, ns, path.start.expr, context, n);
      }
      PathSelects(w, ns, path, context, n);
    }
    ForwardFromAbove(w, ns, path, n);
  }

  lemma NothingToWalk(w: World, ns: Namespaces, start: iset<Node>, n: Node)
    ensures Forward(w, ns, [], start, n) <==> n in start
  {
  }

  lemma StepsOfNothing(steps: seq<Step>)
    requires Scan(steps).Ok? && !Scan(steps).value.1 && Scan(steps).value.0 == []
    ensures steps == []
  {
  }

  lemma StartIsValid(w: World, ns: Namespaces, anchor: Anchor, n: Node)
    requires w.Valid() && IsNode(w.docs, n)
    ensures forall m | m in StartOf(w, ns, anchor, n) :: IsNode(w.docs, m)
  {
    forall m: Node | m.document == n.document && m.hops <= n.hops ensures IsNode(w.docs, m) {
      PrefixIsNode(w.docs, n, m.hops);
    }
  }

  /** Trying every ancestor-or-self as the context is starting from the anchor's set. */
  lemma ForwardFromAbove(w: World, ns: Namespaces, path: Path, n: Node)
    requires w.Valid() && IsNode(w.docs, n)
    requires AlternativeOf(PathExpr(path)).Ok? && IsBoundPattern(ns, PathExpr(path))
    requires forall id | id in IdsOf(PathExpr(path)) :: IdAgrees(w, id)
    requires forall k | 0 <= k <= |n.hops| :: IsNode(w.docs, Upto(n, k)) && StartNodes(w, ns, path, Upto(n, k)).Ok?
    ensures (exists k | 0 <= k <= |n.hops| ::
               Forward(w, ns, path.steps, Members(StartNodes(w, ns, path, Upto(n, k)).value), n))
            <==> Forward(w, ns, path.steps, StartOf(w, ns, AlternativeOf(PathExpr(path)).value.anchor, n), n)
  {
    hide Forward;
    var start := StartOf(w, ns, AlternativeOf(PathExpr(path)).value.anchor, n);
    if path.start.ContextStart? {
      ForwardFromOne(w, ns, path.steps, start, n);
      forall k | 0 <= k <= |n.hops| ensures Members(StartNodes(w, ns, path, Upto(n, k)).value) == iset{Upto(n, k)} {
      }
      forall a | a in start ensures a == Upto(n, |a.hops|) {
      }
    } else {
      forall k | 0 <= k <= |n.hops| ensures Members(StartNodes(w, ns, path, Upto(n, k)).value) == start {
        if path.start.ExprStart? {
          AnchorYields(w, ns, path.start.expr, Upto(n, k), n);
        }
      }
      assert Members(StartNodes(w, ns, path, Upto(n, 0)).value) == start;
    }
  }

  lemma AnchorMeaning(w: World, ns: Namespaces, e: Expr, n: Node)
    requires w.Valid() && IsNode(w.docs, n)
    requires e.Function? && AnchorOf(e).Ok? && IsBoundAnchor(ns, e)
    requires forall id | id in AnchorIds(e) :: IdAgrees(w, id)
    ensures IsAnchorTarget(w, ns, AnchorOf(e).value, n) <==> SelectedFromAbove(w, ns, e, n)
    ensures forall context | IsNode(w.docs, context) :: NodesOf(w, ns, e, Focus(context, 1, 1)).Ok?
  {
    hide NodesOf;
    forall context | IsNode(w.docs, context)
      ensures NodesOf(w, ns, e, Focus(context, 1, 1)).Ok?
      ensures forall m :: m in NodesOf(w, ns, e, Focus(context, 1, 1)).value <==> m in StartOf(w, ns, AnchorOf(e).value, n)
    {
      AnchorYields(w, ns, e, context, n);
    }
    assert Upto(n, |n.hops|) == n;
    assert IsAnchorTarget(w, ns, AnchorOf(e).value, n) <==> n in StartOf(w, ns, AnchorOf(e).value, n);
    assert SelectedFrom(w, ns, e, Upto(n, |n.hops|), n) <==> n in StartOf(w, ns, AnchorOf(e).value, n);
  }

  /**
   A node matches a pattern exactly when evaluating the pattern from some ancestor-or-self of the
   node selects it (section 5.2 of XSLT 1.0).
   */
  lemma {:induction false} PatternMeaning(w: World, ns: Namespaces, e: Expr, n: Node)
    requires w.Valid() && IsNode(w.docs, n)
    requires Alternatives(e).Ok? && IsBoundPattern(ns, e)
    requires forall id | id in IdsOf(e) :: IdAgrees(w, id)
    ensures PatternMatches(w, ns, Alternatives(e).value, n).Ok?
    ensures PatternMatches(w, ns, Alternatives(e).value, n) == Ok(true) <==> SelectedFromAbove(w, ns, e, n)
    ensures forall context | IsNode(w.docs, context) :: NodesOf(w, ns, e, Focus(context, 1, 1)).Ok?
  {
    hide AlternativeMatches, SelectedFromAbove, NodesOf;
    if e.Binary? && e.op.Union? {
      PatternMeaning(w, ns, e.left, n);
      PatternMeaning(w, ns, e.right, n);
      MatchesEither(w, ns, Alternatives(e.left).value, Alternatives(e.right).value, n);
      UnionSelects(w, ns, e, n);
    } else {
      MatchesOne(w, ns, AlternativeOf(e).value, n);
      if e.PathExpr? {
        PathMeaning(w, ns, e.path, n);
      } else {
        FunctionMatches(w, ns, e, n);
        AnchorMeaning(w, ns, e, n);
      }
    }
  }

  lemma MatchesOne(w: World, ns: Namespaces, alt: Alternative, n: Node)
    requires IsNode(w.docs, n)
    ensures PatternMatches(w, ns, [alt], n) == AlternativeMatches(w, ns, alt, n)
  {
    hide AlternativeMatches;
    assert [alt][1..] == [];
    assert PatternMatches(w, ns, [], n) == Ok(false);
  }

  lemma FunctionMatches(w: World, ns: Namespaces, e: Expr, n: Node)
    requires IsNode(w.docs, n) && e.Function? && AnchorOf(e).Ok?
    ensures AlternativeMatches(w, ns, AlternativeOf(e).value, n) == Ok(IsAnchorTarget(w, ns, AnchorOf(e).value, n))
  {
  }

  lemma {:induction false} MatchesEither(w: World, ns: Namespaces, a: seq<Alternative>, b: seq<Alternative>, n: Node)
    requires IsNode(w.docs, n) && PatternMatches(w, ns, a, n).Ok? && PatternMatches(w, ns, b, n).Ok?
    ensures PatternMatches(w, ns, a + b, n)
            == Ok(PatternMatches(w, ns, a, n).value || PatternMatches(w, ns, b, n).value)
    decreases |a|
  {
    hide AlternativeMatches;
    if a == [] {
      assert a + b == b;
    } else {
      assert (a + b)[1..] == a[1..] + b;
      if AlternativeMatches(w, ns, a[0], n) == Ok(false) {
        MatchesEither(w, ns, a[1..], b, n);
      }
    }
  }

  lemma UnionSelects(w: World, ns: Namespaces, e: Expr, n: Node)
    requires w.Valid() && IsNode(w.docs, n) && e.Binary? && e.op.Union?
    requires forall context | IsNode(w.docs, context) ::
               NodesOf(w, ns, e.left, Focus(context, 1, 1)).Ok? && NodesOf(w, ns, e.right, Focus(context, 1, 1)).Ok?
    ensures SelectedFromAbove(w, ns, e, n)
            <==> SelectedFromAbove(w, ns, e.left, n) || SelectedFromAbove(w, ns, e.right, n)
    ensures forall context | IsNode(w.docs, context) :: NodesOf(w, ns, e, Focus(context, 1, 1)).Ok?
  {
    forall context | IsNode(w.docs, context)
      ensures NodesOf(w, ns, e, Focus(context, 1, 1)).Ok?
      ensures SelectedFrom(w, ns, e, context, n)
              <==> SelectedFrom(w, ns, e.left, context, n) || SelectedFrom(w, ns, e.right, context, n)
    {
    }
  }

  // --- Where `id()` in a pattern departs from `id()` in an expression -----------------------------------

  /** An element is only ever found by a token, which is all an ID attribute can hold. */
  ghost predicate IdsAreTokens(w: World) {
    forall id :: w.elementById(id).Some? ==> IsToken(id)
  }

  lemma {:induction false} TokensAreTokens(text: string, token: string)
    requires token == [] || IsToken(token)
    ensures forall t | t in TokensFrom(text, token) :: IsToken(t)
    decreases |text|
  {
    if text != [] {
      TokensAreTokens(text[1..], if IsWhitespace(text[0]) then [] else token + [text[0]]);
    }
  }

  /** The literal finds just the element its tokens find, or neither finds any. */
  ghost predicate FindTheSame(w: World, id: string) {
    match w.elementById(id)
    case None => forall t | t in Tokens(id) :: w.elementById(t).None?
    case Some(m) =>
      && (exists t | t in Tokens(id) :: w.elementById(t) == Some(m))
      && forall t | t in Tokens(id) :: w.elementById(t).Some? ==> w.elementById(t) == Some(m)
  }

  /** A pattern looks the whole literal up where an expression looks up each token of it: they agree exactly then. */
  lemma IdAgreesExactly(w: World, id: string)
    ensures IdAgrees(w, id) <==> FindTheSame(w, id)
  {
    if IdAgrees(w, id) {
      forall t | t in Tokens(id) && w.elementById(t).Some? ensures w.elementById(id) == w.elementById(t) {
        assert w.elementById(t).value in IdNodes(w, id);
      }
      if w.elementById(id).Some? {
        assert w.elementById(id).value in IdNodes(w, id);
      }
    }
  }

  /** Where only tokens name elements, that is when the literal is one token, or none of its tokens names one. */
  lemma FindTheSameForTokens(w: World, id: string)
    requires IdsAreTokens(w)
    ensures FindTheSame(w, id) <==> IsToken(id) || forall t | t in Tokens(id) :: w.elementById(t).None?
  {
    TokensAreTokens(id, []);
    if IsToken(id) {
      OneToken(id, []);
      assert [] + id == id;
    }
  }

  /** So `id(...)` as a pattern means what section 5.2 says on every node under just that condition. */
  lemma IdPatternMeaning(w: World, ns: Namespaces, id: string)
    requires w.Valid()
    ensures var e := Function(None, "id", [Literal(id)]);
            Alternatives(e).Ok? &&
            ((forall n | IsNode(w.docs, n) ::
                PatternMatches(w, ns, Alternatives(e).value, n) == Ok(true) <==> SelectedFromAbove(w, ns, e, n))
             <==> FindTheSame(w, id))
  {
    var e := Function(None, "id", [Literal(id)]);
    IdAgreesExactly(w, id);
    if IdAgrees(w, id) {
      forall n | IsNode(w.docs, n) ensures PatternMatches(w, ns, Alternatives(e).value, n) == Ok(true) <==> SelectedFromAbove(w, ns, e, n) {
        PatternMeaning(w, ns, e, n);
      }
    } else {
      var n :| (w.elementById(id) == Some(n)) != (n in IdNodes(w, id));
      IdDisagreesThere(w, ns, id, n);
    }
  }

  /** What the whole literal finds. */
  ghost function Looked(w: World, id: string): iset<Node> {
    iset m | w.elementById(id) == Some(m)
  }

  /**
   With steps after it, `id(...)` as a pattern matches what walking them from the element the literal
   finds reaches, and selects what walking them from those its tokens find does: on a node the two
   agree exactly when both walks reach it or neither does.
   */
  lemma IdPathMeaning(w: World, ns: Namespaces, id: string, steps: seq<Step>, n: Node)
    requires w.Valid() && IsNode(w.docs, n) && StepsAreBound(ns, steps)
    requires AlternativeOf(PathExpr(Path(ExprStart(Function(None, "id", [Literal(id)])), steps))).Ok?
    ensures var e := PathExpr(Path(ExprStart(Function(None, "id", [Literal(id)])), steps));
            && AlternativeMatches(w, ns, AlternativeOf(e).value, n).Ok?
            && (AlternativeMatches(w, ns, AlternativeOf(e).value, n) == Ok(true) <==> Forward(w, ns, steps, Looked(w, id), n))
            && (SelectedFromAbove(w, ns, e, n) <==> Forward(w, ns, steps, Members(IdNodes(w, id)), n))
  {
    var start := Function(None, "id", [Literal(id)]);
    var path := Path(ExprStart(start), steps);
    assert AnchorOf(start) == Ok(AtId(id));
    PathMatches(w, ns, path, n);
    assert StartOf(w, ns, AtId(id), n) == Looked(w, id);
    hide Forward, AlternativeMatches, AlternativeOf;
    forall k | 0 <= k <= |n.hops|
      ensures IsNode(w.docs, Upto(n, k))
      ensures SelectedFrom(w, ns, PathExpr(path), Upto(n, k), n) <==> Forward(w, ns, steps, Members(IdNodes(w, id)), n)
    {
      PrefixIsNode(w.docs, n, n.hops[..k]);
      assert NodesOf(w, ns, start, Focus(Upto(n, k), 1, 1)) == Ok(IdNodes(w, id));
      PathSelects(w, ns, path, Upto(n, k), n);
    }
    assert SelectedFrom(w, ns, PathExpr(path), Upto(n, 0), n) <==> Forward(w, ns, steps, Members(IdNodes(w, id)), n);
  }

  lemma IdDisagreesThere(w: World, ns: Namespaces, id: string, n: Node)
    requires w.Valid() && (w.elementById(id) == Some(n)) != (n in IdNodes(w, id))
    ensures var e := Function(None, "id", [Literal(id)]);
            && IsNode(w.docs, n) && Alternatives(e).Ok?
            && (PatternMatches(w, ns, Alternatives(e).value, n) == Ok(true)) != SelectedFromAbove(w, ns, e, n)
  {
    var e := Function(None, "id", [Literal(id)]);
    assert Upto(n, |n.hops|) == n;
    forall context | IsNode(w.docs, context) ensures NodesOf(w, ns, e, Focus(context, 1, 1)) == Ok(IdNodes(w, id)) {
    }
    assert SelectedFrom(w, ns, e, Upto(n, |n.hops|), n) <==> n in IdNodes(w, id);
    MatchesOne(w, ns, AlternativeOf(e).value, n);
    FunctionMatches(w, ns, e, n);
  }

  /** A document with one element, which the id `x` names. */
  function SampleWorld(): World {
    World([Root([Element(ExpandedName(None, "a"), [], [], [])])], (e, f) => true, (p, l) => None, (e, f) => None,
          id => if id == "x" then Some(Node(0, [ChildHop(0)])) else None, (p, l, v) => [])
  }

  lemma SampleWorldIsValid()
    ensures SampleWorld().Valid() && IdsAreTokens(SampleWorld()) && IsNode(SampleWorld().docs, Node(0, [ChildHop(0)]))
  {
    var w, n := SampleWorld(), Node(0, [ChildHop(0)]);
    assert w.docs[0].Kids()[0].Inner();
    assert n.hops[1..] == [] && ItemAt(w.docs[0].Kids()[0], []).Some?;
  }

  /** `id('x y')` selects the element but, as a pattern, matches no node at all. */
  lemma TwoIdsInAPattern(n: Node)
    requires IsNode(SampleWorld().docs, n)
    ensures var w, e := SampleWorld(), Function(None, "id", [Literal("x y")]);
            && w.Valid() && Alternatives(e).Ok?
            && PatternMatches(w, map[], Alternatives(e).value, n) == Ok(false)
            && (SelectedFromAbove(w, map[], e, n) <==> n == Node(0, [ChildHop(0)]))
  {
    SampleWorldIsValid();
    TwoIdsMatchNothing(n);
    TwoIdsSelect(n);
  }

  lemma TwoIdsMatchNothing(n: Node)
    requires IsNode(SampleWorld().docs, n)
    ensures var e := Function(None, "id", [Literal("x y")]);
            Alternatives(e).Ok? && PatternMatches(SampleWorld(), map[], Alternatives(e).value, n) == Ok(false)
  {
    var w, e := SampleWorld(), Function(None, "id", [Literal("x y")]);
    assert w.elementById("x y") == None;
    assert AnchorOf(e) == Ok(AtId("x y")) && Alternatives(e) == Ok([AlternativeOf(e).value]);
    hide AlternativeMatches, PatternMatches, IsNode, Alternatives, AlternativeOf;
    MatchesOne(w, map[], AlternativeOf(e).value, n);
    FunctionMatches(w, map[], e, n);
  }

  lemma TwoIdsSelect(n: Node)
    requires SampleWorld().Valid() && IsNode(SampleWorld().docs, n)
    ensures SelectedFromAbove(SampleWorld(), map[], Function(None, "id", [Literal("x y")]), n) <==> n == Node(0, [ChildHop(0)])
  {
    var w, e := SampleWorld(), Function(None, "id", [Literal("x y")]);
    IdNodesOfTwo(n);
    hide Tokens, IdNodes, ValidDocuments, IsNode, SampleWorld;
    forall context | IsNode(w.docs, context) ensures NodesOf(w, map[], e, Focus(context, 1, 1)) == Ok(IdNodes(w, "x y")) {
    }
    assert Upto(n, |n.hops|) == n;
    assert SelectedFrom(w, map[], e, Upto(n, |n.hops|), n) <==> n in IdNodes(w, "x y");
  }

  lemma IdNodesOfTwo(n: Node)
    ensures n in IdNodes(SampleWorld(), "x y") <==> n == Node(0, [ChildHop(0)])
  {
    var w := SampleWorld();
    TokensOfTwo();
    hide Tokens;
    assert "x" in Tokens("x y") && "y" in Tokens("x y");
    if n in IdNodes(w, "x y") {
      assert exists id :: id in Tokens("x y") && w.elementById(id) == Some(n);
    } else {
      assert w.elementById("x") == Some(Node(0, [ChildHop(0)]));
    }
  }

  lemma TokensOfTwo()
    ensures Tokens("x y") == ["x", "y"]
  {
    var none: string := [];
    assert "x y"[1..] == " y" && " y"[1..] == "y" && none + ['x'] == "x";
    OneToken("y", none);
    assert none + "y" == "y";
    assert TokensFrom(" y", "x") == ["x"] + TokensFrom("y", none);
  }
}
