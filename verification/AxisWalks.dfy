/** The walks that compute the axes, each proved to give the axis that `Axes` defines. */
module AxisWalks {
  import opened Wrappers
  import opened Xdm
  import opened Numbering
  import opened XPathAst
  import opened Axes

  // --- Descendants ------------------------------------------------------------------------------

  /** Every hop but the last leads to something that has children. */
  lemma InnerHop(docs: Documents, x: Node, k: nat)
    requires IsNode(docs, x) && k < |x.hops|
    ensures k < |x.hops| - 1 || x.IsTreeNode() ==> x.hops[k].ChildHop?
  {
    if k < |x.hops| - 1 {
      var p := x.hops[..k];
      PrefixIsNode(docs, x, p);
      PrefixIsNode(docs, x, p + [x.hops[k]]);
      assert Node(x.document, p).Down(x.hops[k]) == Node(x.document, p + [x.hops[k]]);
      DownItem(docs, Node(x.document, p), x.hops[k]);
    }
  }

  /** The children of a node from `i` on, each followed by what is below it. */
  function DescendantsFrom(docs: Documents, n: Node, i: nat): seq<Node>
    requires IsNode(docs, n) && i <= |Children(docs, n)|
    decreases |Children(docs, n)| - i
  {
    if i == |Children(docs, n)| then
      []
    else
      ChildFacts(docs, n, i);
      var child := Children(docs, n)[i];
      [child] + InDocumentOrder(docs, child, Descendant) + DescendantsFrom(docs, n, i + 1)
  }

  /** Whether `x` hangs from child `i` of `n` or from a later one. */
  predicate BelowFrom(docs: Documents, n: Node, i: nat, x: Node) {
    && x.document == n.document && IsNode(docs, x) && x.IsTreeNode()
    && n.hops < x.hops && x.hops[|n.hops|].index >= i
  }

  lemma {:induction false} DescendantsFromFacts(docs: Documents, n: Node, i: nat)
    requires IsNode(docs, n) && i <= |Children(docs, n)|
    ensures Ascending(DescendantsFrom(docs, n, i))
    ensures forall x :: x in DescendantsFrom(docs, n, i) <==> BelowFrom(docs, n, i, x)
    decreases |Children(docs, n)| - i
  {
    if i == |Children(docs, n)| {
      forall x ensures !BelowFrom(docs, n, i, x) {
        if BelowFrom(docs, n, i, x) {
          FirstHopIsChild(docs, n, x);
        }
      }
    } else {
      var child := Children(docs, n)[i];
      ChildFacts(docs, n, i);
      DescendantsFromFacts(docs, n, i + 1);
      hide InDocumentOrder;
      SubtreeIsAscending(docs, n, i);
      var first, rest := [child] + InDocumentOrder(docs, child, Descendant), DescendantsFrom(docs, n, i + 1);
      forall x ensures x in first <==> BelowFrom(docs, n, i, x) && !BelowFrom(docs, n, i + 1, x) {
        FirstHopOfChild(docs, n, i, x);
      }
      forall x, y | x in first && y in rest ensures Before(x, y) {
        FirstHopIsChild(docs, n, x);
        FirstHopIsChild(docs, n, y);
        PartedOrder(n, x, y);
      }
      hide Before, Ascending, IsNode;
      AscendingAppend(first, rest);
    }
  }

  lemma SubtreeIsAscending(docs: Documents, n: Node, i: nat)
    requires IsNode(docs, n) && i < |Children(docs, n)| && IsNode(docs, Children(docs, n)[i])
    ensures Ascending([Children(docs, n)[i]] + InDocumentOrder(docs, Children(docs, n)[i], Descendant))
  {
    var child := Children(docs, n)[i];
    var below := InDocumentOrder(docs, child, Descendant);
    InDocumentOrderFacts(docs, child, Descendant);
    forall x | x in below ensures Before(child, x) {
      PrefixBefore(child.hops, x.hops);
    }
    hide InDocumentOrder;
    AscendingAppend([child], below);
  }

  lemma FirstHopIsChild(docs: Documents, n: Node, x: Node)
    requires IsNode(docs, n) && BelowFrom(docs, n, 0, x)
    ensures x.hops[|n.hops|].ChildHop? && x.hops[|n.hops|].index < |Children(docs, n)|
  {
    InnerHop(docs, x, |n.hops|);
    var h := x.hops[|n.hops|];
    PrefixIsNode(docs, x, n.hops + [h]);
    assert n.Down(h) == Node(x.document, n.hops + [h]);
    DownItem(docs, n, h);
  }

  lemma FirstHopOfChild(docs: Documents, n: Node, i: nat, x: Node)
    requires IsNode(docs, n) && i < |Children(docs, n)|
    ensures var child := Children(docs, n)[i];
            IsNode(docs, child) &&
            (x in [child] + InDocumentOrder(docs, child, Descendant)
             <==> BelowFrom(docs, n, i, x) && !BelowFrom(docs, n, i + 1, x))
  {
    var child := Children(docs, n)[i];
    ChildFacts(docs, n, i);
    InDocumentOrderFacts(docs, child, Descendant);
    assert child.hops == n.hops + [ChildHop(i)] && child.document == n.document;
    hide InDocumentOrder, IsNode, Children;
    if BelowFrom(docs, n, i, x) && !BelowFrom(docs, n, i + 1, x) {
      FirstHopIsChild(docs, n, x);
    }
    FirstHop(n.hops, child.hops, i, x.hops);
  }

  lemma FirstHop(above: seq<Hop>, child: seq<Hop>, i: nat, x: seq<Hop>)
    requires child == above + [ChildHop(i)]
    ensures child <= x <==> above < x && x[|above|] == ChildHop(i)
    ensures child <= x <==> x == child || child < x
  {
    if above < x && x[|above|] == ChildHop(i) {
      assert x[..|above| + 1] == child;
    }
  }

  lemma DescendantsAreFromFirst(docs: Documents, n: Node)
    requires IsNode(docs, n)
    ensures InDocumentOrder(docs, n, Descendant) == DescendantsFrom(docs, n, 0)
  {
    DescendantsFromFacts(docs, n, 0);
    IsTheAxis(docs, n, Descendant, DescendantsFrom(docs, n, 0));
  }

  ghost function TreeBelow(docs: Documents, n: Node): Tree
    requires IsNode(docs, n)
  {
    if Item(docs, n).TreeItem? then Item(docs, n).tree else Text("")
  }

  /** Puts everything under a node at the end of a list, parents before children. */
  method PushDescendants(docs: Documents, node: Node, out: seq<Node>) returns (out': seq<Node>)
    requires IsNode(docs, node)
    ensures out' == out + InDocumentOrder(docs, node, Descendant)
    decreases TreeBelow(docs, node)
  {
    hide InDocumentOrder;
    DescendantsAreFromFirst(docs, node);
    out' := out;
    var children := Children(docs, node);
    for i := 0 to |children|
      invariant out + DescendantsFrom(docs, node, 0) == out' + DescendantsFrom(docs, node, i)
    {
      ChildFacts(docs, node, i);
      DescendantsNext(docs, node, i, out');
      out' := out' + [children[i]];
      out' := PushDescendants(docs, children[i], out');
    }
  }

  lemma DescendantsNext(docs: Documents, n: Node, i: nat, out: seq<Node>)
    requires IsNode(docs, n) && i < |Children(docs, n)| && IsNode(docs, Children(docs, n)[i])
    ensures var child := Children(docs, n)[i];
            out + DescendantsFrom(docs, n, i)
            == (out + [child] + InDocumentOrder(docs, child, Descendant)) + DescendantsFrom(docs, n, i + 1)
  {
    hide InDocumentOrder, Children;
  }

  // --- Ancestors --------------------------------------------------------------------------------

  /** Walking up from a node, one parent at a time. */
  method Ancestors(docs: Documents, node: Node) returns (result: seq<Node>)
    requires IsNode(docs, node)
    ensures result == AxisNodes(docs, node, Ancestor)
  {
    result := [];
    var current := node.Parent();
    while current.Some?
      invariant current.Some? ==> current.value.document == node.document && current.value.hops < node.hops
      invariant forall x :: x in result <==>
                            x.document == node.document && x.hops < node.hops && |x.hops| > Height(current)
      invariant forall i, j | 0 <= i < j < |result| :: |result[j].hops| < |result[i].hops|
      decreases if current.Some? then 1 + |current.value.hops| else 0
    {
      forall x ensures x == current.value <==>
                       x.document == node.document && x.hops < node.hops && |x.hops| == Height(current) {
        if x.hops < node.hops && |x.hops| == |current.value.hops| {
          assert x.hops == node.hops[..|x.hops|] == current.value.hops;
        }
      }
      result := result + [current.value];
      current := current.value.Parent();
    }
    forall x | x in result ensures IsNode(docs, x) {
      PrefixIsNode(docs, node, x.hops);
    }
    forall i, j | 0 <= i < j < |result| ensures Before(result[j], result[i]) {
      assert result[i] in result && result[j] in result;
      PrefixBefore(result[j].hops, result[i].hops);
    }
    IsTheReverseAxis(docs, node, Ancestor, result);
  }

  /** How far down a node is; one above the root for none. */
  function Height(n: Option<Node>): int {
    if n.Some? then |n.value.hops| else -1
  }

  // --- Siblings ---------------------------------------------------------------------------------

  /** The list a node is a child in, with its index; there is none for a root, an attribute or a namespace node. */
  method SiblingsAndIndex(docs: Documents, node: Node) returns (siblings: seq<Node>, index: Option<nat>)
    requires IsNode(docs, node)
    ensures index.Some? <==> node.hops != [] && node.IsTreeNode()
    ensures index.Some? ==> IsNode(docs, node.Parent().value) && siblings == Children(docs, node.Parent().value)
    ensures index.Some? ==> index.value < |siblings| && siblings[index.value] == node
  {
    if node.Parent().None? {
      return [], None;
    }
    ParentIsNode(docs, node);
    siblings := Children(docs, node.Parent().value);
    index := None;
    var i := 0;
    while i < |siblings| && index.None?
      invariant i <= |siblings|
      invariant index.None? ==> node !in siblings[..i]
      invariant index.Some? ==> index.value < |siblings| && siblings[index.value] == node
    {
      if siblings[i] == node {
        index := Some(i);
      }
      i := i + 1;
    }
    var h := node.hops[|node.hops| - 1];
    if h.ChildHop? {
      assert siblings[h.index] == node;
    }
  }

  lemma SiblingAt(docs: Documents, node: Node, x: Node)
    requires IsNode(docs, node) && node.hops != [] && node.IsTreeNode()
    ensures IsNode(docs, node.Parent().value)
    ensures x.document == node.document && IsNode(docs, x) && IsSibling(node, x) <==> x in Children(docs, node.Parent().value)
  {
    ParentIsNode(docs, node);
    var p := node.Parent().value;
    if x.document == node.document && IsNode(docs, x) && IsSibling(node, x) {
      SiblingIsChild(docs, p, x);
    }
    if x in Children(docs, p) {
      hide IsNode;
      DownItem(docs, p, x.hops[|p.hops|]);
    }
  }

  lemma SiblingIsChild(docs: Documents, p: Node, x: Node)
    requires IsNode(docs, p) && IsNode(docs, x) && x.hops != [] && x.IsTreeNode() && x.Parent() == Some(p)
    ensures x in Children(docs, p)
  {
    ParentIsNode(docs, x);
    assert Children(docs, p)[x.hops[|x.hops| - 1].index] == x;
  }

  lemma CutMembers(s: seq<Node>, i: nat, x: Node)
    requires Ascending(s) && i < |s|
    ensures x in s[i + 1..] <==> x in s && Before(s[i], x)
    ensures x in s[..i] <==> x in s && Before(x, s[i])
  {
    BeforeIsTotalOrder(s[i], x, s[i]);
    BeforeIsTotalOrder(x, s[i], x);
    if x in s {
      var k :| 0 <= k < |s| && s[k] == x;
      assert k > i ==> s[i + 1..][k - i - 1] == x;
      assert k < i ==> s[..i][k] == x;
    }
  }

  /** A list of children cut at a node is the siblings on either side of it. */
  lemma SiblingsAreAxes(docs: Documents, node: Node, siblings: seq<Node>, i: nat)
    requires IsNode(docs, node) && node.hops != [] && node.IsTreeNode()
    requires IsNode(docs, node.Parent().value) && siblings == Children(docs, node.Parent().value)
    requires i < |siblings| && siblings[i] == node
    ensures siblings[i + 1..] == AxisNodes(docs, node, FollowingSibling)
    ensures siblings[..i] == InDocumentOrder(docs, node, PrecedingSibling)
  {
    ParentIsNode(docs, node);
    HopListsAscending(Item(docs, node.Parent().value).tree, node.Parent().value);
    forall x ensures x in siblings <==> x.document == node.document && IsNode(docs, x) && IsSibling(node, x) {
      SiblingAt(docs, node, x);
    }
    SiblingsCut(docs, node, siblings, i);
  }

  lemma SiblingsCut(docs: Documents, node: Node, siblings: seq<Node>, i: nat)
    requires IsNode(docs, node) && i < |siblings| && siblings[i] == node && Ascending(siblings)
    requires forall x :: x in siblings <==> x.document == node.document && IsNode(docs, x) && IsSibling(node, x)
    ensures siblings[i + 1..] == AxisNodes(docs, node, FollowingSibling)
    ensures siblings[..i] == InDocumentOrder(docs, node, PrecedingSibling)
  {
    hide IsNode, Before, IsSibling, InDocumentOrder;
    forall x ensures x in siblings[i + 1..] <==> x in siblings && Before(node, x)
             ensures x in siblings[..i] <==> x in siblings && Before(x, node) {
      CutMembers(siblings, i, x);
    }
    IsTheAxis(docs, node, FollowingSibling, siblings[i + 1..]);
    IsTheAxis(docs, node, PrecedingSibling, siblings[..i]);
  }

  lemma NoSiblings(docs: Documents, node: Node)
    requires IsNode(docs, node) && !(node.hops != [] && node.IsTreeNode())
    ensures AxisNodes(docs, node, FollowingSibling) == [] && AxisNodes(docs, node, PrecedingSibling) == []
  {
    IsTheAxis(docs, node, FollowingSibling, []);
    IsTheAxis(docs, node, PrecedingSibling, []);
  }

  method FollowingSiblings(docs: Documents, node: Node) returns (result: seq<Node>)
    requires IsNode(docs, node)
    ensures result == AxisNodes(docs, node, FollowingSibling)
  {
    var siblings, index := SiblingsAndIndex(docs, node);
    if index.Some? {
      result := siblings[index.value + 1..];
      SiblingsAreAxes(docs, node, siblings, index.value);
    } else {
      result := [];
      NoSiblings(docs, node);
    }
  }

  method PrecedingSiblings(docs: Documents, node: Node) returns (result: seq<Node>)
    requires IsNode(docs, node)
    ensures result == AxisNodes(docs, node, PrecedingSibling)
  {
    var siblings, index := SiblingsAndIndex(docs, node);
    if index.Some? {
      result := Reverse(siblings[..index.value]);
      SiblingsAreAxes(docs, node, siblings, index.value);
    } else {
      result := [];
      NoSiblings(docs, node);
    }
  }

  // --- Following and preceding ------------------------------------------------------------------

  /** Two addresses in document order, neither of which begins the other, part at some hop. */
  lemma {:induction false} PartingPoint(a: seq<Hop>, b: seq<Hop>) returns (k: nat)
    requires HopsBefore(a, b) && !(a < b)
    ensures k < |a| && k < |b| && a[..k] == b[..k] && HopBefore(a[k], b[k])
  {
    if a[0] == b[0] {
      var rest := PartingPoint(a[1..], b[1..]);
      k := rest + 1;
      assert a[..k] == [a[0]] + a[1..][..rest];
      assert b[..k] == [b[0]] + b[1..][..rest];
    } else {
      k := 0;
    }
  }

  /** `x` is, or hangs from, a sibling of the ancestor-or-self of `n` that `k` hops lead to, `after` it or before it. */
  predicate PartsAt(docs: Documents, n: Node, k: nat, after: bool, x: Node) {
    && 1 <= k <= |n.hops| && k <= |x.hops| && x.hops[..k - 1] == n.hops[..k - 1]
    && n.hops[k - 1].ChildHop? && x.hops[k - 1].ChildHop?
    && (if after then n.hops[k - 1].index < x.hops[k - 1].index else x.hops[k - 1].index < n.hops[k - 1].index)
    && x.document == n.document && x.IsTreeNode() && IsNode(docs, x)
  }

  /** Every node on `following` or `preceding` parts from the context node at one of its ancestors. */
  lemma PartsSomewhere(docs: Documents, n: Node, after: bool, x: Node)
    requires IsNode(docs, n)
    ensures (exists k: nat :: PartsAt(docs, n, k, after, x)) <==>
            x.document == n.document && IsNode(docs, x) && OnAxis(if after then Following else Preceding, n, x)
  {
    if k: nat :| PartsAt(docs, n, k, after, x) {
      PartedIsOnAxis(docs, n, k, after, x);
    }
    if x.document == n.document && IsNode(docs, x) && OnAxis(if after then Following else Preceding, n, x) {
      OnAxisParts(docs, n, after, x);
    }
  }

  lemma PartedIsOnAxis(docs: Documents, n: Node, k: nat, after: bool, x: Node)
    requires IsNode(docs, n) && PartsAt(docs, n, k, after, x)
    ensures x.document == n.document && IsNode(docs, x) && OnAxis(if after then Following else Preceding, n, x)
  {
    var h := Home(n);
    if n.hops != [] {
      ParentIsNode(docs, n);
    }
    assert h.hops[..k - 1] == n.hops[..k - 1] && k <= |h.hops| && h.hops[k - 1] == n.hops[k - 1];
    var at := Node(n.document, n.hops[..k - 1]);
    assert at.hops < h.hops && at.hops < x.hops;
    assert h.hops[|at.hops|] != x.hops[|at.hops|];
    if after {
      PartedOrder(at, h, x);
    } else {
      PartedOrder(at, x, h);
    }
  }

  lemma OnAxisParts(docs: Documents, n: Node, after: bool, x: Node)
    requires IsNode(docs, n) && x.document == n.document && IsNode(docs, x)
    requires OnAxis(if after then Following else Preceding, n, x)
    ensures exists k: nat :: PartsAt(docs, n, k, after, x)
  {
    var h := Home(n);
    HomeIsTreeNode(docs, n);
    var first, second := if after then h.hops else x.hops, if after then x.hops else h.hops;
    var k := PartingPoint(first, second);
    InnerHop(docs, h, k);
    InnerHop(docs, x, k);
    assert n.hops[..k] == h.hops[..k];
    assert PartsAt(docs, n, k + 1, after, x);
  }

  lemma HomeIsTreeNode(docs: Documents, n: Node)
    requires IsNode(docs, n)
    ensures IsNode(docs, Home(n)) && Home(n).IsTreeNode()
    ensures Home(n).hops <= n.hops
  {
    if !n.IsTreeNode() {
      ParentIsNode(docs, n);
      var p := n.Parent().value;
      if p.hops != [] {
        InnerHop(docs, n, |p.hops| - 1);
      }
    }
  }

  /** The siblings on one side of an ancestor-or-self, with their descendants, are one level of the walk. */
  lemma LevelOfWalk(docs: Documents, n: Node, k: nat, after: bool, x: Node)
    requires IsNode(docs, n) && k <= |n.hops| && IsNode(docs, Node(n.document, n.hops[..k]))
    ensures var siblings := AxisNodes(docs, Node(n.document, n.hops[..k]), if after then FollowingSibling else PrecedingSibling);
            (exists s :: s in siblings && IsNode(docs, s) && (x == s || x in InDocumentOrder(docs, s, Descendant)))
            <==> PartsAt(docs, n, k, after, x)
  {
    var step := Node(n.document, n.hops[..k]);
    var axis := if after then FollowingSibling else PrecedingSibling;
    AxisOrder(docs, step, axis);
    if s :| s in AxisNodes(docs, step, axis) && IsNode(docs, s) && (x == s || x in InDocumentOrder(docs, s, Descendant)) {
      InDocumentOrderFacts(docs, s, Descendant);
      SiblingParts(docs, n, k, after, s, x);
    }
    if PartsAt(docs, n, k, after, x) {
      var s := Node(n.document, x.hops[..k]);
      PrefixIsNode(docs, x, x.hops[..k]);
      InDocumentOrderFacts(docs, s, Descendant);
      SiblingAboveParted(docs, n, k, after, x);
    }
  }

  lemma SiblingParts(docs: Documents, n: Node, k: nat, after: bool, s: Node, x: Node)
    requires k <= |n.hops| && n.document == s.document == x.document
    requires OnAxis(if after then FollowingSibling else PrecedingSibling, Node(n.document, n.hops[..k]), s)
    requires s.hops <= x.hops && x.IsTreeNode() && IsNode(docs, x)
    ensures PartsAt(docs, n, k, after, x)
  {
    var step := Node(n.document, n.hops[..k]);
    SiblingOrder(step, s);
    SiblingOrder(s, step);
    assert x.hops[..k - 1] == s.hops[..k - 1] && x.hops[k - 1] == s.hops[k - 1];
    assert step.hops[..k - 1] == n.hops[..k - 1];
  }

  lemma SiblingAboveParted(docs: Documents, n: Node, k: nat, after: bool, x: Node)
    requires PartsAt(docs, n, k, after, x)
    ensures var s := Node(n.document, x.hops[..k]);
            OnAxis(if after then FollowingSibling else PrecedingSibling, Node(n.document, n.hops[..k]), s)
            && (x == s || s.hops < x.hops)
  {
    var step, s := Node(n.document, n.hops[..k]), Node(n.document, x.hops[..k]);
    assert s.hops[..k - 1] == x.hops[..k - 1] && step.hops[..k - 1] == n.hops[..k - 1];
    SiblingOrder(step, s);
    SiblingOrder(s, step);
  }

  /** Siblings are in document order as their indices are. */
  lemma SiblingOrder(n: Node, x: Node)
    ensures n.document == x.document && IsSibling(n, x) ==>
              (Before(n, x) <==> n.hops[|n.hops| - 1].index < x.hops[|n.hops| - 1].index)
  {
    if n.document == x.document && IsSibling(n, x) {
      var p := n.hops[..|n.hops| - 1];
      assert n.hops == p + [n.hops[|p|]] && x.hops == p + [x.hops[|p|]];
      HopsBeforeCommon(p, [n.hops[|p|]], [x.hops[|p|]]);
    }
  }

  /** Pushes each node of a list, followed by its descendants. */
  method PushSubtrees(docs: Documents, tops: seq<Node>, out: seq<Node>) returns (out': seq<Node>)
    requires forall s | s in tops :: IsNode(docs, s)
    ensures forall x :: x in out' <==>
                        x in out || exists s :: s in tops && IsNode(docs, s) && (x == s || x in InDocumentOrder(docs, s, Descendant))
  {
    out' := out;
    for i := 0 to |tops|
      invariant forall x :: x in out' <==>
                            x in out || exists s :: s in tops[..i] && IsNode(docs, s) && (x == s || x in InDocumentOrder(docs, s, Descendant))
    {
      assert tops[..i + 1] == tops[..i] + [tops[i]];
      out' := out' + [tops[i]];
      out' := PushDescendants(docs, tops[i], out');
    }
    assert tops[..|tops|] == tops;
  }

  /** `x` parts from the node at one of the levels above `height`. */
  ghost predicate PartsAbove(docs: Documents, node: Node, height: int, after: bool, x: Node)
    requires IsNode(docs, node)
  {
    exists k: nat :: k > height && PartsAt(docs, node, k, after, x)
  }

  lemma PartsAboveNext(docs: Documents, node: Node, depth: nat, after: bool, x: Node)
    requires IsNode(docs, node)
    ensures PartsAbove(docs, node, depth - 1, after, x)
       <==> PartsAbove(docs, node, depth, after, x) || PartsAt(docs, node, depth, after, x)
  {
    hide PartsAt;
  }

  /** The walk both axes share: at the node and at each ancestor, the siblings on one side with all below them. */
  method BesideAndAbove(docs: Documents, node: Node, after: bool) returns (result: seq<Node>)
    requires IsNode(docs, node)
    ensures forall x :: x in result <==>
                        x.document == node.document && IsNode(docs, x) && OnAxis(if after then Following else Preceding, node, x)
  {
    result := [];
    var current := Some(node);
    while current.Some?
      invariant current.Some? ==> current.value == Node(node.document, node.hops[..|current.value.hops|])
                                  && |current.value.hops| <= |node.hops| && IsNode(docs, current.value)
      invariant forall x :: x in result <==> PartsAbove(docs, node, Height(current), after, x)
      decreases if current.Some? then 1 + |current.value.hops| else 0
    {
      hide PartsAbove, PartsAt;
      var step := current.value;
      ghost var before := result;
      ghost var depth := |step.hops|;
      var siblings: seq<Node>;
      if after {
        siblings := FollowingSiblings(docs, step);
      } else {
        siblings := PrecedingSiblings(docs, step);
      }
      AxisOrder(docs, step, if after then FollowingSibling else PrecedingSibling);
      result := PushSubtrees(docs, siblings, result);
      forall x ensures x in result <==> PartsAbove(docs, node, depth - 1, after, x) {
        LevelOfWalk(docs, node, depth, after, x);
        PartsAboveNext(docs, node, depth, after, x);
        assert x in before <==> PartsAbove(docs, node, depth, after, x);
      }
      if step.hops != [] {
        ParentIsNode(docs, step);
      }
      current := step.Parent();
    }
    forall x ensures x in result <==>
                     x.document == node.document && IsNode(docs, x) && OnAxis(if after then Following else Preceding, node, x) {
      PartsSomewhere(docs, node, after, x);
    }
  }

  method FollowingNodes(docs: Documents, node: Node) returns (result: seq<Node>)
    requires IsNode(docs, node)
    ensures result == AxisNodes(docs, node, Following)
  {
    result := BesideAndAbove(docs, node, true);
    result := Normalize(result);
    IsTheAxis(docs, node, Following, result);
  }

  method PrecedingNodes(docs: Documents, node: Node) returns (result: seq<Node>)
    requires IsNode(docs, node)
    ensures result == AxisNodes(docs, node, Preceding)
  {
    result := BesideAndAbove(docs, node, false);
    result := Normalize(result);
    IsTheAxis(docs, node, Preceding, result);
    result := Reverse(result);
  }

  // --- All thirteen -----------------------------------------------------------------------------

  /** The nodes an axis reaches, in axis order. */
  method Nodes(docs: Documents, node: Node, axis: Axis) returns (result: seq<Node>)
    requires IsNode(docs, node)
    ensures result == AxisNodes(docs, node, axis)
  {
    DirectAxes(docs, node);
    match axis
    case SelfAxis =>
      result := [node];
      IsTheAxis(docs, node, SelfAxis, result);
    case Child => result := Children(docs, node);
    case Parent =>
      result := if node.Parent().Some? then [node.Parent().value] else [];
      ParentAxis(docs, node);
    case Attribute => result := AttributeNodes(docs, node);
    case Namespace => result := NamespaceNodes(docs, node);
    case Descendant => result := PushDescendants(docs, node, []);
    case DescendantOrSelf =>
      result := PushDescendants(docs, node, [node]);
      SelfThenDescendants(docs, node);
    case Ancestor => result := Ancestors(docs, node);
    case AncestorOrSelf =>
      var above := Ancestors(docs, node);
      result := [node] + above;
      SelfThenAncestors(docs, node);
    case FollowingSibling => result := FollowingSiblings(docs, node);
    case PrecedingSibling => result := PrecedingSiblings(docs, node);
    case Following => result := FollowingNodes(docs, node);
    case Preceding => result := PrecedingNodes(docs, node);
  }

  lemma ParentAxis(docs: Documents, node: Node)
    requires IsNode(docs, node)
    ensures AxisNodes(docs, node, Parent) == if node.Parent().Some? then [node.Parent().value] else []
  {
    if node.hops == [] {
      IsTheAxis(docs, node, Parent, []);
    } else {
      ParentIsNode(docs, node);
      forall x: Node | x.document == node.document && OnAxis(Parent, node, x) ensures x == node.Parent().value {
        assert x.hops == node.hops[..|x.hops|];
      }
      IsTheAxis(docs, node, Parent, [node.Parent().value]);
    }
  }

  lemma SelfThenDescendants(docs: Documents, node: Node)
    requires IsNode(docs, node)
    ensures [node] + InDocumentOrder(docs, node, Descendant) == AxisNodes(docs, node, DescendantOrSelf)
  {
    var below := InDocumentOrder(docs, node, Descendant);
    InDocumentOrderFacts(docs, node, Descendant);
    forall x | x in below ensures Before(node, x) {
      PrefixBefore(node.hops, x.hops);
    }
    AscendingAppend([node], below);
    IsTheAxis(docs, node, DescendantOrSelf, [node] + below);
  }

  lemma SelfThenAncestors(docs: Documents, node: Node)
    requires IsNode(docs, node)
    ensures [node] + AxisNodes(docs, node, Ancestor) == AxisNodes(docs, node, AncestorOrSelf)
  {
    var above := InDocumentOrder(docs, node, Ancestor);
    InDocumentOrderFacts(docs, node, Ancestor);
    hide InDocumentOrder;
    forall x | x in above ensures Before(x, node) {
      PrefixBefore(x.hops, node.hops);
    }
    AscendingAppend(above, [node]);
    SelfIsLast(docs, node, above);
    ReverseLast(above, node);
  }

  lemma SelfIsLast(docs: Documents, node: Node, above: seq<Node>)
    requires IsNode(docs, node) && Ascending(above + [node])
    requires forall x :: x in above <==> x.document == node.document && IsNode(docs, x) && OnAxis(Ancestor, node, x)
    ensures above + [node] == InDocumentOrder(docs, node, AncestorOrSelf)
  {
    forall x: Node | x.document == node.document && x.hops <= node.hops && !(x.hops < node.hops) ensures x == node {
      assert x.hops == node.hops;
    }
    hide IsNode, InDocumentOrder, Ascending;
    IsTheAxis(docs, node, AncestorOrSelf, above + [node]);
  }

  lemma ReverseLast(s: seq<Node>, last: Node)
    ensures Reverse(s + [last]) == [last] + Reverse(s)
  {
  }

  /**
   For an attribute or a namespace node, `following` is what follows its element, so it leaves out
   the element's own descendants although they come after the attribute in document order.
   */
  lemma FollowingOfAttribute(docs: Documents, n: Node, x: Node)
    requires IsNode(docs, n) && !n.IsTreeNode() && IsNode(docs, x) && x.IsTreeNode() && x.document == n.document
    ensures IsNode(docs, n.Parent().value)
    ensures AxisNodes(docs, n, Following) == AxisNodes(docs, n.Parent().value, Following)
    ensures Before(n, x) ==> x in AxisNodes(docs, n, Following) || n.Parent().value.hops < x.hops
  {
    var owner := n.Parent().value;
    ParentIsNode(docs, n);
    HomeIsTreeNode(docs, n);
    InDocumentOrderFacts(docs, owner, Following);
    InDocumentOrderFacts(docs, n, Following);
    IsTheAxis(docs, n, Following, AxisNodes(docs, owner, Following));
    if Before(n, x) {
      PrefixBefore(owner.hops, n.hops);
      BeforeIsTotalOrder(owner, n, x);
    }
  }
}
