/**
 The thirteen axes: what each selects, and in which order.

 `OnAxis` says which nodes an axis holds, and `AxisNodes` lists them in axis order. The walks over
 parents and children that compute these lists are in `AxisWalks`.
 */
module Axes {
  import opened Wrappers
  import opened Xdm
  import opened Numbering
  import opened XPathAst

  /** Whether an axis runs against document order. */
  predicate IsReverse(axis: Axis) {
    axis in {Ancestor, AncestorOrSelf, Preceding, PrecedingSibling}
  }

  /**
   The node whose surroundings `following` and `preceding` describe: an attribute's or a namespace
   node's element, and any other node itself.
   */
  function Home(n: Node): Node {
    if n.IsTreeNode() then n else n.Parent().value
  }

  /** Whether `x`, a node of the same document, is on an axis of `n`. */
  predicate OnAxis(axis: Axis, n: Node, x: Node) {
    match axis
    case SelfAxis => x == n
    case Child => n.hops < x.hops && |x.hops| == |n.hops| + 1 && x.IsTreeNode()
    case Parent => x.hops < n.hops && |n.hops| == |x.hops| + 1
    case Attribute => n.hops < x.hops && |x.hops| == |n.hops| + 1 && x.hops[|n.hops|].AttributeHop?
    case Namespace => n.hops < x.hops && |x.hops| == |n.hops| + 1 && x.hops[|n.hops|].NamespaceHop?
    case Descendant => n.hops < x.hops && x.IsTreeNode()
    case DescendantOrSelf => x == n || (n.hops < x.hops && x.IsTreeNode())
    case Ancestor => x.hops < n.hops
    case AncestorOrSelf => x.hops <= n.hops
    case FollowingSibling => IsSibling(n, x) && Before(n, x)
    case PrecedingSibling => IsSibling(n, x) && Before(x, n)
    case Following => x.IsTreeNode() && Before(Home(n), x) && !(Home(n).hops < x.hops)
    case Preceding => x.IsTreeNode() && Before(x, Home(n)) && !(x.hops < Home(n).hops)
  }

  /** Two children of one parent. */
  predicate IsSibling(n: Node, x: Node) {
    && n.hops != [] && |x.hops| == |n.hops| && x.hops[..|x.hops| - 1] == n.hops[..|n.hops| - 1]
    && n.IsTreeNode() && x.IsTreeNode()
  }

  /** The nodes of an axis in document order. */
  function InDocumentOrder(docs: Documents, n: Node, axis: Axis): seq<Node>
    requires IsNode(docs, n)
  {
    Filter(Listing(docs, n.document), x => OnAxis(axis, n, x))
  }

  /** The nodes of an axis in axis order, which is the order predicates count in. */
  function AxisNodes(docs: Documents, n: Node, axis: Axis): seq<Node>
    requires IsNode(docs, n)
  {
    if IsReverse(axis) then Reverse(InDocumentOrder(docs, n, axis)) else InDocumentOrder(docs, n, axis)
  }

  // --- What the axes are ------------------------------------------------------------------------

  lemma InDocumentOrderFacts(docs: Documents, n: Node, axis: Axis)
    requires IsNode(docs, n)
    ensures Ascending(InDocumentOrder(docs, n, axis))
    ensures forall x :: x in InDocumentOrder(docs, n, axis) <==>
                        x.document == n.document && IsNode(docs, x) && OnAxis(axis, n, x)
  {
    PreorderAscending(docs[n.document], Node(n.document, []));
    forall x ensures x in Listing(docs, n.document) <==> x.document == n.document && IsNode(docs, x) {
      ListingMembers(docs, n.document, x);
    }
  }

  /** An axis is listed forwards or backwards without repetition, and holds what it should. */
  lemma AxisOrder(docs: Documents, n: Node, axis: Axis)
    requires IsNode(docs, n)
    ensures var s := AxisNodes(docs, n, axis);
            forall i, j | 0 <= i < j < |s| :: if IsReverse(axis) then Before(s[j], s[i]) else Before(s[i], s[j])
    ensures forall x :: x in AxisNodes(docs, n, axis) <==>
                        x.document == n.document && IsNode(docs, x) && OnAxis(axis, n, x)
  {
    InDocumentOrderFacts(docs, n, axis);
    ReverseMembers(InDocumentOrder(docs, n, axis));
  }

  lemma ReverseMembers(s: seq<Node>)
    ensures forall x :: x in Reverse(s) <==> x in s
  {
    forall x ensures x in Reverse(s) <==> x in s {
      if x in s {
        var i :| 0 <= i < |s| && s[i] == x;
        assert Reverse(s)[|s| - 1 - i] == x;
      }
    }
  }

  /** Where a tree node stands relative to another. */
  function Standing(n: Node, x: Node): Axis {
    if x == n then SelfAxis
    else if x.hops < n.hops then Ancestor
    else if n.hops < x.hops then Descendant
    else if Before(x, n) then Preceding
    else Following
  }

  /**
   The axes self, ancestor, descendant, preceding and following divide a document: every tree node
   is on exactly one of them (section 2.2 of XPath 1.0).
   */
  lemma AxesPartition(docs: Documents, n: Node, x: Node)
    requires IsNode(docs, n) && n.IsTreeNode()
    requires IsNode(docs, x) && x.IsTreeNode() && x.document == n.document
    ensures InPartition(Standing(n, x))
    ensures forall axis | InPartition(axis) :: x in AxisNodes(docs, n, axis) <==> axis == Standing(n, x)
  {
    forall axis | InPartition(axis) ensures x in AxisNodes(docs, n, axis) <==> axis == Standing(n, x) {
      AxisOrder(docs, n, axis);
      StandingIsTheAxis(n, x, axis);
    }
  }

  lemma StandingIsTheAxis(n: Node, x: Node, axis: Axis)
    requires n.document == x.document && n.IsTreeNode() && x.IsTreeNode() && InPartition(axis)
    ensures OnAxis(axis, n, x) <==> axis == Standing(n, x)
  {
    BeforeIsTotalOrder(n, x, n);
    BeforeIsTotalOrder(x, n, x);
    if n.hops < x.hops {
      PrefixBefore(n.hops, x.hops);
    } else if x.hops < n.hops {
      PrefixBefore(x.hops, n.hops);
    }
  }

  predicate InPartition(axis: Axis) {
    axis in {SelfAxis, Ancestor, Descendant, Preceding, Following}
  }

  // --- Lists that are an axis ---------------------------------------------------------------------

  /** What is listed in document order and holds the nodes of an axis is the axis. */
  lemma IsTheAxis(docs: Documents, n: Node, axis: Axis, s: seq<Node>)
    requires IsNode(docs, n) && Ascending(s)
    requires forall x :: x in s <==> x.document == n.document && IsNode(docs, x) && OnAxis(axis, n, x)
    ensures s == InDocumentOrder(docs, n, axis)
  {
    InDocumentOrderFacts(docs, n, axis);
    AscendingIsUnique(s, InDocumentOrder(docs, n, axis));
  }

  lemma IsTheReverseAxis(docs: Documents, n: Node, axis: Axis, s: seq<Node>)
    requires IsNode(docs, n) && IsReverse(axis) && Ascending(Reverse(s))
    requires forall x :: x in s <==> x.document == n.document && IsNode(docs, x) && OnAxis(axis, n, x)
    ensures s == AxisNodes(docs, n, axis)
  {
    ReverseMembers(s);
    IsTheAxis(docs, n, axis, Reverse(s));
    assert Reverse(Reverse(s)) == s;
  }

  /** The three lists a model gives directly are axes. */
  lemma DirectAxes(docs: Documents, n: Node)
    requires IsNode(docs, n)
    ensures Children(docs, n) == AxisNodes(docs, n, Child)
    ensures AttributeNodes(docs, n) == AxisNodes(docs, n, Attribute)
    ensures NamespaceNodes(docs, n) == AxisNodes(docs, n, Namespace)
  {
    forall x: Node | x.document == n.document && n.hops < x.hops && |x.hops| == |n.hops| + 1
      ensures x == n.Down(x.hops[|n.hops|])
      ensures IsNode(docs, x) <==> x in Children(docs, n) + AttributeNodes(docs, n) + NamespaceNodes(docs, n)
    {
      UnderNode(docs, n, x);
    }
    forall x | x in Children(docs, n) + AttributeNodes(docs, n) + NamespaceNodes(docs, n)
      ensures IsNode(docs, x) && x.document == n.document && n.hops < x.hops && |x.hops| == |n.hops| + 1
    {
      DownItem(docs, n, x.hops[|n.hops|]);
    }
    if Item(docs, n).TreeItem? {
      HopListsAscending(Item(docs, n).tree, n);
    }
    IsTheAxis(docs, n, Child, Children(docs, n));
    IsTheAxis(docs, n, Attribute, AttributeNodes(docs, n));
    IsTheAxis(docs, n, Namespace, NamespaceNodes(docs, n));
  }

  lemma UnderNode(docs: Documents, n: Node, x: Node)
    requires IsNode(docs, n) && x.document == n.document && n.hops < x.hops && |x.hops| == |n.hops| + 1
    ensures x == n.Down(x.hops[|n.hops|])
    ensures IsNode(docs, x) <==> x in Children(docs, n) + AttributeNodes(docs, n) + NamespaceNodes(docs, n)
  {
    var h := x.hops[|n.hops|];
    assert x.hops == n.hops + [h];
    DownItem(docs, n, h);
    if IsNode(docs, x) {
      var t := Item(docs, n).tree;
      match h
      case ChildHop(i) => assert Children(docs, n)[i] == x;
      case AttributeHop(i) => assert AttributeNodes(docs, n)[i] == x;
      case NamespaceHop(i) => assert NamespaceNodes(docs, n)[i] == x;
    }
  }
}
