/**
 The XPath data model: ordered trees of seven node kinds, and nodes identified by where they sit.

 A node is the document it belongs to and the hops that lead to it from the root, so every address a
 tree resolves is one node. Attributes and namespace nodes are reached by hops of their own and are
 never children.
 */
module Xdm {
  import opened Wrappers

  datatype NodeKind =
    | RootKind
    | ElementKind
    | AttributeKind
    | NamespaceKind
    | TextKind
    | CommentKind
    | ProcessingInstructionKind

  datatype ExpandedName = ExpandedName(namespace: Option<string>, local: string)

  datatype XmlAttribute = XmlAttribute(name: ExpandedName, value: string)

  datatype Tree =
    | Root(children: seq<Tree>)
    | Element(name: ExpandedName, namespaces: seq<string>, attributes: seq<XmlAttribute>, children: seq<Tree>)
    | Text(value: string)
    | Comment(value: string)
    | ProcessingInstruction(target: string, value: string)
  {
    function Kids(): (kids: seq<Tree>)
      ensures forall kid | kid in kids :: kid < this
    {
      if Root? || Element? then children else []
    }

    function Prefixes(): seq<string> {
      if Element? then namespaces else []
    }

    function Attributes(): seq<XmlAttribute> {
      if Element? then attributes else []
    }

    function Kind(): NodeKind {
      match this
      case Root(_) => RootKind
      case Element(_, _, _, _) => ElementKind
      case Text(_) => TextKind
      case Comment(_) => CommentKind
      case ProcessingInstruction(_, _) => ProcessingInstructionKind
    }

    /** No root node occurs in the tree, so it can be a child. */
    predicate Inner() {
      !Root? && forall kid | kid in Kids() :: kid.Inner()
    }

    /** A whole document: a root over trees that hold no further root. */
    predicate IsDocument() {
      Root? && forall kid | kid in Kids() :: kid.Inner()
    }
  }

  /** One move from an element (or the root) to a node directly under it. */
  datatype Hop = NamespaceHop(index: nat) | AttributeHop(index: nat) | ChildHop(index: nat)

  datatype Node = Node(document: nat, hops: seq<Hop>) {
    function Down(hop: Hop): Node {
      Node(document, hops + [hop])
    }

    /** Neither an attribute nor a namespace node. */
    predicate IsTreeNode() {
      hops == [] || hops[|hops| - 1].ChildHop?
    }

    function Parent(): Option<Node> {
      if hops == [] then None else Some(Node(document, hops[..|hops| - 1]))
    }

    function RootNode(): Node {
      Node(document, [])
    }
  }

  /** What an address leads to. */
  datatype Place = TreeItem(tree: Tree) | AttributeItem(attribute: XmlAttribute) | NamespaceItem(prefix: string)

  function ItemAt(t: Tree, hops: seq<Hop>): Option<Place> {
    if hops == [] then
      Some(TreeItem(t))
    else
      match hops[0]
      case ChildHop(i) => if i < |t.Kids()| then ItemAt(t.Kids()[i], hops[1..]) else None
      case AttributeHop(i) => if i < |t.Attributes()| && |hops| == 1 then Some(AttributeItem(t.Attributes()[i])) else None
      case NamespaceHop(i) => if i < |t.Prefixes()| && |hops| == 1 then Some(NamespaceItem(t.Prefixes()[i])) else None
  }

  /** The trees a model presents; a node's `document` indexes them. */
  type Documents = seq<Tree>

  predicate ValidDocuments(docs: Documents) {
    forall t | t in docs :: t.IsDocument()
  }

  predicate IsNode(docs: Documents, n: Node) {
    n.document < |docs| && ItemAt(docs[n.document], n.hops).Some?
  }

  function Item(docs: Documents, n: Node): Place
    requires IsNode(docs, n)
  {
    ItemAt(docs[n.document], n.hops).value
  }

  function Kind(docs: Documents, n: Node): NodeKind
    requires IsNode(docs, n)
  {
    match Item(docs, n)
    case TreeItem(t) => t.Kind()
    case AttributeItem(_) => AttributeKind
    case NamespaceItem(_) => NamespaceKind
  }

  function Name(docs: Documents, n: Node): Option<ExpandedName>
    requires IsNode(docs, n)
  {
    match Item(docs, n)
    case TreeItem(Element(name, _, _, _)) => Some(name)
    case TreeItem(ProcessingInstruction(target, _)) => Some(ExpandedName(None, target))
    case TreeItem(_) => None
    case AttributeItem(a) => Some(a.name)
    case NamespaceItem(prefix) => Some(ExpandedName(None, prefix))
  }

  // The nodes directly under a tree that sits at a node, each kind in its own order.

  function ChildrenOf(t: Tree, at: Node): seq<Node> {
    seq(|t.Kids()|, i requires 0 <= i => at.Down(ChildHop(i)))
  }

  function AttributesOf(t: Tree, at: Node): seq<Node> {
    seq(|t.Attributes()|, i requires 0 <= i => at.Down(AttributeHop(i)))
  }

  function NamespacesOf(t: Tree, at: Node): seq<Node> {
    seq(|t.Prefixes()|, i requires 0 <= i => at.Down(NamespaceHop(i)))
  }

  function Children(docs: Documents, n: Node): seq<Node>
    requires IsNode(docs, n)
  {
    match Item(docs, n)
    case TreeItem(t) => ChildrenOf(t, n)
    case _ => []
  }

  function AttributeNodes(docs: Documents, n: Node): seq<Node>
    requires IsNode(docs, n)
  {
    match Item(docs, n)
    case TreeItem(t) => AttributesOf(t, n)
    case _ => []
  }

  function NamespaceNodes(docs: Documents, n: Node): seq<Node>
    requires IsNode(docs, n)
  {
    match Item(docs, n)
    case TreeItem(t) => NamespacesOf(t, n)
    case _ => []
  }

  // --- Addresses --------------------------------------------------------------------------------

  /** Following two addresses one after the other. */
  lemma {:induction false} ItemAtAppend(t: Tree, p: seq<Hop>, q: seq<Hop>)
    ensures ItemAt(t, p + q) ==
            match ItemAt(t, p)
            case Some(TreeItem(s)) => ItemAt(s, q)
            case Some(_) => if q == [] then ItemAt(t, p) else None
            case None => None
  {
    if p == [] {
      assert p + q == q;
    } else {
      assert (p + q)[0] == p[0] && (p + q)[1..] == p[1..] + q;
      if p[0].ChildHop? && p[0].index < |t.Kids()| {
        ItemAtAppend(t.Kids()[p[0].index], p[1..], q);
      }
    }
  }

  /** A node below the root has a parent, which is an element or the root and lists it. */
  lemma ParentIsNode(docs: Documents, n: Node)
    requires IsNode(docs, n) && n.hops != []
    ensures IsNode(docs, n.Parent().value)
    ensures Item(docs, n.Parent().value).TreeItem?
    ensures n == n.Parent().value.Down(n.hops[|n.hops| - 1])
    ensures var t := Item(docs, n.Parent().value).tree;
            match n.hops[|n.hops| - 1]
            case ChildHop(i) => i < |t.Kids()| && Item(docs, n) == TreeItem(t.Kids()[i])
            case AttributeHop(i) => i < |t.Attributes()| && Item(docs, n) == AttributeItem(t.Attributes()[i])
            case NamespaceHop(i) => i < |t.Prefixes()| && Item(docs, n) == NamespaceItem(t.Prefixes()[i])
  {
    var p, h := n.hops[..|n.hops| - 1], n.hops[|n.hops| - 1];
    assert n.hops == p + [h];
    ItemAtAppend(docs[n.document], p, [h]);
  }

  /** What a hop from a node leads to. */
  lemma DownItem(docs: Documents, n: Node, h: Hop)
    requires IsNode(docs, n)
    ensures IsNode(docs, n.Down(h)) <==>
            Item(docs, n).TreeItem? && ItemAt(Item(docs, n).tree, [h]).Some?
    ensures IsNode(docs, n.Down(h)) ==> ItemAt(Item(docs, n).tree, [h]) == Some(Item(docs, n.Down(h)))
  {
    ItemAtAppend(docs[n.document], n.hops, [h]);
  }

  /** A prefix of a node's address is a node: its ancestors are all in the model. */
  lemma PrefixIsNode(docs: Documents, n: Node, p: seq<Hop>)
    requires IsNode(docs, n) && p <= n.hops
    ensures IsNode(docs, Node(n.document, p))
    ensures p < n.hops ==> Item(docs, Node(n.document, p)).TreeItem?
  {
    ItemAtAppend(docs[n.document], p, n.hops[|p|..]);
    assert n.hops == p + n.hops[|p|..];
  }

  /** An attribute or a namespace node is exactly what its last hop says it is. */
  lemma KindOfHop(docs: Documents, n: Node)
    requires ValidDocuments(docs) && IsNode(docs, n)
    ensures Kind(docs, n) == AttributeKind <==> n.hops != [] && n.hops[|n.hops| - 1].AttributeHop?
    ensures Kind(docs, n) == NamespaceKind <==> n.hops != [] && n.hops[|n.hops| - 1].NamespaceHop?
    ensures Kind(docs, n) == RootKind <==> n.hops == []
    ensures n.IsTreeNode() <==> Item(docs, n).TreeItem?
  {
    var t := docs[n.document];
    assert t.IsDocument();
    if n.hops != [] {
      ParentIsNode(docs, n);
      InnerBelow(t, n.hops);
    }
  }

  lemma {:induction false} InnerBelow(t: Tree, hops: seq<Hop>)
    requires hops != [] && (t.Inner() || t.IsDocument())
    ensures ItemAt(t, hops).Some? && ItemAt(t, hops).value.TreeItem? ==> ItemAt(t, hops).value.tree.Inner()
  {
    if hops[0].ChildHop? && hops[0].index < |t.Kids()| {
      var kid := t.Kids()[hops[0].index];
      assert kid.Inner();
      if |hops| > 1 {
        InnerBelow(kid, hops[1..]);
      }
    }
  }

  // --- Document order ---------------------------------------------------------------------------

  function Group(h: Hop): nat {
    match h
    case NamespaceHop(_) => 0
    case AttributeHop(_) => 1
    case ChildHop(_) => 2
  }

  /** Namespace nodes, then attributes, then children, each kind in its own order. */
  predicate HopBefore(a: Hop, b: Hop) {
    Group(a) < Group(b) || (Group(a) == Group(b) && a.index < b.index)
  }

  predicate HopsBefore(a: seq<Hop>, b: seq<Hop>) {
    b != [] && (a == [] || HopBefore(a[0], b[0]) || (a[0] == b[0] && HopsBefore(a[1..], b[1..])))
  }

  /** Document order: a document at a time, and within one a node before what hangs from it. */
  predicate Before(a: Node, b: Node) {
    a.document < b.document || (a.document == b.document && HopsBefore(a.hops, b.hops))
  }

  lemma {:induction false} HopsBeforeTotal(a: seq<Hop>, b: seq<Hop>)
    ensures !HopsBefore(a, a)
    ensures HopsBefore(a, b) || a == b || HopsBefore(b, a)
    ensures !(HopsBefore(a, b) && HopsBefore(b, a))
  {
    if a != [] {
      HopsBeforeTotal(a[1..], a[1..]);
      if b != [] {
        HopsBeforeTotal(a[1..], b[1..]);
        if a[0] == b[0] && a[1..] == b[1..] {
          assert a == [a[0]] + a[1..] == b;
        }
      }
    }
  }

  lemma {:induction false} HopsBeforeTransitive(a: seq<Hop>, b: seq<Hop>, c: seq<Hop>)
    requires HopsBefore(a, b) && HopsBefore(b, c)
    ensures HopsBefore(a, c)
  {
    if a != [] && a[0] == b[0] && b[0] == c[0] && HopsBefore(a[1..], b[1..]) && HopsBefore(b[1..], c[1..]) {
      HopsBeforeTransitive(a[1..], b[1..], c[1..]);
    }
  }

  /** Document order is a strict total order over every node of every document. */
  lemma BeforeIsTotalOrder(a: Node, b: Node, c: Node)
    ensures !Before(a, a)
    ensures Before(a, b) || a == b || Before(b, a)
    ensures !(Before(a, b) && Before(b, a))
    ensures Before(a, b) && Before(b, c) ==> Before(a, c)
  {
    HopsBeforeTotal(a.hops, a.hops);
    HopsBeforeTotal(a.hops, b.hops);
    if a.document == b.document == c.document && Before(a, b) && Before(b, c) {
      HopsBeforeTransitive(a.hops, b.hops, c.hops);
    }
  }

  /** A common beginning does not decide the order. */
  lemma {:induction false} HopsBeforeCommon(p: seq<Hop>, a: seq<Hop>, b: seq<Hop>)
    ensures HopsBefore(p + a, p + b) <==> HopsBefore(a, b)
  {
    if p == [] {
      assert p + a == a && p + b == b;
    } else {
      assert (p + a)[1..] == p[1..] + a && (p + b)[1..] == p[1..] + b;
      HopsBeforeCommon(p[1..], a, b);
    }
  }

  /** A node comes before everything that hangs from it. */
  lemma PrefixBefore(p: seq<Hop>, a: seq<Hop>)
    requires p < a
    ensures HopsBefore(p, a)
  {
    HopsBeforeCommon(p, [], a[|p|..]);
    assert p + [] == p && p + a[|p|..] == a;
  }

  // --- Node sequences in document order ---------------------------------------------------------

  predicate Ascending(s: seq<Node>) {
    forall i, j | 0 <= i < j < |s| :: Before(s[i], s[j])
  }

  /** A set of nodes has one listing in document order. */
  lemma {:induction false} AscendingIsUnique(a: seq<Node>, b: seq<Node>)
    requires Ascending(a) && Ascending(b)
    requires forall x :: x in a <==> x in b
    ensures a == b
  {
    assert (a != [] ==> a[0] in b) && (b != [] ==> b[0] in a);
    if a != [] && b != [] {
      if a[0] != b[0] {
        var i :| 0 <= i < |a| && a[i] == b[0];
        var j :| 0 <= j < |b| && b[j] == a[0];
        BeforeIsTotalOrder(a[0], b[0], a[0]);
        assert false;
      }
      forall x ensures x in a[1..] <==> x in b[1..] {
        BeforeIsTotalOrder(x, x, x);
        TailMembers(a, x);
        TailMembers(b, x);
      }
      AscendingIsUnique(a[1..], b[1..]);
    }
  }

  lemma TailMembers(a: seq<Node>, x: Node)
    requires Ascending(a) && a != []
    ensures x in a[1..] <==> x in a && x != a[0]
  {
    BeforeIsTotalOrder(a[0], a[0], a[0]);
    if x in a && x != a[0] {
      var i :| 0 <= i < |a| && a[i] == x;
      assert a[1..][i - 1] == x;
    }
  }

  lemma AscendingAppend(a: seq<Node>, b: seq<Node>)
    requires Ascending(a) && Ascending(b)
    requires forall x, y | x in a && y in b :: Before(x, y)
    ensures Ascending(a + b)
  {
  }

  function Reverse(s: seq<Node>): (r: seq<Node>) {
    seq(|s|, i requires 0 <= i < |s| => s[|s| - 1 - i])
  }

  function Filter(s: seq<Node>, keep: Node -> bool): (r: seq<Node>)
    ensures forall x :: x in r <==> x in s && keep(x)
    ensures Ascending(s) ==> Ascending(r)
  {
    if s == [] then
      []
    else
      var rest := Filter(s[1..], keep);
      assert Ascending(s) ==> Ascending(s[1..]) && forall x | x in s[1..] :: Before(s[0], x);
      if keep(s[0]) then [s[0]] + rest else rest
  }

  /** Puts a node into a list in document order, unless it is there already. */
  function Insert(s: seq<Node>, x: Node): (r: seq<Node>)
    requires Ascending(s)
    ensures Ascending(r)
    ensures forall y :: y in r <==> y in s || y == x
  {
    if s == [] then
      [x]
    else if s[0] == x then
      s
    else if Before(x, s[0]) then
      BeforeIsTransitive();
      [x] + s
    else
      BeforeIsTotalOrder(s[0], x, x);
      var rest := Insert(s[1..], x);
      assert forall y | y in rest :: Before(s[0], y);
      [s[0]] + rest
  }

  lemma BeforeIsTransitive()
    ensures forall a, b, c | Before(a, b) && Before(b, c) :: Before(a, c)
  {
    forall a, b, c | Before(a, b) && Before(b, c) ensures Before(a, c) {
      BeforeIsTotalOrder(a, b, c);
    }
  }

  /** The nodes of a list, each once and in document order. */
  function Normalize(s: seq<Node>): (r: seq<Node>)
    ensures Ascending(r)
    ensures forall x :: x in r <==> x in s
  {
    if s == [] then [] else Insert(Normalize(s[1..]), s[0])
  }
}
