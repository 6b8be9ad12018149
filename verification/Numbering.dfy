/**
 Document order as the model computes it: every node numbered once per tree, in a single walk.

 `Preorder` lists a subtree in document order; `Number` is the walk that fills the order table, and
 `DomModel` is the node space that documents keep joining while it is in use.
 */
module Numbering {
  import opened Wrappers
  import opened Xdm

  /** A node, its namespace nodes, its attributes, and then its children's subtrees in turn. */
  function Preorder(t: Tree, at: Node): seq<Node>
    decreases t, |t.Kids()| + 1
  {
    [at] + NamespacesOf(t, at) + AttributesOf(t, at)
    + PreorderFrom(t, at, 0)
  }

  function PreorderFrom(t: Tree, at: Node, i: nat): seq<Node>
    requires i <= |t.Kids()|
    decreases t, |t.Kids()| - i
  {
    if i == |t.Kids()| then [] else Preorder(t.Kids()[i], at.Down(ChildHop(i))) + PreorderFrom(t, at, i + 1)
  }

  // --- What the listing holds, and in which order ---------------------------------------------------

  predicate Under(t: Tree, at: Node, x: Node) {
    x.document == at.document && at.hops <= x.hops && ItemAt(t, x.hops[|at.hops|..]).Some?
  }

  predicate UnderChildFrom(t: Tree, at: Node, i: nat, x: Node) {
    && x.document == at.document && at.hops < x.hops
    && x.hops[|at.hops|].ChildHop? && x.hops[|at.hops|].index >= i
    && ItemAt(t, x.hops[|at.hops|..]).Some?
  }

  /** The listing of a subtree is exactly the nodes under its top. */
  lemma {:induction false} PreorderMembers(t: Tree, at: Node, x: Node)
    ensures x in Preorder(t, at) <==> Under(t, at, x)
    decreases t, |t.Kids()| + 1
  {
    PreorderFromMembers(t, at, 0, x);
    if Under(t, at, x) && at.hops != x.hops {
      var rest := x.hops[|at.hops|..];
      assert x.hops == at.hops + rest;
      if !rest[0].ChildHop? {
        assert rest == [rest[0]];
        assert x == at.Down(rest[0]);
        if rest[0].NamespaceHop? {
          assert NamespacesOf(t, at)[rest[0].index] == x;
        } else {
          assert AttributesOf(t, at)[rest[0].index] == x;
        }
      }
    }
    if x in NamespacesOf(t, at) + AttributesOf(t, at) {
      assert x.hops[|at.hops|..] == [x.hops[|at.hops|]];
    }
  }

  lemma {:induction false} PreorderFromMembers(t: Tree, at: Node, i: nat, x: Node)
    requires i <= |t.Kids()|
    ensures x in PreorderFrom(t, at, i) <==> UnderChildFrom(t, at, i, x)
    decreases t, |t.Kids()| - i
  {
    if i < |t.Kids()| {
      var top := at.Down(ChildHop(i));
      PreorderMembers(t.Kids()[i], top, x);
      PreorderFromMembers(t, at, i + 1, x);
      if x.document == at.document && at.hops < x.hops {
        assert x.hops[|at.hops|..][1..] == x.hops[|top.hops|..];
        assert top.hops <= x.hops <==> x.hops[|at.hops|] == ChildHop(i);
      }
    }
  }

  /** Two nodes that part at `at` are ordered by the hops they part with. */
  lemma PartedOrder(at: Node, x: Node, y: Node)
    requires x.document == y.document == at.document && at.hops < x.hops && at.hops < y.hops
    requires HopBefore(x.hops[|at.hops|], y.hops[|at.hops|])
    ensures Before(x, y)
  {
    var p, q := x.hops[|at.hops|..], y.hops[|at.hops|..];
    assert x.hops == at.hops + p && y.hops == at.hops + q;
    HopsBeforeCommon(at.hops, p, q);
  }

  /** The nodes of `s` all leave `at` by hops of one group. */
  ghost predicate LeaveBy(at: Node, group: nat, s: seq<Node>) {
    forall x | x in s :: x.document == at.document && at.hops < x.hops && Group(x.hops[|at.hops|]) == group
  }

  lemma GroupsApart(at: Node, g: nat, s: seq<Node>, g': nat, s': seq<Node>)
    requires g < g' && LeaveBy(at, g, s) && LeaveBy(at, g', s')
    ensures forall x, y | x in s && y in s' :: Before(x, y)
  {
    forall x, y | x in s && y in s' ensures Before(x, y) {
      PartedOrder(at, x, y);
    }
  }

  lemma SameGroupAscending(at: Node, g: nat, s: seq<Node>)
    requires LeaveBy(at, g, s)
    requires forall i | 0 <= i < |s| :: s[i].hops[|at.hops|].index == i
    ensures Ascending(s)
  {
    forall i, j | 0 <= i < j < |s| ensures Before(s[i], s[j]) {
      assert s[i] in s && s[j] in s;
      PartedOrder(at, s[i], s[j]);
    }
  }

  lemma HopListsAscending(t: Tree, at: Node)
    ensures LeaveBy(at, 0, NamespacesOf(t, at)) && Ascending(NamespacesOf(t, at))
    ensures LeaveBy(at, 1, AttributesOf(t, at)) && Ascending(AttributesOf(t, at))
    ensures LeaveBy(at, 2, ChildrenOf(t, at)) && Ascending(ChildrenOf(t, at))
  {
    SameGroupAscending(at, 0, NamespacesOf(t, at));
    SameGroupAscending(at, 1, AttributesOf(t, at));
    SameGroupAscending(at, 2, ChildrenOf(t, at));
  }

  /** The listing is in document order. */
  lemma {:induction false} PreorderAscending(t: Tree, at: Node)
    ensures Ascending(Preorder(t, at))
    decreases t, |t.Kids()| + 1
  {
    var ns, attrs, below := NamespacesOf(t, at), AttributesOf(t, at), PreorderFrom(t, at, 0);
    HopListsAscending(t, at);
    PreorderFromAscending(t, at, 0);
    assert LeaveBy(at, 2, below) by {
      forall x | x in below ensures UnderChildFrom(t, at, 0, x) {
        PreorderFromMembers(t, at, 0, x);
      }
    }
    GroupsApart(at, 0, ns, 1, attrs);
    GroupsApart(at, 0, ns, 2, below);
    GroupsApart(at, 1, attrs, 2, below);
    HeadAscending(at, ns, attrs, below);
  }

  lemma HeadAscending(at: Node, ns: seq<Node>, attrs: seq<Node>, below: seq<Node>)
    requires LeaveBy(at, 0, ns) && LeaveBy(at, 1, attrs) && LeaveBy(at, 2, below)
    requires Ascending(ns) && Ascending(attrs) && Ascending(below)
    requires forall x, y | x in ns && y in attrs :: Before(x, y)
    requires forall x, y | x in ns && y in below :: Before(x, y)
    requires forall x, y | x in attrs && y in below :: Before(x, y)
    ensures Ascending([at] + ns + attrs + below)
  {
    var rest := ns + attrs + below;
    forall x | x in rest ensures Before(at, x) {
      PrefixBefore(at.hops, x.hops);
    }
    AscendingAppend(ns, attrs);
    AscendingAppend(ns + attrs, below);
    AscendingAppend([at], rest);
    assert [at] + ns + attrs + below == [at] + rest;
  }

  lemma {:induction false} PreorderFromAscending(t: Tree, at: Node, i: nat)
    requires i <= |t.Kids()|
    ensures Ascending(PreorderFrom(t, at, i))
    decreases t, |t.Kids()| - i
  {
    if i < |t.Kids()| {
      var top := at.Down(ChildHop(i));
      PreorderAscending(t.Kids()[i], top);
      PreorderFromAscending(t, at, i + 1);
      forall x, y | x in Preorder(t.Kids()[i], top) && y in PreorderFrom(t, at, i + 1) ensures Before(x, y) {
        PreorderMembers(t.Kids()[i], top, x);
        PreorderFromMembers(t, at, i + 1, y);
        assert top.hops[|at.hops|] == x.hops[|at.hops|];
        PartedOrder(at, x, y);
      }
      AscendingAppend(Preorder(t.Kids()[i], top), PreorderFrom(t, at, i + 1));
    }
  }

  // --- The numbering walk ---------------------------------------------------------------------------

  type OrderTable = map<Node, nat>

  /** `order` is `before` with the nodes of `listed` numbered consecutively from `counter`. */
  ghost predicate Numbered(before: OrderTable, order: OrderTable, counter: nat, listed: seq<Node>) {
    && (forall n :: n in order <==> n in before || n in listed)
    && (forall k | 0 <= k < |listed| :: order[listed[k]] == counter + k)
    && (forall n | n in before && n !in listed :: order[n] == before[n])
  }

  lemma NumberedAppend(a: OrderTable, b: OrderTable, c: OrderTable, counter: nat, s: seq<Node>, s': seq<Node>)
    requires Numbered(a, b, counter, s) && Numbered(b, c, counter + |s|, s')
    requires Ascending(s + s')
    ensures Numbered(a, c, counter, s + s')
  {
    forall k | 0 <= k < |s| ensures c[s[k]] == counter + k {
      if s[k] in s' {
        var j :| 0 <= j < |s'| && s'[j] == s[k];
        assert (s + s')[k] == (s + s')[|s| + j];
        BeforeIsTotalOrder(s[k], s[k], s[k]);
        assert false;
      }
    }
  }

  /** Numbers the nodes of a list as they come. */
  method NumberEach(nodes: seq<Node>, order: OrderTable, counter: nat) returns (order': OrderTable, counter': nat)
    requires Ascending(nodes)
    ensures Numbered(order, order', counter, nodes) && counter' == counter + |nodes|
  {
    order', counter' := order, counter;
    for i := 0 to |nodes|
      invariant Numbered(order, order', counter, nodes[..i]) && counter' == counter + i
    {
      ghost var before := order';
      order' := order'[nodes[i] := counter'];
      counter' := counter' + 1;
      assert nodes[..i + 1] == nodes[..i] + [nodes[i]];
      AscendingPrefix(nodes, nodes[..i + 1]);
      NumberedAppend(order, before, order', counter, nodes[..i], [nodes[i]]);
    }
    assert nodes[..|nodes|] == nodes;
  }

  lemma Regrouped(a: seq<Node>, b: seq<Node>, c: seq<Node>)
    ensures a + (b + c) == a + b + c
  {
  }

  /** Numbers a node, its namespace nodes and attributes, and then each child's subtree. */
  method Number(docs: Documents, node: Node, order: OrderTable, counter: nat)
    returns (order': OrderTable, counter': nat)
    requires IsNode(docs, node) && Item(docs, node).TreeItem?
    ensures Numbered(order, order', counter, Preorder(Item(docs, node).tree, node))
    ensures counter' == counter + |Preorder(Item(docs, node).tree, node)|
    decreases Item(docs, node).tree
  {
    ghost var t := Item(docs, node).tree;
    ghost var all := Preorder(t, node);
    ghost var own := [node] + NamespacesOf(t, node) + AttributesOf(t, node);
    PreorderAscending(t, node);
    assert all == own + PreorderFrom(t, node, 0);
    hide Numbered, NamespacesOf, AttributesOf, Preorder, Ascending;
    order', counter' := NumberOwn(docs, node, order, counter);
    var children := Children(docs, node);
    ghost var listed := own;
    for i := 0 to |children|
      invariant all == listed + PreorderFrom(t, node, i)
      invariant Numbered(order, order', counter, listed) && counter' == counter + |listed|
    {
      ChildFacts(docs, node, i);
      ghost var part := Preorder(t.Kids()[i], children[i]);
      ghost var before := order';
      order', counter' := Number(docs, children[i], order', counter');
      assert children[i] == node.Down(ChildHop(i));
      Regrouped(listed, part, PreorderFrom(t, node, i + 1));
      listed := NumberedNext(all, order, before, order', counter, listed, part);
    }
    assert listed + [] == listed;
  }

  /** The first half of `Number`: the node itself and what hangs from it without being a child. */
  method NumberOwn(docs: Documents, node: Node, order: OrderTable, counter: nat)
    returns (order': OrderTable, counter': nat)
    requires IsNode(docs, node) && Item(docs, node).TreeItem?
    ensures var t := Item(docs, node).tree;
            var own := [node] + NamespacesOf(t, node) + AttributesOf(t, node);
            Numbered(order, order', counter, own) && counter' == counter + |own|
  {
    ghost var t := Item(docs, node).tree;
    ghost var own := [node] + NamespacesOf(t, node) + AttributesOf(t, node);
    PreorderAscending(t, node);
    HopListsAscending(t, node);
    assert own <= Preorder(t, node);
    order', counter' := order[node := counter], counter + 1;
    ghost var before := order';
    order', counter' := NumberEach(NamespaceNodes(docs, node), order', counter');
    ghost var listed := NumberedNext(Preorder(t, node), order, before, order', counter, [node], NamespacesOf(t, node));
    before := order';
    order', counter' := NumberEach(AttributeNodes(docs, node), order', counter');
    listed := NumberedNext(Preorder(t, node), order, before, order', counter, listed, AttributesOf(t, node));
  }

  lemma ChildFacts(docs: Documents, node: Node, i: nat)
    requires IsNode(docs, node) && i < |Children(docs, node)|
    ensures IsNode(docs, Children(docs, node)[i])
    ensures Item(docs, node).TreeItem? && i < |Item(docs, node).tree.Kids()|
    ensures Item(docs, Children(docs, node)[i]) == TreeItem(Item(docs, node).tree.Kids()[i])
    ensures Item(docs, node).tree.Kids()[i] < Item(docs, node).tree
  {
    DownItem(docs, node, ChildHop(i));
  }

  /** The listed prefix of a walk grows by the part just numbered. */
  lemma NumberedNext(all: seq<Node>, a: OrderTable, b: OrderTable, c: OrderTable, counter: nat,
                     s: seq<Node>, part: seq<Node>) returns (s': seq<Node>)
    requires Ascending(all) && s + part <= all
    requires Numbered(a, b, counter, s) && Numbered(b, c, counter + |s|, part)
    ensures s' == s + part && Numbered(a, c, counter, s')
  {
    s' := s + part;
    AscendingPrefix(all, s');
    NumberedAppend(a, b, c, counter, s, part);
  }

  lemma AscendingPrefix(s: seq<Node>, p: seq<Node>)
    requires Ascending(s) && p <= s
    ensures Ascending(p)
  {
    assert forall i | 0 <= i < |p| :: p[i] == s[i];
  }

  /** A subtree is numbered without interruption: its listing is one slice of its document's. */
  lemma {:induction false} SubtreeIsInterval(t: Tree, at: Node, hops: seq<Hop>) returns (k: nat)
    requires ItemAt(t, hops).Some? && ItemAt(t, hops).value.TreeItem?
    ensures var sub := Preorder(ItemAt(t, hops).value.tree, Node(at.document, at.hops + hops));
            k + |sub| <= |Preorder(t, at)| && Preorder(t, at)[k..k + |sub|] == sub
    decreases |hops|
  {
    if hops == [] {
      assert Node(at.document, at.hops + hops) == at;
      k := 0;
    } else {
      var i := hops[0].index;
      assert hops[0] == ChildHop(i);
      var inner := SubtreeIsInterval(t.Kids()[i], at.Down(hops[0]), hops[1..]);
      assert at.Down(hops[0]).hops + hops[1..] == at.hops + hops;
      var before := ChildListing(t, at, i);
      k := |before| + inner;
      SliceOfSlice(Preorder(t, at), before, Preorder(t.Kids()[i], at.Down(hops[0])), inner,
                   Preorder(ItemAt(t, hops).value.tree, Node(at.document, at.hops + hops)));
    }
  }

  lemma SliceOfSlice(all: seq<Node>, before: seq<Node>, part: seq<Node>, inner: nat, sub: seq<Node>)
    requires before + part <= all && inner + |sub| <= |part| && part[inner..inner + |sub|] == sub
    ensures all[|before| + inner..|before| + inner + |sub|] == sub
  {
    assert all[|before|..|before| + |part|] == part;
  }

  /** Where the listing of one child stands in its parent's. */
  lemma ChildListing(t: Tree, at: Node, i: nat) returns (before: seq<Node>)
    requires i < |t.Kids()|
    ensures before + Preorder(t.Kids()[i], at.Down(ChildHop(i))) <= Preorder(t, at)
  {
    var earlier := PreorderFromSplit(t, at, 0, i);
    var own, part := [at] + NamespacesOf(t, at) + AttributesOf(t, at), Preorder(t.Kids()[i], at.Down(ChildHop(i)));
    before := own + earlier;
    assert Preorder(t, at) == own + (earlier + (part + PreorderFrom(t, at, i + 1)));
    assert own + (earlier + (part + PreorderFrom(t, at, i + 1))) == before + part + PreorderFrom(t, at, i + 1);
  }

  /** The children's listing, cut where child `j` begins. */
  lemma {:induction false} PreorderFromSplit(t: Tree, at: Node, i: nat, j: nat) returns (before: seq<Node>)
    requires i <= j <= |t.Kids()|
    ensures PreorderFrom(t, at, i) == before + PreorderFrom(t, at, j)
    decreases j - i
  {
    if i == j {
      before := [];
    } else {
      var rest := PreorderFromSplit(t, at, i + 1, j);
      before := Preorder(t.Kids()[i], at.Down(ChildHop(i))) + rest;
    }
  }

  // --- A node space that documents keep joining -----------------------------------------------------

  datatype Ordering = Less | Equal | Greater

  /** A position no node is numbered with; a node no document holds is given it. */
  const USIZE_MAX: nat := 0xFFFF_FFFF_FFFF_FFFF

  /** The listing of one document of a model, from its root. */
  function Listing(docs: Documents, d: nat): seq<Node>
    requires d < |docs|
  {
    Preorder(docs[d], Node(d, []))
  }

  /** The nodes of a document are its listing. */
  lemma ListingMembers(docs: Documents, d: nat, n: Node)
    requires d < |docs|
    ensures n in Listing(docs, d) <==> n.document == d && IsNode(docs, n)
  {
    PreorderMembers(docs[d], Node(d, []), n);
  }

  /** Every node of document `d` is in the table under its place in the listing. */
  ghost predicate Settled(docs: Documents, d: nat, table: OrderTable)
    requires d < |docs|
  {
    forall k | 0 <= k < |Listing(docs, d)| :: Listing(docs, d)[k] in table && table[Listing(docs, d)[k]] == k
  }

  /** The order of a document is not touched by a document that joins after it. */
  lemma StillSettled(before: Documents, after: Documents, d: nat, order: OrderTable, added: OrderTable)
    requires d < |before| <= |after| && after[d] == before[d] && Settled(before, d, order)
    requires forall n | n in added :: n.document >= |before|
    ensures Settled(after, d, order + added)
  {
    forall n | n in Listing(after, d) ensures n !in added {
      ListingMembers(after, d, n);
    }
    assert Listing(after, d) == Listing(before, d);
  }

  /** A document joins: its order joins the table, and every other document's stays what it was. */
  lemma JoinedOrders(before: Documents, document: Tree, order: OrderTable, joined: OrderTable, added: OrderTable)
    requires before != [] && Settled(before, 0, order) && forall d | 0 < d < |before| :: Settled(before, d, joined)
    requires forall n | n in joined :: 0 < n.document < |before|
    requires Numbered(map[], added, 0, Preorder(document, Node(|before|, [])))
    ensures var after := before + [document];
            && Settled(after, 0, order) && (forall d | 0 < d < |after| :: Settled(after, d, joined + added))
            && (forall n | n in added :: n.document == |before|)
  {
    var after := before + [document];
    forall n | n in added ensures n.document == |before| {
      PreorderMembers(document, Node(|before|, []), n);
    }
    NewlySettled(after, |before|, joined, added);
    hide Preorder, Numbered, Settled;
    forall d | 0 < d < |after| ensures Settled(after, d, joined + added) {
      if d < |before| {
        StillSettled(before, after, d, joined, added);
      }
    }
    StillSettled(before, after, 0, order, map[]);
    assert order + map[] == order;
  }

  lemma NewlySettled(docs: Documents, d: nat, joined: OrderTable, added: OrderTable)
    requires d < |docs| && Numbered(map[], added, 0, Preorder(docs[d], Node(d, [])))
    ensures Settled(docs, d, joined + added)
  {
    hide Preorder;
  }

  class DomModel {
    const primary: Tree
    /** Positions in the model's first document. */
    var order: OrderTable
    /** The documents that joined later; index `i` is document `i + 1`. */
    var documents: Documents
    var joinedOrder: OrderTable
    var byUri: map<string, Node>

    function Docs(): Documents
      reads this
    {
      [primary] + documents
    }

    ghost predicate Valid()
      reads this
    {
      && ValidDocuments(Docs())
      && Settled(Docs(), 0, order)
      && (forall d | 0 < d < |Docs()| :: Settled(Docs(), d, joinedOrder))
      && (forall n | n in joinedOrder :: 0 < n.document < |Docs()|)
    }

    /** A model over one document, sharing whatever further documents there are already with their order. */
    constructor (primary: Tree, documents: Documents, joinedOrder: OrderTable, byUri: map<string, Node>)
      requires primary.IsDocument() && ValidDocuments(documents)
      requires forall d | 0 < d <= |documents| :: Settled([primary] + documents, d, joinedOrder)
      requires forall n | n in joinedOrder :: 0 < n.document <= |documents|
      ensures Valid() && Docs() == [primary] + documents && this.joinedOrder == joinedOrder && this.byUri == byUri
    {
      this.primary, this.documents, this.joinedOrder, this.byUri := primary, documents, joinedOrder, byUri;
      var order, _ := Number([primary], Node(0, []), map[], 0);
      this.order := order;
      new;
      NewlySettled([primary], 0, map[], order);
      assert map[] + order == order && order + map[] == order;
      StillSettled([primary], [primary] + documents, 0, order, map[]);
      assert Docs() == [primary] + documents;
    }

    /** Adds a document: numbered at once, so that its order is settled before it can be seen. */
    method AddRooted(uri: string, document: Tree) returns (root: Node)
      requires Valid() && document.IsDocument()
      modifies this`documents, this`joinedOrder, this`byUri
      ensures Valid() && Docs() == old(Docs()) + [document]
      ensures root == Node(|old(Docs())|, [])
      ensures byUri == old(byUri)[uri := root]
      ensures forall n | IsNode(old(Docs()), n) :: IsNode(Docs(), n) && Position(n) == old(Position(n))
    {
      hide Preorder, Settled, Numbered;
      ghost var before, joined := Docs(), joinedOrder;
      documents := documents + [document];
      root := Node(|documents|, []);
      assert Docs() == before + [document];
      assert Item(Docs(), root) == TreeItem(document);
      var added, _ := Number(Docs(), root, map[], 0);
      hide ItemAt, Item;
      JoinedOrders(before, document, order, joinedOrder, added);
      joinedOrder := joinedOrder + added;
      byUri := byUri[uri := root];
      assert forall n: Node | n.document < |before| :: n in joinedOrder <==> n in joined;
    }

    /** A node's position among the nodes of its document; the greatest number if it has none. */
    function Position(n: Node): nat
      reads this
    {
      if n.document == 0 then
        if n in order then order[n] else USIZE_MAX
      else if n in joinedOrder then joinedOrder[n] else USIZE_MAX
    }

    /** Two nodes compared by document and then by position: exactly document order. */
    method DocumentOrder(a: Node, b: Node) returns (r: Ordering)
      requires Valid() && IsNode(Docs(), a) && IsNode(Docs(), b)
      ensures r == if Before(a, b) then Less else if a == b then Equal else Greater
      ensures r == Greater ==> Before(b, a)
    {
      if a.document != b.document {
        r := if a.document < b.document then Less else Greater;
      } else {
        var p, q := Position(a), Position(b);
        r := if p < q then Less else if p == q then Equal else Greater;
        PositionsFollowOrder(Docs(), if a.document == 0 then order else joinedOrder, a, b);
      }
      BeforeIsTotalOrder(a, b, a);
    }
  }

  /** In one document, the order of positions is document order. */
  lemma PositionsFollowOrder(docs: Documents, table: OrderTable, a: Node, b: Node)
    requires IsNode(docs, a) && IsNode(docs, b) && a.document == b.document
    requires Settled(docs, a.document, table)
    ensures a in table && b in table
    ensures table[a] < table[b] <==> Before(a, b)
    ensures table[a] == table[b] <==> a == b
  {
    var s := Listing(docs, a.document);
    ListingMembers(docs, a.document, a);
    ListingMembers(docs, a.document, b);
    PreorderAscending(docs[a.document], Node(a.document, []));
    var i :| 0 <= i < |s| && s[i] == a;
    var j :| 0 <= j < |s| && s[j] == b;
    BeforeIsTotalOrder(a, b, a);
  }
}
