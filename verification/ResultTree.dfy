/**
 The result document: nodes in creation order, each knowing its parent and its children.

 `TreeOf` is the tree such a node stands for, free of node numbers. Content only ever joins the
 innermost open node: `Grew` says so about two states of the document, and the lemmas under it say
 how single operations and whole runs compose, and which trees they leave alone.
 */
module ResultTree {
  import opened Wrappers
  import opened Xdm

  datatype ResultKind = FragmentResult | ElementResult | TextResult | CommentResult | InstructionResult

  datatype ResultNode = ResultNode(
    kind: ResultKind,
    name: ExpandedName,
    text: string,
    attributes: map<ExpandedName, string>,
    parent: Option<nat>,
    children: seq<nat>)
  {
    /** Content can be put into it. */
    predicate IsOpen() {
      kind == FragmentResult || kind == ElementResult
    }
  }

  type ResultNodes = seq<ResultNode>

  /** A result node as a value: what it is, and the trees under it. */
  datatype Built = Built(
    kind: ResultKind,
    name: ExpandedName,
    text: string,
    attributes: map<ExpandedName, string>,
    children: seq<Built>)
  {
    function With(content: Content): Built {
      this.(attributes := attributes + content.attributes, children := children + content.children)
    }
  }

  /** What is put into an open node: attributes, of which the last set stands, and children. */
  datatype Content = Content(attributes: map<ExpandedName, string>, children: seq<Built>) {
    function Then(more: Content): Content {
      Content(attributes + more.attributes, children + more.children)
    }
  }

  const EMPTY := Content(map[], [])

  function Child(t: Built): Content {
    Content(map[], [t])
  }

  function AttributeOnly(name: ExpandedName, value: string): Content {
    Content(map[name := value], [])
  }

  lemma ContentThen(a: Content, b: Content, c: Content)
    ensures a.Then(EMPTY) == a && EMPTY.Then(a) == a && a.Then(b).Then(c) == a.Then(b.Then(c))
  {
    assert a.attributes + map[] == a.attributes && map[] + a.attributes == a.attributes;
  }

  lemma WithThen(t: Built, a: Content, b: Content)
    ensures t.With(EMPTY) == t && t.With(a).With(b) == t.With(a.Then(b))
  {
    assert t.attributes + map[] == t.attributes;
    assert t.attributes + a.attributes + b.attributes == t.attributes + (a.attributes + b.attributes);
    assert t.children + a.children + b.children == t.children + (a.children + b.children);
  }

  /** The text of a tree; comments and processing instructions have none to give. */
  function TextUnder(t: Built): string {
    if t.kind == TextResult then t.text else TextUnderAll(t.children)
  }

  function TextUnderAll(ts: seq<Built>): string {
    if ts == [] then "" else TextUnder(ts[0]) + TextUnderAll(ts[1..])
  }

  lemma {:induction false} TextUnderBoth(a: seq<Built>, b: seq<Built>)
    ensures TextUnderAll(a + b) == TextUnderAll(a) + TextUnderAll(b)
  {
    if a == [] {
      assert a + b == b;
    } else {
      TextUnderBoth(a[1..], b);
      assert (a + b)[1..] == a[1..] + b;
    }
  }

  const NO_NAME := ExpandedName(None, "")

  function Fragment(): ResultNode {
    ResultNode(FragmentResult, NO_NAME, "", map[], None, [])
  }

  function ElementNode(name: ExpandedName): ResultNode {
    ResultNode(ElementResult, name, "", map[], None, [])
  }

  function TextNode(text: string): ResultNode {
    ResultNode(TextResult, NO_NAME, text, map[], None, [])
  }

  function CommentNode(text: string): ResultNode {
    ResultNode(CommentResult, NO_NAME, text, map[], None, [])
  }

  function InstructionNode(target: string, text: string): ResultNode {
    ResultNode(InstructionResult, ExpandedName(None, target), text, map[], None, [])
  }

  /** Parents and children agree, and a child was created after its parent: the document is a forest. */
  predicate WellFormed(out: ResultNodes) {
    forall p: nat | p < |out| :: HoldsItsChildren(out, p) && HasItsParent(out, p)
  }

  predicate HoldsItsChildren(out: ResultNodes, p: nat)
    requires p < |out|
  {
    && (out[p].children != [] ==> out[p].IsOpen())
    && forall c | c in out[p].children :: p < c < |out| && out[c].parent == Some(p)
  }

  predicate HasItsParent(out: ResultNodes, c: nat)
    requires c < |out|
  {
    out[c].parent.Some? ==> out[c].parent.value < c && c in out[out[c].parent.value].children
  }

  // --- Operations -----------------------------------------------------------------------------------

  predicate IsDetached(n: ResultNode) {
    n.parent.None? && n.children == []
  }

  function Create(out: ResultNodes, n: ResultNode): ResultNodes {
    out + [n]
  }

  function AppendChild(out: ResultNodes, p: nat, c: nat): ResultNodes
    requires p < c < |out|
  {
    out[p := out[p].(children := out[p].children + [c])][c := out[c].(parent := Some(p))]
  }

  function SetAttribute(out: ResultNodes, e: nat, name: ExpandedName, value: string): ResultNodes
    requires e < |out|
  {
    out[e := out[e].(attributes := out[e].attributes[name := value])]
  }

  /** The text under a node; comments and processing instructions have none to give. */
  function TextContent(out: ResultNodes, n: nat): string
    requires n < |out| && WellFormed(out)
    decreases |out| - n, |out[n].children| + 1
  {
    if out[n].kind == TextResult then out[n].text else TextFrom(out, n, 0)
  }

  function TextFrom(out: ResultNodes, n: nat, i: nat): string
    requires n < |out| && WellFormed(out) && i <= |out[n].children|
    decreases |out| - n, |out[n].children| - i
  {
    if i == |out[n].children| then
      ""
    else
      assert HoldsItsChildren(out, n) && out[n].children[i] in out[n].children;
      TextContent(out, out[n].children[i]) + TextFrom(out, n, i + 1)
  }

  lemma CreateKeepsShape(out: ResultNodes, n: ResultNode)
    requires WellFormed(out) && IsDetached(n)
    ensures WellFormed(Create(out, n))
  {
    var after := Create(out, n);
    forall p: nat | p < |after| ensures HoldsItsChildren(after, p) && HasItsParent(after, p) {
      if p < |out| {
        assert HoldsItsChildren(out, p) && HasItsParent(out, p);
      }
    }
  }

  lemma AppendKeepsShape(out: ResultNodes, p: nat, c: nat)
    requires WellFormed(out) && p < c < |out| && out[p].IsOpen() && out[c].parent.None?
    ensures WellFormed(AppendChild(out, p, c))
  {
    var after := AppendChild(out, p, c);
    forall k: nat | k < |after| ensures HoldsItsChildren(after, k) && HasItsParent(after, k) {
      assert HoldsItsChildren(out, k) && HasItsParent(out, k);
      forall j | j in after[k].children ensures k < j < |after| && after[j].parent == Some(k) {
        assert j in out[k].children || (k == p && j == c);
      }
    }
  }

  lemma SetAttributeKeepsShape(out: ResultNodes, e: nat, name: ExpandedName, value: string)
    requires WellFormed(out) && e < |out|
    ensures WellFormed(SetAttribute(out, e, name, value))
  {
    var after := SetAttribute(out, e, name, value);
    forall k: nat | k < |after| ensures HoldsItsChildren(after, k) && HasItsParent(after, k) {
      assert HoldsItsChildren(out, k) && HasItsParent(out, k);
    }
  }

  // --- What a run may do to what was there ------------------------------------------------------------

  /** A node that was there keeps what it is; the open one may gain children and attributes. */
  predicate NodeKept(before: ResultNode, after: ResultNode, open: bool) {
    && after.kind == before.kind && after.name == before.name && after.text == before.text
    && after.parent == before.parent && before.children <= after.children
    && (!open ==> after == before)
  }

  /** Nothing that was there is lost or moved, and only `open` has gained anything. */
  predicate Grew(before: ResultNodes, after: ResultNodes, open: nat) {
    |before| <= |after| && forall k: nat | k < |before| :: NodeKept(before[k], after[k], k == open)
  }

  lemma GrewTwice(a: ResultNodes, b: ResultNodes, c: ResultNodes, open: nat)
    requires Grew(a, b, open) && Grew(b, c, open)
    ensures Grew(a, c, open)
  {
    forall k: nat | k < |a| ensures NodeKept(a[k], c[k], k == open) {
      assert NodeKept(a[k], b[k], k == open) && NodeKept(b[k], c[k], k == open);
    }
  }

  /** What goes on inside a node that is new is no change to what was there. */
  lemma GrewInside(a: ResultNodes, b: ResultNodes, c: ResultNodes, open: nat, inner: nat)
    requires Grew(a, b, open) && Grew(b, c, inner) && |a| <= inner
    ensures Grew(a, c, open)
  {
    forall k: nat | k < |a| ensures NodeKept(a[k], c[k], k == open) {
      assert NodeKept(a[k], b[k], k == open) && NodeKept(b[k], c[k], k == inner);
    }
  }

  lemma GrewAppend(a: ResultNodes, b: ResultNodes, open: nat, c: nat)
    requires Grew(a, b, open) && open < c < |b| && |a| <= c
    ensures Grew(a, AppendChild(b, open, c), open)
  {
    var after := AppendChild(b, open, c);
    forall k: nat | k < |a| ensures NodeKept(a[k], after[k], k == open) {
      assert NodeKept(a[k], b[k], k == open);
    }
  }

  lemma GrewSetAttribute(a: ResultNodes, b: ResultNodes, open: nat, e: nat, name: ExpandedName, value: string)
    requires Grew(a, b, open) && e < |b| && (e == open || |a| <= e)
    ensures Grew(a, SetAttribute(b, e, name, value), open)
  {
    var after := SetAttribute(b, e, name, value);
    forall k: nat | k < |a| ensures NodeKept(a[k], after[k], k == open) {
      assert NodeKept(a[k], b[k], k == open);
    }
  }

  // --- The trees nodes stand for --------------------------------------------------------------------

  function TreeOf(out: ResultNodes, n: nat): Built
    requires n < |out| && WellFormed(out)
    decreases |out| - n, 1
  {
    Built(out[n].kind, out[n].name, out[n].text, out[n].attributes,
          seq(|out[n].children|, k requires 0 <= k < |out[n].children| => ChildTree(out, n, k)))
  }

  function ChildTree(out: ResultNodes, n: nat, k: nat): Built
    requires n < |out| && k < |out[n].children| && WellFormed(out)
    decreases |out| - n, 0
  {
    assert HoldsItsChildren(out, n) && out[n].children[k] in out[n].children;
    TreeOf(out, out[n].children[k])
  }

  /** `i` is not among `n` and what is under it. */
  predicate Avoids(out: ResultNodes, n: nat, i: nat)
    requires n < |out| && WellFormed(out)
    decreases |out| - n
  {
    && n != i
    && assert HoldsItsChildren(out, n);
       forall c | c in out[n].children :: Avoids(out, c, i)
  }

  /** Everything under a node was created after it. */
  lemma {:induction false} AvoidsOlder(out: ResultNodes, n: nat, i: nat)
    requires n < |out| && WellFormed(out) && (i < n || |out| <= i)
    ensures Avoids(out, n, i)
    decreases |out| - n
  {
    assert HoldsItsChildren(out, n);
    forall c | c in out[n].children ensures Avoids(out, c, i) {
      AvoidsOlder(out, c, i);
    }
  }

  /** Nothing but `open` is different, except perhaps for where it hangs. */
  predicate Untouched(a: ResultNodes, b: ResultNodes, open: nat) {
    |a| <= |b| && forall k: nat | k < |a| && k != open :: SameBelow(a[k], b[k])
  }

  predicate SameBelow(before: ResultNode, after: ResultNode) {
    after == before.(parent := after.parent)
  }

  lemma GrewIsUntouched(a: ResultNodes, b: ResultNodes, open: nat)
    requires Grew(a, b, open)
    ensures Untouched(a, b, open)
  {
    forall k: nat | k < |a| && k != open ensures SameBelow(a[k], b[k]) {
      assert NodeKept(a[k], b[k], k == open);
    }
  }

  /** A tree the open node is no part of stays as it was. */
  lemma {:induction false} TreeStays(a: ResultNodes, b: ResultNodes, open: nat, n: nat)
    requires WellFormed(a) && WellFormed(b) && Untouched(a, b, open) && n < |a| && Avoids(a, n, open)
    ensures TreeOf(b, n) == TreeOf(a, n)
    decreases |a| - n
  {
    assert SameBelow(a[n], b[n]) && HoldsItsChildren(a, n) && HoldsItsChildren(b, n);
    forall k: nat | k < |a[n].children| ensures ChildTree(b, n, k) == ChildTree(a, n, k) {
      assert a[n].children[k] in a[n].children;
      TreeStays(a, b, open, a[n].children[k]);
    }
  }

  lemma {:induction false} AvoidsStays(a: ResultNodes, b: ResultNodes, open: nat, n: nat, i: nat)
    requires WellFormed(a) && WellFormed(b) && Untouched(a, b, open) && n < |a| && Avoids(a, n, open)
    requires Avoids(a, n, i) || |a| <= i
    ensures Avoids(b, n, i)
    decreases |a| - n
  {
    assert SameBelow(a[n], b[n]) && HoldsItsChildren(a, n) && HoldsItsChildren(b, n);
    forall c | c in b[n].children ensures Avoids(b, c, i) {
      AvoidsStays(a, b, open, c, i);
    }
  }

  /** The trees of the children a node had stay as they were while it is the open one. */
  lemma ChildTreesStay(a: ResultNodes, b: ResultNodes, open: nat, k: nat)
    requires WellFormed(a) && WellFormed(b) && Grew(a, b, open) && open < |a| && k < |a[open].children|
    ensures k < |b[open].children| && ChildTree(b, open, k) == ChildTree(a, open, k)
  {
    assert NodeKept(a[open], b[open], true) && HoldsItsChildren(a, open);
    var c := a[open].children[k];
    assert c in a[open].children;
    AvoidsOlder(a, c, open);
    GrewIsUntouched(a, b, open);
    TreeStays(a, b, open, c);
  }

  /** A new node is the tree it was created as. */
  lemma CreatedTree(out: ResultNodes, n: ResultNode)
    requires WellFormed(out) && IsDetached(n)
    ensures WellFormed(Create(out, n))
    ensures TreeOf(Create(out, n), |out|) == Built(n.kind, n.name, n.text, n.attributes, [])
    ensures forall open :: Grew(out, Create(out, n), open)
  {
    CreateKeepsShape(out, n);
  }

  /** The new last child's tree joins the children; it may be filled before or after. */
  lemma AppendedTree(a: ResultNodes, b: ResultNodes, open: nat, c: nat)
    requires WellFormed(a) && WellFormed(b) && open < |a| <= c < |b|
    requires Grew(a, b, open) && b[open].children == a[open].children + [c] && b[open].attributes == a[open].attributes
    ensures TreeOf(b, open) == TreeOf(a, open).With(Child(TreeOf(b, c)))
  {
    assert NodeKept(a[open], b[open], true);
    forall k: nat | k < |a[open].children| ensures ChildTree(b, open, k) == ChildTree(a, open, k) {
      ChildTreesStay(a, b, open, k);
    }
    assert a[open].attributes + map[] == a[open].attributes;
  }

  lemma AttributeTree(out: ResultNodes, e: nat, name: ExpandedName, value: string)
    requires WellFormed(out) && e < |out|
    ensures WellFormed(SetAttribute(out, e, name, value))
    ensures TreeOf(SetAttribute(out, e, name, value), e) == TreeOf(out, e).With(AttributeOnly(name, value))
  {
    var after := SetAttribute(out, e, name, value);
    SetAttributeKeepsShape(out, e, name, value);
    GrewSetAttribute(out, out, e, e, name, value);
    forall k: nat | k < |out[e].children| ensures ChildTree(after, e, k) == ChildTree(out, e, k) {
      ChildTreesStay(out, after, e, k);
    }
  }

  /** The text the document gives for a node is the text of its tree. */
  lemma {:induction false} TextIsTextUnder(out: ResultNodes, n: nat)
    requires WellFormed(out) && n < |out|
    ensures TextContent(out, n) == TextUnder(TreeOf(out, n))
    decreases |out| - n, |out[n].children| + 1
  {
    if out[n].kind != TextResult {
      TextFromIsTextUnder(out, n, 0);
      assert TreeOf(out, n).children[0..] == TreeOf(out, n).children;
    }
  }

  lemma {:induction false} TextFromIsTextUnder(out: ResultNodes, n: nat, i: nat)
    requires WellFormed(out) && n < |out| && i <= |out[n].children|
    ensures TextFrom(out, n, i) == TextUnderAll(TreeOf(out, n).children[i..])
    decreases |out| - n, |out[n].children| - i
  {
    if i < |out[n].children| {
      assert HoldsItsChildren(out, n) && out[n].children[i] in out[n].children;
      TextIsTextUnder(out, out[n].children[i]);
      TextFromIsTextUnder(out, n, i + 1);
      assert TreeOf(out, n).children[i..][1..] == TreeOf(out, n).children[i + 1..];
    }
  }

  /** The nodes below `limit` have only each other as children. */
  predicate Closed(out: ResultNodes, limit: nat)
    requires limit <= |out|
  {
    forall k: nat | k < limit :: ClosedAt(out, k, limit)
  }

  predicate ClosedAt(out: ResultNodes, k: nat, limit: nat)
    requires k < limit <= |out|
  {
    forall c | c in out[k].children :: c < limit
  }

  lemma ClosedStays(a: ResultNodes, b: ResultNodes, limit: nat)
    requires limit <= |a| && Closed(a, limit) && a <= b
    ensures Closed(b, limit)
  {
    forall k: nat | k < limit ensures ClosedAt(b, k, limit) {
      assert ClosedAt(a, k, limit);
    }
  }

  lemma AllClosed(out: ResultNodes)
    requires WellFormed(out)
    ensures Closed(out, |out|)
  {
    forall k: nat | k < |out| ensures ClosedAt(out, k, |out|) {
      assert HoldsItsChildren(out, k);
    }
  }

  /** A copy of everything under a node, under a copy of the node itself, is the tree that was copied. */
  lemma WholeClone(out: ResultNodes, n: nat)
    requires WellFormed(out) && n < |out|
    ensures var t := TreeOf(out, n); var bare := out[n].(parent := None, children := []);
            t == Built(bare.kind, bare.name, bare.text, bare.attributes, []).With(Content(map[], t.children[..|out[n].children|]))
  {
    var t := TreeOf(out, n);
    assert t.attributes + map[] == t.attributes;
    assert [] + t.children[..|t.children|] == t.children;
  }
}
