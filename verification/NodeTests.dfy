/**
 What node tests let through, compared with each other, and the default priorities of patterns, which
 prefer the test that lets through less.
 */
module NodeTests {
  import opened Wrappers
  import opened Xdm
  import opened XPathAst
  import opened Eval
  import opened Pattern

  predicate Lets(docs: Documents, ns: Namespaces, n: Node, axis: Axis, test: NodeTest)
    requires IsNode(docs, n)
  {
    Matches(docs, ns, n, axis, test) == Ok(true)
  }

  // --- Tests among themselves -------------------------------------------------------------------------

  /** A test of a kind lets through that kind of thing, and a name those things an axis is about. */
  lemma KindsAreTested(docs: Documents, ns: Namespaces, n: Node, axis: Axis)
    requires IsNode(docs, n)
    ensures var item := Item(docs, n);
            && Lets(docs, ns, n, axis, AnyNodeTest)
            && (Lets(docs, ns, n, axis, TextTest) <==> item.TreeItem? && item.tree.Text?)
            && (Lets(docs, ns, n, axis, CommentTest) <==> item.TreeItem? && item.tree.Comment?)
            && (forall target ::
                  Lets(docs, ns, n, axis, ProcessingInstructionTest(target))
                  <==> item.TreeItem? && item.tree.ProcessingInstruction? && (target.None? || target.value == item.tree.target))
            && (Lets(docs, ns, n, axis, NamedTest(AnyName))
                <==> match axis
                     case Attribute => item.AttributeItem?
                     case Namespace => item.NamespaceItem?
                     case _ => item.TreeItem? && item.tree.Element?)
  {
  }

  /** `p:*` lets through what some `p:local` does. */
  lemma WildcardIsSomeName(docs: Documents, ns: Namespaces, n: Node, axis: Axis, prefix: string)
    requires IsNode(docs, n)
    ensures Lets(docs, ns, n, axis, NamedTest(InNamespace(prefix)))
            <==> exists local :: Lets(docs, ns, n, axis, NamedTest(QualifiedName(Some(prefix), local)))
  {
    if Lets(docs, ns, n, axis, NamedTest(InNamespace(prefix))) {
      var local := Name(docs, n).value.local;
      assert Lets(docs, ns, n, axis, NamedTest(QualifiedName(Some(prefix), local)));
    }
  }

  /** `*` lets through what some name does, with one prefix or another bound. */
  lemma StarIsSomeName(docs: Documents, ns: Namespaces, n: Node, axis: Axis)
    requires IsNode(docs, n)
    ensures Lets(docs, ns, n, axis, NamedTest(AnyName))
            <==> exists bound, prefix, local :: Lets(docs, bound, n, axis, NamedTest(QualifiedName(prefix, local)))
  {
    if Lets(docs, ns, n, axis, NamedTest(AnyName)) {
      var name := Name(docs, n).value;
      var prefix := if name.namespace.Some? then Some("p") else None;
      var bound := if name.namespace.Some? then map["p" := name.namespace.value] else map[];
      assert Lets(docs, bound, n, axis, NamedTest(QualifiedName(prefix, name.local)));
    }
  }

  /** The namespace a name is in as it is written: none without a prefix, even where a default would apply. */
  function NamespaceMeant(ns: Namespaces, prefix: Option<string>): Option<string> {
    if prefix.Some? then NamespaceOf(ns, prefix.value) else None
  }

  /** Two names let through the same node just when they are the same expanded name, whatever the prefixes are. */
  lemma NamesAreExpanded(docs: Documents, ns: Namespaces, n: Node, axis: Axis, p: Option<string>, a: string, q: Option<string>, b: string)
    requires IsNode(docs, n) && Lets(docs, ns, n, axis, NamedTest(QualifiedName(p, a)))
    ensures Lets(docs, ns, n, axis, NamedTest(QualifiedName(q, b)))
            <==> a == b && NamespaceMeant(ns, p) == NamespaceMeant(ns, q) && p.Some? == q.Some?
  {
  }

  /** A test raises only for a prefix nobody bound, on a node whose name would have been looked at. */
  lemma OnlyUnboundPrefixesRaise(docs: Documents, ns: Namespaces, n: Node, axis: Axis, test: NodeTest)
    requires IsNode(docs, n)
    ensures Matches(docs, ns, n, axis, test).Err?
            <==> !TestIsBound(ns, test) && Lets(docs, ns, n, axis, NamedTest(AnyName))
  {
  }

  // --- Priorities -------------------------------------------------------------------------------------

  /** Every node of that axis the first test lets through, in any documents, the second does too. */
  ghost predicate NoWider(ns: Namespaces, axis: Axis, a: NodeTest, b: NodeTest) {
    forall docs: Documents, n: Node | ValidDocuments(docs) && IsNode(docs, n) && Passes(docs, ns, n, axis, a) ::
      Passes(docs, ns, n, axis, b)
  }

  /** A test lets something through. */
  ghost predicate IsMet(ns: Namespaces, axis: Axis, test: NodeTest) {
    exists docs: Documents, n: Node :: ValidDocuments(docs) && IsNode(docs, n) && Passes(docs, ns, n, axis, test)
  }

  predicate Passes(docs: Documents, ns: Namespaces, n: Node, axis: Axis, test: NodeTest)
    requires IsNode(docs, n)
  {
    NodePasses(docs, ns, n, Bare(axis, test))
  }

  function Bare(axis: Axis, test: NodeTest): PatternStep {
    PatternStep(axis, test, [], false)
  }

  /** The priority of a pattern that is one test. */
  function TestPriority(axis: Axis, test: NodeTest): real {
    DefaultPriority(Anywhere, [Bare(axis, test)])
  }

  /** One element with an attribute of the same name, a text, a comment and a processing instruction. */
  function Sample(name: ExpandedName, target: string): Documents {
    [Root([Element(name, [], [XmlAttribute(name, "")], [Text(""), Comment(""), ProcessingInstruction(target, "")])])]
  }

  const ELEMENT := Node(0, [ChildHop(0)])

  lemma SampleNodes(name: ExpandedName, target: string)
    ensures var docs := Sample(name, target);
            && ValidDocuments(docs)
            && IsNode(docs, ELEMENT) && Kind(docs, ELEMENT) == ElementKind && Name(docs, ELEMENT) == Some(name)
            && (var n := ELEMENT.Down(AttributeHop(0)); IsNode(docs, n) && Kind(docs, n) == AttributeKind && Name(docs, n) == Some(name))
            && (var n := ELEMENT.Down(ChildHop(0)); IsNode(docs, n) && Kind(docs, n) == TextKind)
            && (var n := ELEMENT.Down(ChildHop(1)); IsNode(docs, n) && Kind(docs, n) == CommentKind)
            && (var n := ELEMENT.Down(ChildHop(2));
                IsNode(docs, n) && Kind(docs, n) == ProcessingInstructionKind && Name(docs, n).value.local == target)
  {
    var docs := Sample(name, target);
    var element := docs[0].Kids()[0];
    assert docs[0].IsDocument() by {
      assert element.Inner();
    }
    assert ItemAt(docs[0], ELEMENT.hops) == ItemAt(element, []);
    ItemAtAppend(docs[0], ELEMENT.hops, [AttributeHop(0)]);
    ItemAtAppend(docs[0], ELEMENT.hops, [ChildHop(0)]);
    ItemAtAppend(docs[0], ELEMENT.hops, [ChildHop(1)]);
    ItemAtAppend(docs[0], ELEMENT.hops, [ChildHop(2)]);
    assert ItemAt(element, [ChildHop(0)]) == ItemAt(element.Kids()[0], []);
    assert ItemAt(element, [ChildHop(1)]) == ItemAt(element.Kids()[1], []);
    assert ItemAt(element, [ChildHop(2)]) == ItemAt(element.Kids()[2], []);
  }

  /** A node the wider test lets through and the narrower does not, if the wider has the lower priority. */
  lemma LetsMore(ns: Namespaces, axis: Axis, a: NodeTest, b: NodeTest, docs: Documents, n: Node) returns (sample: Documents, x: Node)
    requires (axis == Child || axis == Attribute) && TestPriority(axis, a) < TestPriority(axis, b)
    requires IsNode(docs, n) && Passes(docs, ns, n, axis, a)
    ensures ValidDocuments(sample) && IsNode(sample, x) && Passes(sample, ns, x, axis, a) && !Passes(sample, ns, x, axis, b)
  {
    var local := match b case NamedTest(QualifiedName(_, local)) => local + "x" case _ => "x";
    var target := match b case ProcessingInstructionTest(Some(target)) => target + "x" case _ => "x";
    var namespace := match a case NamedTest(InNamespace(prefix)) => NamespaceOf(ns, prefix) case _ => None;
    var name := ExpandedName(namespace, local);
    sample := Sample(name, target);
    SampleNodes(name, target);
    x := if axis == Attribute then ELEMENT.Down(AttributeHop(0))
         else match a
              case TextTest => ELEMENT.Down(ChildHop(0))
              case CommentTest => ELEMENT.Down(ChildHop(1))
              case ProcessingInstructionTest(_) => ELEMENT.Down(ChildHop(2))
              case _ => ELEMENT;
  }

  lemma LowerIsWider(ns: Namespaces, axis: Axis, a: NodeTest, b: NodeTest)
    requires (axis == Child || axis == Attribute) && TestPriority(axis, a) < TestPriority(axis, b) && IsMet(ns, axis, a)
    ensures !NoWider(ns, axis, a, b)
  {
    var docs: Documents, n: Node :| ValidDocuments(docs) && IsNode(docs, n) && Passes(docs, ns, n, axis, a);
    var sample, x := LetsMore(ns, axis, a, b, docs, n);
    assert !Passes(sample, ns, x, axis, b);
  }

  /** Of two tests the one that lets through no more nodes has no lower priority, as long as it lets through any. */
  lemma NarrowerIsPreferred(ns: Namespaces, axis: Axis, a: NodeTest, b: NodeTest)
    requires (axis == Child || axis == Attribute) && NoWider(ns, axis, a, b) && IsMet(ns, axis, a)
    ensures TestPriority(axis, a) >= TestPriority(axis, b)
  {
    if TestPriority(axis, a) < TestPriority(axis, b) {
      LowerIsWider(ns, axis, a, b);
      assert false;
    }
  }

  predicate AreAlike(a: NodeTest, b: NodeTest) {
    (a.NamedTest? && b.NamedTest?) || (a.ProcessingInstructionTest? && b.ProcessingInstructionTest?)
  }

  lemma EqualIsAsWide(ns: Namespaces, axis: Axis, a: NodeTest, b: NodeTest)
    requires AreAlike(a, b) && TestPriority(axis, a) == TestPriority(axis, b)
    requires IsMet(ns, axis, a) && NoWider(ns, axis, a, b)
    ensures NoWider(ns, axis, b, a)
  {
    var docs: Documents, n: Node :| ValidDocuments(docs) && IsNode(docs, n) && Passes(docs, ns, n, axis, a);
    assert Passes(docs, ns, n, axis, b);
  }

  /** Among names, and among processing instructions, letting through strictly less is strictly preferred. */
  lemma StrictlyNarrowerIsStrictlyPreferred(ns: Namespaces, axis: Axis, a: NodeTest, b: NodeTest)
    requires (axis == Child || axis == Attribute) && AreAlike(a, b) && IsMet(ns, axis, a)
    requires NoWider(ns, axis, a, b) && !NoWider(ns, axis, b, a)
    ensures TestPriority(axis, a) > TestPriority(axis, b)
  {
    NarrowerIsPreferred(ns, axis, a, b);
    if TestPriority(axis, a) == TestPriority(axis, b) {
      EqualIsAsWide(ns, axis, a, b);
      assert false;
    }
  }

  /** A pattern that is more than one test is preferred to any that is one. */
  lemma MoreThanATestIsPreferred(anchor: Anchor, steps: seq<PatternStep>, axis: Axis, test: NodeTest)
    ensures -0.5 <= TestPriority(axis, test) <= 0.0
    ensures DefaultPriority(anchor, steps) == 0.5
            || (anchor == Anywhere && |steps| == 1 && steps[0] == Bare(steps[0].axis, steps[0].test))
  {
  }
}
