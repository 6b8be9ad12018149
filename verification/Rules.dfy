/**
 Choosing a template rule: an index files each rule under what it can match, and only the rules filed
 under what a node is are tested. `BestTemplate` gives what a scan of every rule would.
 */
module Rules {
  import opened Wrappers
  import opened Xdm
  import opened XPathAst
  import opened Axes
  import opened Eval
  import opened Pattern

  /** A template rule; one that only has a name has no pattern. */
  datatype Template = Template(
    pattern: Option<Alternative>,
    mode: Option<string>,
    priority: real,
    precedence: int,
    order: nat,
    namespaces: Namespaces)

  /** The nodes a rule is worth testing on, by kind and by name. */
  datatype Reach =
    | ElementReach(name: ExpandedName)
    | AttributeReach(name: ExpandedName)
    | AnyElement
    | AnyAttribute
    | TextReach
    | CommentReach
    | ProcessingInstructionReach
    | RootReach
    | Anything

  function ReachOf(alt: Alternative, ns: Namespaces): Reach {
    if alt.steps == [] then
      if alt.anchor == AtRoot then RootReach else Anything
    else
      var last := alt.steps[|alt.steps| - 1];
      match last.test
      case NamedTest(QualifiedName(prefix, local)) =>
        var namespace := if prefix.Some? then NamespaceOf(ns, prefix.value) else None;
        if prefix.Some? && namespace.None? then Anything
        else if last.axis == Attribute then AttributeReach(ExpandedName(namespace, local))
        else ElementReach(ExpandedName(namespace, local))
      case NamedTest(_) => if last.axis == Attribute then AnyAttribute else AnyElement
      case TextTest => TextReach
      case CommentTest => CommentReach
      case ProcessingInstructionTest(_) => ProcessingInstructionReach
      case AnyNodeTest => Anything
  }

  // --- The index ----------------------------------------------------------------------------------

  datatype RuleIndex = RuleIndex(
    elements: map<ExpandedName, seq<nat>>,
    attributes: map<ExpandedName, seq<nat>>,
    anyElement: seq<nat>,
    anyAttribute: seq<nat>,
    text: seq<nat>,
    comment: seq<nat>,
    processingInstruction: seq<nat>,
    root: seq<nat>,
    anything: seq<nat>)
  {
    /** The rules filed under a reach. */
    function Bucket(reach: Reach): seq<nat> {
      match reach
      case ElementReach(name) => ByName(elements, name)
      case AttributeReach(name) => ByName(attributes, name)
      case AnyElement => anyElement
      case AnyAttribute => anyAttribute
      case TextReach => text
      case CommentReach => comment
      case ProcessingInstructionReach => processingInstruction
      case RootReach => root
      case Anything => anything
    }
  }

  function ByName(table: map<ExpandedName, seq<nat>>, name: ExpandedName): seq<nat> {
    if name in table then table[name] else []
  }

  /** Files a rule under a reach, after the rules filed there already. */
  function File(index: RuleIndex, reach: Reach, position: nat): RuleIndex {
    match reach
    case ElementReach(name) => index.(elements := index.elements[name := ByName(index.elements, name) + [position]])
    case AttributeReach(name) => index.(attributes := index.attributes[name := ByName(index.attributes, name) + [position]])
    case AnyElement => index.(anyElement := index.anyElement + [position])
    case AnyAttribute => index.(anyAttribute := index.anyAttribute + [position])
    case TextReach => index.(text := index.text + [position])
    case CommentReach => index.(comment := index.comment + [position])
    case ProcessingInstructionReach => index.(processingInstruction := index.processingInstruction + [position])
    case RootReach => index.(root := index.root + [position])
    case Anything => index.(anything := index.anything + [position])
  }

  /** Filing under one reach leaves every other as it was. */
  lemma FileOne(index: RuleIndex, reach: Reach, position: nat, other: Reach)
    ensures File(index, reach, position).Bucket(other)
            == if other == reach then index.Bucket(other) + [position] else index.Bucket(other)
  {
  }

  predicate Reaches(template: Template, reach: Reach) {
    template.pattern.Some? && ReachOf(template.pattern.value, template.namespaces) == reach
  }

  /** The index holds each rule of the first `count` under its reach and nowhere else. */
  ghost predicate Files(index: RuleIndex, templates: seq<Template>, count: nat)
    requires count <= |templates|
  {
    forall reach, position: nat :: IsFiled(index, reach, position) <==> position < count && Reaches(templates[position], reach)
  }

  predicate IsFiled(index: RuleIndex, reach: Reach, position: nat) {
    position in index.Bucket(reach)
  }

  lemma FilesNext(index: RuleIndex, templates: seq<Template>, position: nat, reach: Reach)
    requires position < |templates| && Files(index, templates, position) && Reaches(templates[position], reach)
    ensures Files(File(index, reach, position), templates, position + 1)
  {
    forall other, p: nat
      ensures IsFiled(File(index, reach, position), other, p) <==> p < position + 1 && Reaches(templates[p], other)
    {
      FileOne(index, reach, position, other);
      assert IsFiled(index, other, p) <==> p < position && Reaches(templates[p], other);
      if other == reach {
        assert p in index.Bucket(other) + [position] <==> p in index.Bucket(other) || p == position;
      }
    }
  }

  method BuildIndex(templates: seq<Template>) returns (index: RuleIndex)
    ensures Files(index, templates, |templates|)
  {
    index := RuleIndex(map[], map[], [], [], [], [], [], [], []);
    assert forall reach, position: nat :: !IsFiled(index, reach, position);
    for position := 0 to |templates|
      invariant Files(index, templates, position)
    {
      var template := templates[position];
      if template.pattern.None? {
        continue;
      }
      var reach := ReachOf(template.pattern.value, template.namespaces);
      FilesNext(index, templates, position, reach);
      index := File(index, reach, position);
    }
  }

  /** For a node, the buckets its kind and name lead to. */
  function Candidates(index: RuleIndex, docs: Documents, n: Node): seq<seq<nat>>
    requires IsNode(docs, n)
  {
    var name := Name(docs, n);
    var (specific, kind) :=
      match Kind(docs, n)
      case ElementKind => (if name.Some? then ByName(index.elements, name.value) else [], index.anyElement)
      case AttributeKind => (if name.Some? then ByName(index.attributes, name.value) else [], index.anyAttribute)
      case TextKind => ([], index.text)
      case CommentKind => ([], index.comment)
      case ProcessingInstructionKind => ([], index.processingInstruction)
      case RootKind => ([], index.root)
      case NamespaceKind => ([], []);
    [specific, kind, index.anything]
  }

  // --- A rule that could match is always among the candidates -----------------------------------------

  /** A step that matches a node puts it on the step's axis, passing its node test. */
  lemma MatchedStepPasses(w: World, ns: Namespaces, n: Node, step: PatternStep)
    requires ValidDocuments(w.docs) && IsNode(w.docs, n) && step.axis in {Child, Attribute}
    requires StepMatches(w, ns, n, step) == Ok(true)
    ensures NodePasses(w.docs, ns, n, step)
  {
    KindOfHop(w.docs, n);
    if step.predicates != [] {
      ParentIsNode(w.docs, n);
      var p := n.Parent().value;
      AxisOrder(w.docs, p, step.axis);
      PassingMembers(w.docs, ns, AxisNodes(w.docs, p, step.axis), step.axis, step.test);
    }
  }

  /** The reaches a node is looked up under. */
  predicate InReach(docs: Documents, n: Node, reach: Reach)
    requires IsNode(docs, n)
  {
    var kind, name := Kind(docs, n), Name(docs, n);
    match reach
    case ElementReach(wanted) => kind == ElementKind && name == Some(wanted)
    case AttributeReach(wanted) => kind == AttributeKind && name == Some(wanted)
    case AnyElement => kind == ElementKind
    case AnyAttribute => kind == AttributeKind
    case TextReach => kind == TextKind
    case CommentReach => kind == CommentKind
    case ProcessingInstructionReach => kind == ProcessingInstructionKind
    case RootReach => kind == RootKind
    case Anything => true
  }

  /** The steps of a pattern are on the axes a pattern may walk. */
  predicate HasPatternAxes(alt: Alternative) {
    forall step | step in alt.steps :: step.axis in {Child, Attribute}
  }

  /** Reading a pattern gives only such steps. */
  lemma {:induction false} ScanGivesPatternAxes(steps: seq<Step>)
    requires Scan(steps).Ok?
    ensures forall step | step in Scan(steps).value.0 :: step.axis in {Child, Attribute}
    decreases |steps|
  {
    if steps != [] {
      ScanGivesPatternAxes(steps[..|steps| - 1]);
    }
  }

  lemma AlternativesHavePatternAxes(e: Expr)
    requires Alternatives(e).Ok?
    ensures forall alt | alt in Alternatives(e).value :: HasPatternAxes(alt)
  {
    if e.PathExpr? {
      ScanGivesPatternAxes(e.path.steps);
    }
  }

  /** What a template's pattern was read from: an alternative of some expression that is a pattern. */
  ghost predicate IsCompiled(alt: Alternative) {
    exists e :: Alternatives(e).Ok? && alt in Alternatives(e).value
  }

  lemma CompiledHasPatternAxes(alt: Alternative)
    requires IsCompiled(alt)
    ensures HasPatternAxes(alt)
  {
    var e :| Alternatives(e).Ok? && alt in Alternatives(e).value;
    AlternativesHavePatternAxes(e);
  }

  lemma MatchesLastStep(w: World, ns: Namespaces, alt: Alternative, n: Node)
    requires IsNode(w.docs, n) && alt.steps != [] && AlternativeMatches(w, ns, alt, n) == Ok(true)
    ensures StepMatches(w, ns, n, alt.steps[|alt.steps| - 1]) == Ok(true)
  {
    hide StepMatches, AnchorHolds, SearchUp;
  }

  /** The reach of an alternative excludes no node it matches. */
  lemma ReachIsNecessary(w: World, ns: Namespaces, alt: Alternative, n: Node)
    requires w.Valid() && IsNode(w.docs, n) && HasPatternAxes(alt)
    requires AlternativeMatches(w, ns, alt, n) == Ok(true)
    ensures InReach(w.docs, n, ReachOf(alt, ns))
  {
    hide AlternativeMatches, StepMatches;
    if alt.steps != [] {
      var last := alt.steps[|alt.steps| - 1];
      MatchesLastStep(w, ns, alt, n);
      MatchedStepPasses(w, ns, n, last);
    } else if alt.anchor == AtRoot {
      RootPatternMatchesRoot(w, ns, alt, n);
    }
  }

  lemma RootPatternMatchesRoot(w: World, ns: Namespaces, alt: Alternative, n: Node)
    requires ValidDocuments(w.docs) && IsNode(w.docs, n) && alt.steps == [] && alt.anchor == AtRoot
    requires AlternativeMatches(w, ns, alt, n) == Ok(true)
    ensures Kind(w.docs, n) == RootKind
  {
    KindOfHop(w.docs, n);
  }

  /** A node's candidates are exactly the rules filed under a reach the node is in. */
  lemma CandidatesAreInReach(index: RuleIndex, docs: Documents, n: Node, position: nat)
    requires IsNode(docs, n)
    ensures (exists group :: group in Candidates(index, docs, n) && position in group)
            <==> exists reach :: InReach(docs, n, reach) && position in index.Bucket(reach)
  {
    var groups := Candidates(index, docs, n);
    assert groups[0] in groups && groups[1] in groups && groups[2] in groups;
    if reach :| InReach(docs, n, reach) && position in index.Bucket(reach) {
      assert position in groups[0] || position in groups[1] || position in groups[2];
    }
    if position in groups[0] || position in groups[1] || position in groups[2] {
      var kind, name := Kind(docs, n), Name(docs, n);
      var specific := if kind == ElementKind && name.Some? then ElementReach(name.value)
                      else if kind == AttributeKind && name.Some? then AttributeReach(name.value) else Anything;
      var byKind := match kind
                    case ElementKind => AnyElement
                    case AttributeKind => AnyAttribute
                    case TextKind => TextReach
                    case CommentKind => CommentReach
                    case ProcessingInstructionKind => ProcessingInstructionReach
                    case RootKind => RootReach
                    case NamespaceKind => Anything;
      assert InReach(docs, n, specific) && InReach(docs, n, byKind) && InReach(docs, n, Anything);
      assert position in index.Bucket(specific) || position in index.Bucket(byKind) || position in index.Bucket(Anything);
    }
  }

  // --- Choosing -------------------------------------------------------------------------------------

  /** Compared by precedence; where that is the same by priority, and then by place. */
  predicate Outranks(a: Template, b: Template) {
    a.precedence > b.precedence
    || (a.precedence == b.precedence && (a.priority > b.priority || (a.priority == b.priority && a.order > b.order)))
  }

  /** Whether a rule is asked about a node at all. */
  predicate IsConsidered(template: Template, mode: Option<string>, below: Option<int>) {
    template.pattern.Some? && template.mode == mode && (below.Some? ==> template.precedence < below.value)
  }

  predicate Applies(w: World, template: Template, n: Node, mode: Option<string>, below: Option<int>)
    requires IsNode(w.docs, n)
  {
    IsConsidered(template, mode, below)
    && AlternativeMatches(w, template.namespaces, template.pattern.value, n) == Ok(true)
  }

  /** The scan of every rule from `i` on, starting from the best of the rules before it. */
  function ExhaustiveFrom(w: World, templates: seq<Template>, n: Node, mode: Option<string>, below: Option<int>,
                          i: nat, best: Option<nat>): Option<nat>
    requires IsNode(w.docs, n) && i <= |templates| && (best.Some? ==> best.value < |templates|)
    decreases |templates| - i
  {
    if i == |templates| then
      best
    else if Applies(w, templates[i], n, mode, below) && (best.None? || Outranks(templates[i], templates[best.value])) then
      ExhaustiveFrom(w, templates, n, mode, below, i + 1, Some(i))
    else
      ExhaustiveFrom(w, templates, n, mode, below, i + 1, best)
  }

  function Exhaustive(w: World, templates: seq<Template>, n: Node, mode: Option<string>, below: Option<int>): Option<nat>
    requires IsNode(w.docs, n)
  {
    ExhaustiveFrom(w, templates, n, mode, below, 0, None)
  }

  /** `best` is the rule of `seen` that applies and that no other such rule outranks. */
  ghost predicate IsBest(w: World, templates: seq<Template>, n: Node, mode: Option<string>, below: Option<int>,
                         seen: set<nat>, best: Option<nat>)
    requires IsNode(w.docs, n)
  {
    && (best.Some? ==> best.value in seen && best.value < |templates|
                       && Applies(w, templates[best.value], n, mode, below))
    && (forall i | i in seen && i < |templates| && Applies(w, templates[i], n, mode, below) ::
          best.Some? && (i == best.value || Outranks(templates[best.value], templates[i])))
  }

  /** A rule that may be chosen: it matches the node in the mode asked for, and comes from below where a bound is given. */
  predicate MayBeChosen(w: World, t: Template, n: Node, mode: Option<string>, below: Option<int>)
    requires IsNode(w.docs, n)
  {
    && t.mode == mode && (below == None || t.precedence < below.value)
    && t.pattern.Some? && AlternativeMatches(w, t.namespaces, t.pattern.value, n) == Ok(true)
  }

  /**
   Section 5.5: of the rules that may be chosen, those of the highest import precedence are left; of
   these those of the highest priority; and of these the one declared last.
   */
  ghost predicate IsRightRule(w: World, templates: seq<Template>, n: Node, mode: Option<string>, below: Option<int>, choice: Option<nat>)
    requires IsNode(w.docs, n)
  {
    match choice
    case None => forall t | t in templates :: !MayBeChosen(w, t, n, mode, below)
    case Some(k) =>
      && k < |templates| && MayBeChosen(w, templates[k], n, mode, below)
      && (forall t | t in templates && MayBeChosen(w, t, n, mode, below) :: t.precedence <= templates[k].precedence)
      && (forall t | t in templates && MayBeChosen(w, t, n, mode, below) && t.precedence == templates[k].precedence ::
            t.priority <= templates[k].priority)
      && (forall i: nat | k < i < |templates| && MayBeChosen(w, templates[i], n, mode, below) ::
            templates[i].precedence != templates[k].precedence || templates[i].priority != templates[k].priority)
  }

  /** The best of all rules is that one. */
  lemma BestIsRight(w: World, templates: seq<Template>, n: Node, mode: Option<string>, below: Option<int>, best: Option<nat>)
    requires IsNode(w.docs, n) && AreOrdered(templates) && IsBest(w, templates, n, mode, below, Span(0, |templates|), best)
    ensures IsRightRule(w, templates, n, mode, below, best)
  {
    hide AlternativeMatches;
    forall i: nat | i < |templates| && MayBeChosen(w, templates[i], n, mode, below)
      ensures best.Some? && (i == best.value || Outranks(templates[best.value], templates[i]))
    {
      assert Applies(w, templates[i], n, mode, below);
    }
  }

  /** Every rule is numbered by where it was declared, which settles the last tie. */
  predicate AreOrdered(templates: seq<Template>) {
    forall i | 0 <= i < |templates| :: templates[i].order == i
  }

  /** There is one best rule, whatever order the rules are seen in. */
  lemma BestIsUnique(w: World, templates: seq<Template>, n: Node, mode: Option<string>, below: Option<int>,
                     seen: set<nat>, seen': set<nat>, a: Option<nat>, b: Option<nat>)
    requires IsNode(w.docs, n)
    requires IsBest(w, templates, n, mode, below, seen, a) && IsBest(w, templates, n, mode, below, seen', b)
    requires forall i: nat | i < |templates| && Applies(w, templates[i], n, mode, below) :: i in seen && i in seen'
    ensures a == b
  {
    hide Applies;
  }

  /** One more rule seen. */
  lemma BestNext(w: World, templates: seq<Template>, n: Node, mode: Option<string>, below: Option<int>,
                 seen: set<nat>, best: Option<nat>, i: nat)
    requires IsNode(w.docs, n) && AreOrdered(templates) && i < |templates|
    requires IsBest(w, templates, n, mode, below, seen, best)
    ensures IsBest(w, templates, n, mode, below, seen + {i},
                   if Applies(w, templates[i], n, mode, below)
                      && (best.None? || Outranks(templates[i], templates[best.value])) then Some(i) else best)
  {
    hide Applies;
  }

  function Span(from: nat, to: nat): (r: set<nat>)
    ensures forall k: nat :: (k in r) <==> (from <= k && k < to)
    decreases if from < to then to - from else 0
  {
    if from < to then {from} + Span(from + 1, to) else {}
  }

  lemma {:induction false} ExhaustiveIsBest(w: World, templates: seq<Template>, n: Node, mode: Option<string>,
                                            below: Option<int>, seen: set<nat>, i: nat, best: Option<nat>)
    requires IsNode(w.docs, n) && AreOrdered(templates) && i <= |templates|
    requires IsBest(w, templates, n, mode, below, seen, best)
    ensures IsBest(w, templates, n, mode, below, seen + Span(i, |templates|),
                   ExhaustiveFrom(w, templates, n, mode, below, i, best))
    decreases |templates| - i
  {
    hide Applies, IsBest;
    if i == |templates| {
      assert seen + Span(i, |templates|) == seen;
    } else {
      BestNext(w, templates, n, mode, below, seen, best, i);
      assert seen + Span(i, |templates|) == seen + {i} + Span(i + 1, |templates|);
      BestInRange(w, templates, n, mode, below, seen, best);
      ExhaustiveIsBest(w, templates, n, mode, below, seen + {i}, i + 1,
                       if Applies(w, templates[i], n, mode, below)
                          && (best.None? || Outranks(templates[i], templates[best.value])) then Some(i) else best);
    }
  }

  lemma BestInRange(w: World, templates: seq<Template>, n: Node, mode: Option<string>, below: Option<int>,
                    seen: set<nat>, best: Option<nat>)
    requires IsNode(w.docs, n) && IsBest(w, templates, n, mode, below, seen, best)
    ensures best.Some? ==> best.value < |templates|
  {
  }

  /** No rule raises when it is tested against the node. */
  predicate NoneRaises(w: World, templates: seq<Template>, n: Node)
    requires IsNode(w.docs, n)
  {
    forall t | t in templates && t.pattern.Some? :: AlternativeMatches(w, t.namespaces, t.pattern.value, n).Ok?
  }

  /** Every rule outside the groups does not apply. */
  lemma OthersDoNotApply(w: World, templates: seq<Template>, index: RuleIndex, n: Node, mode: Option<string>,
                         below: Option<int>, i: nat)
    requires w.Valid() && IsNode(w.docs, n) && Files(index, templates, |templates|) && i < |templates|
    requires templates[i].pattern.Some? ==> IsCompiled(templates[i].pattern.value)
    requires Applies(w, templates[i], n, mode, below)
    ensures exists group :: group in Candidates(index, w.docs, n) && i in group
  {
    hide AlternativeMatches;
    var reach := ReachOf(templates[i].pattern.value, templates[i].namespaces);
    CompiledHasPatternAxes(templates[i].pattern.value);
    ReachIsNecessary(w, templates[i].namespaces, templates[i].pattern.value, n);
    assert Reaches(templates[i], reach) && IsFiled(index, reach, i);
    CandidatesAreInReach(index, w.docs, n, i);
  }

  lemma CandidateIsRule(templates: seq<Template>, index: RuleIndex, docs: Documents, n: Node, group: seq<nat>, k: nat)
    requires IsNode(docs, n) && Files(index, templates, |templates|)
    requires group in Candidates(index, docs, n) && k in group
    ensures k < |templates|
  {
    CandidatesAreInReach(index, docs, n, k);
    var reach :| InReach(docs, n, reach) && k in index.Bucket(reach);
    assert IsFiled(index, reach, k);
  }

  ghost function Those(group: seq<nat>): set<nat> {
    set i | i in group
  }

  /** Tests the rules of one group against a node, starting from the best seen before. */
  method BestOfGroup(w: World, templates: seq<Template>, n: Node, mode: Option<string>, below: Option<int>,
                     group: seq<nat>, ghost seen: set<nat>, best: Option<nat>) returns (r: Result<Option<nat>>)
    requires IsNode(w.docs, n) && AreOrdered(templates) && forall i | i in group :: i < |templates|
    requires IsBest(w, templates, n, mode, below, seen, best)
    ensures NoneRaises(w, templates, n) ==> r.Ok?
    ensures r.Ok? ==> IsBest(w, templates, n, mode, below, seen + Those(group), r.value)
  {
    hide AlternativeMatches;
    var current := best;
    for k := 0 to |group|
      invariant IsBest(w, templates, n, mode, below, seen + Those(group[..k]), current)
    {
      var position := group[k];
      assert position in group && group[..k + 1] == group[..k] + [position];
      var template := templates[position];
      ghost var before := seen + Those(group[..k]);
      assert before + {position} == seen + Those(group[..k + 1]);
      BestNext(w, templates, n, mode, below, before, current, position);
      if template.mode != mode || (below.Some? && template.precedence >= below.value) || template.pattern.None? {
        continue;
      }
      var matches :- AlternativeMatches(w, template.namespaces, template.pattern.value, n);
      if matches && (current.None? || Outranks(template, templates[current.value])) {
        current := Some(position);
      }
    }
    assert group[..|group|] == group;
    r := Ok(current);
  }

  /** The best rule for a node, tested group by group; with no error it is what scanning every rule gives. */
  method BestTemplate(w: World, templates: seq<Template>, index: RuleIndex, n: Node, mode: Option<string>, below: Option<int>)
    returns (r: Result<Option<nat>>)
    requires w.Valid() && IsNode(w.docs, n) && AreOrdered(templates) && Files(index, templates, |templates|)
    requires forall t | t in templates && t.pattern.Some? :: IsCompiled(t.pattern.value)
    ensures NoneRaises(w, templates, n) ==> r.Ok?
    ensures r.Ok? ==> r.value == Exhaustive(w, templates, n, mode, below)
    ensures r.Ok? ==> IsRightRule(w, templates, n, mode, below, r.value)
  {
    hide Applies, Exhaustive, NoneRaises, IsCompiled;
    var groups := Candidates(index, w.docs, n);
    var best: Option<nat> := None;
    ghost var seen: set<nat> := {};
    for g := 0 to |groups|
      invariant IsBest(w, templates, n, mode, below, seen, best)
      invariant forall i | 0 <= i < g :: forall k | k in groups[i] :: k in seen
    {
      assert groups[g] in groups;
      forall k | k in groups[g] ensures k < |templates| {
        CandidateIsRule(templates, index, w.docs, n, groups[g], k);
      }
      best :- BestOfGroup(w, templates, n, mode, below, groups[g], seen, best);
      seen := seen + Those(groups[g]);
    }
    forall i: nat | i < |templates| && Applies(w, templates[i], n, mode, below) ensures i in seen {
      OthersDoNotApply(w, templates, index, n, mode, below, i);
    }
    ExhaustiveScan(w, templates, n, mode, below);
    BestIsUnique(w, templates, n, mode, below, seen, Span(0, |templates|), best, Exhaustive(w, templates, n, mode, below));
    BestIsRight(w, templates, n, mode, below, best);
    r := Ok(best);
  }

  /** The exhaustive scan finds the one rule that applies and outranks every other that does. */
  lemma ExhaustiveScan(w: World, templates: seq<Template>, n: Node, mode: Option<string>, below: Option<int>)
    requires IsNode(w.docs, n) && AreOrdered(templates)
    ensures IsBest(w, templates, n, mode, below, Span(0, |templates|), Exhaustive(w, templates, n, mode, below))
  {
    hide Applies;
    ExhaustiveIsBest(w, templates, n, mode, below, {}, 0, None);
    assert {} + Span(0, |templates|) == Span(0, |templates|);
  }
}
