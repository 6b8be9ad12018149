/**
 The state a run changes, and what one call makes of it.

 `Kept` says what a call leaves as it was, however it ended. `Ran` adds what it did: the tree of the
 open node, the bindings and the messages are those the meaning of the construct gives. The lemmas
 below compose both along a body and into new nodes.
 */
module XsltStates {
  import opened Wrappers
  import opened Xdm
  import opened ResultTree
  import opened Stylesheets
  import opened XsltMeaning

  /** Everything a run changes. `peak` is the greatest depth reached so far. */
  datatype State = State(
    output: ResultNodes,
    insertion: seq<nat>,
    scopes: Scopes<nat>,
    log: Log,
    chain: seq<string>,
    currentRule: Option<CurrentRule>,
    depth: nat,
    peak: nat)
  {
    function Open(): nat
      requires insertion != []
    {
      insertion[|insertion| - 1]
    }
  }

  // --- Fragments that variables hold -----------------------------------------------------------------

  predicate FragmentsExist(scopes: Scopes<nat>, limit: nat) {
    forall scope | scope in scopes :: ScopeExists(scope, limit)
  }

  predicate ScopeExists(scope: seq<Binding<nat>>, limit: nat) {
    forall b | b in scope :: Exists(b, limit)
  }

  predicate Exists(b: Binding<nat>, limit: nat) {
    b.fragment.Some? ==> b.fragment.value < limit
  }

  /** No fragment a variable holds contains the node `i`. */
  ghost predicate Clear(out: ResultNodes, scopes: Scopes<nat>, i: nat)
    requires WellFormed(out)
  {
    forall scope | scope in scopes :: ScopeClear(out, scope, i)
  }

  ghost predicate ScopeClear(out: ResultNodes, scope: seq<Binding<nat>>, i: nat)
    requires WellFormed(out)
  {
    forall b | b in scope :: BindingClear(out, b, i)
  }

  ghost predicate BindingClear(out: ResultNodes, b: Binding<nat>, i: nat)
    requires WellFormed(out)
  {
    b.fragment.Some? ==> b.fragment.value < |out| && Avoids(out, b.fragment.value, i)
  }

  /** The bindings with the trees their fragments hold. */
  function Lifted(out: ResultNodes, scopes: Scopes<nat>): Scopes<Built>
    requires WellFormed(out) && FragmentsExist(scopes, |out|)
  {
    seq(|scopes|, i requires 0 <= i < |scopes| => assert scopes[i] in scopes; LiftedScope(out, scopes[i]))
  }

  function LiftedScope(out: ResultNodes, scope: seq<Binding<nat>>): seq<Binding<Built>>
    requires WellFormed(out) && ScopeExists(scope, |out|)
  {
    seq(|scope|, i requires 0 <= i < |scope| => assert scope[i] in scope; Lift(out, scope[i]))
  }

  function Lift(out: ResultNodes, b: Binding<nat>): Binding<Built>
    requires WellFormed(out) && Exists(b, |out|)
  {
    Binding(b.name, b.value, if b.fragment.Some? then Some(TreeOf(out, b.fragment.value)) else None)
  }

  lemma SeenLifted(out: ResultNodes, scopes: Scopes<nat>)
    requires WellFormed(out) && FragmentsExist(scopes, |out|)
    ensures Seen(Lifted(out, scopes)) == Seen(scopes)
  {
    forall i: nat | i < |scopes| ensures Seen(Lifted(out, scopes))[i] == Seen(scopes)[i] {
      assert scopes[i] in scopes;
      assert SeenOf(LiftedScope(out, scopes[i])) == SeenOf(scopes[i]);
    }
  }

  /** The binding found is there, and has that name. */
  lemma {:induction false} NamedIsThere(scope: seq<Binding<nat>>, name: string)
    ensures BindingNamed(scope, name).Some? ==> BindingNamed(scope, name).value in scope && BindingNamed(scope, name).value.name == name
  {
    if scope != [] {
      NamedIsThere(scope[..|scope| - 1], name);
    }
  }

  lemma {:induction false} BindingLifted(out: ResultNodes, scope: seq<Binding<nat>>, name: string)
    requires WellFormed(out) && ScopeExists(scope, |out|)
    ensures BindingNamed(scope, name).Some? ==> Exists(BindingNamed(scope, name).value, |out|)
    ensures BindingNamed(LiftedScope(out, scope), name)
         == if BindingNamed(scope, name).Some? then Some(Lift(out, BindingNamed(scope, name).value)) else None
  {
    if scope != [] && scope[|scope| - 1].name == name {
      assert scope[|scope| - 1] in scope;
    } else if scope != [] {
      BindingLifted(out, scope[..|scope| - 1], name);
      assert LiftedScope(out, scope)[..|scope| - 1] == LiftedScope(out, scope[..|scope| - 1]);
    }
  }

  lemma {:induction false} FragmentLifted(out: ResultNodes, scopes: Scopes<nat>, name: string)
    requires WellFormed(out) && FragmentsExist(scopes, |out|)
    ensures FragmentNamed(scopes, name).Some? ==> FragmentNamed(scopes, name).value < |out|
    ensures FragmentNamed(Lifted(out, scopes), name)
         == if FragmentNamed(scopes, name).Some? then Some(TreeOf(out, FragmentNamed(scopes, name).value)) else None
  {
    if scopes != [] {
      var last := |scopes| - 1;
      assert scopes[last] in scopes;
      BindingLifted(out, scopes[last], name);
      FragmentLifted(out, scopes[..last], name);
      assert Lifted(out, scopes)[..last] == Lifted(out, scopes[..last]);
    }
  }

  lemma {:induction false} ClearOfNamed(out: ResultNodes, scopes: Scopes<nat>, name: string, i: nat)
    requires WellFormed(out) && Clear(out, scopes, i) && FragmentNamed(scopes, name).Some?
    ensures FragmentNamed(scopes, name).value < |out| && Avoids(out, FragmentNamed(scopes, name).value, i)
  {
    var last := |scopes| - 1;
    assert ScopeClear(out, scopes[last], i);
    var found := BindingNamed(scopes[last], name);
    NamedIsThere(scopes[last], name);
    if found.Some? {
      assert BindingClear(out, found.value, i);
    } else {
      ClearOfNamed(out, scopes[..last], name, i);
    }
  }

  lemma ScopeStays(a: ResultNodes, b: ResultNodes, open: nat, scope: seq<Binding<nat>>)
    requires WellFormed(a) && WellFormed(b) && Untouched(a, b, open)
    requires ScopeExists(scope, |a|) && ScopeClear(a, scope, open)
    ensures ScopeExists(scope, |b|) && LiftedScope(b, scope) == LiftedScope(a, scope)
    ensures forall i: nat | ScopeClear(a, scope, i) || i >= |a| :: ScopeClear(b, scope, i)
  {
    forall x | x in scope && x.fragment.Some?
      ensures x.fragment.value < |a| && TreeOf(b, x.fragment.value) == TreeOf(a, x.fragment.value)
    {
      assert Exists(x, |a|) && BindingClear(a, x, open);
      TreeStays(a, b, open, x.fragment.value);
    }
    forall i: nat | ScopeClear(a, scope, i) || i >= |a| ensures ScopeClear(b, scope, i) {
      forall x | x in scope ensures BindingClear(b, x, i) {
        if x.fragment.Some? {
          assert BindingClear(a, x, open) && (i >= |a| || BindingClear(a, x, i));
          AvoidsStays(a, b, open, x.fragment.value, i);
        }
      }
    }
    assert forall x | x in scope :: Exists(x, |b|) by {
      forall x | x in scope ensures Exists(x, |b|) {
        assert Exists(x, |a|);
      }
    }
    assert forall k | 0 <= k < |scope| :: Lift(b, scope[k]) == Lift(a, scope[k]);
  }

  lemma ScopesStay(a: ResultNodes, b: ResultNodes, open: nat, scopes: Scopes<nat>)
    requires WellFormed(a) && WellFormed(b) && Untouched(a, b, open)
    requires FragmentsExist(scopes, |a|) && Clear(a, scopes, open)
    ensures FragmentsExist(scopes, |b|) && Lifted(b, scopes) == Lifted(a, scopes)
    ensures forall i: nat | Clear(a, scopes, i) || i >= |a| :: Clear(b, scopes, i)
  {
    forall scope | scope in scopes
      ensures ScopeExists(scope, |a|) && ScopeExists(scope, |b|) && LiftedScope(b, scope) == LiftedScope(a, scope)
      ensures forall i: nat | ScopeClear(a, scope, i) || i >= |a| :: ScopeClear(b, scope, i)
    {
      assert ScopeExists(scope, |a|) && ScopeClear(a, scope, open);
      ScopeStays(a, b, open, scope);
    }
    assert forall k | 0 <= k < |scopes| :: scopes[k] in scopes && LiftedScope(b, scopes[k]) == LiftedScope(a, scopes[k]);
  }

  /** Fragments no older than `from` contain nothing older. */
  ghost predicate NewScope(scope: seq<Binding<nat>>, from: nat) {
    forall b | b in scope :: IsNew(b, from)
  }

  ghost predicate IsNew(b: Binding<nat>, from: nat) {
    b.fragment.Some? ==> from <= b.fragment.value
  }

  lemma NewIsClear(out: ResultNodes, scope: seq<Binding<nat>>, from: nat, i: nat)
    requires WellFormed(out) && ScopeExists(scope, |out|) && NewScope(scope, from) && i < from
    ensures ScopeClear(out, scope, i)
  {
    forall b | b in scope ensures BindingClear(out, b, i) {
      assert Exists(b, |out|) && IsNew(b, from);
      if b.fragment.Some? {
        AvoidsOlder(out, b.fragment.value, i);
      }
    }
  }

  // --- Sound states -----------------------------------------------------------------------------------

  /** Content may go into `i`: it is there, it takes content, and no variable holds it. */
  ghost predicate CanOpen(out: ResultNodes, scopes: Scopes<nat>, i: nat) {
    i < |out| && out[i].IsOpen() && WellFormed(out) && Clear(out, scopes, i)
  }

  ghost predicate Steady(s: State) {
    WellFormed(s.output) && FragmentsExist(s.scopes, |s.output|)
  }

  ghost predicate Sound(s: State, limit: nat) {
    && s.depth <= s.peak <= limit && Steady(s)
    && (forall i | i in s.insertion :: CanOpen(s.output, s.scopes, i))
    && s.insertion != [] && CanOpen(s.output, s.scopes, s.Open())
  }

  /** The scopes below the innermost are untouched, and that one has only gained bindings. */
  ghost predicate ScopesGrew(before: Scopes<nat>, after: Scopes<nat>, from: nat) {
    && |after| == |before|
    && (before != [] ==> before[..|before| - 1] == after[..|after| - 1] && ScopeGrew(before[|before| - 1], after[|after| - 1], from))
  }

  ghost predicate ScopeGrew(before: seq<Binding<nat>>, after: seq<Binding<nat>>, from: nat) {
    before <= after && NewScope(after[|before|..], from)
  }

  /**
   What a call leaves behind, however it ended: the depth, the open nodes, the attribute sets in use
   and the current rule are as they were, no scope is left over, and the result has only grown, at
   the node `open`.
   */
  ghost predicate KeptAt(a: State, b: State, open: nat) {
    && b.depth == a.depth && b.insertion == a.insertion && b.chain == a.chain && b.currentRule == a.currentRule
    && ScopesGrew(a.scopes, b.scopes, |a.output|)
    && Grew(a.output, b.output, open)
    && a.log <= b.log && a.peak <= b.peak
  }

  lemma ScopeGrewTwice(a: seq<Binding<nat>>, b: seq<Binding<nat>>, c: seq<Binding<nat>>, from: nat, later: nat)
    requires ScopeGrew(a, b, from) && ScopeGrew(b, c, later) && from <= later
    ensures ScopeGrew(a, c, from)
  {
    assert c[|a|..] == b[|a|..] + c[|b|..];
    forall x | x in c[|a|..] ensures IsNew(x, from) {
      assert x in b[|a|..] || x in c[|b|..];
    }
  }

  lemma KeptTwice(a: State, b: State, c: State, open: nat)
    requires KeptAt(a, b, open) && KeptAt(b, c, open)
    ensures KeptAt(a, c, open)
  {
    GrewTwice(a.output, b.output, c.output, open);
    if a.scopes != [] {
      var last := |a.scopes| - 1;
      ScopeGrewTwice(a.scopes[last], b.scopes[last], c.scopes[last], |a.output|, |b.output|);
    }
  }

  /** What goes on inside a node that is new. */
  lemma KeptInside(a: State, b: State, c: State, open: nat, inner: nat)
    requires KeptAt(a, b, open) && KeptAt(b, c, inner) && |a.output| <= inner
    ensures KeptAt(a, c, open)
  {
    GrewInside(a.output, b.output, c.output, open, inner);
    if a.scopes != [] {
      var last := |a.scopes| - 1;
      ScopeGrewTwice(a.scopes[last], b.scopes[last], c.scopes[last], |a.output|, |b.output|);
    }
  }

  lemma KeptNothing(s: State, open: nat)
    ensures KeptAt(s, s, open)
  {
    if s.scopes != [] {
      var last := s.scopes[|s.scopes| - 1];
      assert last[|last|..] == [];
    }
  }

  /** Bindings a call may have added hold only new fragments, so what was open and clear still is. */
  lemma StaysOpenable(a: State, b: State, open: nat, i: nat)
    requires Steady(a) && Steady(b) && KeptAt(a, b, open)
    requires CanOpen(a.output, a.scopes, open) && CanOpen(a.output, a.scopes, i)
    ensures CanOpen(b.output, b.scopes, i)
  {
    GrewIsUntouched(a.output, b.output, open);
    ScopesStay(a.output, b.output, open, a.scopes);
    assert NodeKept(a.output[i], b.output[i], i == open);
    forall scope | scope in b.scopes ensures ScopeClear(b.output, scope, i) {
      var k :| 0 <= k < |b.scopes| && b.scopes[k] == scope;
      if k < |b.scopes| - 1 {
        assert scope == b.scopes[..|b.scopes| - 1][k] == a.scopes[..|a.scopes| - 1][k];
        assert scope in a.scopes;
      } else {
        var before := a.scopes[k];
        assert before in a.scopes && ScopeClear(b.output, before, i);
        assert scope == before + scope[|before|..];
        assert ScopeExists(scope, |b.output|);
        NewIsClear(b.output, scope[|before|..], |a.output|, i);
        assert forall x | x in scope :: x in before || x in scope[|before|..];
      }
    }
  }

  lemma AllStayOpenable(a: State, b: State, open: nat)
    requires Steady(a) && Steady(b) && KeptAt(a, b, open) && CanOpen(a.output, a.scopes, open)
    ensures forall i | CanOpen(a.output, a.scopes, i) :: CanOpen(b.output, b.scopes, i)
  {
    forall i | CanOpen(a.output, a.scopes, i) ensures CanOpen(b.output, b.scopes, i) {
      StaysOpenable(a, b, open, i);
    }
  }

  // --- What a call did ----------------------------------------------------------------------------------

  /** Where content going into `open` stands. */
  ghost function EnvAt(s: State, open: nat): Env
    requires Steady(s) && open < |s.output|
  {
    Env(Lifted(s.output, s.scopes), s.depth, s.chain, s.currentRule, s.output[open].kind == ElementResult)
  }

  ghost function Here(s: State): Env
    requires Steady(s) && s.insertion != [] && s.Open() < |s.output|
  {
    EnvAt(s, s.Open())
  }

  /** From `a` to `b` just this was done, its content going into `open`. */
  ghost predicate Achieved(a: State, b: State, open: nat, d: Done) {
    && Steady(a) && Steady(b) && open < |a.output| <= |b.output|
    && TreeOf(b.output, open) == TreeOf(a.output, open).With(d.content)
    && Lifted(b.output, b.scopes) == d.scopes
    && b.log == a.log + d.log
  }

  /** A call with outcome `r` kept what it must, failed just when its meaning does, and otherwise did what that says. */
  ghost predicate RanAt(a: State, b: State, open: nat, r: Result<()>, m: Outcome<Done>) {
    && KeptAt(a, b, open) && (r.Ok? <==> m.Fine?)
    && if m.Fine? then Achieved(a, b, open, m.value) else b.log == a.log + m.log
  }

  ghost predicate Ran(a: State, b: State, r: Result<()>, m: Outcome<Done>) {
    a.insertion != [] && RanAt(a, b, a.Open(), r, m)
  }

  ghost predicate Kept(a: State, b: State) {
    a.insertion != [] && KeptAt(a, b, a.Open())
  }

  /** A fragment built beside the open node, into which nothing went. */
  ghost predicate Captured(a: State, b: State, r: Result<nat>, m: Outcome<(Built, Done)>) {
    && Kept(a, b) && (r.Ok? <==> m.Fine?) && (m.Failed? ==> b.log == a.log + m.log)
    && (r.Ok? ==> && Steady(b) && |a.output| <= r.value < |b.output| && TreeOf(b.output, r.value) == m.value.0
                  && Achieved(a, b, a.Open(), m.value.1))
  }

  /** The text of such a fragment. */
  ghost predicate CapturedAs(a: State, b: State, r: Result<string>, m: Outcome<(Built, Done)>) {
    && Kept(a, b) && (r.Ok? <==> m.Fine?) && (m.Failed? ==> b.log == a.log + m.log)
    && (r.Ok? ==> r.value == TextUnder(m.value.0) && Achieved(a, b, a.Open(), m.value.1))
  }

  /** A declared value, and the fragment, if any, that was newly built for it. */
  ghost predicate DeclaredAs(a: State, b: State, name: string, r: Result<(Value, Option<nat>)>, m: Outcome<(Binding<Built>, Done)>) {
    && Kept(a, b) && (r.Ok? <==> m.Fine?) && (m.Failed? ==> b.log == a.log + m.log)
    && (r.Ok? ==> var binding := Binding(name, r.value.0, r.value.1);
                  && Steady(b) && IsNew(binding, |a.output|) && Exists(binding, |b.output|)
                  && Lift(b.output, binding) == m.value.0 && Achieved(a, b, a.Open(), m.value.1))
  }

  ghost predicate BoundTo(a: State, b: State, r: Result<seq<Binding<nat>>>, m: Outcome<(seq<Binding<Built>>, Done)>) {
    && Kept(a, b) && (r.Ok? <==> m.Fine?) && (m.Failed? ==> b.log == a.log + m.log)
    && (r.Ok? ==> && Steady(b) && NewScope(r.value, |a.output|) && ScopeExists(r.value, |b.output|)
                  && LiftedScope(b.output, r.value) == m.value.0 && Achieved(a, b, a.Open(), m.value.1))
  }

  lemma Opens(s: State, limit: nat)
    requires Sound(s, limit)
    ensures Steady(s) && s.insertion != [] && s.Open() < |s.output|
  {
  }

  /** Nothing done yet. */
  lemma StartsHere(s: State, limit: nat, open: nat)
    requires Sound(s, limit) && open < |s.output|
    ensures KeptAt(s, s, open) && Achieved(s, s, open, Quiet(EnvAt(s, open)))
  {
    KeptNothing(s, open);
    WithThen(TreeOf(s.output, open), EMPTY, EMPTY);
    assert s.log + [] == s.log;
  }

  /** Doing nothing, and failing at once. */
  lemma NothingRuns(s: State, limit: nat)
    requires Sound(s, limit)
    ensures Steady(s) && s.insertion != [] && s.Open() < |s.output| && CanOpen(s.output, s.scopes, s.Open()) && s.depth <= limit
    ensures Ran(s, s, Ok(()), Fine(Quiet(Here(s)))) && Ran(s, s, Err, Failed([]))
  {
    StartsHere(s, limit, s.Open());
  }

  lemma AchievedTwice(a: State, b: State, c: State, open: nat, d: Done, e: Done)
    requires Achieved(a, b, open, d) && Achieved(b, c, open, e)
    ensures Achieved(a, c, open, d.Then(e))
  {
    WithThen(TreeOf(a.output, open), d.content, e.content);
    assert a.log + d.log + e.log == a.log + (d.log + e.log);
  }

  /** What comes next stands where the call did, but for what it bound. */
  lemma EnvAfter(a: State, b: State, open: nat, d: Done)
    requires KeptAt(a, b, open) && Achieved(a, b, open, d)
    ensures EnvAt(b, open) == EnvAt(a, open).(scopes := d.scopes)
  {
    assert NodeKept(a.output[open], b.output[open], true);
  }

  /** Of what `whole` says, `done` is done, its content in `open`, and `rest` is not. */
  ghost predicate SoFar(a: State, b: State, open: nat, done: Done, whole: Outcome<Done>, rest: Outcome<Done>) {
    KeptAt(a, b, open) && Achieved(a, b, open, done) && whole == done.Next(rest)
  }

  lemma SoFarAt(a: State, b: State, open: nat, done: Done, whole: Outcome<Done>, rest: Outcome<Done>)
    requires SoFar(a, b, open, done, whole, rest)
    ensures Steady(a) && Steady(b) && open < |a.output| <= |b.output|
    ensures EnvAt(b, open) == EnvAt(a, open).(scopes := done.scopes)
    ensures b.depth == a.depth && b.chain == a.chain && b.insertion == a.insertion
  {
    EnvAfter(a, b, open, done);
  }

  /** Along a body, what comes next stands where the body did. */
  lemma SoFarHere(a: State, b: State, open: nat, done: Done, whole: Outcome<Done>, rest: Outcome<Done>, limit: nat)
    requires SoFar(a, b, open, done, whole, rest) && Sound(a, limit) && Sound(b, limit) && open == a.Open()
    ensures Steady(b) && b.insertion != [] && b.Open() == open < |b.output|
    ensures Here(b) == Here(a).(scopes := done.scopes)
    ensures b.depth == a.depth <= limit && b.chain == a.chain
  {
    EnvAfter(a, b, open, done);
  }

  lemma FailedNow(a: State, b: State, open: nat, done: Done, whole: Outcome<Done>)
    requires SoFar(a, b, open, done, whole, Failed([]))
    ensures RanAt(a, b, open, Err, whole)
  {
    assert done.log + [] == done.log;
  }

  lemma NothingSoFar(s: State, limit: nat, open: nat, whole: Outcome<Done>)
    requires Sound(s, limit) && open < |s.output|
    ensures SoFar(s, s, open, Quiet(EnvAt(s, open)), whole, whole)
  {
    StartsHere(s, limit, open);
    NothingThen(Lifted(s.output, s.scopes), whole);
  }

  /** One more of several: `rest` is `first`, then `after`. */
  lemma OneMore(a: State, b: State, c: State, open: nat, done: Done, outcome: Result<()>, first: Outcome<Done>,
                whole: Outcome<Done>, rest: Outcome<Done>, after: Outcome<Done>)
    requires SoFar(a, b, open, done, whole, rest) && RanAt(b, c, open, outcome, first)
    requires rest == if first.Fine? then first.value.Next(after) else first
    ensures KeptAt(a, c, open)
    ensures outcome.Err? ==> RanAt(a, c, open, Err, whole)
    ensures outcome.Ok? ==> first.Fine? && SoFar(a, c, open, done.Then(first.value), whole, after)
  {
    KeptTwice(a, b, c, open);
    if outcome.Ok? {
      AchievedTwice(a, b, c, open, done, first.value);
      DoneThen(done, first.value, after);
    } else {
      assert a.log + done.log + first.log == a.log + (done.log + first.log);
    }
  }

  /** The last of several. */
  lemma AllDone(a: State, b: State, open: nat, done: Done, whole: Outcome<Done>)
    requires SoFar(a, b, open, done, whole, Fine(Done(done.scopes, EMPTY, [])))
    ensures RanAt(a, b, open, Ok(()), whole)
  {
    DoneThen(done, done, Failed([]));
  }

  lemma RanTwice(a: State, b: State, c: State, open: nat, d: Done, r: Result<()>, m: Outcome<Done>)
    requires RanAt(a, b, open, Ok(()), Fine(d)) && RanAt(b, c, open, r, m)
    ensures RanAt(a, c, open, r, d.Next(m))
  {
    KeptTwice(a, b, c, open);
    if m.Fine? {
      AchievedTwice(a, b, c, open, d, m.value);
    } else {
      assert a.log + d.log + m.log == a.log + (d.log + m.log);
    }
  }

  /** What a body was run for, once its text is put into the open node. */
  lemma CapturedThenPut(a: State, b: State, c: State, captured: (Built, Done), content: Content)
    requires Kept(a, b) && Achieved(a, b, a.Open(), captured.1) && captured.1.content == EMPTY
    requires Ran(b, c, Ok(()), Fine(Putting(Here(b), content)))
    ensures Ran(a, c, Ok(()), Fine(captured.1.(content := content)))
  {
    RanTwice(a, b, c, a.Open(), captured.1, Ok(()), Fine(Putting(Here(b), content)));
    ThenPut(captured.1, content);
  }

  /** One level deeper and back. */
  lemma RanDeeper(a: State, b: State, c: State, tested: bool, r: Result<()>, m: Outcome<Done>, limit: nat)
    requires Sound(a, limit) && Sound(c, limit) && Ran(b, c, r, m)
    requires b == a.(depth := a.depth + 1, peak := b.peak, log := a.log + [Entered(a.depth, tested)]) && a.peak <= b.peak
    ensures Sound(c.(depth := a.depth), limit)
    ensures Ran(a, c.(depth := a.depth), r, Logged(Entered(a.depth, tested), m))
  {
    var e, log := [Entered(a.depth, tested)], LogOf(m);
    assert a.log + e + log == a.log + (e + log);
  }

  /** A template entered: the state one level deeper is sound where there is room for it. */
  lemma GoneDeeper(a: State, tested: bool, limit: nat)
    requires Sound(a, limit) && a.depth < limit
    ensures var b := a.(depth := a.depth + 1, peak := if a.peak < a.depth + 1 then a.depth + 1 else a.peak,
                        log := a.log + [Entered(a.depth, tested)]);
            && Sound(b, limit) && Steady(b) && b.insertion != [] && b.Open() < |b.output|
            && Here(b) == Here(a).(depth := a.depth + 1)
  {
  }

  lemma UnderRule(a: State, current: Option<CurrentRule>, limit: nat)
    requires Sound(a, limit)
    ensures var b := a.(currentRule := current);
            && Sound(b, limit) && Steady(b) && b.insertion != [] && b.Open() < |b.output|
            && Here(b) == Here(a).(currentRule := current)
  {
  }

  /** Under another rule, and back under the one before. */
  lemma RanUnder(a: State, current: Option<CurrentRule>, c: State, r: Result<()>, m: Outcome<Done>, limit: nat)
    requires Sound(a, limit) && Sound(c, limit) && Ran(a.(currentRule := current), c, r, m)
    ensures Sound(c.(currentRule := a.currentRule), limit) && Ran(a, c.(currentRule := a.currentRule), r, m)
  {
  }

  /** Running in a scope of its own: push it, run, pop it. */
  lemma RanInScope(a: State, scope: seq<Binding<nat>>, c: State, r: Result<()>, inside: Outcome<Done>, limit: nat)
    requires Sound(a, limit) && Sound(c, limit)
    requires Ran(a.(scopes := a.scopes + [scope]), c, r, inside)
    ensures |c.scopes| == |a.scopes| + 1 && c.scopes[..|a.scopes|] == a.scopes
    ensures Sound(c.(scopes := a.scopes), limit)
    ensures Ran(a, c.(scopes := a.scopes), r,
                if inside.Fine? then Fine(inside.value.(scopes := Lifted(a.output, a.scopes))) else inside)
  {
    var pushed := a.(scopes := a.scopes + [scope]);
    assert pushed.scopes[..|a.scopes|] == a.scopes;
    var popped := c.(scopes := a.scopes);
    assert forall x | x in a.scopes :: x in c.scopes by {
      assert c.scopes[..|a.scopes|] == a.scopes;
    }
    assert Steady(popped);
    assert forall i :: CanOpen(c.output, c.scopes, i) ==> CanOpen(popped.output, popped.scopes, i);
    assert a.Open() in a.insertion;
    GrewIsUntouched(a.output, c.output, a.Open());
    ScopesStay(a.output, c.output, a.Open(), a.scopes);
    KeptNothing(a, a.Open());
  }

  lemma ScopePushed(s: State, scope: seq<Binding<nat>>, limit: nat)
    requires Sound(s, limit) && ScopeExists(scope, |s.output|)
    requires forall i | i in s.insertion :: ScopeClear(s.output, scope, i)
    ensures Sound(s.(scopes := s.scopes + [scope]), limit)
    ensures Lifted(s.output, s.scopes + [scope]) == Lifted(s.output, s.scopes) + [LiftedScope(s.output, scope)]
  {
    var pushed := s.(scopes := s.scopes + [scope]);
    forall i | i in s.insertion ensures CanOpen(pushed.output, pushed.scopes, i) {
      assert CanOpen(s.output, s.scopes, i);
    }
    assert pushed.scopes[..|s.scopes|] == s.scopes;
  }

  /** One more open node. */
  lemma NodePushed(s: State, inner: nat, limit: nat)
    requires Sound(s, limit) && CanOpen(s.output, s.scopes, inner)
    ensures Sound(s.(insertion := s.insertion + [inner]), limit)
    ensures s.(insertion := s.insertion + [inner]).Open() == inner
    ensures Here(s.(insertion := s.insertion + [inner])) == EnvAt(s, inner)
  {
  }

  lemma NodePopped(a: State, inner: nat, c: State, r: Result<()>, m: Outcome<Done>, limit: nat)
    requires Sound(c, limit) && a.insertion != [] && Ran(a.(insertion := a.insertion + [inner]), c, r, m)
    ensures c.insertion[..|c.insertion| - 1] == a.insertion
    ensures Sound(c.(insertion := a.insertion), limit) && RanAt(a, c.(insertion := a.insertion), inner, r, m)
  {
    assert (a.insertion + [inner])[..|a.insertion|] == a.insertion;
    assert forall i | i in a.insertion :: i in c.insertion;
  }

  // --- New nodes ------------------------------------------------------------------------------------------

  /** A new node changes nothing that was there. */
  lemma NodeCreated(s: State, n: ResultNode, limit: nat)
    requires Sound(s, limit) && IsDetached(n)
    ensures var b := s.(output := Create(s.output, n)); var id := |s.output|;
            && Sound(b, limit) && (forall open :: KeptAt(s, b, open))
            && TreeOf(b.output, id) == Leaf(n) && Lifted(b.output, b.scopes) == Lifted(s.output, s.scopes)
            && Clear(b.output, b.scopes, id)
            && forall i: nat | i < |s.output| :: TreeOf(b.output, i) == TreeOf(s.output, i)
  {
    var b := s.(output := Create(s.output, n));
    var id := |s.output|;
    CreatedTree(s.output, n);
    assert Untouched(s.output, b.output, id);
    assert Clear(s.output, s.scopes, id) by {
      forall scope | scope in s.scopes ensures ScopeClear(s.output, scope, id) {
        assert ScopeExists(scope, |s.output|);
        forall x | x in scope ensures BindingClear(s.output, x, id) {
          assert Exists(x, |s.output|);
          if x.fragment.Some? {
            AvoidsOlder(s.output, x.fragment.value, id);
          }
        }
      }
    }
    ScopesStay(s.output, b.output, id, s.scopes);
    forall i | i in s.insertion ensures CanOpen(b.output, b.scopes, i) {
      assert CanOpen(s.output, s.scopes, i);
    }
    forall i: nat | i < |s.output| ensures TreeOf(b.output, i) == TreeOf(s.output, i) {
      AvoidsOlder(s.output, i, id);
      TreeStays(s.output, b.output, id, i);
    }
    KeptNothing(s, 0);
    assert forall open :: KeptAt(s, b, open);
  }

  /** A detached node joins the innermost open one. */
  lemma NodeAppended(s: State, c: nat, limit: nat)
    requires Sound(s, limit) && s.Open() < c < |s.output| && s.output[c].parent.None?
    ensures s.Open() < |s.output|
    ensures var b := s.(output := AppendChild(s.output, s.Open(), c));
            && Sound(b, limit) && Lifted(b.output, b.scopes) == Lifted(s.output, s.scopes)
            && TreeOf(b.output, c) == TreeOf(s.output, c)
            && forall i | CanOpen(s.output, s.scopes, i) :: CanOpen(b.output, b.scopes, i)
  {
    var open := s.Open();
    assert open in s.insertion && CanOpen(s.output, s.scopes, open);
    var b := s.(output := AppendChild(s.output, open, c));
    AppendKeepsShape(s.output, open, c);
    assert Untouched(s.output, b.output, open);
    ScopesStay(s.output, b.output, open, s.scopes);
    AvoidsOlder(s.output, c, open);
    TreeStays(s.output, b.output, open, c);
    forall i | CanOpen(s.output, s.scopes, i) ensures CanOpen(b.output, b.scopes, i) {
    }
  }

  lemma KeptAppend(a: State, b: State, open: nat, c: nat)
    requires KeptAt(a, b, open) && open < c < |b.output| && |a.output| <= c
    ensures KeptAt(a, b.(output := AppendChild(b.output, open, c)), open)
  {
    GrewAppend(a.output, b.output, open, c);
  }

  /** From `a` to `b` the node `inner` came to be the last child of `open`, and `d` was done inside it. */
  ghost predicate Placed(a: State, b: State, open: nat, inner: nat, n: ResultNode, d: Done) {
    && Steady(a) && Steady(b) && KeptAt(a, b, open) && open < |a.output| <= inner < |b.output|
    && b.output[open].children == a.output[open].children + [inner]
    && b.output[open].attributes == a.output[open].attributes
    && b.output[inner].kind == n.kind && CanOpen(b.output, b.scopes, inner)
    && TreeOf(b.output, inner) == Leaf(n).With(d.content)
    && Lifted(b.output, b.scopes) == d.scopes && b.log == a.log + d.log
  }

  /** More is done inside it: in all, one child is put into the open node. */
  lemma PlacedFilled(a: State, b: State, c: State, open: nat, inner: nat, n: ResultNode, d: Done, r: Result<()>, m: Outcome<Done>)
    requires Placed(a, b, open, inner, n, d) && RanAt(b, c, inner, r, m)
    ensures RanAt(a, c, open, r, Wrapped(n, d.Next(m)))
  {
    KeptInside(a, b, c, open, inner);
    assert a.log + d.log + LogOf(m) == a.log + (d.log + LogOf(m));
    if m.Fine? {
      assert NodeKept(b.output[open], c.output[open], false);
      WithThen(Leaf(n), d.content, m.value.content);
      AppendedTree(a.output, c.output, open, inner);
    }
  }

  /** An element put in place, its attribute sets, and then its body. */
  lemma ElementFilled(a: State, b: State, c: State, e: State, open: nat, inner: nat, n: ResultNode, env: Env, used: Done,
                      r: Result<()>, m: Outcome<Done>)
    requires Placed(a, b, open, inner, n, Quiet(env)) && RanAt(b, c, inner, Ok(()), Fine(used)) && RanAt(c, e, inner, r, m)
    ensures RanAt(a, e, open, r, Wrapped(n, used.Then(Done(used.scopes, EMPTY, [])).Next(m)))
  {
    hide Placed, RanAt, Wrapped;
    RanTwice(b, c, e, inner, used, r, m);
    PlacedFilled(a, b, e, open, inner, n, Quiet(env), r, used.Next(m));
    NothingThen(env.scopes, used.Next(m));
    DoneThen(used, used, Failed([]));
  }

  /** A new node, with `d` done inside it before it joins the open one. */
  lemma NodePlaced(a: State, s: State, b: State, n: ResultNode, d: Done, limit: nat)
    requires Sound(a, limit) && Sound(b, limit) && IsDetached(n) && n.IsOpen()
    requires s == a.(output := Create(a.output, n))
    requires KeptAt(s, b, |a.output|) && Achieved(s, b, |a.output|, d)
    ensures a.Open() < |a.output| < |b.output| && b.output[|a.output|].parent.None? && b.Open() == a.Open()
    ensures var c := b.(output := AppendChild(b.output, a.Open(), |a.output|));
            Sound(c, limit) && Placed(a, c, a.Open(), |a.output|, n, d)
  {
    var open, inner := a.Open(), |a.output|;
    StartsHere(a, limit, open);
    NodeCreated(a, n, limit);
    assert CanOpen(s.output, s.scopes, inner);
    KeptInside(a, s, b, open, inner);
    StaysOpenable(s, b, inner, inner);
    assert NodeKept(s.output[inner], b.output[inner], true) && NodeKept(s.output[open], b.output[open], false);
    NodeAppended(b, inner, limit);
    KeptAppend(a, b, open, inner);
  }

  /** A new node with nothing in it, put into the open one. */
  lemma NewChildPut(s: State, n: ResultNode, limit: nat)
    requires Sound(s, limit) && IsDetached(n)
    ensures s.Open() < |s.output|
    ensures var b := s.(output := AppendChild(Create(s.output, n), s.Open(), |s.output|));
            Ran(s, b, Ok(()), Fine(Putting(Here(s), Child(Leaf(n)))))
  {
    var open := s.Open();
    StartsHere(s, limit, open);
    var a := s.(output := Create(s.output, n));
    NodeCreated(s, n, limit);
    NodeAppended(a, |s.output|, limit);
    KeptAppend(s, a, open, |s.output|);
    var b := a.(output := AppendChild(a.output, open, |s.output|));
    assert s.log + [] == s.log;
    AppendedTree(s.output, b.output, open, |s.output|);
  }

  /** What is done in a new fragment puts nothing into any node that was there. */
  lemma FragmentFilled(a: State, b: State, c: State, open: nat, d: Done, limit: nat)
    requires Sound(a, limit) && open < |a.output| && b == a.(output := Create(a.output, Fragment()))
    requires Achieved(b, c, |a.output|, d) && KeptAt(b, c, |a.output|)
    ensures Achieved(a, c, open, d.(content := EMPTY)) && KeptAt(a, c, open)
    ensures TreeOf(c.output, |a.output|) == Leaf(Fragment()).With(d.content)
  {
    var id := |a.output|;
    NodeCreated(a, Fragment(), limit);
    KeptInside(a, b, c, open, id);
    KeptInside(a, b, c, id, id);
    GrewIsUntouched(a.output, c.output, id);
    AvoidsOlder(a.output, open, id);
    TreeStays(a.output, c.output, id, open);
    WithThen(TreeOf(a.output, open), EMPTY, EMPTY);
  }

  /** An attribute put onto an element changes nothing else. */
  lemma AttributePut(s: State, e: nat, name: ExpandedName, value: string, limit: nat)
    requires Sound(s, limit) && CanOpen(s.output, s.scopes, e)
    ensures var b := s.(output := SetAttribute(s.output, e, name, value));
            && Sound(b, limit) && CanOpen(b.output, b.scopes, e)
            && KeptAt(s, b, e) && Achieved(s, b, e, Putting(EnvAt(s, e), AttributeOnly(name, value)))
  {
    var b := s.(output := SetAttribute(s.output, e, name, value));
    AttributeTree(s.output, e, name, value);
    GrewSetAttribute(s.output, s.output, e, e, name, value);
    KeptNothing(s, e);
    GrewIsUntouched(s.output, b.output, e);
    ScopesStay(s.output, b.output, e, s.scopes);
    assert Steady(b) && KeptAt(s, b, e);
    AllStayOpenable(s, b, e);
    assert s.log + [] == s.log;
  }

  /** One more binding in the innermost scope. */
  lemma BindingJoins(s: State, b: Binding<nat>, limit: nat)
    requires Sound(s, limit) && s.scopes != [] && Exists(b, |s.output|)
    requires forall i | i in s.insertion :: BindingClear(s.output, b, i)
    ensures var after := s.(scopes := WithBinding(s.scopes, b));
            && Sound(after, limit)
            && Lifted(after.output, after.scopes) == WithBinding(Lifted(s.output, s.scopes), Lift(s.output, b))
  {
    var last := |s.scopes| - 1;
    var after := s.(scopes := WithBinding(s.scopes, b));
    assert s.scopes[last] in s.scopes && ScopeExists(s.scopes[last], |s.output|);
    forall scope | scope in after.scopes ensures ScopeExists(scope, |s.output|) {
      assert scope in s.scopes || scope == s.scopes[last] + [b];
    }
    forall i | i in s.insertion ensures CanOpen(after.output, after.scopes, i) {
      assert CanOpen(s.output, s.scopes, i) && ScopeClear(s.output, s.scopes[last], i) && BindingClear(s.output, b, i);
      forall scope | scope in after.scopes ensures ScopeClear(s.output, scope, i) {
        assert scope in s.scopes || scope == s.scopes[last] + [b];
      }
    }
    assert LiftedScope(s.output, s.scopes[last] + [b]) == LiftedScope(s.output, s.scopes[last]) + [Lift(s.output, b)];
    assert Lifted(after.output, after.scopes) == WithBinding(Lifted(s.output, s.scopes), Lift(s.output, b));
  }

  /** A declaration run, and its value bound. */
  lemma BindingAdded(a: State, b: State, name: string, value: (Value, Option<nat>), m: (Binding<Built>, Done), limit: nat)
    requires Sound(a, limit) && Sound(b, limit) && DeclaredAs(a, b, name, Ok(value), Fine(m))
    ensures var after := b.(scopes := WithBinding(b.scopes, Binding(name, value.0, value.1)));
            Sound(after, limit) && Ran(a, after, Ok(()), Fine(m.1.(scopes := WithBinding(m.1.scopes, m.0))))
  {
    var binding := Binding(name, value.0, value.1);
    forall i | i in b.insertion ensures BindingClear(b.output, binding, i) {
      assert CanOpen(a.output, a.scopes, i);
      if binding.fragment.Some? {
        AvoidsOlder(b.output, binding.fragment.value, i);
      }
    }
    if b.scopes != [] {
      BindingJoins(b, binding, limit);
      var last := |a.scopes| - 1;
      var after := b.(scopes := WithBinding(b.scopes, binding));
      assert after.scopes[last][|a.scopes[last]|..] == b.scopes[last][|a.scopes[last]|..] + [binding];
      assert after.scopes[..last] == b.scopes[..last];
    }
  }

  lemma BindsLifted(out: ResultNodes, scopes: Scopes<nat>, name: string)
    requires WellFormed(out) && FragmentsExist(scopes, |out|) && scopes != []
    ensures Binds(Lifted(out, scopes)[|scopes| - 1], name) <==> Binds(scopes[|scopes| - 1], name)
  {
    assert scopes[|scopes| - 1] in scopes;
    var lifted, scope := Lifted(out, scopes)[|scopes| - 1], scopes[|scopes| - 1];
    if Binds(scope, name) {
      var k :| 0 <= k < |scope| && scope[k].name == name;
      assert lifted[k].name == name;
    }
  }

  // --- Parameters, bound one after the other ----------------------------------------------------------------

  function Joined(bound: seq<Binding<Built>>, done: Done, rest: Outcome<(seq<Binding<Built>>, Done)>): Outcome<(seq<Binding<Built>>, Done)> {
    if rest.Fine? then Fine((bound + rest.value.0, done.Then(rest.value.1))) else Failed(done.log + rest.log)
  }

  ghost predicate BoundSoFar(a: State, b: State, open: nat, bound: seq<Binding<nat>>, done: Done,
                             whole: Outcome<(seq<Binding<Built>>, Done)>, rest: Outcome<(seq<Binding<Built>>, Done)>)
  {
    && KeptAt(a, b, open) && Achieved(a, b, open, done)
    && NewScope(bound, |a.output|) && ScopeExists(bound, |b.output|)
    && whole == Joined(LiftedScope(b.output, bound), done, rest)
  }

  lemma BoundNothing(s: State, limit: nat, open: nat, whole: Outcome<(seq<Binding<Built>>, Done)>)
    requires Sound(s, limit) && open < |s.output|
    ensures BoundSoFar(s, s, open, [], Quiet(EnvAt(s, open)), whole, whole)
  {
    StartsHere(s, limit, open);
    var log := if whole.Fine? then whole.value.1.log else whole.log;
    assert [] + log == log;
    if whole.Fine? {
      NothingThen(Lifted(s.output, s.scopes), Fine(whole.value.1));
      assert LiftedScope(s.output, []) + whole.value.0 == whole.value.0;
    }
  }

  lemma BoundSoFarHere(a: State, b: State, bound: seq<Binding<nat>>, done: Done, limit: nat,
                       whole: Outcome<(seq<Binding<Built>>, Done)>, rest: Outcome<(seq<Binding<Built>>, Done)>)
    requires Sound(a, limit) && Sound(b, limit) && BoundSoFar(a, b, a.Open(), bound, done, whole, rest)
    ensures Here(b) == Here(a).(scopes := done.scopes) && b.depth == a.depth <= limit && b.chain == a.chain
  {
    EnvAfter(a, b, a.Open(), done);
  }

  lemma BoundOneMore(a: State, b: State, c: State, bound: seq<Binding<nat>>, name: string, done: Done,
                     r: Result<(Value, Option<nat>)>, first: Outcome<(Binding<Built>, Done)>,
                     whole: Outcome<(seq<Binding<Built>>, Done)>,
                     rest: Outcome<(seq<Binding<Built>>, Done)>, after: Outcome<(seq<Binding<Built>>, Done)>)
    requires a.insertion != [] && BoundSoFar(a, b, a.Open(), bound, done, whole, rest) && DeclaredAs(b, c, name, r, first)
    requires rest == if first.Failed? then Failed(first.log)
                     else if after.Failed? then Failed(first.value.1.log + after.log)
                     else Fine(([first.value.0] + after.value.0, first.value.1.Then(after.value.1)))
    ensures r.Err? ==> BoundTo(a, c, Err, whole)
    ensures r.Ok? ==> first.Fine? && BoundSoFar(a, c, a.Open(), bound + [Binding(name, r.value.0, r.value.1)], done.Then(first.value.1), whole, after)
  {
    var open := a.Open();
    KeptTwice(a, b, c, open);
    if r.Ok? {
      var binding := Binding(name, r.value.0, r.value.1);
      AchievedTwice(a, b, c, open, done, first.value.1);
      NewIsClear(b.output, bound, |a.output|, open);
      GrewIsUntouched(b.output, c.output, open);
      ScopeStays(b.output, c.output, open, bound);
      var lifted := LiftedScope(b.output, bound);
      assert LiftedScope(c.output, bound + [binding]) == lifted + [first.value.0];
      if after.Fine? {
        DoneThen(done, first.value.1, Fine(after.value.1));
        assert lifted + ([first.value.0] + after.value.0) == lifted + [first.value.0] + after.value.0;
      } else {
        assert done.log + first.value.1.log + after.log == done.log + (first.value.1.log + after.log);
      }
    } else {
      assert a.log + done.log + first.log == a.log + (done.log + first.log);
    }
  }

  lemma BoundAll(a: State, b: State, bound: seq<Binding<nat>>, done: Done, whole: Outcome<(seq<Binding<Built>>, Done)>)
    requires a.insertion != [] && BoundSoFar(a, b, a.Open(), bound, done, whole, Fine(([], Done(done.scopes, EMPTY, []))))
    ensures BoundTo(a, b, Ok(bound), whole)
  {
    DoneThen(done, done, Failed([]));
    assert LiftedScope(b.output, bound) + [] == LiftedScope(b.output, bound);
  }

  /** Where the parameters are handed on: nothing open is inside what was built for them. */
  lemma BoundHere(a: State, b: State, bound: seq<Binding<nat>>, m: Outcome<(seq<Binding<Built>>, Done)>, limit: nat)
    requires Sound(a, limit) && Sound(b, limit) && BoundTo(a, b, Ok(bound), m)
    ensures m.Fine? && Here(b) == Here(a).(scopes := m.value.1.scopes) && b.depth == a.depth <= limit && b.chain == a.chain
    ensures ScopeExists(bound, |b.output|) && LiftedScope(b.output, bound) == m.value.0
    ensures NewScope(bound, |a.output|) && AllBefore(b.insertion, |a.output|)
    ensures forall i | i in b.insertion :: ScopeClear(b.output, bound, i)
  {
    EnvAfter(a, b, a.Open(), m.value.1);
    forall i | i in a.insertion ensures ScopeClear(b.output, bound, i) {
      assert CanOpen(a.output, a.scopes, i);
      NewIsClear(b.output, bound, |a.output|, i);
    }
  }

  /** The parameters, then what they are handed to. */
  lemma RanWithBound(a: State, b: State, c: State, bound: seq<Binding<nat>>, m: Outcome<(seq<Binding<Built>>, Done)>,
                     r: Result<()>, inner: Outcome<Done>)
    requires BoundTo(a, b, Ok(bound), m) && Ran(b, c, r, inner)
    ensures m.Fine? && Ran(a, c, r, m.value.1.Next(inner))
  {
    RanTwice(a, b, c, a.Open(), m.value.1, r, inner);
  }

  lemma StoppedBound(a: State, b: State, r: Result<seq<Binding<nat>>>, m: Outcome<(seq<Binding<Built>>, Done)>)
    requires BoundTo(a, b, r, m)
    ensures Ran(a, b, Err, Failed(if m.Fine? then m.value.1.log else m.log))
  {
  }

  // --- Copying -----------------------------------------------------------------------------------------------

  lemma EmptyNodePlaced(s: State, n: ResultNode, limit: nat)
    requires Sound(s, limit) && IsDetached(n) && n.IsOpen()
    ensures var b := s.(output := AppendChild(Create(s.output, n), s.Open(), |s.output|));
            && Sound(b, limit) && Placed(s, b, s.Open(), |s.output|, n, Quiet(Here(s)))
            && EnvAt(b, |s.output|) == Here(s).(inElement := n.kind == ElementResult)
  {
    NodeCreated(s, n, limit);
    var a := s.(output := Create(s.output, n));
    StartsHere(a, limit, |s.output|);
    NodePlaced(s, a, a, n, Quiet(EnvAt(a, |s.output|)), limit);
  }

  lemma ChildStays(a: State, b: State, open: nat, done: Done, whole: Outcome<Done>, rest: Outcome<Done>, n: nat, i: nat)
    requires SoFar(a, b, open, done, whole, rest) && n < |a.output| && Avoids(a.output, n, open) && i < |a.output[n].children|
    ensures a.output[n].children[i] < |b.output| && i < |TreeOf(a.output, n).children|
    ensures TreeOf(b.output, a.output[n].children[i]) == TreeOf(a.output, n).children[i]
  {
    assert HoldsItsChildren(a.output, n) && a.output[n].children[i] in a.output[n].children;
    GrewIsUntouched(a.output, b.output, open);
    TreeStays(a.output, b.output, open, a.output[n].children[i]);
  }

  /** The copy of one child of a fragment. */
  lemma ChildJoins(a: State, b: State, c: State, open: nat, env: Env, done: Done, trees: seq<Built>, i: nat, whole: Outcome<Done>)
    requires i < |trees| && SoFar(a, b, open, done, whole, Fine(Putting(env, Content(map[], trees[i..]))))
    requires RanAt(b, c, open, Ok(()), Fine(Putting(env, Child(trees[i]))))
    ensures SoFar(a, c, open, done.Then(Putting(env, Child(trees[i]))), whole, Fine(Putting(env, Content(map[], trees[i + 1..]))))
  {
    var rest, after := Content(map[], trees[i..]), Content(map[], trees[i + 1..]);
    assert trees[i..] == [trees[i]] + trees[i + 1..];
    PuttingThen(env, Child(trees[i]), Ok(after));
    hide SoFar, RanAt;
    OneMore(a, b, c, open, done, Ok(()), Fine(Putting(env, Child(trees[i]))), whole, Fine(Putting(env, rest)), Fine(Putting(env, after)));
  }

  /** Nothing that was there reaches a node that was not. */
  lemma ClearBeyond(s: State, i: nat)
    requires Steady(s) && |s.output| <= i
    ensures Clear(s.output, s.scopes, i)
  {
    forall scope | scope in s.scopes ensures ScopeClear(s.output, scope, i) {
      assert ScopeExists(scope, |s.output|);
      forall x | x in scope ensures BindingClear(s.output, x, i) {
        assert Exists(x, |s.output|);
        if x.fragment.Some? {
          AvoidsOlder(s.output, x.fragment.value, i);
        }
      }
    }
  }

  /** More nodes at the end change nothing that was there. */
  lemma OnlyMore(s: State, out: ResultNodes)
    requires Steady(s) && WellFormed(out) && s.output <= out
    ensures Untouched(s.output, out, |s.output|) && FragmentsExist(s.scopes, |out|)
    ensures Lifted(out, s.scopes) == Lifted(s.output, s.scopes)
    ensures forall i: nat | i < |s.output| :: TreeOf(out, i) == TreeOf(s.output, i)
    ensures forall i: nat | Clear(s.output, s.scopes, i) || i >= |s.output| :: Clear(out, s.scopes, i)
    ensures forall open :: Grew(s.output, out, open)
  {
    ClearBeyond(s, |s.output|);
    assert Untouched(s.output, out, |s.output|);
    ScopesStay(s.output, out, |s.output|, s.scopes);
    forall i: nat | i < |s.output| ensures TreeOf(out, i) == TreeOf(s.output, i) {
      AvoidsOlder(s.output, i, |s.output|);
      TreeStays(s.output, out, |s.output|, i);
    }
  }

  /** A detached copy, put into the open node. */
  lemma CopyPut(s: State, b: State, copy: nat, t: Built, limit: nat)
    requires Sound(s, limit) && Sound(b, limit) && b == s.(output := b.output) && s.output <= b.output
    requires copy == |s.output| < |b.output| && b.output[copy].parent.None? && TreeOf(b.output, copy) == t
    ensures s.Open() < copy
    ensures Ran(s, b.(output := AppendChild(b.output, s.Open(), copy)), Ok(()), Fine(Putting(Here(s), Child(t))))
  {
    var open := s.Open();
    OnlyMore(s, b.output);
    KeptNothing(s, open);
    assert KeptAt(s, b, open);
    NodeAppended(b, copy, limit);
    KeptAppend(s, b, open, copy);
    AppendedTree(s.output, AppendChild(b.output, open, copy), open, copy);
    assert s.log + [] == s.log;
  }

  /** The copy of one child, put under the copy of the node. */
  lemma ClonedPart(s: State, b: State, c: State, n: nat, i: nat, copy: nat, part: nat, bare: ResultNode, limit: nat)
    requires Sound(s, limit) && Sound(b, limit) && Sound(c, limit) && n < |s.output| && i < |s.output[n].children|
    requires b == s.(output := b.output) && s.output <= b.output && c == s.(output := c.output) && b.output <= c.output
    requires copy == |s.output| < |b.output| == part < |c.output| && b.output[copy].IsOpen() && b.output[copy].parent.None?
    requires TreeOf(b.output, copy) == Leaf(bare).With(Content(map[], TreeOf(s.output, n).children[..i]))
    requires s.output[n].children[i] < |s.output| && c.output[part].parent.None?
    requires TreeOf(c.output, part) == TreeOf(b.output, s.output[n].children[i])
    ensures var after := c.(output := AppendChild(c.output, copy, part));
            && Sound(after, limit) && s.output <= after.output
            && TreeOf(after.output, copy) == Leaf(bare).With(Content(map[], TreeOf(s.output, n).children[..i + 1]))
  {
    var after := c.(output := AppendChild(c.output, copy, part));
    OnlyMore(s, b.output);
    OnlyMore(s, c.output);
    OnlyMore(b, c.output);
    AppendKeepsShape(c.output, copy, part);
    GrewAppend(b.output, c.output, copy, part);
    AppendedTree(b.output, after.output, copy, part);
    AvoidsOlder(c.output, part, copy);
    assert Untouched(c.output, after.output, copy);
    TreeStays(c.output, after.output, copy, part);
    ScopesStay(c.output, after.output, copy, c.scopes);
    var trees := TreeOf(s.output, n).children;
    assert trees[..i + 1] == trees[..i] + [trees[i]];
    WithThen(Leaf(bare), Content(map[], trees[..i]), Child(trees[i]));
    forall k | k in s.insertion ensures CanOpen(after.output, after.scopes, k) {
      assert CanOpen(s.output, s.scopes, k) && CanOpen(c.output, c.scopes, k);
    }
  }

  // --- The global scope ----------------------------------------------------------------------------------------

  /** Before any rule runs: one global scope, and nothing in the result. */
  ghost predicate BeforeRules(s: State) {
    && s.insertion == [0] && s.chain == [] && s.currentRule == None && s.depth == 0 && |s.scopes| == 1
    && Steady(s) && s.output != [] && TreeOf(s.output, 0) == Leaf(Fragment())
  }

  lemma GlobalsHere(s: State)
    requires BeforeRules(s)
    ensures ScopeExists(s.scopes[0], |s.output|)
    ensures Here(s) == Env([LiftedScope(s.output, s.scopes[0])], 0, [], None, false)
  {
    assert s.scopes[0] in s.scopes;
  }

  lemma LiftedBoth(out: ResultNodes, a: seq<Binding<nat>>, b: seq<Binding<nat>>)
    requires WellFormed(out) && ScopeExists(a, |out|) && ScopeExists(b, |out|)
    ensures ScopeExists(a + b, |out|) && LiftedScope(out, a + b) == LiftedScope(out, a) + LiftedScope(out, b)
  {
  }

  lemma {:induction false} WithoutIs(scope: seq<Binding<nat>>, name: string)
    ensures forall b :: b in Without(scope, name) <==> b in scope && b.name != name
  {
    if scope != [] {
      WithoutIs(scope[1..], name);
    }
  }

  lemma {:induction false} LiftedWithout(out: ResultNodes, scope: seq<Binding<nat>>, name: string)
    requires WellFormed(out) && ScopeExists(scope, |out|)
    ensures ScopeExists(Without(scope, name), |out|)
    ensures LiftedScope(out, Without(scope, name)) == Without(LiftedScope(out, scope), name)
  {
    if scope != [] {
      var first := if scope[0].name == name then [] else [scope[0]];
      assert scope[0] in scope;
      assert LiftedScope(out, scope)[1..] == LiftedScope(out, scope[1..]);
      LiftedWithout(out, scope[1..], name);
      LiftedBoth(out, first, Without(scope[1..], name));
      assert LiftedScope(out, first) == if scope[0].name == name then [] else [Lift(out, scope[0])];
    }
  }

  /** A global name bound anew, in place of whatever it was bound to. */
  lemma GlobalRebound(a: State, b: State, name: string, value: (Value, Option<nat>), m: (Binding<Built>, Done), limit: nat)
    requires Sound(a, limit) && Sound(b, limit) && BeforeRules(a) && DeclaredAs(a, b, name, Ok(value), Fine(m))
    requires m.0.name == name && m.1.content == EMPTY
    ensures BeforeRules(b)
    ensures var after := b.(scopes := [Without(b.scopes[0], name) + [Binding(name, value.0, value.1)]]);
            && Sound(after, limit) && BeforeRules(after) && after.log == a.log + m.1.log
            && ScopeExists(after.scopes[0], |after.output|)
            && LiftedScope(after.output, after.scopes[0]) == Without(Global(m.1.scopes), name) + [m.0]
  {
    WithThen(TreeOf(a.output, 0), EMPTY, EMPTY);
    var binding := Binding(name, value.0, value.1);
    var kept := Without(b.scopes[0], name);
    WithoutIs(b.scopes[0], name);
    var after := b.(scopes := [kept + [binding]]);
    assert b.scopes[0] in b.scopes && ScopeExists(b.scopes[0], |b.output|);
    LiftedWithout(b.output, b.scopes[0], name);
    assert LiftedScope(b.output, kept + [binding]) == LiftedScope(b.output, kept) + [m.0];
    forall i | i in b.insertion ensures CanOpen(after.output, after.scopes, i) {
      assert CanOpen(a.output, a.scopes, i) && CanOpen(b.output, b.scopes, i) && ScopeClear(b.output, b.scopes[0], i);
      if binding.fragment.Some? {
        AvoidsOlder(b.output, binding.fragment.value, i);
      }
      assert BindingClear(b.output, binding, i);
    }
  }

  /** Binding a name anew loses no other. */
  lemma ReboundKeepsNames(before: seq<Binding<nat>>, grown: seq<Binding<nat>>, binding: Binding<nat>, other: string)
    requires before <= grown && (other == binding.name || Binds(before, other))
    ensures Binds(Without(grown, binding.name) + [binding], other)
  {
    var kept := Without(grown, binding.name);
    WithoutIs(grown, binding.name);
    if other == binding.name {
      assert (kept + [binding])[|kept|] == binding;
    } else {
      var k :| 0 <= k < |before| && before[k].name == other;
      assert before[k] == grown[k] && grown[k] in kept;
      var j :| 0 <= j < |kept| && kept[j] == grown[k];
      assert (kept + [binding])[j].name == other;
    }
  }

  /** The first `count` declarations have been dealt with; `whole` is what all of them come to. */
  ghost predicate GlobalsSoFar(g: Context, node: Node, supplied: map<string, string>, s: State, count: nat,
                               whole: Outcome<(seq<Binding<Built>>, Log)>)
  {
    && g.Valid() && IsNode(g.docs, node) && count <= |g.sheet.variables|
    && BeforeRules(s) && ScopeExists(s.scopes[0], |s.output|)
    && whole == AfterLog(s.log, Globals(g, count, node, supplied, LiftedScope(s.output, s.scopes[0])))
  }

  /** One of them was given a value. */
  ghost predicate GlobalDone(a: State, b: State, r: Result<()>, m: Outcome<(Binding<Built>, Done)>) {
    && (r.Ok? <==> m.Fine?) && (m.Failed? ==> b.log == a.log + m.log)
    && (r.Ok? ==> && BeforeRules(b) && b.log == a.log + m.value.1.log && ScopeExists(b.scopes[0], |b.output|)
                  && LiftedScope(b.output, b.scopes[0]) == Without(Global(m.value.1.scopes), m.value.0.name) + [m.value.0])
  }

  lemma NoGlobalsYet(g: Context, node: Node, supplied: map<string, string>, s: State)
    requires g.Valid() && IsNode(g.docs, node) && BeforeRules(s) && s.scopes[0] == [] && s.log == []
    ensures GlobalsSoFar(g, node, supplied, s, 0, Globals(g, 0, node, supplied, []))
  {
    assert LiftedScope(s.output, s.scopes[0]) == [];
    AfterLogs([], [], Globals(g, 0, node, supplied, []));
  }

  lemma OneMoreGlobal(g: Context, node: Node, supplied: map<string, string>, a: State, b: State, count: nat, r: Result<()>,
                      whole: Outcome<(seq<Binding<Built>>, Log)>)
    requires count < |g.sheet.variables| && GlobalsSoFar(g, node, supplied, a, count, whole)
    requires !IsShadowed(g.sheet.variables, g.sheet.variables[count])
    requires GlobalDone(a, b, r, GlobalBinding(g, g.sheet.variables[count], node, supplied, LiftedScope(a.output, a.scopes[0])))
    ensures if r.Ok? then GlobalsSoFar(g, node, supplied, b, count + 1, whole) else whole == Failed(b.log)
  {
    var m := GlobalBinding(g, g.sheet.variables[count], node, supplied, LiftedScope(a.output, a.scopes[0]));
    if r.Ok? {
      AfterLogs(a.log, m.value.1.log, Globals(g, count + 1, node, supplied, LiftedScope(b.output, b.scopes[0])));
    }
  }

  ghost predicate BindsDeclared(s: State, variables: seq<GlobalVariable>, count: nat) {
    count <= |variables| && s.scopes != [] && forall name | NameDeclared(variables, count, name) :: Binds(s.scopes[0], name)
  }

  /** No name is lost. */
  ghost predicate KeepsNames(a: State, b: State) {
    a.scopes != [] && b.scopes != [] && forall name | Binds(a.scopes[0], name) :: Binds(b.scopes[0], name)
  }

  lemma OneMoreBound(a: State, b: State, variables: seq<GlobalVariable>, count: nat)
    requires count < |variables| && BindsDeclared(a, variables, count) && KeepsNames(a, b)
    requires IsShadowed(variables, variables[count]) || Binds(b.scopes[0], variables[count].declaration.name)
    ensures BindsDeclared(b, variables, count + 1)
  {
    forall name | NameDeclared(variables, count + 1, name) ensures Binds(b.scopes[0], name) {
      OneMoreDeclared(variables, count, name);
    }
  }

  /** Every name declared at top level has a value, whichever of its declarations won. */
  lemma EveryGlobalIsBound(s: State, variables: seq<GlobalVariable>)
    requires BindsDeclared(s, variables, |variables|)
    ensures forall v | v in variables :: Binds(s.scopes[0], v.declaration.name)
  {
    forall v | v in variables ensures Binds(s.scopes[0], v.declaration.name) {
      SomeoneWins(variables, v);
    }
  }

  // --- Parameters handed to several rules -----------------------------------------------------------------------

  predicate AllBefore(insertion: seq<nat>, from: nat) {
    forall i | i in insertion :: i < from
  }

  /** The parameters handed on stay as they were while rules run with them. */
  lemma HandedStays(a: State, b: State, open: nat, done: Done, whole: Outcome<Done>, rest: Outcome<Done>,
                    parameters: seq<Binding<nat>>, from: nat, limit: nat)
    requires SoFar(a, b, open, done, whole, rest) && Sound(a, limit) && Sound(b, limit) && open == a.Open()
    requires ScopeExists(parameters, |a.output|) && NewScope(parameters, from) && AllBefore(a.insertion, from)
    ensures ScopeExists(parameters, |b.output|) && LiftedScope(b.output, parameters) == LiftedScope(a.output, parameters)
    ensures forall i | i in b.insertion :: ScopeClear(b.output, parameters, i)
  {
    assert open in a.insertion;
    NewIsClear(a.output, parameters, from, open);
    GrewIsUntouched(a.output, b.output, open);
    ScopeStays(a.output, b.output, open, parameters);
    forall i | i in b.insertion ensures ScopeClear(b.output, parameters, i) {
      NewIsClear(b.output, parameters, from, i);
    }
  }

  // --- What the log records ------------------------------------------------------------------------------------

  /** The log has just the messages sent, and the greatest depth there was. */
  predicate Accounted(messages: seq<string>, log: Log, peak: nat) {
    messages == Messages(log) && peak == Deepest(log)
  }

  lemma AccountedSaid(messages: seq<string>, log: Log, peak: nat, text: string)
    requires Accounted(messages, log, peak)
    ensures Accounted(messages + [text], log + [Said(text)], peak)
  {
    MessagesOfBoth(log, [Said(text)]);
    DeepestOfBoth(log, [Said(text)]);
    assert [Said(text)][1..] == [];
  }

  lemma AccountedEntered(messages: seq<string>, log: Log, peak: nat, depth: nat, tested: bool)
    requires Accounted(messages, log, peak)
    ensures Accounted(messages, log + [Entered(depth, tested)], if peak < depth + 1 then depth + 1 else peak)
  {
    MessagesOfBoth(log, [Entered(depth, tested)]);
    DeepestOfBoth(log, [Entered(depth, tested)]);
    assert [Entered(depth, tested)][1..] == [];
  }

  lemma LogEnds(log: Log)
    ensures log + [] == log
  {
  }
}
