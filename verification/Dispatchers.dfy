/**
 Forwarding events to several members, in order and fail-fast.

 What a member answers is arbitrary: a call is given every member's answer beforehand and uses those
 it asks for. `State` is what a dispatcher knows, with a trace of all that happened; `Dispatcher` is
 the object, which changes in place.
 */
module Dispatchers {
  import opened Wrappers

  const USIZE_MAX: nat := 0xFFFF_FFFF_FFFF_FFFF

  type Usize = n: nat | n <= USIZE_MAX

  datatype Flow = Continue(count: Usize) | Break(count: Usize)

  /** What a member says to an event: how many errors it found and whether it goes on, or that it refuses it. */
  type Answer = Result<Flow>

  datatype Outcome = Completed | Failed | Abandoned

  /** A validator watches; it is never the reason for a run to stop. */
  datatype Member = Member(validator: bool, finished: bool)

  datatype Notice =
    | Called(start: bool)
    | Saw(member: nat, answer: Answer)
    | Replied(reply: Answer)
    | Told(member: nat, outcome: Outcome)

  datatype State = State(members: seq<Member>, running: bool, max: Option<nat>, total: Usize, trace: seq<Notice>) {
    /** The members' errors so far are more than the run may have. */
    predicate IsOverLimit() {
      max.Some? && total > max.value
    }
  }

  const NEW := State([], false, None, 0, [])

  function SaturatingAdd(a: Usize, b: Usize): Usize {
    if a + b > USIZE_MAX then USIZE_MAX else a + b
  }

  /** There is a consumer, and every consumer has finished. */
  predicate IsStopped(members: seq<Member>) {
    (exists m :: m in members && !m.validator) && forall m | m in members && !m.validator :: m.finished
  }

  // --- One call ---------------------------------------------------------------------------------------

  function Unfinish(members: seq<Member>): (r: seq<Member>)
    ensures |r| == |members|
    ensures forall i | 0 <= i < |r| :: r[i] == members[i].(finished := false)
  {
    seq(|members|, i requires 0 <= i < |members| => members[i].(finished := false))
  }

  /** When a document starts, the finished marks and the total are cleared. */
  function Begin(s: State, start: bool): State {
    var trace := s.trace + [Called(start)];
    if start then State(Unfinish(s.members), true, s.max, 0, trace) else s.(trace := trace)
  }

  /** One member is asked and answers. */
  function Ask(s: State, i: nat, answer: Answer): State
    requires i < |s.members|
  {
    var trace := s.trace + [Saw(i, answer)];
    match answer
    case Err => s.(trace := trace)
    case Ok(flow) =>
      State(if flow.Break? then s.members[i := s.members[i].(finished := true)] else s.members,
            s.running, s.max, SaturatingAdd(s.total, flow.count), trace)
  }

  function Deliver(s: State, i: nat, answers: nat -> Answer, found: Usize): (State, Answer)
    requires i <= |s.members|
    decreases |s.members| - i
  {
    if i == |s.members| then
      (s, Ok(if IsStopped(s.members) then Break(found) else Continue(found)))
    else if s.members[i].finished then
      Deliver(s, i + 1, answers, found)
    else
      var asked := Ask(s, i, answers(i));
      if answers(i).Err? || asked.IsOverLimit() then (asked, Err)
      else Deliver(asked, i + 1, answers, SaturatingAdd(found, answers(i).value.count))
  }

  function Consume(s: State, start: bool, answers: nat -> Answer): (State, Answer) {
    var (after, reply) := Deliver(Begin(s, start), 0, answers, 0);
    (after.(trace := after.trace + [Replied(reply)]), reply)
  }

  /** Every member from one on is told how the run ended. */
  function Telling(from: nat, count: nat, outcome: Outcome): seq<Notice>
    decreases count - from
  {
    if from >= count then [] else [Told(from, outcome)] + Telling(from + 1, count, outcome)
  }

  function Finish(s: State, outcome: Outcome): State {
    if s.running then State(s.members, false, s.max, s.total, s.trace + Telling(0, |s.members|, outcome)) else s
  }

  datatype Call =
    | Event(start: bool, answers: nat -> Answer)
    | End(outcome: Outcome)
    | Drop
    | Add(validator: bool)
    | Limit(max: Option<nat>)

  function Perform(s: State, call: Call): State {
    match call
    case Event(start, answers) => Consume(s, start, answers).0
    case End(outcome) => Finish(s, outcome)
    case Drop => Finish(s, Abandoned)
    case Add(validator) => s.(members := s.members + [Member(validator, false)])
    case Limit(max) => s.(max := max)
  }

  function After(s: State, calls: seq<Call>): State
    decreases |calls|
  {
    if calls == [] then s else After(Perform(s, calls[0]), calls[1..])
  }

  // --- What the trace says ------------------------------------------------------------------------------

  function Last(trace: seq<Notice>): Notice
    requires trace != []
  {
    trace[|trace| - 1]
  }

  function Before(trace: seq<Notice>): seq<Notice>
    requires trace != []
  {
    trace[..|trace| - 1]
  }

  /** The member has stopped since the last start. */
  predicate HasStopped(trace: seq<Notice>, member: nat) {
    trace != [] && Last(trace) != Called(true)
    && ((Last(trace).Saw? && Last(trace).member == member && Last(trace).answer.Ok? && Last(trace).answer.value.Break?)
        || HasStopped(Before(trace), member))
  }

  /** The member has been told of an end since the last start. */
  predicate WasTold(trace: seq<Notice>, member: nat) {
    trace != [] && Last(trace) != Called(true)
    && ((Last(trace).Told? && Last(trace).member == member) || WasTold(Before(trace), member))
  }

  predicate HasStarted(trace: seq<Notice>) {
    Called(true) in trace
  }

  /** All the errors reported since the last start. */
  function Reported(trace: seq<Notice>): nat {
    if trace == [] || Last(trace) == Called(true) then 0
    else Reported(Before(trace)) + if Last(trace).Saw? && Last(trace).answer.Ok? then Last(trace).answer.value.count else 0
  }

  function Capped(n: nat): Usize {
    if n > USIZE_MAX then USIZE_MAX else n
  }

  /** The state is what its trace says it is. */
  ghost predicate Tracks(s: State) {
    && (forall m | 0 <= m < |s.members| :: s.members[m].finished == HasStopped(s.trace, m))
    && (forall m: nat | m >= |s.members| :: !HasStopped(s.trace, m))
    && s.total == Capped(Reported(s.trace))
    && (s.running ==> HasStarted(s.trace) && forall m: nat :: !WasTold(s.trace, m))
  }

  /** Nothing was said to a member that should not have been. */
  ghost predicate Proper(trace: seq<Notice>) {
    forall k: nat | k < |trace| :: ProperAt(trace, k)
  }

  predicate ProperAt(trace: seq<Notice>, k: nat)
    requires k < |trace|
  {
    match trace[k]
    case Saw(m, _) => !HasStopped(trace[..k], m)
    case Told(m, _) => HasStarted(trace[..k]) && !WasTold(trace[..k], m)
    case _ => true
  }

  lemma AppendedLast(trace: seq<Notice>, n: Notice)
    ensures Last(trace + [n]) == n && Before(trace + [n]) == trace
  {
  }

  lemma ProperAppend(trace: seq<Notice>, n: Notice)
    requires Proper(trace)
    requires n.Saw? ==> !HasStopped(trace, n.member)
    requires n.Told? ==> HasStarted(trace) && !WasTold(trace, n.member)
    ensures Proper(trace + [n])
  {
    hide HasStopped, WasTold;
    forall k: nat | k < |trace + [n]| ensures ProperAt(trace + [n], k) {
      if k < |trace| {
        assert ProperAt(trace, k);
        assert (trace + [n])[..k] == trace[..k];
      } else {
        assert (trace + [n])[..k] == trace;
      }
    }
  }

  ghost predicate Fine(s: State) {
    Tracks(s) && Proper(s.trace)
  }

  lemma BeginIsFine(s: State, start: bool)
    requires Fine(s)
    ensures Fine(Begin(s, start))
  {
    AppendedLast(s.trace, Called(start));
    ProperAppend(s.trace, Called(start));
    forall m: nat ensures HasStopped(s.trace + [Called(start)], m) == (!start && HasStopped(s.trace, m)) {
    }
    forall m: nat ensures WasTold(s.trace + [Called(start)], m) == (!start && WasTold(s.trace, m)) {
    }
  }

  lemma AskIsFine(s: State, i: nat, answer: Answer)
    requires Fine(s) && i < |s.members| && !s.members[i].finished
    ensures Fine(Ask(s, i, answer))
  {
    AppendedLast(s.trace, Saw(i, answer));
    ProperAppend(s.trace, Saw(i, answer));
    var after := Ask(s, i, answer);
    forall m: nat ensures HasStopped(after.trace, m) ==
                          ((m == i && answer.Ok? && answer.value.Break?) || HasStopped(s.trace, m)) {
    }
    forall m: nat ensures WasTold(after.trace, m) == WasTold(s.trace, m) {
    }
  }

  lemma {:induction false} DeliverIsFine(s: State, i: nat, answers: nat -> Answer, found: Usize)
    requires Fine(s) && i <= |s.members|
    ensures Fine(Deliver(s, i, answers, found).0)
    decreases |s.members| - i
  {
    hide Fine;
    if i < |s.members| {
      if s.members[i].finished {
        DeliverIsFine(s, i + 1, answers, found);
      } else {
        AskIsFine(s, i, answers(i));
        var asked := Ask(s, i, answers(i));
        if answers(i).Ok? && !asked.IsOverLimit() {
          DeliverIsFine(asked, i + 1, answers, SaturatingAdd(found, answers(i).value.count));
        }
      }
    }
  }

  lemma ReplyIsFine(s: State, reply: Answer)
    requires Fine(s)
    ensures Fine(s.(trace := s.trace + [Replied(reply)]))
  {
    AppendedLast(s.trace, Replied(reply));
    ProperAppend(s.trace, Replied(reply));
    forall m: nat ensures HasStopped(s.trace + [Replied(reply)], m) == HasStopped(s.trace, m) {
    }
    forall m: nat ensures WasTold(s.trace + [Replied(reply)], m) == WasTold(s.trace, m) {
    }
  }

  lemma ToldIsFine(s: State, i: nat, outcome: Outcome)
    requires Fine(s) && !s.running && HasStarted(s.trace) && !WasTold(s.trace, i)
    ensures var after := s.(trace := s.trace + [Told(i, outcome)]);
            Fine(after) && HasStarted(after.trace) && forall m: nat :: WasTold(after.trace, m) == (m == i || WasTold(s.trace, m))
  {
    var next := s.trace + [Told(i, outcome)];
    AppendedLast(s.trace, Told(i, outcome));
    ProperAppend(s.trace, Told(i, outcome));
    forall m: nat ensures HasStopped(next, m) == HasStopped(s.trace, m) && WasTold(next, m) == (m == i || WasTold(s.trace, m)) {
    }
  }

  /** Telling the members one by one: those from `i` on have not been told since the last start. */
  lemma {:induction false} TellingIsFine(s: State, i: nat, outcome: Outcome)
    requires Fine(s) && !s.running && HasStarted(s.trace) && forall m: nat | m >= i :: !WasTold(s.trace, m)
    ensures Fine(s.(trace := s.trace + Telling(i, |s.members|, outcome)))
    decreases |s.members| - i
  {
    hide Fine, WasTold, HasStarted;
    if i < |s.members| {
      var after := s.(trace := s.trace + [Told(i, outcome)]);
      ToldIsFine(s, i, outcome);
      TellingIsFine(after, i + 1, outcome);
      assert s.trace + Telling(i, |s.members|, outcome) == after.trace + Telling(i + 1, |s.members|, outcome);
    } else {
      assert s.trace + Telling(i, |s.members|, outcome) == s.trace;
    }
  }

  lemma StepIsFine(s: State, call: Call)
    requires Fine(s)
    ensures Fine(Perform(s, call))
  {
    match call
    case Event(start, answers) =>
      hide Fine;
      BeginIsFine(s, start);
      DeliverIsFine(Begin(s, start), 0, answers, 0);
      ReplyIsFine(Deliver(Begin(s, start), 0, answers, 0).0, Consume(s, start, answers).1);
    case End(outcome) => FinishIsFine(s, outcome);
    case Drop => FinishIsFine(s, Abandoned);
    case Add(validator) =>
    case Limit(max) =>
  }

  lemma FinishIsFine(s: State, outcome: Outcome)
    requires Fine(s)
    ensures Fine(Finish(s, outcome))
  {
    if s.running {
      TellingIsFine(s.(running := false), 0, outcome);
    }
  }

  lemma {:induction false} RunIsFine(s: State, calls: seq<Call>)
    requires Fine(s)
    ensures Fine(After(s, calls))
    decreases |calls|
  {
    hide Fine;
    if calls != [] {
      StepIsFine(s, calls[0]);
      RunIsFine(Perform(s, calls[0]), calls[1..]);
    }
  }

  lemma NewIsFine()
    ensures Fine(NEW)
  {
  }

  // --- What holds of every run ----------------------------------------------------------------------------

  /** Between two moments of a trace there is the start of a document. */
  predicate StartsBetween(trace: seq<Notice>, i: nat, j: nat) {
    exists k :: i < k < j && k < |trace| && trace[k] == Called(true)
  }

  lemma {:induction false} StoppedSince(trace: seq<Notice>, m: nat, i: nat)
    requires i < |trace| && trace[i].Saw? && trace[i].member == m && trace[i].answer.Ok? && trace[i].answer.value.Break?
    ensures HasStopped(trace, m) || StartsBetween(trace, i, |trace|)
  {
    if i < |trace| - 1 {
      StoppedSince(Before(trace), m, i);
      if Last(trace) != Called(true) && StartsBetween(Before(trace), i, |trace| - 1) {
        var k :| i < k < |trace| - 1 && Before(trace)[k] == Called(true);
        assert trace[k] == Called(true);
      }
    }
  }

  lemma {:induction false} ToldSince(trace: seq<Notice>, m: nat, i: nat)
    requires i < |trace| && trace[i].Told? && trace[i].member == m
    ensures WasTold(trace, m) || StartsBetween(trace, i, |trace|)
  {
    if i < |trace| - 1 {
      ToldSince(Before(trace), m, i);
      if Last(trace) != Called(true) && StartsBetween(Before(trace), i, |trace| - 1) {
        var k :| i < k < |trace| - 1 && Before(trace)[k] == Called(true);
        assert trace[k] == Called(true);
      }
    }
  }

  /** A member that broke off is given no event until a document starts. */
  lemma NoEventAfterBreak(calls: seq<Call>, i: nat, j: nat)
    requires i < j < |After(NEW, calls).trace|
    requires var trace := After(NEW, calls).trace;
             trace[i].Saw? && trace[i].answer.Ok? && trace[i].answer.value.Break? && trace[j].Saw? && trace[j].member == trace[i].member
    ensures StartsBetween(After(NEW, calls).trace, i, j)
  {
    NewIsFine();
    RunIsFine(NEW, calls);
    var trace := After(NEW, calls).trace;
    hide After;
    assert ProperAt(trace, j);
    StoppedSince(trace[..j], trace[i].member, i);
    var k :| i < k < j && trace[..j][k] == Called(true);
    assert trace[k] == Called(true);
  }

  /** A member is told of an end at most once for each start of a document, and only after one. */
  lemma OneEndForEachStart(calls: seq<Call>, j: nat)
    requires j < |After(NEW, calls).trace| && After(NEW, calls).trace[j].Told?
    ensures HasStarted(After(NEW, calls).trace[..j])
    ensures var trace := After(NEW, calls).trace;
            forall i: nat | i < j && trace[i].Told? && trace[i].member == trace[j].member :: StartsBetween(trace, i, j)
  {
    NewIsFine();
    RunIsFine(NEW, calls);
    var trace := After(NEW, calls).trace;
    hide After;
    assert ProperAt(trace, j);
    forall i: nat | i < j && trace[i].Told? && trace[i].member == trace[j].member ensures StartsBetween(trace, i, j) {
      ToldSince(trace[..j], trace[i].member, i);
      var k :| i < k < j && trace[..j][k] == Called(true);
      assert trace[k] == Called(true);
    }
  }

  /** The running total is the saturating sum of what the members reported since the document started. */
  lemma TotalIsTheSum(calls: seq<Call>)
    ensures After(NEW, calls).total == Capped(Reported(After(NEW, calls).trace))
  {
    NewIsFine();
    RunIsFine(NEW, calls);
  }

  /** Every member, finished or not, is told the one outcome, and nothing is pending once the dispatcher is dropped. */
  lemma EndReachesEveryone(s: State, outcome: Outcome, m: nat)
    ensures !Finish(s, outcome).running && !Perform(s, Drop).running
    ensures s.running && m < |s.members| ==> Told(m, outcome) in Finish(s, outcome).trace[|s.trace|..]
    ensures s.running ==> forall n | n in Finish(s, outcome).trace[|s.trace|..] :: n.Told? && n.outcome == outcome && n.member < |s.members|
    ensures !s.running ==> Finish(s, outcome) == s
  {
    if s.running {
      TellingIs(0, |s.members|, outcome);
      assert Finish(s, outcome).trace[|s.trace|..] == Telling(0, |s.members|, outcome);
      if m < |s.members| {
        assert Telling(0, |s.members|, outcome)[m] == Told(m, outcome);
      }
    }
  }

  lemma {:induction false} TellingIs(from: nat, count: nat, outcome: Outcome)
    requires from <= count
    ensures |Telling(from, count, outcome)| == count - from
    ensures forall k: nat | k < count - from :: Telling(from, count, outcome)[k] == Told(from + k, outcome)
    decreases count - from
  {
    if from < count {
      TellingIs(from + 1, count, outcome);
      var rest := Telling(from + 1, count, outcome);
      forall k: nat | k < count - from ensures Telling(from, count, outcome)[k] == Told(from + k, outcome) {
        if k > 0 {
          assert Telling(from, count, outcome)[k] == rest[k - 1];
        }
      }
    }
  }

  // --- What holds of every event -----------------------------------------------------------------------------

  /** The members from one on that have not finished, in order. */
  function Unfinished(members: seq<Member>, from: nat): (r: seq<nat>)
    ensures forall i | i in r :: from <= i < |members| && !members[i].finished
    decreases |members| - from
  {
    if from >= |members| then []
    else if members[from].finished then Unfinished(members, from + 1)
    else [from] + Unfinished(members, from + 1)
  }

  function Seen(members: seq<nat>, answers: nat -> Answer): seq<Notice> {
    if members == [] then [] else [Saw(members[0], answers(members[0]))] + Seen(members[1..], answers)
  }

  /** The errors some members report, and the total those make with what there was. */
  function Sum(members: seq<nat>, answers: nat -> Answer, total: Usize): Usize {
    if members == [] then total
    else Sum(members[1..], answers, SaturatingAdd(total, if answers(members[0]).Ok? then answers(members[0]).value.count else 0))
  }

  predicate Exceeds(max: Option<nat>, total: nat) {
    max.Some? && total > max.value
  }

  /** The event goes past the first `k` of some members: none refuses it, and no total exceeds the limit. */
  predicate Passes(asked: seq<nat>, answers: nat -> Answer, max: Option<nat>, total: Usize, k: nat)
    requires k <= |asked|
  {
    forall i: nat | i < k :: PassesAt(asked, answers, max, total, i)
  }

  predicate PassesAt(asked: seq<nat>, answers: nat -> Answer, max: Option<nat>, total: Usize, i: nat)
    requires i < |asked|
  {
    answers(asked[i]).Ok? && !Exceeds(max, Sum(asked[..i + 1], answers, total))
  }

  lemma SumOfRest(asked: seq<nat>, answers: nat -> Answer, total: Usize, i: nat)
    requires 0 < i <= |asked|
    ensures Sum(asked[..i], answers, total)
         == Sum(asked[1..][..i - 1], answers, SaturatingAdd(total, if answers(asked[0]).Ok? then answers(asked[0]).value.count else 0))
  {
    assert asked[..i][1..] == asked[1..][..i - 1];
  }

  /** Asking one member leaves the members after it as they were. */
  lemma {:induction false} UnfinishedStays(a: seq<Member>, b: seq<Member>, from: nat)
    requires |a| == |b| && forall i | from <= i < |a| :: a[i] == b[i]
    ensures Unfinished(a, from) == Unfinished(b, from)
    decreases |a| - from
  {
    if from < |a| {
      UnfinishedStays(a, b, from + 1);
    }
  }

  /** From member `i` on, the event reaches the first `k` of those unfinished, and this is the reply. */
  predicate Reaches(s: State, i: nat, answers: nat -> Answer, found: Usize, after: State, reply: Answer, k: nat) {
    var asked := Unfinished(s.members, i);
    && k <= |asked| && after.trace == s.trace + Seen(asked[..k], answers)
    && after.total == Sum(asked[..k], answers, s.total) && after.max == s.max
    && (reply.Ok? <==> Passes(asked, answers, s.max, s.total, |asked|))
    && (reply.Ok? ==> k == |asked| && (reply.value.Break? <==> IsStopped(after.members))
                      && reply.value.count == Sum(asked, answers, found))
    && (reply.Err? ==> k > 0 && Passes(asked, answers, s.max, s.total, k - 1)
                       && (answers(asked[k - 1]).Err? || Exceeds(s.max, after.total)))
  }

  lemma ReachesOne(s: State, i: nat, answers: nat -> Answer, found: Usize)
    requires i < |s.members| && !s.members[i].finished
    requires answers(i).Err? || Ask(s, i, answers(i)).IsOverLimit()
    ensures Reaches(s, i, answers, found, Ask(s, i, answers(i)), Err, 1)
  {
    var next := Ask(s, i, answers(i));
    var asked := Unfinished(s.members, i);
    assert asked[0] == i && asked[..1] == [i];
    assert [i][1..] == [];
    assert Sum(asked[..1], answers, s.total) == next.total;
    assert Seen([i], answers) == [Saw(i, answers(i))];
    assert asked[..0 + 1] == asked[..1];
    assert !PassesAt(asked, answers, s.max, s.total, 0);
  }

  lemma SeenOneMore(trace: seq<Notice>, i: nat, rest: seq<nat>, k: nat, answers: nat -> Answer)
    requires k <= |rest|
    ensures trace + Seen(([i] + rest)[..k + 1], answers) == trace + [Saw(i, answers(i))] + Seen(rest[..k], answers)
  {
    assert ([i] + rest)[..k + 1][1..] == rest[..k];
  }

  lemma ReachesMore(s: State, i: nat, answers: nat -> Answer, found: Usize, after: State, reply: Answer, k: nat)
    requires i < |s.members| && !s.members[i].finished
    requires answers(i).Ok? && !Ask(s, i, answers(i)).IsOverLimit()
    requires Reaches(Ask(s, i, answers(i)), i + 1, answers, SaturatingAdd(found, answers(i).value.count), after, reply, k)
    ensures Reaches(s, i, answers, found, after, reply, k + 1)
  {
    hide IsStopped;
    var next := Ask(s, i, answers(i));
    var asked, rest := Unfinished(s.members, i), Unfinished(next.members, i + 1);
    UnfinishedStays(s.members, next.members, i + 1);
    assert asked == [i] + rest && asked[1..] == rest;
    SumOfRest(asked, answers, s.total, k + 1);
    SumOfRest(asked, answers, found, |asked|);
    assert asked[..|asked|] == asked && rest[..|rest|] == rest;
    PassesOneMore(asked, answers, s.max, s.total, |asked|);
    if k > 0 {
      PassesOneMore(asked, answers, s.max, s.total, k);
    }
    hide Passes, Sum, Unfinished, Seen, SaturatingAdd;
    SeenOneMore(s.trace, i, rest, k, answers);
  }

  /** The members an event reaches are the first of those unfinished, up to one that refuses it or exceeds the limit. */
  lemma {:induction false} DeliveredToPrefix(s: State, i: nat, answers: nat -> Answer, found: Usize) returns (k: nat)
    requires i <= |s.members|
    ensures Reaches(s, i, answers, found, Deliver(s, i, answers, found).0, Deliver(s, i, answers, found).1, k)
    decreases |s.members| - i
  {
    if i == |s.members| {
      k := 0;
      assert s.trace + Seen([], answers) == s.trace;
    } else {
      if s.members[i].finished {
        k := DeliveredToPrefix(s, i + 1, answers, found);
      } else {
        hide Reaches;
        var next := Ask(s, i, answers(i));
        if answers(i).Err? || next.IsOverLimit() {
          ReachesOne(s, i, answers, found);
          k := 1;
        } else {
          var (after, reply) := Deliver(next, i + 1, answers, SaturatingAdd(found, answers(i).value.count));
          var more := DeliveredToPrefix(next, i + 1, answers, SaturatingAdd(found, answers(i).value.count));
          ReachesMore(s, i, answers, found, after, reply, more);
          k := more + 1;
        }
      }
    }
  }

  lemma PassesOneMore(asked: seq<nat>, answers: nat -> Answer, max: Option<nat>, total: Usize, k: nat)
    requires 0 < k <= |asked| && answers(asked[0]).Ok?
    requires !Exceeds(max, SaturatingAdd(total, answers(asked[0]).value.count))
    ensures Passes(asked, answers, max, total, k)
       <==> Passes(asked[1..], answers, max, SaturatingAdd(total, answers(asked[0]).value.count), k - 1)
  {
    var more := SaturatingAdd(total, answers(asked[0]).value.count);
    assert PassesAt(asked, answers, max, total, 0) by {
      SumOfRest(asked, answers, total, 1);
      assert Sum(asked[1..][..0], answers, more) == more;
    }
    forall i: nat | i < k - 1 ensures PassesAt(asked, answers, max, total, i + 1) <==> PassesAt(asked[1..], answers, max, more, i) {
      SumOfRest(asked, answers, total, i + 2);
      assert asked[1..][i] == asked[i + 1];
    }
    hide PassesAt;
    if Passes(asked, answers, max, total, k) {
      forall i: nat | i < k - 1 ensures PassesAt(asked[1..], answers, max, more, i) {
        assert PassesAt(asked, answers, max, total, i + 1);
      }
    }
    if Passes(asked[1..], answers, max, more, k - 1) {
      forall i: nat | i < k ensures PassesAt(asked, answers, max, total, i) {
        if i > 0 {
          assert PassesAt(asked[1..], answers, max, more, i - 1);
        }
      }
    }
  }

  /**
   One event: it reaches the first unfinished members in order, all of them unless one refuses it or
   takes the total over the limit; `Break` is the reply exactly when every consumer there is has finished.
   */
  lemma EventReachesPrefix(s: State, start: bool, answers: nat -> Answer) returns (k: nat)
    ensures var begun := Begin(s, start);
            var (after, reply) := Consume(s, start, answers);
            var asked := Unfinished(begun.members, 0);
            && k <= |asked| && after.trace == begun.trace + Seen(asked[..k], answers) + [Replied(reply)]
            && after.total == Sum(asked[..k], answers, begun.total)
            && (reply.Ok? <==> Passes(asked, answers, s.max, begun.total, |asked|))
            && (reply.Ok? ==> k == |asked| && (reply.value.Break? <==> IsStopped(after.members)))
            && (reply.Err? ==> k > 0 && Passes(asked, answers, s.max, begun.total, k - 1)
                               && (answers(asked[k - 1]).Err? || Exceeds(s.max, after.total)))
  {
    hide IsStopped, Passes, Unfinished, Seen, Sum, Deliver;
    k := DeliveredToPrefix(Begin(s, start), 0, answers, 0);
  }

  /**
   When a reply is `Ok` although the total is over the limit: exactly when it was over before the event,
   the event starts no new run, and there was no unfinished member to ask.
   */
  lemma OkOverTheLimit(s: State, start: bool, answers: nat -> Answer)
    ensures var (after, reply) := Consume(s, start, answers);
            reply.Ok? && after.IsOverLimit() <==>
            !start && s.IsOverLimit() && forall m | m in s.members :: m.finished
  {
    var begun := Begin(s, start);
    var asked := Unfinished(begun.members, 0);
    var (after, reply) := Deliver(begun, 0, answers, 0);
    var k := DeliveredToPrefix(begun, 0, answers, 0);
    NobodyUnfinished(begun.members, 0);
    if asked == [] {
      assert asked[..k] == [];
      assert reply.Ok? && after.total == begun.total;
    } else {
      assert exists m :: m in begun.members && !m.finished;
      if reply.Ok? {
        assert asked[..|asked| - 1 + 1] == asked == asked[..k];
        assert PassesAt(asked, answers, s.max, begun.total, |asked| - 1);
        assert !Exceeds(s.max, Sum(asked[..|asked| - 1 + 1], answers, begun.total));
      }
    }
  }

  lemma {:induction false} NobodyUnfinished(members: seq<Member>, from: nat)
    requires from <= |members|
    ensures Unfinished(members, from) == [] <==> forall i | from <= i < |members| :: members[i].finished
    decreases |members| - from
  {
    if from < |members| {
      NobodyUnfinished(members, from + 1);
    }
  }

  /** It does happen: a lone consumer that breaks off with one error too many is followed by an `Ok`. */
  lemma OkAfterTheLimit()
    ensures var answers := (m: nat) => Ok(Break(1));
            var begun := After(NEW, [Add(false), Limit(Some(0)), Event(true, answers)]);
            && begun.trace != [] && Last(begun.trace) == Replied(Err)
            && Consume(begun, false, answers).1 == Ok(Break(0)) && Consume(begun, false, answers).0.IsOverLimit()
  {
    var answers: nat -> Answer := (m: nat) => Ok(Break(1));
    var added := Perform(NEW, Add(false));
    var limited := Perform(added, Limit(Some(0)));
    var one := Member(false, true);
    assert limited.members == [Member(false, false)];
    var begun := Begin(limited, true);
    assert begun.members == [Member(false, false)];
    var asked := Ask(begun, 0, answers(0));
    assert asked.members == [one] && asked.IsOverLimit();
    assert Deliver(begun, 0, answers, 0) == (asked, Err);
    var after := Perform(limited, Event(true, answers));
    var third := [Event(true, answers)];
    var second := [Limit(Some(0))] + third;
    var first := [Add(false)] + second;
    assert first == [Add(false), Limit(Some(0)), Event(true, answers)];
    assert first[1..] == second && second[1..] == third && third[1..] == [];
    assert After(limited, third) == After(after, []) == after;
    assert After(added, second) == After(limited, third);
    assert After(NEW, first) == After(added, second);
    assert after.members == [one] && one in after.members && IsStopped(after.members);
    assert Deliver(Begin(after, false), 0, answers, 0).1 == Deliver(Begin(after, false), 1, answers, 0).1 == Ok(Break(0));
  }

  // --- The object ---------------------------------------------------------------------------------------------

  class Dispatcher {
    var members: seq<Member>
    var running: bool
    var maxErrors: Option<nat>
    var validityErrorCount: Usize
    /** What happened so far. */
    ghost var trace: seq<Notice>

    ghost function S(): State
      reads this
    {
      State(members, running, maxErrors, validityErrorCount, trace)
    }

    constructor ()
      ensures S() == NEW
    {
      members, running, maxErrors, validityErrorCount, trace := [], false, None, 0, [];
    }

    method AddMember(validator: bool)
      modifies this
      ensures S() == Perform(old(S()), Add(validator))
    {
      members := members + [Member(validator, false)];
    }

    method WithMaxErrors(max: Option<nat>)
      modifies this
      ensures S() == Perform(old(S()), Limit(max))
    {
      maxErrors := max;
    }

    /** Forwards an event, member by member. `answers` is what each would say if it were asked. */
    method ConsumeEvent(start: bool, answers: nat -> Answer) returns (r: Answer)
      modifies this
      ensures (S(), r) == Consume(old(S()), start, answers)
    {
      hide IsStopped;
      ghost var s0 := S();
      trace := trace + [Called(start)];
      if start {
        Unflag();
        running := true;
        validityErrorCount := 0;
      }
      assert S() == Begin(s0, start);
      ghost var begun := S();
      var found: Usize := 0;
      for i := 0 to |members|
        invariant |members| == |begun.members|
        invariant Deliver(begun, 0, answers, 0) == Deliver(S(), i, answers, found)
      {
        if !members[i].finished {
          ghost var here := S();
          var answer := answers(i);
          trace := trace + [Saw(i, answer)];
          if answer.Err? {
            r := Err;
            trace := trace + [Replied(r)];
            return;
          }
          if answer.value.Break? {
            members := members[i := members[i].(finished := true)];
          }
          found := SaturatingAdd(found, answer.value.count);
          validityErrorCount := SaturatingAdd(validityErrorCount, answer.value.count);
          assert S() == Ask(here, i, answer);
          if maxErrors.Some? && validityErrorCount > maxErrors.value {
            r := Err;
            trace := trace + [Replied(r)];
            return;
          }
        }
      }
      var stopped := AllConsumersFinished();
      r := Ok(if stopped then Break(found) else Continue(found));
      trace := trace + [Replied(r)];
    }

    method Unflag()
      modifies this`members
      ensures members == Unfinish(old(members))
    {
      for i := 0 to |members|
        invariant |members| == |old(members)|
        invariant members[..i] == Unfinish(old(members))[..i] && members[i..] == old(members)[i..]
      {
        members := members[i := members[i].(finished := false)];
      }
    }

    /** Whether there is a consumer and all of them have finished. */
    method AllConsumersFinished() returns (stopped: bool)
      ensures stopped == IsStopped(members)
    {
      var any := false;
      for i := 0 to |members|
        invariant any == exists m :: m in members[..i] && !m.validator
        invariant forall m | m in members[..i] && !m.validator :: m.finished
      {
        assert members[..i + 1] == members[..i] + [members[i]];
        if !members[i].validator {
          if !members[i].finished {
            assert members[i] in members;
            return false;
          }
          any := true;
          assert members[i] in members[..i + 1];
        }
      }
      assert members[..|members|] == members;
      return any;
    }

    method FinishRun(outcome: Outcome)
      modifies this
      ensures S() == Finish(old(S()), outcome)
    {
      if running {
        running := false;
        ghost var before := trace;
        for i := 0 to |members|
          invariant S() == old(S()).(running := false, trace := trace)
          invariant trace + Telling(i, |members|, outcome) == before + Telling(0, |members|, outcome)
        {
          assert trace + Telling(i, |members|, outcome) == trace + [Told(i, outcome)] + Telling(i + 1, |members|, outcome);
          trace := trace + [Told(i, outcome)];
        }
        assert trace + [] == trace;
      }
    }

    /** A dispatcher that goes away in the middle of a run tells its members so. */
    method DropIt()
      modifies this
      ensures S() == Perform(old(S()), Drop) && !running
    {
      FinishRun(Abandoned);
    }
  }
}
