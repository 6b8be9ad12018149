/**
 Interned names. A handle is the pool that first interned a string and the string's index there; a
 fork keeps its parent's handles, and a lineage table says which pool each index came from.

 `Pool` is what a pool holds; `World` is every pool there is, after any interleaving of creating,
 forking and interning; `NamePool` is the table itself, changed in place.
 */
module NamePools {
  import opened Wrappers

  const MAX_U32: nat := 0xFFFF_FFFF

  /** The identity at the end of every lineage, which issued the reserved names. */
  const ROOT: nat := 1

  const RESERVED: seq<string> := ["", "xml", "xmlns", "http://www.w3.org/XML/1998/namespace", "http://www.w3.org/2000/xmlns/"]

  datatype Handle = Handle(pool: nat, index: nat)

  /** The pool an index came from, and the number of names that pool held when the next one branched off. */
  type Lineage = seq<(nat, nat)>

  datatype Pool = Pool(id: nat, lineage: Lineage, names: seq<string>, index: map<string, nat>) {
    predicate IsIndexed() {
      && |names| < MAX_U32
      && (forall name | name in index :: index[name] < |names| && names[index[name]] == name)
      && (forall i | 0 <= i < |names| :: names[i] in index && index[names[i]] == i)
    }

    predicate IsWellFormed() {
      && IsIndexed()
      && RESERVED <= names
      && lineage != [] && lineage[0] == (ROOT, |RESERVED|)
      && (forall i, j | 0 <= i < j < |lineage| :: lineage[i].0 < lineage[j].0 && lineage[i].1 < lineage[j].1)
      && (forall entry | entry in lineage :: entry.0 < id && entry.1 <= |names|)
    }

    /** The pool that first interned the name at an index. */
    function Origin(index: nat): nat {
      FirstBeyond(lineage, index, id)
    }

    predicate Owns(h: Handle) {
      h.index < |names| && h.pool == Origin(h.index)
    }

    function Resolve(h: Handle): Option<string> {
      if Owns(h) then Some(names[h.index]) else None
    }

    function Get(name: string): Option<Handle> {
      if name in index then Some(Handle(Origin(index[name]), index[name])) else None
    }

    function Fork(child: nat): Pool {
      Pool(child, Branch(lineage, id, |names|), names, index)
    }

    /** The pool after interning a name and the name's handle, or `Err` when the pool is full. */
    function Intern(name: string): Result<(Pool, Handle)> {
      if name in index then Ok((this, Handle(Origin(index[name]), index[name])))
      else if |names| >= MAX_U32 - 1 then Err
      else Ok((Pool(id, lineage, names + [name], index[name := |names|]), Handle(id, |names|)))
    }
  }

  /** The lineage of a pool that branches off when `id` holds `held` names; one with none of its own is omitted. */
  function Branch(lineage: Lineage, id: nat, held: nat): Lineage {
    if lineage == [] || lineage[|lineage| - 1].1 < held then lineage + [(id, held)] else lineage
  }

  function FirstBeyond(lineage: Lineage, index: nat, otherwise: nat): nat {
    if lineage == [] then otherwise
    else if index < lineage[0].1 then lineage[0].0
    else FirstBeyond(lineage[1..], index, otherwise)
  }

  function Fresh(id: nat): Pool {
    Pool(id, [(ROOT, |RESERVED|)], RESERVED, ReservedIndex(|RESERVED|))
  }

  function ReservedIndex(count: nat): map<string, nat>
    requires count <= |RESERVED|
  {
    map i: nat | i < count :: RESERVED[i] := i
  }

  lemma ReservedIndexNext(count: nat)
    requires count < |RESERVED|
    ensures RESERVED[count] !in ReservedIndex(count)
    ensures ReservedIndex(count + 1) == ReservedIndex(count)[RESERVED[count] := count]
    ensures RESERVED[..count + 1] == RESERVED[..count] + [RESERVED[count]]
  {
    ReservedAreDistinct();
  }

  // --- Origins --------------------------------------------------------------------------------------

  /** An index before some lineage entry came from one of the entries; any other is the pool's own. */
  lemma {:induction false} FirstBeyondIs(lineage: Lineage, index: nat, otherwise: nat)
    ensures (exists entry :: entry in lineage && index < entry.1 && entry.0 == FirstBeyond(lineage, index, otherwise))
         || (FirstBeyond(lineage, index, otherwise) == otherwise && forall entry | entry in lineage :: index >= entry.1)
  {
    if lineage != [] && index >= lineage[0].1 {
      FirstBeyondIs(lineage[1..], index, otherwise);
    }
  }

  lemma {:induction false} FirstBeyondAppended(lineage: Lineage, entry: (nat, nat), index: nat, otherwise: nat)
    ensures FirstBeyond(lineage + [entry], index, otherwise)
         == FirstBeyond(lineage, index, if index < entry.1 then entry.0 else otherwise)
  {
    if lineage == [] {
      assert lineage + [entry] == [entry];
    } else {
      FirstBeyondAppended(lineage[1..], entry, index, otherwise);
      assert (lineage + [entry])[1..] == lineage[1..] + [entry];
    }
  }

  lemma {:induction false} FirstBeyondOtherwise(lineage: Lineage, index: nat, a: nat, b: nat)
    requires exists entry :: entry in lineage && index < entry.1
    ensures FirstBeyond(lineage, index, a) == FirstBeyond(lineage, index, b)
  {
    if index >= lineage[0].1 {
      FirstBeyondOtherwise(lineage[1..], index, a, b);
    }
  }

  /** A fork gives every name it starts with the handle its parent gives it. */
  lemma ForkKeepsOrigins(p: Pool, child: nat, index: nat)
    requires p.IsWellFormed() && index < |p.names|
    ensures p.Fork(child).Origin(index) == p.Origin(index)
  {
    var last := p.lineage[|p.lineage| - 1];
    if last.1 < |p.names| {
      FirstBeyondAppended(p.lineage, (p.id, |p.names|), index, child);
    } else {
      assert last in p.lineage && index < last.1;
      FirstBeyondOtherwise(p.lineage, index, p.id, child);
    }
  }

  lemma ForkIsWellFormed(p: Pool, child: nat)
    requires p.IsWellFormed() && p.id < child
    ensures p.Fork(child).IsWellFormed()
  {
    var fork := p.Fork(child);
    forall entry | entry in fork.lineage ensures entry.0 < child && entry.1 <= |fork.names| {
      assert entry in p.lineage || entry == (p.id, |p.names|);
    }
    forall i, j | 0 <= i < j < |fork.lineage|
      ensures fork.lineage[i].0 < fork.lineage[j].0 && fork.lineage[i].1 < fork.lineage[j].1
    {
      assert p.lineage[i] in p.lineage;
      if j == |p.lineage| {
        var last := p.lineage[j - 1];
        assert i < j - 1 ==> p.lineage[i].1 < last.1;
      }
    }
  }

  lemma ReservedAreDistinct()
    ensures forall i, j | 0 <= i < j < |RESERVED| :: RESERVED[i] != RESERVED[j]
  {
    assert |RESERVED[0]| == 0 && |RESERVED[1]| == 3 && |RESERVED[2]| == 5 && |RESERVED[3]| == 36 && |RESERVED[4]| == 29;
  }

  lemma FreshIsWellFormed(id: nat)
    requires id > ROOT
    ensures Fresh(id).IsWellFormed()
  {
    ReservedAreDistinct();
  }

  lemma InternIsWellFormed(p: Pool, name: string)
    requires p.IsWellFormed() && p.Intern(name).Ok?
    ensures p.Intern(name).value.0.IsWellFormed()
  {
    var after := p.Intern(name).value.0;
    if name !in p.index {
      forall i | 0 <= i < |after.names| ensures after.names[i] in after.index && after.index[after.names[i]] == i {
        if i < |p.names| {
          assert p.names[i] in p.index;
        }
      }
    }
  }

  /** What interning gives back resolves to the name, and only a full pool refuses a new one. */
  lemma Interned(p: Pool, name: string)
    requires p.IsWellFormed()
    ensures p.Intern(name).Err? <==> name !in p.names && |p.names| == MAX_U32 - 1
    ensures p.Intern(name).Ok? ==>
              var (after, h) := p.Intern(name).value;
              && after.Owns(h) && after.Resolve(h) == Some(name) && after.Get(name) == Some(h)
              && (name in p.names ==> after == p)
              && (name !in p.names ==> after.names == p.names + [name] && h == Handle(p.id, |p.names|) && !p.Owns(h))
  {
    assert name in p.index ==> p.names[p.index[name]] in p.names;
    if name in p.names {
      var i :| 0 <= i < |p.names| && p.names[i] == name;
      assert p.names[i] in p.index;
    } else {
      FirstBeyondIs(p.lineage, |p.names|, p.id);
    }
  }

  /** Within one pool, handles are equal exactly when the strings they stand for are. */
  lemma HandlesAreNames(p: Pool, a: Handle, b: Handle)
    requires p.IsWellFormed() && p.Owns(a) && p.Owns(b)
    ensures a == b <==> p.Resolve(a) == p.Resolve(b)
  {
    assert p.names[a.index] in p.index && p.names[b.index] in p.index;
  }

  // --- Every pool there is ----------------------------------------------------------------------------

  datatype World = World(pools: seq<Pool>, nextId: nat)

  datatype Step = NewPool | ForkPool(pool: nat) | InternName(pool: nat, name: string)

  const START := World([], 2)

  function Next(w: World, step: Step): World {
    match step
    case NewPool => World(w.pools + [Fresh(w.nextId)], w.nextId + 1)
    case ForkPool(i) => if i < |w.pools| then World(w.pools + [w.pools[i].Fork(w.nextId)], w.nextId + 1) else w
    case InternName(i, name) =>
      if i < |w.pools| && w.pools[i].Intern(name).Ok? then
        World(w.pools[i := w.pools[i].Intern(name).value.0], w.nextId)
      else
        w
  }

  function After(w: World, steps: seq<Step>): World
    decreases |steps|
  {
    if steps == [] then w else After(Next(w, steps[0]), steps[1..])
  }

  /** Two pools give no handle two meanings. */
  predicate Agree(p: Pool, q: Pool) {
    forall k: nat | k < |p.names| && k < |q.names| :: p.Origin(k) == q.Origin(k) ==> p.names[k] == q.names[k]
  }

  /** The pool a lineage entry names still holds the names it held when the entry was made. */
  predicate Holds(w: World, entry: (nat, nat)) {
    exists j :: 0 <= j < |w.pools| && w.pools[j].id == entry.0 && entry.1 <= |w.pools[j].names|
  }

  predicate EntriesHold(w: World, lineage: Lineage) {
    forall entry | entry in lineage :: entry.0 == ROOT || Holds(w, entry)
  }

  predicate Fits(w: World, p: Pool) {
    p.IsWellFormed() && ROOT < p.id < w.nextId && EntriesHold(w, p.lineage)
  }

  predicate IdsDiffer(w: World) {
    forall i, j | 0 <= i < j < |w.pools| :: w.pools[i].id != w.pools[j].id
  }

  ghost predicate Consistent(w: World) {
    && w.nextId > ROOT
    && (forall p | p in w.pools :: Fits(w, p))
    && IdsDiffer(w)
    && (forall p, q | p in w.pools && q in w.pools :: Agree(p, q))
  }

  /** The pool only ever gains names. */
  predicate Extends(p: Pool, after: Pool) {
    after.id == p.id && after.lineage == p.lineage && p.names <= after.names
  }

  predicate Grows(w: World, after: World) {
    && |w.pools| <= |after.pools|
    && forall i | 0 <= i < |w.pools| :: Extends(w.pools[i], after.pools[i])
  }

  lemma EntriesStillHold(w: World, after: World, lineage: Lineage)
    requires Grows(w, after) && EntriesHold(w, lineage)
    ensures EntriesHold(after, lineage)
  {
    forall entry | entry in lineage && entry.0 != ROOT ensures Holds(after, entry) {
      var j :| 0 <= j < |w.pools| && w.pools[j].id == entry.0 && entry.1 <= |w.pools[j].names|;
      assert Extends(w.pools[j], after.pools[j]);
    }
  }

  lemma NewIdDiffers(w: World, p: Pool)
    requires Consistent(w) && p.id == w.nextId
    ensures IdsDiffer(World(w.pools + [p], w.nextId + 1))
  {
    forall q | q in w.pools ensures q.id != p.id {
      assert Fits(w, q);
    }
  }

  lemma NewPoolStaysConsistent(w: World)
    requires Consistent(w)
    ensures Consistent(Next(w, NewPool))
  {
    var created := Fresh(w.nextId);
    var after := Next(w, NewPool);
    FreshIsWellFormed(w.nextId);
    NewIdDiffers(w, created);
    forall p | p in after.pools ensures Fits(after, p) {
      if p in w.pools {
        assert Fits(w, p);
        EntriesStillHold(w, after, p.lineage);
      }
    }
    forall p, q | p in after.pools && q in after.pools ensures Agree(p, q) {
      assert Fits(after, p) && Fits(after, q);
      if p == created || q == created {
        AgreeOnReserved(p, q);
      }
    }
  }

  lemma AgreeOnReserved(p: Pool, q: Pool)
    requires RESERVED <= p.names && RESERVED <= q.names && (p.names == RESERVED || q.names == RESERVED)
    ensures Agree(p, q)
  {
  }

  lemma ForkStaysConsistent(w: World, i: nat)
    requires Consistent(w) && i < |w.pools|
    ensures Consistent(Next(w, ForkPool(i)))
  {
    var p := w.pools[i];
    var fork := p.Fork(w.nextId);
    var after := Next(w, ForkPool(i));
    assert p in w.pools && Fits(w, p);
    ForkIsWellFormed(p, w.nextId);
    NewIdDiffers(w, fork);
    hide Pool.IsWellFormed, Agree, EntriesHold, Branch;
    forall q | q in after.pools ensures Fits(after, q) {
      if q in w.pools {
        assert Fits(w, q);
        EntriesStillHold(w, after, q.lineage);
      } else {
        ForkEntriesHold(w, i);
      }
    }
    hide Fits;
    forall q, r | q in after.pools && r in after.pools ensures Agree(q, r) {
      ForkAgrees(w, i, q, r);
    }
  }

  lemma ForkEntriesHold(w: World, i: nat)
    requires i < |w.pools| && EntriesHold(w, w.pools[i].lineage)
    ensures EntriesHold(Next(w, ForkPool(i)), w.pools[i].Fork(w.nextId).lineage)
  {
    var p := w.pools[i];
    var after := Next(w, ForkPool(i));
    EntriesStillHold(w, after, p.lineage);
    assert after.pools[i].id == p.id;
    assert Holds(after, (p.id, |p.names|));
  }

  lemma ForkAgrees(w: World, i: nat, q: Pool, r: Pool)
    requires Consistent(w) && i < |w.pools|
    requires q in Next(w, ForkPool(i)).pools && r in Next(w, ForkPool(i)).pools
    ensures Agree(q, r)
  {
    var p := w.pools[i];
    assert p in w.pools;
    var q0, r0 := if q in w.pools then q else p, if r in w.pools then r else p;
    assert Fits(w, p) && Agree(q0, r0);
    hide Pool.IsWellFormed, Consistent, EntriesHold, FirstBeyond, Branch;
    forall k: nat | k < |q.names| && k < |r.names| && q.Origin(k) == r.Origin(k) ensures q.names[k] == r.names[k] {
      if k < |p.names| {
        ForkKeepsOrigins(p, w.nextId, k);
      }
    }
  }

  /** No other pool has a handle for an index that its owner has not issued yet. */
  lemma NotYetIssued(w: World, i: nat, q: Pool, k: nat)
    requires Consistent(w) && i < |w.pools| && q in w.pools && q.id != w.pools[i].id
    requires |w.pools[i].names| <= k
    ensures q.Origin(k) != w.pools[i].id
  {
    FirstBeyondIs(q.lineage, k, q.id);
    hide Pool.IsWellFormed, Agree, FirstBeyond;
    forall entry | entry in q.lineage && entry.0 == w.pools[i].id ensures entry.1 <= k {
      assert w.pools[i] in w.pools;
      EntryIsWithin(w, i, entry);
    }
  }

  lemma EntryIsWithin(w: World, i: nat, entry: (nat, nat))
    requires i < |w.pools| && Holds(w, entry) && entry.0 == w.pools[i].id
    requires IdsDiffer(w)
    ensures entry.1 <= |w.pools[i].names|
  {
    var j :| 0 <= j < |w.pools| && w.pools[j].id == entry.0 && entry.1 <= |w.pools[j].names|;
    assert j == i;
  }

  /** What a pool interns for itself is issued under its own id. */
  lemma OwnNames(p: Pool, k: nat)
    requires p.IsWellFormed() && |p.names| <= k
    ensures p.Origin(k) == p.id
  {
    FirstBeyondIs(p.lineage, k, p.id);
  }

  lemma InternStaysConsistent(w: World, i: nat, name: string)
    requires Consistent(w) && i < |w.pools| && w.pools[i].Intern(name).Ok?
    ensures Consistent(Next(w, InternName(i, name)))
  {
    var p := w.pools[i];
    assert p in w.pools && Fits(w, p);
    var (grown, _) := p.Intern(name).value;
    var after := Next(w, InternName(i, name));
    assert Grows(w, after) && IdsDiffer(after);
    InternIsWellFormed(p, name);
    hide Pool.IsWellFormed, Agree, EntriesHold, Grows;
    forall q | q in after.pools ensures Fits(after, q) {
      if q != grown {
        OthersStay(w, i, name, q);
        assert Fits(w, q);
      }
      EntriesStillHold(w, after, (if q == grown then p else q).lineage);
    }
    hide Fits;
    forall q, r | q in after.pools && r in after.pools ensures Agree(q, r) {
      InternAgrees(w, i, name, q, r);
    }
  }

  lemma InternAgrees(w: World, i: nat, name: string, q: Pool, r: Pool)
    requires Consistent(w) && i < |w.pools| && w.pools[i].Intern(name).Ok?
    requires q in Next(w, InternName(i, name)).pools && r in Next(w, InternName(i, name)).pools
    ensures Agree(q, r)
  {
    var p := w.pools[i];
    var (grown, _) := p.Intern(name).value;
    assert p in w.pools;
    var q0, r0 := if q == grown then p else q, if r == grown then p else r;
    if q != grown {
      OthersStay(w, i, name, q);
    }
    if r != grown {
      OthersStay(w, i, name, r);
    }
    forall k: nat | k < |q.names| && k < |r.names| && q.Origin(k) == r.Origin(k) ensures q.names[k] == r.names[k] {
      if k < |q0.names| && k < |r0.names| {
        assert Agree(q0, r0);
      } else if q != r {
        OwnNames(p, |p.names|);
        NotYetIssued(w, i, if q == grown then r else q, k);
      }
    }
  }

  /** A pool that is not the one that grew was there before, and is another pool. */
  lemma OthersStay(w: World, i: nat, name: string, q: Pool)
    requires Consistent(w) && i < |w.pools| && w.pools[i].Intern(name).Ok?
    requires q in Next(w, InternName(i, name)).pools && q != w.pools[i].Intern(name).value.0
    ensures q in w.pools && q.id != w.pools[i].id
  {
    var after := Next(w, InternName(i, name));
    var j :| 0 <= j < |after.pools| && after.pools[j] == q;
    assert j != i && w.pools[j] == q;
  }

  lemma StepStaysConsistent(w: World, step: Step)
    requires Consistent(w)
    ensures Consistent(Next(w, step)) && Grows(w, Next(w, step))
  {
    match step
    case NewPool => NewPoolStaysConsistent(w);
    case ForkPool(i) => if i < |w.pools| { ForkStaysConsistent(w, i); }
    case InternName(i, name) =>
      if i < |w.pools| && w.pools[i].Intern(name).Ok? {
        InternStaysConsistent(w, i, name);
      }
  }

  lemma {:induction false} RunStaysConsistent(w: World, steps: seq<Step>)
    requires Consistent(w)
    ensures Consistent(After(w, steps)) && Grows(w, After(w, steps))
    decreases |steps|
  {
    if steps != [] {
      StepStaysConsistent(w, steps[0]);
      RunStaysConsistent(Next(w, steps[0]), steps[1..]);
      hide Consistent;
      var mid, end := Next(w, steps[0]), After(w, steps);
      forall i | 0 <= i < |w.pools| ensures Extends(w.pools[i], end.pools[i]) {
        assert Extends(w.pools[i], mid.pools[i]) && Extends(mid.pools[i], end.pools[i]);
      }
    }
  }

  /** However pools were created, forked and filled, two that own a handle resolve it to the same string. */
  lemma SameHandleSameString(steps: seq<Step>, p: Pool, q: Pool, h: Handle)
    requires p in After(START, steps).pools && q in After(START, steps).pools
    requires p.Owns(h) && q.Owns(h)
    ensures p.Resolve(h) == q.Resolve(h)
  {
    RunStaysConsistent(START, steps);
    assert Agree(p, q);
  }

  /** A handle goes on meaning what it meant. */
  lemma HandlesStay(p: Pool, after: Pool, h: Handle)
    requires Extends(p, after) && p.Owns(h)
    ensures after.Owns(h) && after.Resolve(h) == p.Resolve(h)
  {
  }

  /** A fork owns exactly its parent's handles, and whatever happens later they mean the same in both. */
  lemma ForkKeepsHandles(steps: seq<Step>, i: nat, later: seq<Step>, h: Handle)
    requires i < |After(START, steps).pools|
    ensures var w := After(START, steps);
            var forked := Next(w, ForkPool(i));
            var end := After(forked, later);
            var child := |w.pools|;
            && |end.pools| > child
            && (forked.pools[child].Owns(h) <==> w.pools[i].Owns(h))
            && (w.pools[i].Owns(h) ==> end.pools[i].Resolve(h) == end.pools[child].Resolve(h) == w.pools[i].Resolve(h))
  {
    var w := After(START, steps);
    RunStaysConsistent(START, steps);
    assert w.pools[i] in w.pools;
    var forked := Next(w, ForkPool(i));
    StepStaysConsistent(w, ForkPool(i));
    RunStaysConsistent(forked, later);
    var end := After(forked, later);
    if h.index < |w.pools[i].names| {
      ForkKeepsOrigins(w.pools[i], w.nextId, h.index);
      if w.pools[i].Owns(h) {
        var child := |w.pools|;
        assert Extends(forked.pools[i], end.pools[i]) && Extends(forked.pools[child], end.pools[child]);
        HandlesStay(forked.pools[i], end.pools[i], h);
        HandlesStay(forked.pools[child], end.pools[child], h);
      }
    }
  }

  lemma NotSharedLater(w: World, end: World, i: nat, j: nat, h: Handle)
    requires Consistent(w) && Grows(w, end) && i < |w.pools| && j < |w.pools| && i != j
    requires end.pools[i].Owns(h) && !w.pools[i].Owns(h)
    ensures !end.pools[j].Owns(h)
  {
    assert Extends(w.pools[i], end.pools[i]) && Extends(w.pools[j], end.pools[j]);
    assert w.pools[i] in w.pools && w.pools[j] in w.pools;
    OwnNames(w.pools[i], h.index);
    NotYetIssued(w, i, w.pools[j], h.index);
  }

  /** A handle a pool issues from some moment on is never one that another pool of that moment owns. */
  lemma LaterHandlesAreNotShared(steps: seq<Step>, later: seq<Step>, i: nat, j: nat, h: Handle)
    requires i < |After(START, steps).pools| && j < |After(START, steps).pools| && i != j
    ensures var w := After(START, steps);
            var end := After(w, later);
            && |end.pools| >= |w.pools|
            && (end.pools[i].Owns(h) && !w.pools[i].Owns(h) ==> !end.pools[j].Owns(h))
  {
    var w := After(START, steps);
    RunStaysConsistent(START, steps);
    RunStaysConsistent(w, later);
    hide After;
    if After(w, later).pools[i].Owns(h) && !w.pools[i].Owns(h) {
      NotSharedLater(w, After(w, later), i, j, h);
    }
  }

  // --- The table ----------------------------------------------------------------------------------------

  /** Gives each pool an identity of its own, counting up from 2. */
  class PoolIds {
    var next: nat

    constructor ()
      ensures next == 2
    {
      next := 2;
    }

    method Take() returns (id: nat)
      modifies this
      ensures id == (if old(next) > 2 then old(next) else 2) && next == old(next) + 1
    {
      id := if next > 2 then next else 2;
      next := next + 1;
    }
  }

  class NamePool {
    const id: nat
    var lineage: Lineage
    var names: seq<string>
    var index: map<string, nat>

    ghost function State(): Pool
      reads this
    {
      Pool(id, lineage, names, index)
    }

    /** A pool of the reserved names, which belong to the root that every pool descends from. */
    constructor (ids: PoolIds)
      requires ids.next >= 2
      modifies ids
      ensures ids.next == old(ids.next) + 1 && State() == Fresh(old(ids.next)) && State().IsWellFormed()
    {
      var taken := ids.Take();
      id := taken;
      lineage, names, index := [], [], map[];
      new;
      hide Pool.IsWellFormed;
      for i := 0 to |RESERVED|
        invariant names == RESERVED[..i] && lineage == [] && State().IsIndexed()
        invariant index == ReservedIndex(i)
        invariant ids.next == old(ids.next) + 1
      {
        hide Pool.IsIndexed, ReservedIndex;
        ReservedIndexNext(i);
        var _ := Intern(RESERVED[i]);
      }
      assert RESERVED[..|RESERVED|] == RESERVED;
      lineage := lineage + [(ROOT, |RESERVED|)];
      FreshIsWellFormed(id);
    }

    constructor Fork(parent: NamePool, ids: PoolIds)
      requires parent.State().IsWellFormed() && parent.id < ids.next && ids.next >= 2
      modifies ids
      ensures ids.next == old(ids.next) + 1 && State() == old(parent.State()).Fork(old(ids.next)) && State().IsWellFormed()
    {
      var taken := ids.Take();
      id := taken;
      hide Pool.IsWellFormed;
      var held := |parent.names|;
      var inherited := parent.lineage;
      if inherited == [] || inherited[|inherited| - 1].1 < held {
        inherited := inherited + [(parent.id, held)];
      }
      assert inherited == Branch(parent.lineage, parent.id, held);
      hide Branch;
      lineage, names, index := inherited, parent.names, parent.index;
      new;
      ForkIsWellFormed(parent.State(), id);
    }

    /** The handle of a name, which joins the pool if it is new. */
    method Intern(name: string) returns (r: Result<Handle>)
      requires State().IsIndexed()
      modifies this`names, this`index
      ensures match old(State()).Intern(name) {
                case Err => r.Err? && State() == old(State())
                case Ok((after, h)) => r == Ok(h) && State() == after
              }
      ensures State().IsIndexed()
    {
      if name in index {
        return Ok(Handle(OriginOf(index[name]), index[name]));
      }
      var next := NextIndex(|names|);
      if next.None? {
        return Err;
      }
      ghost var before := State();
      names := names + [name];
      index := index[name := next.value];
      forall i | 0 <= i < |names| ensures names[i] in index && index[names[i]] == i {
        if i < |before.names| {
          assert before.names[i] in before.index;
        }
      }
      return Ok(Handle(id, next.value));
    }

    function OriginOf(at: nat): nat
      reads this
    {
      FirstBeyond(lineage, at, id)
    }

    predicate Owns(h: Handle)
      reads this
      ensures Owns(h) == State().Owns(h)
    {
      h.index < |names| && h.pool == OriginOf(h.index)
    }

    function Get(name: string): (r: Option<Handle>)
      reads this
      ensures r == State().Get(name)
    {
      if name in index then Some(Handle(OriginOf(index[name]), index[name])) else None
    }

    function Resolve(h: Handle): (r: Option<string>)
      reads this
      ensures r == State().Resolve(h)
    {
      if Owns(h) then Some(names[h.index]) else None
    }
  }

  /** The next free index; with 2^32 names there is none. */
  function NextIndex(held: nat): Option<nat> {
    if held < MAX_U32 - 1 then Some(held) else None
  }
}
