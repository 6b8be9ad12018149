/**
 Import precedence. A stylesheet's modules are loaded from a library of what can be loaded, each at
 most once, and numbered so that the numbers are the order of section 2.6.2 of XSLT 1.0.

 A module brought in is named by the path that leads to it: which reference of the principal module,
 then which reference of that one, and so on.
 */
module Imports {
  import opened Wrappers

  /** An `xsl:import` or `xsl:include`; without a target, its `href` is missing or does not resolve. */
  datatype Reference = Reference(imports: bool, target: Option<string>)

  /** What can be loaded: each URI's module, as the references it makes in document order. */
  type Library = map<string, seq<Reference>>

  type Path = seq<nat>

  function Target(lib: Library, uri: string, k: nat): Option<string> {
    if uri in lib && k < |lib[uri]| && lib[uri][k].target.Some? && lib[uri][k].target.value in lib then
      lib[uri][k].target
    else
      None
  }

  predicate IsImport(lib: Library, uri: string, k: nat) {
    uri in lib && k < |lib[uri]| && lib[uri][k].imports
  }

  /** The module a path leads to. */
  function Walk(lib: Library, uri: string, p: Path): Option<string>
    decreases |p|
  {
    if p == [] then Some(uri)
    else if Target(lib, uri, p[0]).None? then None
    else Walk(lib, Target(lib, uri, p[0]).value, p[1..])
  }

  predicate IsPath(lib: Library, uri: string, p: Path) {
    Walk(lib, uri, p).Some?
  }

  /** The path goes through an `xsl:import`, and not only through includes. */
  predicate Crosses(lib: Library, uri: string, p: Path)
    decreases |p|
  {
    p != [] && Target(lib, uri, p[0]).Some?
    && (IsImport(lib, uri, p[0]) || Crosses(lib, Target(lib, uri, p[0]).value, p[1..]))
  }

  /**
   The order of section 2.6.2: negative when `p` leads to a lower precedence than `q`. Where both are
   reached by includes alone they are one; what is imported is lower than what imports it; and what
   comes in by an earlier reference is lower than what comes in by a later one.
   */
  function Compare(lib: Library, uri: string, p: Path, q: Path): int
    decreases |p|
  {
    if !Crosses(lib, uri, p) then
      if Crosses(lib, uri, q) then 1 else 0
    else if !Crosses(lib, uri, q) then
      -1
    else if p[0] == q[0] then
      Compare(lib, Target(lib, uri, p[0]).value, p[1..], q[1..])
    else if p[0] < q[0] then
      -1
    else
      1
  }

  /** Includes and then one import, which is where the path ends. */
  predicate IsHead(lib: Library, uri: string, p: Path)
    decreases |p|
  {
    p != [] && Target(lib, uri, p[0]).Some?
    && if IsImport(lib, uri, p[0]) then |p| == 1 else IsHead(lib, Target(lib, uri, p[0]).value, p[1..])
  }

  /** How far along a path its first import is. */
  function FirstImport(lib: Library, uri: string, p: Path): nat
    requires Crosses(lib, uri, p)
    decreases |p|
  {
    if IsImport(lib, uri, p[0]) then 1 else 1 + FirstImport(lib, Target(lib, uri, p[0]).value, p[1..])
  }

  lemma {:induction false} PathSplits(lib: Library, uri: string, p: Path)
    requires IsPath(lib, uri, p) && Crosses(lib, uri, p)
    ensures var i := FirstImport(lib, uri, p);
            && 0 < i <= |p| && IsHead(lib, uri, p[..i]) && IsPath(lib, uri, p[..i])
            && Walk(lib, Walk(lib, uri, p[..i]).value, p[i..]) == Walk(lib, uri, p)
    decreases |p|
  {
    var t := Target(lib, uri, p[0]).value;
    if IsImport(lib, uri, p[0]) {
      assert p[..1] == [p[0]] && [p[0]][1..] == [];
      assert Walk(lib, uri, [p[0]]) == Walk(lib, t, []);
    } else {
      PathSplits(lib, t, p[1..]);
      var i := FirstImport(lib, t, p[1..]);
      assert p[..i + 1][1..] == p[1..][..i] && p[i + 1..] == p[1..][i..];
    }
  }

  /** Lexicographic order of paths that differ somewhere. */
  predicate LexLess(p: Path, q: Path) {
    p != [] && q != [] && (p[0] < q[0] || (p[0] == q[0] && LexLess(p[1..], q[1..])))
  }

  /** Two paths through the same head compare as what is past it does. */
  lemma {:induction false} CompareSameHead(lib: Library, uri: string, p: Path, q: Path)
    requires IsPath(lib, uri, p) && IsPath(lib, uri, q) && Crosses(lib, uri, p) && Crosses(lib, uri, q)
    requires p[..HeadLength(lib, uri, p)] == q[..HeadLength(lib, uri, q)]
    ensures var i := FirstImport(lib, uri, p);
            && i == FirstImport(lib, uri, q) && i <= |p| && i <= |q| && IsPath(lib, uri, p[..i])
            && Compare(lib, uri, p, q) == Compare(lib, Walk(lib, uri, p[..i]).value, p[i..], q[i..])
    decreases |p|
  {
    PathSplits(lib, uri, p);
    PathSplits(lib, uri, q);
    var i, j := FirstImport(lib, uri, p), FirstImport(lib, uri, q);
    var t := Target(lib, uri, p[0]).value;
    assert p[..i][0] == q[..j][0];
    if IsImport(lib, uri, p[0]) {
      assert p[..1] == [p[0]] && [p[0]][1..] == [];
      assert Walk(lib, uri, [p[0]]) == Walk(lib, t, []);
    } else {
      assert p[..i][1..] == p[1..][..i - 1] && q[..j][1..] == q[1..][..j - 1];
      CompareSameHead(lib, t, p[1..], q[1..]);
      assert p[i..] == p[1..][i - 1..] && q[i..] == q[1..][i - 1..];
    }
  }

  function HeadLength(lib: Library, uri: string, p: Path): (i: nat)
    requires IsPath(lib, uri, p) && Crosses(lib, uri, p)
    ensures i == FirstImport(lib, uri, p) && i <= |p|
  {
    PathSplits(lib, uri, p);
    FirstImport(lib, uri, p)
  }

  /** Of two paths through different heads, the one through the earlier head is the lower. */
  lemma {:induction false} CompareHeads(lib: Library, uri: string, p: Path, q: Path)
    requires IsPath(lib, uri, p) && IsPath(lib, uri, q) && Crosses(lib, uri, p) && Crosses(lib, uri, q)
    requires LexLess(p[..HeadLength(lib, uri, p)], q[..HeadLength(lib, uri, q)])
    ensures Compare(lib, uri, p, q) == -1 && Compare(lib, uri, q, p) == 1
    decreases |p|
  {
    var i, j := HeadLength(lib, uri, p), HeadLength(lib, uri, q);
    PathSplits(lib, uri, p);
    PathSplits(lib, uri, q);
    assert p[..i][0] == p[0] && q[..j][0] == q[0];
    if p[0] == q[0] {
      var t := Target(lib, uri, p[0]).value;
      if !IsImport(lib, uri, p[0]) {
        assert p[..i][1..] == p[1..][..i - 1] && q[..j][1..] == q[1..][..j - 1];
        CompareHeads(lib, t, p[1..], q[1..]);
      }
    }
  }

  // --- Precedence -------------------------------------------------------------------------------------

  type Precedences = map<string, int>

  function Sign(n: int): int {
    if n < 0 then -1 else if n > 0 then 1 else 0
  }

  /** Everything a module brings in has a precedence from `lo` up to `hi`, and the module's group the last of them. */
  ghost predicate Ranked(lib: Library, prec: Precedences, uri: string, lo: int, hi: int) {
    forall p | IsPath(lib, uri, p) :: RankedAt(lib, prec, uri, lo, hi, p)
  }

  predicate RankedAt(lib: Library, prec: Precedences, uri: string, lo: int, hi: int, p: Path)
    requires IsPath(lib, uri, p)
  {
    var x := Walk(lib, uri, p).value;
    x in prec && lo <= prec[x] < hi && (prec[x] == hi - 1 <==> !Crosses(lib, uri, p))
  }

  /** The precedences are the order of section 2.6.2 on everything a module brings in. */
  ghost predicate InOrder(lib: Library, prec: Precedences, uri: string) {
    forall p, q | IsPath(lib, uri, p) && IsPath(lib, uri, q) :: InOrderAt(lib, prec, uri, p, q)
  }

  predicate InOrderAt(lib: Library, prec: Precedences, uri: string, p: Path, q: Path)
    requires IsPath(lib, uri, p) && IsPath(lib, uri, q)
  {
    var x, y := Walk(lib, uri, p).value, Walk(lib, uri, q).value;
    x in prec && y in prec && Sign(prec[x] - prec[y]) == Compare(lib, uri, p, q)
  }

  /** Precedences given stay as they were given. */
  predicate Extends(before: Precedences, after: Precedences) {
    forall x | x in before :: x in after && after[x] == before[x]
  }

  lemma StillRanked(lib: Library, before: Precedences, after: Precedences, uri: string, lo: int, hi: int)
    requires Ranked(lib, before, uri, lo, hi) && InOrder(lib, before, uri) && Extends(before, after)
    ensures Ranked(lib, after, uri, lo, hi) && InOrder(lib, after, uri)
  {
    forall p | IsPath(lib, uri, p) ensures RankedAt(lib, after, uri, lo, hi, p) {
      assert RankedAt(lib, before, uri, lo, hi, p);
    }
    forall p, q | IsPath(lib, uri, p) && IsPath(lib, uri, q) ensures InOrderAt(lib, after, uri, p, q) {
      assert InOrderAt(lib, before, uri, p, q);
    }
  }

  /** What gathering a module's top level finds: where its imports are, in document order and all of them. */
  ghost predicate Gathered(lib: Library, uri: string, heads: seq<Path>, imported: seq<string>, included: seq<string>) {
    && |heads| == |imported|
    && (forall i | 0 <= i < |heads| :: IsHead(lib, uri, heads[i]) && Walk(lib, uri, heads[i]) == Some(imported[i]))
    && (forall i, j | 0 <= i < j < |heads| :: LexLess(heads[i], heads[j]))
    && (forall p | IsHead(lib, uri, p) :: p in heads)
    && (forall p | IsPath(lib, uri, p) && !Crosses(lib, uri, p) :: Walk(lib, uri, p).value in included)
  }

  /** The imports are ranked one after another, and the group comes last. */
  ghost predicate RankedInTurn(lib: Library, prec: Precedences, imported: seq<string>, bounds: seq<int>, count: nat) {
    && count <= |imported| && |bounds| == count + 1
    && forall i | 0 <= i < count ::
         bounds[i] < bounds[i + 1] && Ranked(lib, prec, imported[i], bounds[i], bounds[i + 1]) && InOrder(lib, prec, imported[i])
  }

  lemma {:induction false} BoundsRise(bounds: seq<int>, i: nat, j: nat)
    requires i <= j < |bounds| && forall k | 0 <= k < |bounds| - 1 :: bounds[k] < bounds[k + 1]
    ensures bounds[i] <= bounds[j]
    decreases j - i
  {
    if i < j {
      BoundsRise(bounds, i, j - 1);
    }
  }

  /** A path that crosses goes through one of the heads. */
  lemma HeadOf(lib: Library, uri: string, heads: seq<Path>, imported: seq<string>, included: seq<string>, p: Path) returns (i: nat)
    requires Gathered(lib, uri, heads, imported, included) && IsPath(lib, uri, p) && Crosses(lib, uri, p)
    ensures var n := HeadLength(lib, uri, p);
            && i < |heads| && heads[i] == p[..n] && Walk(lib, uri, p[..n]) == Some(imported[i])
            && IsPath(lib, imported[i], p[n..]) && Walk(lib, imported[i], p[n..]) == Walk(lib, uri, p)
  {
    PathSplits(lib, uri, p);
    i :| 0 <= i < |heads| && heads[i] == p[..HeadLength(lib, uri, p)];
  }

  lemma GroupIsRanked(lib: Library, prec: Precedences, uri: string, heads: seq<Path>, imported: seq<string>,
                      included: seq<string>, bounds: seq<int>)
    requires Gathered(lib, uri, heads, imported, included) && RankedInTurn(lib, prec, imported, bounds, |imported|)
    requires forall x | x in included :: x in prec && prec[x] == bounds[|imported|]
    ensures Ranked(lib, prec, uri, bounds[0], bounds[|imported|] + 1)
  {
    var n := |imported|;
    BoundsRise(bounds, 0, n);
    forall p | IsPath(lib, uri, p) ensures RankedAt(lib, prec, uri, bounds[0], bounds[n] + 1, p) {
      if Crosses(lib, uri, p) {
        var i := HeadOf(lib, uri, heads, imported, included, p);
        BoundsRise(bounds, 0, i);
        BoundsRise(bounds, i + 1, n);
        assert RankedAt(lib, prec, imported[i], bounds[i], bounds[i + 1], p[HeadLength(lib, uri, p)..]);
      }
    }
  }

  lemma GroupIsInOrder(lib: Library, prec: Precedences, uri: string, heads: seq<Path>, imported: seq<string>,
                       included: seq<string>, bounds: seq<int>)
    requires Gathered(lib, uri, heads, imported, included) && RankedInTurn(lib, prec, imported, bounds, |imported|)
    requires Ranked(lib, prec, uri, bounds[0], bounds[|imported|] + 1)
    ensures InOrder(lib, prec, uri)
  {
    forall p, q | IsPath(lib, uri, p) && IsPath(lib, uri, q) ensures InOrderAt(lib, prec, uri, p, q) {
      assert RankedAt(lib, prec, uri, bounds[0], bounds[|imported|] + 1, p);
      assert RankedAt(lib, prec, uri, bounds[0], bounds[|imported|] + 1, q);
      if Crosses(lib, uri, p) && Crosses(lib, uri, q) {
        ImportsAreInOrder(lib, prec, uri, heads, imported, included, bounds, p, q);
      }
    }
  }

  /** Two paths that both cross: through one import, or through an earlier and a later. */
  lemma ImportsAreInOrder(lib: Library, prec: Precedences, uri: string, heads: seq<Path>, imported: seq<string>,
                          included: seq<string>, bounds: seq<int>, p: Path, q: Path)
    requires Gathered(lib, uri, heads, imported, included) && RankedInTurn(lib, prec, imported, bounds, |imported|)
    requires IsPath(lib, uri, p) && IsPath(lib, uri, q) && Crosses(lib, uri, p) && Crosses(lib, uri, q)
    ensures InOrderAt(lib, prec, uri, p, q)
  {
    var i := HeadOf(lib, uri, heads, imported, included, p);
    var j := HeadOf(lib, uri, heads, imported, included, q);
    var m, n := HeadLength(lib, uri, p), HeadLength(lib, uri, q);
    if i == j {
      CompareSameHead(lib, uri, p, q);
      assert InOrderAt(lib, prec, imported[i], p[m..], q[n..]);
    } else {
      assert RankedAt(lib, prec, imported[i], bounds[i], bounds[i + 1], p[m..]);
      assert RankedAt(lib, prec, imported[j], bounds[j], bounds[j + 1], q[n..]);
      if i < j {
        BoundsRise(bounds, i + 1, j);
        CompareHeads(lib, uri, p, q);
      } else {
        BoundsRise(bounds, j + 1, i);
        CompareHeads(lib, uri, q, p);
      }
    }
  }

  // --- What the order says ------------------------------------------------------------------------------

  /** Two modules are joined by includes: past whatever leads to both, neither is reached by an import. */
  predicate JoinedByIncludes(lib: Library, uri: string, p: Path, q: Path)
    decreases |p|
  {
    || (!Crosses(lib, uri, p) && !Crosses(lib, uri, q))
    || (p != [] && q != [] && p[0] == q[0] && Target(lib, uri, p[0]).Some?
        && JoinedByIncludes(lib, Target(lib, uri, p[0]).value, p[1..], q[1..]))
  }

  /** Modules share a precedence exactly when they are joined by includes. */
  lemma {:induction false} SharedExactlyByIncludes(lib: Library, uri: string, p: Path, q: Path)
    requires IsPath(lib, uri, p) && IsPath(lib, uri, q)
    ensures Compare(lib, uri, p, q) == 0 <==> JoinedByIncludes(lib, uri, p, q)
    decreases |p|
  {
    if p != [] && q != [] && p[0] == q[0] {
      SharedExactlyByIncludes(lib, Target(lib, uri, p[0]).value, p[1..], q[1..]);
    }
  }

  /** A module outranks whatever it brings in through an import, however far down. */
  lemma {:induction false} ImporterOutranks(lib: Library, uri: string, p: Path, rest: Path)
    requires IsPath(lib, uri, p) && Crosses(lib, Walk(lib, uri, p).value, rest)
    ensures Compare(lib, uri, p, p + rest) == 1
    decreases |p|
  {
    if p == [] {
      assert p + rest == rest;
    } else {
      ImporterOutranks(lib, Target(lib, uri, p[0]).value, p[1..], rest);
      assert (p + rest)[1..] == p[1..] + rest;
      CrossesFurther(lib, uri, p, rest);
    }
  }

  lemma {:induction false} CrossesFurther(lib: Library, uri: string, p: Path, rest: Path)
    requires IsPath(lib, uri, p)
    ensures Crosses(lib, uri, p + rest) <==> Crosses(lib, uri, p) || Crosses(lib, Walk(lib, uri, p).value, rest)
    decreases |p|
  {
    if p == [] {
      assert p + rest == rest;
    } else {
      CrossesFurther(lib, Target(lib, uri, p[0]).value, p[1..], rest);
      assert (p + rest)[1..] == p[1..] + rest;
    }
  }

  /** Everything imported through an earlier reference is outranked by everything imported through a later one. */
  lemma {:induction false} LaterImportsOutrank(lib: Library, uri: string, p: Path, a: Path, b: Path)
    requires IsPath(lib, uri, p) && a != [] && b != [] && a[0] < b[0]
    requires Crosses(lib, Walk(lib, uri, p).value, a) && Crosses(lib, Walk(lib, uri, p).value, b)
    ensures Compare(lib, uri, p + a, p + b) == -1
    decreases |p|
  {
    if p == [] {
      assert p + a == a && p + b == b;
    } else {
      LaterImportsOutrank(lib, Target(lib, uri, p[0]).value, p[1..], a, b);
      assert (p + a)[1..] == p[1..] + a && (p + b)[1..] == p[1..] + b;
      CrossesFurther(lib, uri, p, a);
      CrossesFurther(lib, uri, p, b);
    }
  }

  // --- Loading --------------------------------------------------------------------------------------------

  datatype Module = Module(uri: string, precedence: int)

  function Uris(modules: seq<Module>): (r: set<string>)
    ensures forall u :: u in r <==> exists i :: 0 <= i < |modules| && modules[i].uri == u
  {
    set i | 0 <= i < |modules| :: modules[i].uri
  }

  lemma UrisPush(modules: seq<Module>, m: Module)
    ensures Uris(modules + [m]) == Uris(modules) + {m.uri}
  {
    var after := modules + [m];
    assert after[|modules|] == m;
    forall i | 0 <= i < |modules| ensures modules[i].uri in Uris(after) {
      assert after[i] == modules[i];
    }
  }

  predicate AreDistinct(modules: seq<Module>) {
    forall i, j | 0 <= i < j < |modules| :: modules[i].uri != modules[j].uri
  }

  /** More modules may have been loaded; those that were there are where they were. */
  predicate SameModules(before: seq<Module>, after: seq<Module>) {
    |before| <= |after| && forall i | 0 <= i < |before| :: after[i].uri == before[i].uri
  }

  predicate AreIndices(modules: seq<Module>, from: nat, indices: seq<nat>) {
    forall i | 0 <= i < |indices| :: from <= indices[i] < |modules|
  }

  predicate NoRepeats(a: seq<nat>) {
    forall i, j | 0 <= i < j < |a| :: a[i] != a[j]
  }

  function UrisAt(modules: seq<Module>, indices: seq<nat>): (r: seq<string>)
    requires AreIndices(modules, 0, indices)
    ensures |r| == |indices| && forall i | 0 <= i < |r| :: r[i] == modules[indices[i]].uri
  {
    seq(|indices|, i requires 0 <= i < |indices| => modules[indices[i]].uri)
  }

  /** A head found under a reference, seen from the module that makes the reference. */
  function Under(k: nat, heads: seq<Path>): (r: seq<Path>)
    ensures |r| == |heads| && forall i | 0 <= i < |r| :: r[i] == [k] + heads[i]
  {
    seq(|heads|, i requires 0 <= i < |heads| => [k] + heads[i])
  }

  /** `Gathered`, as far as the first `count` references of the module go. */
  ghost predicate GatheredTo(lib: Library, uri: string, count: nat, heads: seq<Path>, imported: seq<string>, included: seq<string>) {
    && |heads| == |imported|
    && (forall i | 0 <= i < |heads| :: IsHead(lib, uri, heads[i]) && heads[i][0] < count && Walk(lib, uri, heads[i]) == Some(imported[i]))
    && (forall i, j | 0 <= i < j < |heads| :: LexLess(heads[i], heads[j]))
    && (forall p | IsHead(lib, uri, p) && p[0] < count :: p in heads)
    && (forall p | IsPath(lib, uri, p) && !Crosses(lib, uri, p) && (p == [] || p[0] < count) :: Walk(lib, uri, p).value in included)
  }

  /** One more reference: an import, which is a head of its own. */
  lemma GatheredImport(lib: Library, uri: string, k: nat, heads: seq<Path>, imported: seq<string>, included: seq<string>)
    requires GatheredTo(lib, uri, k, heads, imported, included) && Target(lib, uri, k).Some? && IsImport(lib, uri, k)
    ensures GatheredTo(lib, uri, k + 1, heads + [[k]], imported + [Target(lib, uri, k).value], included)
  {
    var after := heads + [[k]];
    var t := Target(lib, uri, k).value;
    assert [k][1..] == [] && Walk(lib, uri, [k]) == Walk(lib, t, []);
    forall p | IsHead(lib, uri, p) && p[0] < k + 1 ensures p in after {
      if p[0] == k {
        assert p == [k] && after[|heads|] == p;
      } else {
        assert p in heads;
      }
    }
    forall i, j | 0 <= i < j < |after| ensures LexLess(after[i], after[j]) {
      if j == |heads| {
        assert heads[i][0] < k;
      }
    }
  }

  /** One more reference: an include, whose own heads join. */
  lemma GatheredInclude(lib: Library, uri: string, k: nat, heads: seq<Path>, imported: seq<string>, included: seq<string>,
                        heads': seq<Path>, imported': seq<string>, included': seq<string>)
    requires GatheredTo(lib, uri, k, heads, imported, included) && Target(lib, uri, k).Some? && !IsImport(lib, uri, k)
    requires Gathered(lib, Target(lib, uri, k).value, heads', imported', included')
    ensures GatheredTo(lib, uri, k + 1, heads + Under(k, heads'), imported + imported', included + included')
  {
    var t := Target(lib, uri, k).value;
    IncludedHeads(lib, uri, k, heads, imported, heads', imported', included');
    forall p | IsHead(lib, uri, p) && p[0] < k + 1 ensures p in heads + Under(k, heads') {
      if p[0] == k {
        assert IsHead(lib, t, p[1..]);
        var i :| 0 <= i < |heads'| && heads'[i] == p[1..];
        assert Under(k, heads')[i] == p;
      } else {
        assert p in heads;
      }
    }
    forall p | IsPath(lib, uri, p) && !Crosses(lib, uri, p) && (p == [] || p[0] < k + 1)
      ensures Walk(lib, uri, p).value in included + included'
    {
      if p != [] && p[0] == k {
        assert IsPath(lib, t, p[1..]) && !Crosses(lib, t, p[1..]);
      }
    }
  }

  lemma IncludedHeads(lib: Library, uri: string, k: nat, heads: seq<Path>, imported: seq<string>,
                      heads': seq<Path>, imported': seq<string>, included': seq<string>)
    requires Target(lib, uri, k).Some? && !IsImport(lib, uri, k) && |heads| == |imported|
    requires forall i | 0 <= i < |heads| :: IsHead(lib, uri, heads[i]) && heads[i][0] < k && Walk(lib, uri, heads[i]) == Some(imported[i])
    requires forall i, j | 0 <= i < j < |heads| :: LexLess(heads[i], heads[j])
    requires Gathered(lib, Target(lib, uri, k).value, heads', imported', included')
    ensures var after := heads + Under(k, heads');
            && (forall i | 0 <= i < |after| :: IsHead(lib, uri, after[i]) && after[i][0] < k + 1
                                               && Walk(lib, uri, after[i]) == Some((imported + imported')[i]))
            && (forall i, j | 0 <= i < j < |after| :: LexLess(after[i], after[j]))
  {
    var under := Under(k, heads');
    var after := heads + under;
    forall i | 0 <= i < |under| ensures under[i][0] == k && under[i][1..] == heads'[i] {
    }
    forall i | 0 <= i < |after|
      ensures IsHead(lib, uri, after[i]) && after[i][0] < k + 1 && Walk(lib, uri, after[i]) == Some((imported + imported')[i])
    {
      if i >= |heads| {
        assert after[i] == under[i - |heads|];
      }
    }
    forall i, j | 0 <= i < j < |after| ensures LexLess(after[i], after[j]) {
      if j >= |heads| {
        assert after[j] == under[j - |heads|];
        if i >= |heads| {
          assert after[i] == under[i - |heads|];
        } else {
          assert heads[i][0] < k;
        }
      }
    }
  }

  lemma GatheredAll(lib: Library, uri: string, heads: seq<Path>, imported: seq<string>, included: seq<string>)
    requires uri in lib && GatheredTo(lib, uri, |lib[uri]|, heads, imported, included)
    ensures Gathered(lib, uri, heads, imported, included)
  {
    forall p | IsHead(lib, uri, p) ensures p in heads {
      assert p[0] < |lib[uri]|;
    }
  }

  /**
   What gathering has loaded: the new modules are the imports and the includes, each once, and they are
   what the first `count` references of `uri` say.
   */
  ghost predicate GatheredSoFar(lib: Library, before: seq<Module>, modules: seq<Module>, uri: string, count: nat,
                                heads: seq<Path>, imported: seq<nat>, included: seq<nat>) {
    && AreIndices(modules, |before|, imported) && AreIndices(modules, |before|, included) && NoRepeats(included + imported)
    && GatheredTo(lib, uri, count, heads, UrisAt(modules, imported), [uri] + UrisAt(modules, included))
  }

  ghost predicate GatheredNew(lib: Library, before: seq<Module>, modules: seq<Module>, uri: string,
                              heads: seq<Path>, imported: seq<nat>, included: seq<nat>) {
    && AreIndices(modules, |before|, imported) && AreIndices(modules, |before|, included) && NoRepeats(included + imported)
    && Gathered(lib, uri, heads, UrisAt(modules, imported), [uri] + UrisAt(modules, included))
  }

  lemma GatheredNone(lib: Library, modules: seq<Module>, uri: string)
    ensures GatheredSoFar(lib, modules, modules, uri, 0, [], [], [])
  {
  }

  lemma UrisStay(before: seq<Module>, after: seq<Module>, from: nat, indices: seq<nat>)
    requires AreIndices(before, from, indices) && SameModules(before, after)
    ensures AreIndices(after, from, indices) && UrisAt(after, indices) == UrisAt(before, indices)
  {
  }

  lemma UrisBoth(modules: seq<Module>, a: seq<nat>, b: seq<nat>)
    requires AreIndices(modules, 0, a) && AreIndices(modules, 0, b)
    ensures AreIndices(modules, 0, a + b) && UrisAt(modules, a + b) == UrisAt(modules, a) + UrisAt(modules, b)
  {
  }

  lemma GatheredNextImport(lib: Library, before: seq<Module>, modules: seq<Module>, uri: string, k: nat, heads: seq<Path>,
                           imported: seq<nat>, included: seq<nat>)
    requires GatheredSoFar(lib, before, modules, uri, k, heads, imported, included) && |before| <= |modules|
    requires Target(lib, uri, k).Some? && IsImport(lib, uri, k)
    ensures GatheredSoFar(lib, before, modules + [Module(Target(lib, uri, k).value, 0)], uri, k + 1, heads + [[k]],
                          imported + [|modules|], included)
  {
    var after := modules + [Module(Target(lib, uri, k).value, 0)];
    GatheredImport(lib, uri, k, heads, UrisAt(modules, imported), [uri] + UrisAt(modules, included));
    hide GatheredTo;
    UrisStay(modules, after, |before|, imported);
    UrisStay(modules, after, |before|, included);
    UrisBoth(after, imported, [|modules|]);
    assert UrisAt(after, [|modules|]) == [Target(lib, uri, k).value];
    assert included + (imported + [|modules|]) == (included + imported) + [|modules|];
    assert NoRepeats((included + imported) + [|modules|]) by {
      assert AreIndices(modules, |before|, included + imported);
    }
  }

  lemma NoRepeatsBoth(a: seq<nat>, b: seq<nat>, limit: nat)
    requires NoRepeats(a) && NoRepeats(b)
    requires (forall i | 0 <= i < |a| :: a[i] < limit) && (forall i | 0 <= i < |b| :: limit <= b[i])
    ensures NoRepeats(a + b)
  {
  }

  lemma NoRepeatsSwapped(a: seq<nat>, b: seq<nat>, c: seq<nat>, d: seq<nat>)
    requires NoRepeats((a + b) + (c + d))
    ensures NoRepeats((a + c) + (b + d))
  {
    var s, t := (a + b) + (c + d), (a + c) + (b + d);
    forall i, j | 0 <= i < j < |t| ensures t[i] != t[j] {
      var x := if i < |a| then i else if i < |a| + |c| then i + |b| else if i < |a| + |c| + |b| then i - |c| else i;
      var y := if j < |a| then j else if j < |a| + |c| then j + |b| else if j < |a| + |c| + |b| then j - |c| else j;
      assert s[x] == t[i] && s[y] == t[j] && x != y;
    }
  }

  lemma GatheredNextInclude(lib: Library, before: seq<Module>, mid: seq<Module>, grown: seq<Module>, after: seq<Module>,
                            uri: string, k: nat, heads: seq<Path>, imported: seq<nat>, included: seq<nat>,
                            more: seq<Path>, imported': seq<nat>, included': seq<nat>)
    requires GatheredSoFar(lib, before, mid, uri, k, heads, imported, included) && |before| <= |mid|
    requires Target(lib, uri, k).Some? && !IsImport(lib, uri, k)
    requires grown == mid + [Module(Target(lib, uri, k).value, 0)] && SameModules(grown, after)
    requires GatheredNew(lib, grown, after, Target(lib, uri, k).value, more, imported', included')
    ensures GatheredSoFar(lib, before, after, uri, k + 1, heads + Under(k, more),
                          imported + imported', included + [|mid|] + included')
  {
    var t := Target(lib, uri, k).value;
    UrisStay(mid, after, |before|, imported);
    UrisStay(mid, after, |before|, included);
    GatheredInclude(lib, uri, k, heads, UrisAt(mid, imported), [uri] + UrisAt(mid, included),
                    more, UrisAt(after, imported'), [t] + UrisAt(after, included'));
    hide GatheredTo, Gathered, NoRepeats;
    UrisBoth(after, imported, imported');
    UrisOfGroup(after, uri, t, included, |mid|, included');
    IndicesAreNew(included, imported, |mid|, included', imported');
  }

  lemma UrisOfGroup(modules: seq<Module>, uri: string, target: string, included: seq<nat>, at: nat, included': seq<nat>)
    requires AreIndices(modules, 0, included) && AreIndices(modules, 0, included') && at < |modules| && modules[at].uri == target
    ensures AreIndices(modules, 0, included + [at] + included')
    ensures [uri] + UrisAt(modules, included + [at] + included')
         == [uri] + UrisAt(modules, included) + ([target] + UrisAt(modules, included'))
  {
    UrisBoth(modules, included + [at], included');
    UrisBoth(modules, included, [at]);
    assert UrisAt(modules, [at]) == [target];
  }

  lemma IndicesAreNew(included: seq<nat>, imported: seq<nat>, new_: nat, included': seq<nat>, imported': seq<nat>)
    requires NoRepeats(included + imported) && NoRepeats(included' + imported')
    requires (forall i | 0 <= i < |included| :: included[i] < new_) && (forall i | 0 <= i < |imported| :: imported[i] < new_)
    requires (forall i | 0 <= i < |included'| :: new_ < included'[i]) && (forall i | 0 <= i < |imported'| :: new_ < imported'[i])
    ensures NoRepeats((included + [new_] + included') + (imported + imported'))
  {
    var later := ([new_] + included') + imported';
    assert later == [new_] + (included' + imported');
    NoRepeatsBoth([new_], included' + imported', new_ + 1);
    NoRepeatsBoth(included + imported, later, new_);
    NoRepeatsSwapped(included, imported, [new_] + included', imported');
    assert included + [new_] + included' == included + ([new_] + included');
  }

  lemma Regrouped(a: seq<nat>, b: seq<nat>, c: seq<nat>, d: seq<nat>)
    ensures a + b + c + d == a + (b + c + d) && (d == [] ==> a + b + c == a + (b + c)) && (b == [] ==> a + b == a)
  {
  }

  lemma GatheredEverything(lib: Library, before: seq<Module>, modules: seq<Module>, uri: string,
                           heads: seq<Path>, imported: seq<nat>, included: seq<nat>)
    requires uri in lib && GatheredSoFar(lib, before, modules, uri, |lib[uri]|, heads, imported, included)
    ensures GatheredNew(lib, before, modules, uri, heads, imported, included)
  {
    GatheredAll(lib, uri, heads, UrisAt(modules, imported), [uri] + UrisAt(modules, included));
  }

  lemma SetOne(modules: seq<Module>, given: Precedences, at: nat, precedence: int)
    requires AreDistinct(modules) && at < |modules|
    requires forall m | m in modules && m.uri in given :: m.precedence == given[m.uri]
    ensures var after := modules[at := Module(modules[at].uri, precedence)];
            && AreDistinct(after) && Uris(after) == Uris(modules)
            && forall m | m in after && m.uri in given[modules[at].uri := precedence] ::
                 m.precedence == given[modules[at].uri := precedence][m.uri]
  {
    var after := modules[at := Module(modules[at].uri, precedence)];
    assert forall i | 0 <= i < |modules| :: after[i].uri == modules[i].uri;
  }

  lemma NewUri(before: seq<Module>, after: seq<Module>, at: nat)
    requires SameModules(before, after) && AreDistinct(after) && |before| <= at < |after|
    ensures after[at].uri !in Uris(before)
  {
  }

  lemma UrisGrow(before: seq<Module>, after: seq<Module>)
    requires SameModules(before, after)
    ensures Uris(before) <= Uris(after)
  {
    forall i | 0 <= i < |before| ensures before[i].uri in Uris(after) {
      assert after[i].uri == before[i].uri;
    }
  }

  predicate NoneGiven(modules: seq<Module>, indices: seq<nat>, given: Precedences) {
    forall j | 0 <= j < |indices| :: indices[j] < |modules| && modules[indices[j]].uri !in given
  }

  /** Precedences were given to one module and to ones that were not loaded before, and to no others. */
  predicate GivesOnly(was: Precedences, given: Precedences, before: seq<Module>, uri: string) {
    forall u | u in given :: u in was || u == uri || u !in Uris(before)
  }

  /** Some modules were given one precedence, and no others were given any. */
  predicate Settled(was: Precedences, given: Precedences, uris: seq<string>, precedence: int) {
    && Extends(was, given)
    && (forall u | u in given :: u in was || u in uris)
    && (forall u | u in uris :: u in given && given[u] == precedence)
  }

  lemma SettledNone(given: Precedences, precedence: int)
    ensures forall uris: seq<string> :: Settled(given, given, uris[..0], precedence)
  {
  }

  lemma SettledNext(was: Precedences, given: Precedences, uris: seq<string>, uri: string, precedence: int)
    requires Settled(was, given, uris, precedence) && uri !in was
    ensures Settled(was, given[uri := precedence], uris + [uri], precedence)
  {
    assert uri == (uris + [uri])[|uris|];
  }

  lemma GivesNothing(given: Precedences, before: seq<Module>, uri: string)
    ensures GivesOnly(given, given, before, uri)
  {
  }

  lemma RankedNone(lib: Library, given: Precedences, uris: seq<string>, counter: int)
    ensures RankedInTurn(lib, given, uris, [counter], 0)
  {
  }

  lemma FirstNotGiven(modules: seq<Module>, indices: seq<nat>, k: nat, given: Precedences)
    requires k < |indices| && NoneGiven(modules, indices[k..], given)
    ensures indices[k] < |modules| && modules[indices[k]].uri !in given
  {
    assert indices[k..][0] == indices[k];
  }

  /** What gathering loads has no precedence yet. */
  lemma NotYetGiven(before: seq<Module>, gathered: seq<Module>, given: Precedences, at: nat, included: seq<nat>, imported: seq<nat>)
    requires SameModules(before, gathered) && AreDistinct(gathered) && at < |before|
    requires (forall u | u in given :: u in Uris(before)) && before[at].uri !in given
    requires AreIndices(gathered, |before|, included) && AreIndices(gathered, |before|, imported)
    ensures NoneGiven(gathered, imported[0..], given) && NoneGiven(gathered, [at] + included, given)
  {
    hide AreDistinct, Uris;
    forall j | 0 <= j < |imported| ensures gathered[imported[j]].uri !in given {
      NewUri(before, gathered, imported[j]);
    }
    forall j | 0 <= j < |included| ensures gathered[included[j]].uri !in given {
      NewUri(before, gathered, included[j]);
    }
  }

  /** Giving an import and what it brings in precedences gives none to the other imports or to the group. */
  lemma StillApart(before: seq<Module>, gathered: seq<Module>, here: seq<Module>, given0: Precedences, was: Precedences,
                   given: Precedences, at: nat, included: seq<nat>, imported: seq<nat>, k: nat)
    requires SameModules(before, gathered) && SameModules(gathered, here) && AreDistinct(gathered)
    requires at < |before| && k < |imported|
    requires AreIndices(gathered, |before|, included) && AreIndices(gathered, |before|, imported)
    requires NoRepeats(included + imported)
    requires GivesOnly(given0, was, before, before[at].uri) && GivesOnly(was, given, here, here[imported[k]].uri)
    requires NoneGiven(gathered, imported[k..], was) && NoneGiven(gathered, [at] + included, was)
    ensures GivesOnly(given0, given, before, before[at].uri)
    ensures NoneGiven(gathered, imported[k + 1..], given) && NoneGiven(gathered, [at] + included, given)
  {
    NewUri(before, gathered, imported[k]);
    UrisGrow(before, gathered);
    UrisGrow(gathered, here);
    OthersNotGiven(gathered, here, was, given, imported[k], imported[k + 1..]) by {
      var rest := imported[k + 1..];
      forall j | 0 <= j < |rest| ensures rest[j] != imported[k] {
        assert (included + imported)[|included| + k] == imported[k];
        assert (included + imported)[|included| + k + 1 + j] == rest[j];
      }
      assert imported[k..][1..] == imported[k + 1..];
    }
    OthersNotGiven(gathered, here, was, given, imported[k], [at] + included) by {
      forall j | 0 <= j < |[at] + included| ensures ([at] + included)[j] != imported[k] {
        if j > 0 {
          assert (included + imported)[j - 1] == included[j - 1];
          assert (included + imported)[|included| + k] == imported[k];
        }
      }
    }
  }

  lemma OthersNotGiven(gathered: seq<Module>, here: seq<Module>, was: Precedences, given: Precedences, one: nat, others: seq<nat>)
    requires SameModules(gathered, here) && AreDistinct(gathered) && one < |gathered|
    requires GivesOnly(was, given, here, here[one].uri) && NoneGiven(gathered, others, was)
    requires forall j | 0 <= j < |others| :: others[j] != one
    ensures NoneGiven(gathered, others, given)
  {
    forall j | 0 <= j < |others| ensures gathered[others[j]].uri !in given {
      assert here[others[j]].uri in Uris(here);
    }
  }

  lemma RankedNext(lib: Library, was: Precedences, given: Precedences, imported: seq<string>, bounds: seq<int>, k: nat, counter: int)
    requires k < |imported| && RankedInTurn(lib, was, imported, bounds, k) && Extends(was, given)
    requires Ranked(lib, given, imported[k], bounds[k], counter) && InOrder(lib, given, imported[k])
    ensures RankedInTurn(lib, given, imported, bounds + [counter], k + 1)
  {
    var after := bounds + [counter];
    assert RankedAt(lib, given, imported[k], bounds[k], counter, []) by {
      assert IsPath(lib, imported[k], []);
    }
    forall i | 0 <= i < k + 1
      ensures after[i] < after[i + 1] && Ranked(lib, given, imported[i], after[i], after[i + 1]) && InOrder(lib, given, imported[i])
    {
      if i < k {
        StillRanked(lib, was, given, imported[i], bounds[i], bounds[i + 1]);
      }
    }
  }

  lemma {:induction false} StillInTurn(lib: Library, was: Precedences, given: Precedences, imported: seq<string>, bounds: seq<int>, k: nat)
    requires k <= |imported| && RankedInTurn(lib, was, imported, bounds, k) && Extends(was, given)
    ensures RankedInTurn(lib, given, imported, bounds, k)
  {
    forall i | 0 <= i < k
      ensures Ranked(lib, given, imported[i], bounds[i], bounds[i + 1]) && InOrder(lib, given, imported[i])
    {
      StillRanked(lib, was, given, imported[i], bounds[i], bounds[i + 1]);
    }
  }

  lemma GroupUris(before: seq<Module>, gathered: seq<Module>, modules: seq<Module>, at: nat, included: seq<nat>)
    requires SameModules(before, gathered) && SameModules(gathered, modules) && at < |before|
    requires AreIndices(gathered, |before|, included)
    ensures AreIndices(modules, 0, [at] + included)
    ensures UrisAt(modules, [at] + included) == [before[at].uri] + UrisAt(gathered, included)
  {
  }

  /** Once the group has its precedence, everything the module brings in is in order. */
  lemma GroupSettled(lib: Library, before: seq<Module>, gathered: seq<Module>, given0: Precedences, was: Precedences,
                     given: Precedences, at: nat, included: seq<nat>, imported: seq<nat>, heads: seq<Path>, bounds: seq<int>,
                     precedence: int)
    requires SameModules(before, gathered) && AreDistinct(gathered) && at < |before|
    requires GatheredNew(lib, before, gathered, before[at].uri, heads, imported, included)
    requires RankedInTurn(lib, was, UrisAt(gathered, imported), bounds, |imported|) && bounds[|imported|] == precedence
    requires Settled(was, given, [before[at].uri] + UrisAt(gathered, included), precedence)
    requires Extends(given0, was) && GivesOnly(given0, was, before, before[at].uri)
    ensures Ranked(lib, given, before[at].uri, bounds[0], precedence + 1) && InOrder(lib, given, before[at].uri)
    ensures Extends(given0, given) && GivesOnly(given0, given, before, before[at].uri)
  {
    var uri := before[at].uri;
    var uris, group := UrisAt(gathered, imported), [uri] + UrisAt(gathered, included);
    StillInTurn(lib, was, given, uris, bounds, |imported|);
    GroupIsRanked(lib, given, uri, heads, uris, group, bounds);
    GroupIsInOrder(lib, given, uri, heads, uris, group, bounds);
    hide Ranked, InOrder, Gathered, RankedInTurn, Uris;
    forall u | u in group ensures u == uri || u !in Uris(before) {
      if u != uri {
        var j :| 0 <= j < |included| && UrisAt(gathered, included)[j] == u;
        NewUri(before, gathered, included[j]);
      }
    }
  }

  // --- Which module a path led to, and when loading can go through ------------------------------------------

  /** All the references a module makes can be followed. */
  predicate RefsResolve(lib: Library, uri: string) {
    uri in lib && forall k: nat | k < |lib[uri]| :: Target(lib, uri, k).Some?
  }

  ghost predicate Resolves(lib: Library, uri: string) {
    forall p | IsPath(lib, uri, p) :: RefsResolve(lib, Walk(lib, uri, p).value)
  }

  ghost predicate NeverTwice(lib: Library, uri: string) {
    forall p, q | IsPath(lib, uri, p) && IsPath(lib, uri, q) && p != q :: Walk(lib, uri, p) != Walk(lib, uri, q)
  }

  /** Every reference can be followed, and no module is brought in along two paths. */
  ghost predicate IsLoadable(lib: Library, uri: string) {
    Resolves(lib, uri) && NeverTwice(lib, uri)
  }

  /** Each loaded module with the path it was loaded along. */
  predicate Along(lib: Library, root: string, modules: seq<Module>, paths: seq<Path>) {
    |paths| == |modules| && forall i | 0 <= i < |modules| :: AlongAt(lib, root, modules, paths, i)
  }

  predicate AlongAt(lib: Library, root: string, modules: seq<Module>, paths: seq<Path>, i: nat)
    requires i < |modules| && |paths| == |modules|
  {
    Walk(lib, root, paths[i]) == Some(modules[i].uri)
  }

  /** Nothing has been loaded beyond `p` through its reference `k` or a later one. */
  predicate Unexplored(paths: seq<Path>, p: Path, k: nat) {
    forall i | 0 <= i < |paths| && p < paths[i] :: paths[i][|p|] < k
  }

  /** Whatever was loaded since lies beyond `p`. */
  predicate OnlyBeyond(before: seq<Path>, after: seq<Path>, p: Path) {
    before <= after && forall i | |before| <= i < |after| :: p < after[i]
  }

  lemma {:induction false} WalkOn(lib: Library, uri: string, p: Path, q: Path)
    requires IsPath(lib, uri, p)
    ensures Walk(lib, uri, p + q) == Walk(lib, Walk(lib, uri, p).value, q)
    decreases |p|
  {
    if p == [] {
      assert p + q == q;
    } else {
      assert (p + q)[1..] == p[1..] + q;
      WalkOn(lib, Target(lib, uri, p[0]).value, p[1..], q);
    }
  }

  lemma WalkOnce(lib: Library, root: string, p: Path, k: nat)
    requires IsPath(lib, root, p) && Target(lib, Walk(lib, root, p).value, k).Some?
    ensures Walk(lib, root, p + [k]) == Target(lib, Walk(lib, root, p).value, k)
  {
    WalkOn(lib, root, p, [k]);
    assert [k][1..] == [];
    assert Walk(lib, Walk(lib, root, p).value, [k]) == Walk(lib, Target(lib, Walk(lib, root, p).value, k).value, []);
  }

  /** A reference that cannot be followed, or leads to what is loaded already, is one no loadable library makes. */
  lemma CannotBeLoaded(lib: Library, root: string, modules: seq<Module>, paths: seq<Path>, at: nat, k: nat)
    requires Along(lib, root, modules, paths) && at < |modules| && modules[at].uri in lib && k < |lib[modules[at].uri]|
    requires Unexplored(paths, paths[at], k) && forall m | m in modules :: m.uri in lib
    requires var target := lib[modules[at].uri][k].target;
             target.None? || target.value !in lib || target.value in Uris(modules)
    ensures !IsLoadable(lib, root)
  {
    var p, uri := paths[at], modules[at].uri;
    assert AlongAt(lib, root, modules, paths, at);
    if Target(lib, uri, k).None? {
      assert !RefsResolve(lib, uri);
    } else {
      WalkOnce(lib, root, p, k);
      var j :| 0 <= j < |modules| && modules[j].uri == Target(lib, uri, k).value;
      assert AlongAt(lib, root, modules, paths, j);
      assert paths[j] != p + [k];
    }
  }

  lemma AlongNext(lib: Library, root: string, modules: seq<Module>, paths: seq<Path>, uri: string, path: Path)
    requires Along(lib, root, modules, paths) && Walk(lib, root, path) == Some(uri)
    ensures Along(lib, root, modules + [Module(uri, 0)], paths + [path])
  {
    var modules', paths' := modules + [Module(uri, 0)], paths + [path];
    forall i | 0 <= i < |modules'| ensures AlongAt(lib, root, modules', paths', i) {
      if i < |modules| {
        assert AlongAt(lib, root, modules, paths, i);
      }
    }
  }

  lemma ReachedFrom(lib: Library, root: string, modules: seq<Module>, paths: seq<Path>, at: nat)
    requires Along(lib, root, modules, paths) && at < |modules|
    ensures paths[at] in paths && Walk(lib, root, paths[at]) == Some(modules[at].uri)
  {
    assert AlongAt(lib, root, modules, paths, at);
  }

  /** The next reference: followed, it leads along the path with one more step; otherwise nothing could be loaded. */
  lemma NextReference(lib: Library, root: string, modules: seq<Module>, paths: seq<Path>, at: nat, k: nat)
    requires Along(lib, root, modules, paths) && at < |modules| && Unexplored(paths, paths[at], k)
    requires modules[at].uri in lib && k < |lib[modules[at].uri]| && forall m | m in modules :: m.uri in lib
    ensures var target := lib[modules[at].uri][k].target; var p := paths[at] + [k];
            && (target.Some? && target.value in lib ==>
                  Walk(lib, root, p) == target && Target(lib, modules[at].uri, k) == target)
            && (target.None? || target.value !in lib || target.value in Uris(modules) ==> !IsLoadable(lib, root))
            && Unexplored(paths + [p], paths[at], k + 1) && Unexplored(paths + [p], p, 0) && |paths| == |modules|
  {
    var target, p := lib[modules[at].uri][k].target, paths[at] + [k];
    ReachedFrom(lib, root, modules, paths, at);
    if target.Some? && target.value in lib {
      WalkOnce(lib, root, paths[at], k);
    }
    if target.None? || target.value !in lib || target.value in Uris(modules) {
      CannotBeLoaded(lib, root, modules, paths, at, k);
    }
    var paths' := paths + [p];
    forall i | 0 <= i < |paths'| ensures !(p < paths'[i]) {
      if i < |paths| && paths[at] < paths[i] {
        assert paths[i][|paths[at]|] < k;
      }
    }
  }

  lemma PathsAreDistinct(lib: Library, root: string, modules: seq<Module>, paths: seq<Path>, i: nat, j: nat)
    requires Along(lib, root, modules, paths) && AreDistinct(modules) && i < |paths| && j < |paths| && i != j
    ensures paths[i] != paths[j] && modules[i].uri != modules[j].uri
  {
    assert AlongAt(lib, root, modules, paths, i) && AlongAt(lib, root, modules, paths, j);
  }

  /** What is loaded beyond one path is not beyond another that is loaded and unexplored. */
  lemma StaysUnexplored(before: seq<Path>, after: seq<Path>, x: Path, y: Path)
    requires OnlyBeyond(before, after, y) && x in before && y in before && x != y
    requires Unexplored(before, x, 0) && Unexplored(before, y, 0)
    ensures Unexplored(after, x, 0)
  {
    forall i | 0 <= i < |after| ensures !(x < after[i]) {
      if i < |before| {
        assert before[i] == after[i];
      }
    }
  }

  /** The first `count` references of a module can be followed, and so can those of all it includes through them. */
  ghost predicate GroupDoneTo(lib: Library, uri: string, p: Path, paths: seq<Path>, count: nat) {
    && (forall j: nat | j < count :: Target(lib, uri, j).Some?)
    && forall r | IsPath(lib, uri, r) && !Crosses(lib, uri, r) && (r == [] || r[0] < count) ::
         p + r in paths && (r != [] ==> RefsResolve(lib, Walk(lib, uri, r).value))
  }

  /** A module and all it includes have been loaded, and all their references too. */
  ghost predicate GroupDone(lib: Library, uri: string, p: Path, paths: seq<Path>) {
    forall r | IsPath(lib, uri, r) && !Crosses(lib, uri, r) :: p + r in paths && RefsResolve(lib, Walk(lib, uri, r).value)
  }

  /** Everything a module brings in has been loaded. */
  ghost predicate AllDone(lib: Library, uri: string, p: Path, paths: seq<Path>) {
    forall r | IsPath(lib, uri, r) :: p + r in paths && RefsResolve(lib, Walk(lib, uri, r).value)
  }

  predicate HeadsAt(paths: seq<Path>, p: Path, heads: seq<Path>, m: seq<nat>) {
    |heads| == |m| && forall j | 0 <= j < |m| :: heads[j] != [] && m[j] < |paths| && paths[m[j]] == p + heads[j]
  }

  predicate AllUnexplored(paths: seq<Path>, m: seq<nat>) {
    forall j | 0 <= j < |m| :: m[j] < |paths| && Unexplored(paths, paths[m[j]], 0)
  }

  /** What gathering has loaded of a module at `p`, and what it leaves to be gone into. */
  ghost predicate LoadedSoFar(lib: Library, uri: string, before: seq<Path>, paths: seq<Path>, p: Path, count: nat,
                              heads: seq<Path>, m: seq<nat>) {
    && OnlyBeyond(before, paths, p) && Unexplored(paths, p, count) && GroupDoneTo(lib, uri, p, paths, count)
    && HeadsAt(paths, p, heads, m) && AllUnexplored(paths, m)
  }

  ghost predicate LoadedGroup(lib: Library, uri: string, before: seq<Path>, paths: seq<Path>, p: Path, heads: seq<Path>, m: seq<nat>) {
    OnlyBeyond(before, paths, p) && GroupDone(lib, uri, p, paths) && HeadsAt(paths, p, heads, m) && AllUnexplored(paths, m)
  }

  lemma LoadedNone(lib: Library, uri: string, paths: seq<Path>, p: Path)
    requires p in paths && Unexplored(paths, p, 0)
    ensures LoadedSoFar(lib, uri, paths, paths, p, 0, [], [])
  {
    assert p + [] == p;
  }

  lemma LoadedNextImport(lib: Library, uri: string, before: seq<Path>, paths: seq<Path>, p: Path, k: nat, heads: seq<Path>, m: seq<nat>)
    requires LoadedSoFar(lib, uri, before, paths, p, k, heads, m)
    requires Target(lib, uri, k).Some? && IsImport(lib, uri, k)
    requires Unexplored(paths + [p + [k]], p, k + 1) && Unexplored(paths + [p + [k]], p + [k], 0)
    ensures LoadedSoFar(lib, uri, before, paths + [p + [k]], p, k + 1, heads + [[k]], m + [|paths|])
  {
    var after := paths + [p + [k]];
    forall j | 0 <= j < |m| ensures Unexplored(after, paths[m[j]], 0) {
      assert Unexplored(paths, paths[m[j]], 0) && |paths[m[j]]| > |p|;
    }
  }

  lemma LoadedNextInclude(lib: Library, uri: string, before: seq<Path>, paths: seq<Path>, after: seq<Path>, p: Path, k: nat,
                          heads: seq<Path>, m: seq<nat>, heads': seq<Path>, m': seq<nat>)
    requires LoadedSoFar(lib, uri, before, paths, p, k, heads, m)
    requires Target(lib, uri, k).Some? && !IsImport(lib, uri, k)
    requires Unexplored(paths + [p + [k]], p, k + 1) && Unexplored(paths + [p + [k]], p + [k], 0)
    requires LoadedGroup(lib, Target(lib, uri, k).value, paths + [p + [k]], after, p + [k], heads', m')
    ensures LoadedSoFar(lib, uri, before, after, p, k + 1, heads + Under(k, heads'), m + m')
  {
    var q, loaded := p + [k], paths + [p + [k]];
    IncludedIsLoaded(lib, uri, paths, after, p, k, heads', m');
    forall j | 0 <= j < |m| ensures Unexplored(after, after[m[j]], 0) {
      var x := paths[m[j]];
      assert loaded[m[j]] == x && after[m[j]] == x;
      assert p < x && x[|p|] < k;
      assert Unexplored(loaded, x, 0) by {
        assert Unexplored(paths, x, 0);
      }
      assert loaded[|paths|] == q;
      StaysUnexplored(loaded, after, x, q);
    }
    var all := heads + Under(k, heads');
    forall j | 0 <= j < |m + m'| ensures all[j] != [] && (m + m')[j] < |after| && after[(m + m')[j]] == p + all[j] {
      if j < |m| {
        assert after[m[j]] == loaded[m[j]] == paths[m[j]];
      } else {
        assert all[j] == [k] + heads'[j - |m|];
        assert p + [k] + heads'[j - |m|] == p + ([k] + heads'[j - |m|]);
      }
    }
    assert Unexplored(after, p, k + 1) by {
      forall i | 0 <= i < |after| && p < after[i] ensures after[i][|p|] < k + 1 {
        if i < |loaded| {
          assert after[i] == loaded[i];
        }
      }
    }
  }

  lemma IncludedIsLoaded(lib: Library, uri: string, paths: seq<Path>, after: seq<Path>, p: Path, k: nat, heads': seq<Path>, m': seq<nat>)
    requires GroupDoneTo(lib, uri, p, paths, k) && Target(lib, uri, k).Some? && !IsImport(lib, uri, k)
    requires LoadedGroup(lib, Target(lib, uri, k).value, paths + [p + [k]], after, p + [k], heads', m')
    ensures GroupDoneTo(lib, uri, p, after, k + 1)
  {
    var t := Target(lib, uri, k).value;
    forall r | IsPath(lib, uri, r) && !Crosses(lib, uri, r) && (r == [] || r[0] < k + 1)
      ensures p + r in after && (r != [] ==> RefsResolve(lib, Walk(lib, uri, r).value))
    {
      if r != [] && r[0] == k {
        assert IsPath(lib, t, r[1..]) && !Crosses(lib, t, r[1..]);
        assert p + [k] + r[1..] == p + r;
      } else {
        assert p + r in paths;
        var i :| 0 <= i < |paths| && paths[i] == p + r;
        assert after[i] == (paths + [p + [k]])[i];
      }
    }
  }

  lemma LoadedEverything(lib: Library, uri: string, before: seq<Path>, paths: seq<Path>, p: Path, heads: seq<Path>, m: seq<nat>)
    requires uri in lib && LoadedSoFar(lib, uri, before, paths, p, |lib[uri]|, heads, m)
    ensures LoadedGroup(lib, uri, before, paths, p, heads, m)
  {
  }

  /** The group is loaded, and of its imports the first `count` with all they bring in; the others are still to be gone into. */
  ghost predicate LoadedInTurn(lib: Library, uri: string, imported: seq<string>, before: seq<Path>, paths: seq<Path>, p: Path,
                               heads: seq<Path>, m: seq<nat>, count: nat) {
    && |imported| == |m| && count <= |m|
    && OnlyBeyond(before, paths, p) && GroupDone(lib, uri, p, paths) && HeadsAt(paths, p, heads, m)
    && (forall j | 0 <= j < count :: AllDone(lib, imported[j], p + heads[j], paths))
    && AllUnexplored(paths, m[count..])
  }

  lemma DoneStays(lib: Library, uri: string, p: Path, paths: seq<Path>, after: seq<Path>)
    requires paths <= after
    ensures AllDone(lib, uri, p, paths) ==> AllDone(lib, uri, p, after)
    ensures GroupDone(lib, uri, p, paths) ==> GroupDone(lib, uri, p, after)
  {
  }

  lemma LoadedNext(lib: Library, root: string, uri: string, modules: seq<Module>, imported: seq<string>, before: seq<Path>,
                   paths: seq<Path>, after: seq<Path>, p: Path, heads: seq<Path>, i: seq<nat>, m: seq<nat>, k: nat)
    requires k < |m| && LoadedInTurn(lib, uri, imported, before, paths, p, heads, m, k)
    requires Along(lib, root, modules, paths) && AreDistinct(modules) && NoRepeats(i + m)
    requires OnlyBeyond(paths, after, paths[m[k]]) && AllDone(lib, imported[k], paths[m[k]], after)
    ensures LoadedInTurn(lib, uri, imported, before, after, p, heads, m, k + 1)
  {
    DoneStays(lib, uri, p, paths, after);
    forall j | 0 <= j < k + 1 ensures AllDone(lib, imported[j], p + heads[j], after) {
      if j < k {
        DoneStays(lib, imported[j], p + heads[j], paths, after);
      }
    }
    var rest := m[k + 1..];
    assert m[k..][0] == m[k];
    forall j | 0 <= j < |rest| ensures rest[j] < |after| && Unexplored(after, after[rest[j]], 0) {
      assert rest[j] == m[k..][j + 1];
      assert (i + m)[|i| + k] == m[k] && (i + m)[|i| + k + 1 + j] == rest[j];
      PathsAreDistinct(lib, root, modules, paths, m[k], rest[j]);
      StaysUnexplored(paths, after, paths[rest[j]], paths[m[k]]);
      assert after[rest[j]] == paths[rest[j]];
    }
    assert p < paths[m[k]] by {
      assert p + heads[k] == paths[m[k]];
    }
    forall x | |paths| <= x < |after| ensures p < after[x] {
      assert paths[m[k]] < after[x];
    }
  }

  /** The group and all its imports make up everything. */
  lemma LoadedWhole(lib: Library, uri: string, imported: seq<string>, included: seq<string>, before: seq<Path>, paths: seq<Path>,
                    p: Path, heads: seq<Path>, m: seq<nat>)
    requires Gathered(lib, uri, heads, imported, included) && LoadedInTurn(lib, uri, imported, before, paths, p, heads, m, |m|)
    ensures AllDone(lib, uri, p, paths) && OnlyBeyond(before, paths, p)
  {
    forall r | IsPath(lib, uri, r) ensures p + r in paths && RefsResolve(lib, Walk(lib, uri, r).value) {
      if Crosses(lib, uri, r) {
        var i := HeadOf(lib, uri, heads, imported, included, r);
        var n := HeadLength(lib, uri, r);
        assert AllDone(lib, imported[i], p + heads[i], paths);
        assert p + heads[i] + r[n..] == p + r by {
          assert r == r[..n] + r[n..];
        }
      }
    }
  }

  /** When everything was loaded, each module once, the library could be loaded. */
  lemma LoadedIsLoadable(lib: Library, root: string, modules: seq<Module>, paths: seq<Path>)
    requires AllDone(lib, root, [], paths) && Along(lib, root, modules, paths) && AreDistinct(modules)
    ensures IsLoadable(lib, root)
  {
    forall p, q | IsPath(lib, root, p) && IsPath(lib, root, q) && p != q ensures Walk(lib, root, p) != Walk(lib, root, q) {
      assert [] + p == p && [] + q == q;
      var i :| 0 <= i < |paths| && paths[i] == p;
      var j :| 0 <= j < |paths| && paths[j] == q;
      PathsAreDistinct(lib, root, modules, paths, i, j);
      assert AlongAt(lib, root, modules, paths, i) && AlongAt(lib, root, modules, paths, j);
    }
  }

  lemma AlongStays(lib: Library, root: string, before: seq<Module>, after: seq<Module>, paths: seq<Path>)
    requires Along(lib, root, before, paths) && SameModules(before, after) && |after| == |before|
    ensures Along(lib, root, after, paths)
  {
    forall i | 0 <= i < |after| ensures AlongAt(lib, root, after, paths, i) {
      assert AlongAt(lib, root, before, paths, i);
    }
  }

  lemma LoadedTurnBegins(lib: Library, uri: string, imported: seq<string>, before: seq<Path>, paths: seq<Path>, p: Path,
                         heads: seq<Path>, m: seq<nat>)
    requires LoadedGroup(lib, uri, before, paths, p, heads, m) && |imported| == |m|
    ensures LoadedInTurn(lib, uri, imported, before, paths, p, heads, m, 0)
  {
    assert m[0..] == m;
  }

  lemma LoadedTurn(lib: Library, uri: string, imported: seq<string>, before: seq<Path>, paths: seq<Path>, p: Path,
                   heads: seq<Path>, m: seq<nat>, k: nat)
    requires LoadedInTurn(lib, uri, imported, before, paths, p, heads, m, k) && k < |m|
    ensures m[k] < |paths| && Unexplored(paths, paths[m[k]], 0)
  {
    assert m[k..][0] == m[k];
  }

  ghost predicate IsReached(lib: Library, root: string, uri: string) {
    exists p :: Walk(lib, root, p) == Some(uri)
  }

  /** What is loaded is what a path leads to. */
  lemma LoadedIsReached(lib: Library, root: string, modules: seq<Module>, paths: seq<Path>)
    requires AllDone(lib, root, [], paths) && Along(lib, root, modules, paths)
    ensures forall u :: u in Uris(modules) <==> IsReached(lib, root, u)
  {
    forall u ensures u in Uris(modules) <==> IsReached(lib, root, u) {
      if u in Uris(modules) {
        var i :| 0 <= i < |modules| && modules[i].uri == u;
        assert AlongAt(lib, root, modules, paths, i);
      }
      if IsReached(lib, root, u) {
        var p :| Walk(lib, root, p) == Some(u);
        assert IsPath(lib, root, p) && [] + p == p;
        var i :| 0 <= i < |paths| && paths[i] == p;
        assert AlongAt(lib, root, modules, paths, i);
      }
    }
  }

  // --- Both at once: what gathering found, and where it was loaded -------------------------------------------

  ghost predicate Gathering(lib: Library, before: seq<Module>, modules: seq<Module>, paths0: seq<Path>, paths: seq<Path>,
                            uri: string, p: Path, count: nat, heads: seq<Path>, imported: seq<nat>, included: seq<nat>) {
    && SameModules(before, modules)
    && GatheredSoFar(lib, before, modules, uri, count, heads, imported, included)
    && LoadedSoFar(lib, uri, paths0, paths, p, count, heads, imported)
  }

  ghost predicate Grouped(lib: Library, before: seq<Module>, modules: seq<Module>, paths0: seq<Path>, paths: seq<Path>,
                          uri: string, p: Path, heads: seq<Path>, imported: seq<nat>, included: seq<nat>) {
    && SameModules(before, modules)
    && GatheredNew(lib, before, modules, uri, heads, imported, included)
    && LoadedGroup(lib, uri, paths0, paths, p, heads, imported)
  }

  lemma GatheringBegins(lib: Library, root: string, modules: seq<Module>, paths: seq<Path>, at: nat)
    requires Along(lib, root, modules, paths) && at < |modules| && Unexplored(paths, paths[at], 0)
    ensures Gathering(lib, modules, modules, paths, paths, modules[at].uri, paths[at], 0, [], [], [])
  {
    ReachedFrom(lib, root, modules, paths, at);
    GatheredNone(lib, modules, modules[at].uri);
    LoadedNone(lib, modules[at].uri, paths, paths[at]);
  }

  lemma GatheringPlace(lib: Library, before: seq<Module>, modules: seq<Module>, paths0: seq<Path>, paths: seq<Path>,
                       uri: string, p: Path, k: nat, heads: seq<Path>, imported: seq<nat>, included: seq<nat>, at: nat)
    requires Gathering(lib, before, modules, paths0, paths, uri, p, k, heads, imported, included)
    requires at < |before| && before[at].uri == uri && at < |paths0| && paths0[at] == p
    ensures at < |modules| && modules[at].uri == uri && at < |paths| && paths[at] == p && Unexplored(paths, p, k)
    ensures SameModules(before, modules)
  {
  }

  lemma GatheringImport(lib: Library, before: seq<Module>, modules: seq<Module>, paths0: seq<Path>, paths: seq<Path>,
                        uri: string, p: Path, k: nat, heads: seq<Path>, imported: seq<nat>, included: seq<nat>)
    requires Gathering(lib, before, modules, paths0, paths, uri, p, k, heads, imported, included) && |paths| == |modules|
    requires Target(lib, uri, k).Some? && IsImport(lib, uri, k)
    requires Unexplored(paths + [p + [k]], p, k + 1) && Unexplored(paths + [p + [k]], p + [k], 0)
    ensures Gathering(lib, before, modules + [Module(Target(lib, uri, k).value, 0)], paths0, paths + [p + [k]], uri, p, k + 1,
                      heads + [[k]], imported + [|modules|], included)
  {
    GatheredNextImport(lib, before, modules, uri, k, heads, imported, included);
    LoadedNextImport(lib, uri, paths0, paths, p, k, heads, imported);
  }

  lemma GatheringInclude(lib: Library, before: seq<Module>, mid: seq<Module>, after: seq<Module>, paths0: seq<Path>, paths: seq<Path>,
                         paths': seq<Path>, uri: string, p: Path, k: nat, heads: seq<Path>, imported: seq<nat>, included: seq<nat>,
                         heads': seq<Path>, imported': seq<nat>, included': seq<nat>)
    requires Gathering(lib, before, mid, paths0, paths, uri, p, k, heads, imported, included)
    requires Target(lib, uri, k).Some? && !IsImport(lib, uri, k)
    requires Unexplored(paths + [p + [k]], p, k + 1) && Unexplored(paths + [p + [k]], p + [k], 0)
    requires Grouped(lib, mid + [Module(Target(lib, uri, k).value, 0)], after, paths + [p + [k]], paths',
                     Target(lib, uri, k).value, p + [k], heads', imported', included')
    ensures Gathering(lib, before, after, paths0, paths', uri, p, k + 1, heads + Under(k, heads'),
                      imported + imported', included + ([|mid|] + included'))
  {
    Regrouped(included, [|mid|], included', []);
    var grown := mid + [Module(Target(lib, uri, k).value, 0)];
    GatheredNextInclude(lib, before, mid, grown, after, uri, k, heads, imported, included, heads', imported', included');
    LoadedNextInclude(lib, uri, paths0, paths, paths', p, k, heads, imported, heads', imported');
  }

  lemma GatheringEnds(lib: Library, before: seq<Module>, modules: seq<Module>, paths0: seq<Path>, paths: seq<Path>,
                      uri: string, p: Path, heads: seq<Path>, imported: seq<nat>, included: seq<nat>)
    requires uri in lib && Gathering(lib, before, modules, paths0, paths, uri, p, |lib[uri]|, heads, imported, included)
    ensures Grouped(lib, before, modules, paths0, paths, uri, p, heads, imported, included)
  {
    GatheredEverything(lib, before, modules, uri, heads, imported, included);
    LoadedEverything(lib, uri, paths0, paths, p, heads, imported);
  }

  lemma SameAsWas(modules: seq<Module>)
    ensures SameModules(modules, modules)
  {
  }

  lemma SameTwice(a: seq<Module>, b: seq<Module>, c: seq<Module>)
    requires SameModules(a, b) && SameModules(b, c)
    ensures SameModules(a, c)
  {
  }

  lemma SamePushed(modules: seq<Module>, m: Module)
    ensures SameModules(modules, modules + [m])
  {
  }

  lemma SamePushedOn(modules: seq<Module>, m: Module, after: seq<Module>)
    requires SameModules(modules + [m], after)
    ensures SameModules(modules, after)
  {
    assert forall i | 0 <= i < |modules| :: (modules + [m])[i] == modules[i];
  }

  lemma GatheringSame(lib: Library, before: seq<Module>, modules: seq<Module>, paths0: seq<Path>, paths: seq<Path>,
                      uri: string, p: Path, count: nat, heads: seq<Path>, imported: seq<nat>, included: seq<nat>)
    requires Gathering(lib, before, modules, paths0, paths, uri, p, count, heads, imported, included)
    ensures SameModules(before, modules)
  {
  }

  lemma GroupedParts(lib: Library, before: seq<Module>, modules: seq<Module>, paths0: seq<Path>, paths: seq<Path>,
                     uri: string, p: Path, heads: seq<Path>, imported: seq<nat>, included: seq<nat>)
    requires Grouped(lib, before, modules, paths0, paths, uri, p, heads, imported, included)
    ensures AreIndices(modules, |before|, imported) && AreIndices(modules, |before|, included) && NoRepeats(included + imported)
    ensures GatheredNew(lib, before, modules, uri, heads, imported, included)
    ensures LoadedGroup(lib, uri, paths0, paths, p, heads, imported)
  {
  }

  // --- Giving the imports their precedences, one after the other ---------------------------------------------

  /** What holds between two imports, the first `k` of which have theirs. */
  ghost predicate InTurn(lib: Library, before: seq<Module>, gathered: seq<Module>, modules: seq<Module>,
                         given0: Precedences, given: Precedences, paths0: seq<Path>, paths: seq<Path>, at: nat,
                         heads: seq<Path>, i: seq<nat>, m: seq<nat>, bounds: seq<int>, k: nat) {
    && SameModules(before, gathered) && SameModules(gathered, modules) && AreDistinct(gathered)
    && at < |before| && at < |paths0| && k <= |m|
    && GatheredNew(lib, before, gathered, before[at].uri, heads, m, i)
    && Extends(given0, given) && GivesOnly(given0, given, before, before[at].uri)
    && NoneGiven(gathered, m[k..], given) && NoneGiven(gathered, [at] + i, given)
    && LoadedInTurn(lib, before[at].uri, UrisAt(gathered, m), paths0, paths, paths0[at], heads, m, k)
    && RankedInTurn(lib, given, UrisAt(gathered, m), bounds, k)
  }

  lemma InTurnBegins(lib: Library, before: seq<Module>, gathered: seq<Module>, given: Precedences, paths0: seq<Path>,
                     paths: seq<Path>, at: nat, heads: seq<Path>, i: seq<nat>, m: seq<nat>, counter: int)
    requires at < |before| && at < |paths0| && AreDistinct(gathered)
    requires (forall u | u in given :: u in Uris(before)) && before[at].uri !in given
    requires Grouped(lib, before, gathered, paths0, paths, before[at].uri, paths0[at], heads, m, i)
    ensures InTurn(lib, before, gathered, gathered, given, given, paths0, paths, at, heads, i, m, [counter], 0)
  {
    hide AreDistinct, Uris;
    GroupedParts(lib, before, gathered, paths0, paths, before[at].uri, paths0[at], heads, m, i);
    GivesNothing(given, before, before[at].uri);
    NotYetGiven(before, gathered, given, at, i, m);
    RankedNone(lib, given, UrisAt(gathered, m), counter);
    LoadedTurnBegins(lib, before[at].uri, UrisAt(gathered, m), paths0, paths, paths0[at], heads, m);
  }

  /** The next import is loaded, has no precedence and has not been gone into. */
  lemma TurnOf(lib: Library, before: seq<Module>, gathered: seq<Module>, modules: seq<Module>,
               given0: Precedences, given: Precedences, paths0: seq<Path>, paths: seq<Path>, at: nat,
               heads: seq<Path>, i: seq<nat>, m: seq<nat>, bounds: seq<int>, k: nat)
    requires InTurn(lib, before, gathered, modules, given0, given, paths0, paths, at, heads, i, m, bounds, k) && k < |m|
    ensures m[k] < |modules| && modules[m[k]].uri !in given && m[k] < |paths| && Unexplored(paths, paths[m[k]], 0)
  {
    LoadedTurn(lib, before[at].uri, UrisAt(gathered, m), paths0, paths, paths0[at], heads, m, k);
    FirstNotGiven(gathered, m, k, given);
  }

  lemma TurnFailed(lib: Library, before: seq<Module>, gathered: seq<Module>, modules: seq<Module>, modules': seq<Module>,
                   given0: Precedences, given: Precedences, given': Precedences, paths0: seq<Path>, paths: seq<Path>, at: nat,
                   heads: seq<Path>, i: seq<nat>, m: seq<nat>, bounds: seq<int>, k: nat)
    requires InTurn(lib, before, gathered, modules, given0, given, paths0, paths, at, heads, i, m, bounds, k) && k < |m|
    requires SameModules(modules, modules') && m[k] < |modules|
    requires Extends(given, given') && GivesOnly(given, given', modules, modules[m[k]].uri)
    ensures SameModules(before, modules')
    ensures Extends(given0, given') && GivesOnly(given0, given', before, before[at].uri)
  {
    StillApart(before, gathered, modules, given0, given, given', at, i, m, k);
  }

  lemma TurnTaken(lib: Library, root: string, before: seq<Module>, gathered: seq<Module>, modules: seq<Module>, modules': seq<Module>,
                  given0: Precedences, given: Precedences, given': Precedences, paths0: seq<Path>, paths: seq<Path>, paths': seq<Path>,
                  at: nat, heads: seq<Path>, i: seq<nat>, m: seq<nat>, bounds: seq<int>, k: nat, counter: int)
    requires InTurn(lib, before, gathered, modules, given0, given, paths0, paths, at, heads, i, m, bounds, k) && k < |m|
    requires Along(lib, root, modules, paths) && AreDistinct(modules)
    requires SameModules(modules, modules') && m[k] < |modules| && m[k] < |paths| && |bounds| == k + 1
    requires Extends(given, given') && GivesOnly(given, given', modules, modules[m[k]].uri)
    requires Ranked(lib, given', modules[m[k]].uri, bounds[k], counter) && InOrder(lib, given', modules[m[k]].uri)
    requires OnlyBeyond(paths, paths', paths[m[k]]) && AllDone(lib, modules[m[k]].uri, paths[m[k]], paths')
    ensures InTurn(lib, before, gathered, modules', given0, given', paths0, paths', at, heads, i, m, bounds + [counter], k + 1)
  {
    hide AreDistinct, Uris, Along, Gathered, GivesOnly, NoneGiven, Ranked, InOrder, RankedInTurn, LoadedInTurn, OnlyBeyond, AllDone;
    StillApart(before, gathered, modules, given0, given, given', at, i, m, k);
    LoadedNext(lib, root, before[at].uri, modules, UrisAt(gathered, m), paths0, paths, paths', paths0[at], heads, i, m, k);
    RankedNext(lib, given, given', UrisAt(gathered, m), bounds, k, counter);
  }

  /** When all have theirs, the group's turn has come. */
  lemma TurnsTaken(lib: Library, before: seq<Module>, gathered: seq<Module>, modules: seq<Module>,
                   given0: Precedences, given: Precedences, paths0: seq<Path>, paths: seq<Path>, at: nat,
                   heads: seq<Path>, i: seq<nat>, m: seq<nat>, bounds: seq<int>)
    requires InTurn(lib, before, gathered, modules, given0, given, paths0, paths, at, heads, i, m, bounds, |m|)
    ensures SameModules(before, gathered) && SameModules(gathered, modules) && AreDistinct(gathered)
    ensures GatheredNew(lib, before, gathered, before[at].uri, heads, m, i)
    ensures Extends(given0, given) && GivesOnly(given0, given, before, before[at].uri) && NoneGiven(gathered, [at] + i, given)
    ensures RankedInTurn(lib, given, UrisAt(gathered, m), bounds, |m|)
    ensures AllDone(lib, before[at].uri, paths0[at], paths) && OnlyBeyond(paths0, paths, paths0[at])
  {
    LoadedWhole(lib, before[at].uri, UrisAt(gathered, m), [before[at].uri] + UrisAt(gathered, i), paths0, paths, paths0[at], heads, m);
  }

  class Compiler {
    const lib: Library
    /** The principal module, and for each module the path from there it was loaded along. */
    ghost const root: string
    ghost var paths: seq<Path>
    var modules: seq<Module>
    /** The next import precedence. */
    var counter: int
    /** The precedences given so far. */
    ghost var given: Precedences

    ghost predicate Valid()
      reads this
    {
      && AreDistinct(modules) && Along(lib, root, modules, paths)
      && (forall m | m in modules :: m.uri in lib)
      && (forall u | u in given :: u in Uris(modules))
      && (forall m | m in modules && m.uri in given :: m.precedence == given[m.uri])
    }

    ghost function Unloaded(): set<string>
      reads this
    {
      lib.Keys - Uris(modules)
    }

    constructor (lib: Library, ghost root: string)
      ensures Valid() && this.lib == lib && this.root == root && paths == [] && modules == [] && counter == 0 && given == map[]
    {
      this.lib, this.root := lib, root;
      paths, modules, counter, given := [], [], 0, map[];
    }

    method LoadModule(uri: string, ghost path: Path) returns (at: nat)
      requires Valid() && uri in lib && uri !in Uris(modules) && Walk(lib, root, path) == Some(uri)
      modifies this`modules, this`paths
      ensures Valid() && modules == old(modules) + [Module(uri, 0)] && at == |old(modules)| && paths == old(paths) + [path]
      ensures Unloaded() < old(Unloaded())
    {
      AlongNext(lib, root, modules, paths, uri, path);
      modules, paths := modules + [Module(uri, 0)], paths + [path];
      at := |modules| - 1;
      assert modules[at].uri == uri;
      UrisPush(old(modules), modules[at]);
      assert uri in old(Unloaded()) && uri !in Unloaded();
    }

    /** Follows a reference; it fails exactly when there is nothing to follow, nothing to load, or nothing left to load it for. */
    method LoadReferenced(reference: Reference, ghost path: Path) returns (r: Result<nat>)
      requires Valid() && (reference.target.Some? && reference.target.value in lib ==> Walk(lib, root, path) == reference.target)
      modifies this`modules, this`paths
      ensures Valid()
      ensures r.Ok? <==> reference.target.Some? && reference.target.value in lib && reference.target.value !in Uris(old(modules))
      ensures r.Ok? ==> modules == old(modules) + [Module(reference.target.value, 0)] && r.value == |old(modules)|
                        && paths == old(paths) + [path] && Unloaded() < old(Unloaded())
      ensures r.Err? ==> modules == old(modules) && paths == old(paths)
    {
      if reference.target.None? {
        return Err;
      }
      for i := 0 to |modules|
        invariant forall k | 0 <= k < i :: modules[k].uri != reference.target.value
      {
        if modules[i].uri == reference.target.value {
          return Err;
        }
      }
      if reference.target.value !in lib {
        return Err;
      }
      var at := LoadModule(reference.target.value, path);
      return Ok(at);
    }

    /**
     Follows the references of a module in order: an include is loaded and gathered on the spot, so that
     what it imports takes its place among the imports; an import is loaded and left for later.
     */
    method Gather(at: nat, included: seq<nat>, imported: seq<nat>)
      returns (r: Result<(seq<nat>, seq<nat>)>, ghost heads: seq<Path>, ghost i: seq<nat>, ghost m: seq<nat>)
      requires Valid() && at < |modules| && Unexplored(paths, paths[at], 0)
      modifies this`modules, this`paths
      ensures Valid() && SameModules(old(modules), modules) && Unloaded() <= old(Unloaded())
      ensures r.Ok? ==>
                && r.value == (included + i, imported + m)
                && Grouped(lib, old(modules), modules, old(paths), paths, old(modules)[at].uri, old(paths)[at], heads, m, i)
                && (m != [] ==> Unloaded() < old(Unloaded()))
      ensures r.Err? ==> !IsLoadable(lib, root)
      decreases Unloaded(), 1
    {
      ghost var before, paths0, p := modules, paths, paths[at];
      var uri := modules[at].uri;
      assert modules[at] in modules;
      GatheringBegins(lib, root, modules, paths, at);
      hide Gathering, Grouped, IsLoadable, Along, SameModules, Unexplored, Target, Walk, Uris, AreDistinct;
      heads, i, m := [], [], [];
      var lists := (included, imported);
      Regrouped(included, [], [], []);
      Regrouped(imported, [], [], []);
      for k := 0 to |lib[uri]|
        invariant Valid() && Unloaded() <= old(Unloaded())
        invariant lists == (included + i, imported + m)
        invariant Gathering(lib, before, modules, paths0, paths, uri, p, k, heads, m, i)
        invariant m != [] ==> Unloaded() < old(Unloaded())
      {
        ghost var mid := modules;
        GatheringPlace(lib, before, mid, paths0, paths, uri, p, k, heads, m, i, at);
        var one, moreHeads, more_i, more_m := GatherOne(at, k, lists.0, lists.1, before, paths0, heads, i, m);
        SameTwice(before, mid, modules);
        if one.Err? {
          return Err, [], [], [];
        }
        Regrouped(included, i, more_i, []);
        Regrouped(imported, m, more_m, []);
        lists := one.value;
        heads, i, m := heads + moreHeads, i + more_i, m + more_m;
      }
      GatheringSame(lib, before, modules, paths0, paths, uri, p, |lib[uri]|, heads, m, i);
      GatheringEnds(lib, before, modules, paths0, paths, uri, p, heads, m, i);
      r := Ok(lists);
    }

    /** Follows one reference of a module, `before` and `paths0` being what was there when its gathering began. */
    method GatherOne(at: nat, k: nat, included: seq<nat>, imported: seq<nat>, ghost before: seq<Module>, ghost paths0: seq<Path>,
                     ghost heads: seq<Path>, ghost i: seq<nat>, ghost m: seq<nat>)
      returns (r: Result<(seq<nat>, seq<nat>)>, ghost moreHeads: seq<Path>, ghost more_i: seq<nat>, ghost more_m: seq<nat>)
      requires Valid() && at < |before| && at < |paths0| && at < |modules| && k < |lib[modules[at].uri]|
      requires before[at].uri == modules[at].uri
      requires Gathering(lib, before, modules, paths0, paths, modules[at].uri, paths0[at], k, heads, m, i)
      modifies this`modules, this`paths
      ensures Valid() && SameModules(old(modules), modules) && Unloaded() <= old(Unloaded())
      ensures r.Ok? ==>
                && r.value == (included + more_i, imported + more_m)
                && Gathering(lib, before, modules, paths0, paths, old(modules)[at].uri, paths0[at], k + 1,
                             heads + moreHeads, m + more_m, i + more_i)
                && (more_m != [] ==> Unloaded() < old(Unloaded()))
      ensures r.Err? ==> !IsLoadable(lib, root)
      decreases Unloaded(), 1, 0
    {
      ghost var mid, along, uri, p := modules, paths, modules[at].uri, paths0[at];
      assert modules[at] in modules;
      hide Gathering, Grouped, IsLoadable, Along, SameModules, Unexplored, Target, Walk, Uris, AreDistinct;
      GatheringPlace(lib, before, modules, paths0, paths, uri, p, k, heads, m, i, at);
      NextReference(lib, root, modules, paths, at, k);
      var reference := lib[modules[at].uri][k];
      var outcome := LoadReferenced(reference, p + [k]);
      if outcome.Err? {
        SameAsWas(modules);
        return Err, [], [], [];
      }
      var loaded := outcome.value;
      if reference.imports {
        GatheringImport(lib, before, mid, paths0, along, uri, p, k, heads, m, i);
        SamePushed(mid, Module(reference.target.value, 0));
        Regrouped(i, [], [], []);
        Regrouped(included, [], [], []);
        return Ok((included, imported + [loaded])), [[k]], [], [loaded];
      }
      ghost var innerHeads, innerIncluded, innerImported;
      r, innerHeads, innerIncluded, innerImported := Gather(loaded, included + [loaded], imported);
      SamePushedOn(mid, Module(reference.target.value, 0), modules);
      if r.Err? {
        return Err, [], [], [];
      }
      GatheringInclude(lib, before, mid, modules, paths0, along, paths, uri, p, k, heads, m, i, innerHeads, innerImported, innerIncluded);
      moreHeads, more_i, more_m := Under(k, innerHeads), [loaded] + innerIncluded, innerImported;
      Regrouped(included, [loaded], innerIncluded, []);
    }

    /** Gives each of some modules a precedence. */
    method SetPrecedence(indices: seq<nat>, precedence: int)
      requires Valid() && AreIndices(modules, 0, indices) && NoneGiven(modules, indices, given)
      modifies this`modules, this`given
      ensures Valid() && SameModules(old(modules), modules) && |modules| == |old(modules)| && Uris(modules) == Uris(old(modules))
      ensures Settled(old(given), given, UrisAt(old(modules), indices), precedence)
    {
      ghost var uris := UrisAt(modules, indices);
      hide Settled, Uris, AreDistinct, Along;
      SettledNone(given, precedence);
      for j := 0 to |indices|
        invariant Valid() && SameModules(old(modules), modules) && |modules| == |old(modules)| && Uris(modules) == Uris(old(modules))
        invariant Settled(old(given), given, uris[..j], precedence)
      {
        var uri := modules[indices[j]].uri;
        assert uri == uris[j];
        assert uris[..j + 1] == uris[..j] + [uri];
        SetOne(modules, given, indices[j], precedence);
        SettledNext(old(given), given, uris[..j], uri, precedence);
        AlongStays(lib, root, modules, modules[indices[j] := Module(uri, precedence)], paths);
        modules := modules[indices[j] := Module(uri, precedence)];
        given := given[uri := precedence];
      }
      assert uris[..|indices|] == uris;
    }

    /**
     The post-order itself: gather the group of a module, go through the imports that turned up, each with
     all it brings in, and give the group the next number.
     */
    method AssignPrecedence(at: nat) returns (r: Result<()>)
      requires Valid() && at < |modules| && modules[at].uri !in given && Unexplored(paths, paths[at], 0)
      modifies this
      ensures Valid() && SameModules(old(modules), modules) && Unloaded() <= old(Unloaded())
      ensures Extends(old(given), given) && GivesOnly(old(given), given, old(modules), old(modules)[at].uri)
      ensures r.Ok? ==> Ranked(lib, given, modules[at].uri, old(counter), counter) && InOrder(lib, given, modules[at].uri)
      ensures r.Ok? ==> AllDone(lib, modules[at].uri, old(paths)[at], paths) && OnlyBeyond(old(paths), paths, old(paths)[at])
      ensures r.Err? ==> !IsLoadable(lib, root)
      decreases Unloaded(), 2
    {
      ghost var before, given0, paths0 := modules, given, paths;
      GivesNothing(given, before, before[at].uri);
      hide Ranked, InOrder, Gathered, Grouped, Uris, AreDistinct, SameModules, Extends, GivesOnly, RankedInTurn, NoneGiven, Settled;
      hide InTurn, Along, IsLoadable, AllDone, OnlyBeyond, Unexplored;
      var lists, heads, i, m := Gather(at, [at], []);
      if lists.Err? {
        return Err;
      }
      var (included, imported) := lists.value;
      assert included == [at] + i && imported == m;
      ghost var gathered := modules;
      ghost var bounds := [counter];
      InTurnBegins(lib, before, gathered, given, paths0, paths, at, heads, i, m, counter);
      for k := 0 to |imported|
        invariant Valid() && Unloaded() <= old(Unloaded()) && (imported != [] ==> Unloaded() < old(Unloaded()))
        invariant InTurn(lib, before, gathered, modules, given0, given, paths0, paths, at, heads, i, m, bounds, k)
        invariant |bounds| == k + 1 && bounds[0] == old(counter) && bounds[k] == counter
      {
        ghost var was, here, along := given, modules, paths;
        TurnOf(lib, before, gathered, here, given0, was, paths0, along, at, heads, i, m, bounds, k);
        r := AssignPrecedence(imported[k]);
        TurnFailed(lib, before, gathered, here, modules, given0, was, given, paths0, along, at, heads, i, m, bounds, k);
        if r.Err? {
          return;
        }
        TurnTaken(lib, root, before, gathered, here, modules, given0, was, given, paths0, along, paths, at, heads, i, m, bounds, k, counter);
        bounds := bounds + [counter];
      }
      TurnsTaken(lib, before, gathered, modules, given0, given, paths0, paths, at, heads, i, m, bounds);
      GroupSettles(included, before, gathered, given0, at, i, m, heads, bounds);
      r := Ok(());
    }

    /** The group's turn, when all its imports have had theirs. */
    method GroupSettles(included: seq<nat>, ghost before: seq<Module>, ghost gathered: seq<Module>, ghost given0: Precedences,
                        ghost at: nat, ghost i: seq<nat>, ghost m: seq<nat>, ghost heads: seq<Path>, ghost bounds: seq<int>)
      requires Valid() && SameModules(before, gathered) && SameModules(gathered, modules) && at < |before| && AreDistinct(gathered)
      requires GatheredNew(lib, before, gathered, before[at].uri, heads, m, i) && included == [at] + i
      requires Extends(given0, given) && GivesOnly(given0, given, before, before[at].uri)
      requires NoneGiven(gathered, included, given)
      requires RankedInTurn(lib, given, UrisAt(gathered, m), bounds, |m|) && bounds[|m|] == counter
      modifies this
      ensures Valid() && SameModules(old(modules), modules) && Unloaded() == old(Unloaded()) && counter == old(counter) + 1
      ensures paths == old(paths)
      ensures Extends(given0, given) && GivesOnly(given0, given, before, before[at].uri)
      ensures Ranked(lib, given, before[at].uri, bounds[0], counter) && InOrder(lib, given, before[at].uri)
    {
      hide Ranked, InOrder, Gathered, Uris, AreDistinct, GivesOnly, RankedInTurn, Settled;
      ghost var was := given;
      GroupUris(before, gathered, modules, at, i);
      var precedence := counter;
      counter := counter + 1;
      SetPrecedence(included, precedence);
      GroupSettled(lib, before, gathered, given0, was, given, at, i, m, heads, bounds, precedence);
    }

    /** Loads a stylesheet and everything it brings in, and gives each module its import precedence. */
    static method Compile(lib: Library, principal: string) returns (r: Result<seq<Module>>)
      requires principal in lib
      ensures r.Ok? <==> IsLoadable(lib, principal)
      ensures r.Ok? ==> AreDistinct(r.value) && InOrder(lib, Numbers(r.value), principal)
      ensures r.Ok? ==> forall u :: u in Uris(r.value) <==> IsReached(lib, principal, u)
    {
      hide InOrder;
      var compiler := new Compiler(lib, principal);
      var at := compiler.LoadModule(principal, []);
      var outcome := compiler.AssignPrecedence(at);
      if outcome.Err? {
        return Err;
      }
      LoadedIsLoadable(lib, principal, compiler.modules, compiler.paths);
      LoadedIsReached(lib, principal, compiler.modules, compiler.paths);
      NumbersGiven(lib, compiler.given, compiler.modules, principal);
      return Ok(compiler.modules);
    }
  }

  /** The precedence of each module, by its URI. */
  function Numbers(modules: seq<Module>): Precedences {
    map u | u in Uris(modules) :: NumberOf(modules, u)
  }

  function NumberOf(modules: seq<Module>, uri: string): int {
    if modules == [] then 0 else if modules[0].uri == uri then modules[0].precedence else NumberOf(modules[1..], uri)
  }

  lemma {:induction false} NumberIs(modules: seq<Module>, i: nat)
    requires i < |modules| && AreDistinct(modules)
    ensures NumberOf(modules, modules[i].uri) == modules[i].precedence
  {
    if i > 0 {
      assert forall j, k | 0 <= j < k < |modules[1..]| :: modules[1..][j].uri != modules[1..][k].uri by {
        assert forall j | 0 <= j < |modules| - 1 :: modules[1..][j] == modules[j + 1];
      }
      NumberIs(modules[1..], i - 1);
    }
  }

  lemma NumbersGiven(lib: Library, given: Precedences, modules: seq<Module>, uri: string)
    requires AreDistinct(modules) && InOrder(lib, given, uri)
    requires forall u | u in given :: u in Uris(modules)
    requires forall m | m in modules && m.uri in given :: m.precedence == given[m.uri]
    ensures InOrder(lib, Numbers(modules), uri)
  {
    forall u | u in given ensures Numbers(modules)[u] == given[u] {
      var i :| 0 <= i < |modules| && modules[i].uri == u;
      NumberIs(modules, i);
      assert modules[i] in modules;
    }
    forall p, q | IsPath(lib, uri, p) && IsPath(lib, uri, q) ensures InOrderAt(lib, Numbers(modules), uri, p, q) {
      assert InOrderAt(lib, given, uri, p, q);
    }
  }
}
