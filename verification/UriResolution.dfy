/**
 Resolving a reference against a base (section 5.3 of RFC 3986), and working out the reference that
 resolves to a target.
 */
module UriResolution {
  import opened Wrappers
  import opened Strings
  import opened UriPaths
  import opened Uris

  // --- Resolving --------------------------------------------------------------------------------------------

  /** Everything up to and including the last slash. */
  function Directory(path: string): string {
    match LastSlash(path)
    case Some(i) => path[..i + 1]
    case None => ""
  }

  function Merge(base: Uri, path: string): string {
    if base.authority.Some? && base.path == "" then "/" + path else Directory(base.path) + path
  }

  function Resolve(base: Uri, reference: Uri): Uri {
    if reference.scheme.Some? then
      reference.(path := RemoveDotSegments(reference.path))
    else if reference.authority.Some? then
      reference.(scheme := base.scheme, path := RemoveDotSegments(reference.path))
    else if reference.path == "" then
      Uri(base.scheme, base.authority, base.path, if reference.query.Some? then reference.query else base.query, reference.fragment)
    else
      var path := if reference.path[0] == '/' then reference.path else Merge(base, reference.path);
      Uri(base.scheme, base.authority, RemoveDotSegments(path), reference.query, reference.fragment)
  }

  // --- Relativizing -----------------------------------------------------------------------------------------

  /** The segments of a path, without the leading slash of an absolute one; none for `/` or nothing. */
  function PathSegments(path: string): seq<string> {
    var path' := if path != "" && path[0] == '/' then path[1..] else path;
    if path' == "" then [] else Split(path')
  }

  /** The segments of a directory, which ends in a slash. */
  function DirSegments(dir: string): seq<string> {
    var segs := PathSegments(dir);
    if segs != [] && segs[|segs| - 1] == "" then segs[..|segs| - 1] else segs
  }

  /** How many segments two lists begin with in common. */
  function Common(a: seq<string>, b: seq<string>): (n: nat)
    ensures n <= |a| && n <= |b| && a[..n] == b[..n]
  {
    if a != [] && b != [] && a[0] == b[0] then 1 + Common(a[1..], b[1..]) else 0
  }

  function Ups(n: nat): (r: seq<string>)
    ensures |r| == n && forall i | 0 <= i < n :: r[i] == ".."
  {
    seq(n, _ => "..")
  }

  function AllButLast(segs: seq<string>): seq<string> {
    if segs == [] then [] else segs[..|segs| - 1]
  }

  function LastOr(segs: seq<string>): string {
    if segs == [] then "" else segs[|segs| - 1]
  }

  /** Up from the base's directory to where the two part, and down to the target. */
  function Parts(baseDirs: seq<string>, targetDirs: seq<string>, last: string): (parts: seq<string>)
    ensures parts != []
  {
    var common := Common(baseDirs, targetDirs);
    Ups(|baseDirs| - common) + targetDirs[common..] + [last]
  }

  function RelativePath(basePath: string, targetPath: string): string {
    var target := PathSegments(targetPath);
    var parts := Parts(DirSegments(Directory(basePath)), AllButLast(target), LastOr(target));
    var path := Glued(parts);
    if path == "" then "."
    else if parts[0] != ".." && ':' in parts[0] then "./" + path
    else path
  }

  function Relativize(base: Uri, target: Uri): Uri {
    if base.scheme != target.scheme || base.authority != target.authority then
      target
    else
      var candidate := Uri(None, None, RelativePath(base.path, target.path), target.query, target.fragment);
      if Resolve(base, candidate) == target then candidate else target
  }

  // --- Paths from the root ------------------------------------------------------------------------------------

  predicate IsRooted(path: string) {
    path != "" && path[0] == '/'
  }

  /** The segments after the leading slash; the last one may be empty, and `/` has just that. */
  function Below(path: string): (segs: seq<string>)
    requires IsRooted(path)
    ensures segs != []
  {
    Split(path[1..])
  }

  lemma SlashedIsGlued(segs: seq<string>)
    requires segs != []
    ensures Slashed(segs) == "/" + Glued(segs)
  {
  }

  lemma RootedText(path: string)
    requires IsRooted(path)
    ensures path == "/" + path[1..] && path == "" + ("/" + path[1..])
  {
  }

  lemma RootedPathSegments(path: string)
    requires IsRooted(path)
    ensures AllButLast(PathSegments(path)) + [LastOr(PathSegments(path))] == Below(path)
  {
    SplitFirst("", "");
    var segs := PathSegments(path);
    hide Split;
    if path[1..] == "" {
      assert segs == [] && Below(path) == [""];
    } else {
      assert segs == Below(path);
      assert segs == segs[..|segs| - 1] + [segs[|segs| - 1]];
    }
  }

  lemma RootedSegments(path: string)
    requires IsRooted(path)
    ensures AreSegments(Below(path)) && path == Slashed(Below(path))
    ensures Split(path) == [""] + Below(path)
    ensures AllButLast(PathSegments(path)) + [LastOr(PathSegments(path))] == Below(path)
  {
    RootedText(path);
    RootedPathSegments(path);
    SplitGlued(path[1..]);
    SplitFirst("", path[1..]);
    SlashedIsGlued(Below(path));
    assert IsSegment("");
    hide Split, Slashed, Glued, IsSegment, PathSegments, AllButLast, LastOr;
  }

  lemma DirectoryOf(head: string, last: string)
    requires IsSegment(last)
    ensures Directory(head + "/" + last) == head + "/"
  {
    var path := head + "/" + last;
    assert path[|head| + 1..] == last;
    LastSlashIs(path, |head| + 1);
    assert path[..|head| + 1] == head + "/";
  }

  /** A rooted path's directory: its segments but the last, each with a slash after it. */
  lemma RootedDirectory(path: string)
    requires IsRooted(path)
    ensures var dirs := AllButLast(Below(path));
            Directory(path) == Slashed(dirs) + "/" && DirSegments(Directory(path)) == dirs
  {
    RootedSegments(path);
    hide Split, Slashed, Glued, IsSegment, Directory, DirSegments, Below, IsRooted;
    var segs := Below(path);
    var dirs, last := AllButLast(segs), segs[|segs| - 1];
    assert last in segs && segs == dirs + [last];
    SlashedPush(dirs, last);
    DirectoryOf(Slashed(dirs), last);
    assert AreSegments(dirs);
    DirectorySegments(dirs);
  }

  lemma SlashedPush(segs: seq<string>, last: string)
    ensures Slashed(segs + [last]) == Slashed(segs) + "/" + last
  {
    SlashedBoth(segs, [last]);
    assert Slashed([last]) == "/" + last by {
      assert [last][1..] == [];
    }
    Regrouped(Slashed(segs), "/", last);
  }

  lemma DirSegmentsIs(glued: string, dirs: seq<string>)
    requires glued != "" && Split(glued) == dirs + [""]
    ensures DirSegments("/" + glued) == dirs
  {
    hide Split;
    assert ("/" + glued)[1..] == glued;
    assert (dirs + [""])[..|dirs|] == dirs;
  }

  lemma DirectorySegments(dirs: seq<string>)
    requires AreSegments(dirs)
    ensures DirSegments(Slashed(dirs) + "/") == dirs
  {
    if dirs == [] {
      assert Slashed(dirs) + "/" == "/" && "/"[1..] == "";
    } else {
      var all := dirs + [""];
      assert AreSegments(all);
      SlashedPush(dirs, "");
      SlashedIsGlued(all);
      GluedSplit(all);
      GluedIsSomething(all);
      hide *;
      DirSegmentsIs(Glued(all), dirs);
      assert Slashed(dirs) + "/" + "" == Slashed(dirs) + "/";
    }
  }

  lemma GluedIsSomething(segs: seq<string>)
    requires |segs| > 1
    ensures Glued(segs) != ""
  {
    assert Slashed(segs[1..]) != "";
  }

  // --- Relativizing undoes resolving ----------------------------------------------------------------------------

  lemma {:induction false} ProcessedAfter(plain: seq<string>, more: seq<string>, stack: Stack)
    requires NoDots(plain) && more != []
    ensures Processed(plain + more, stack) == Processed(more, Stack(stack.first, stack.rest + plain))
    decreases |plain|
  {
    if plain == [] {
      assert plain + more == more && stack.rest + plain == stack.rest;
    } else {
      assert plain[0] in plain && NoDots(plain[1..]);
      ProcessedAfter(plain[1..], more, stack.Push(plain[0]));
      assert (plain + more)[1..] == plain[1..] + more;
      assert stack.rest + [plain[0]] + plain[1..] == stack.rest + plain;
    }
  }

  lemma {:induction false} ProcessedUps(n: nat, more: seq<string>, stack: Stack)
    requires more != [] && n <= |stack.rest|
    ensures Processed(Ups(n) + more, stack) == Processed(more, Stack(stack.first, stack.rest[..|stack.rest| - n]))
    decreases n
  {
    if n == 0 {
      assert Ups(0) + more == more && stack.rest[..|stack.rest|] == stack.rest;
    } else {
      var after := stack.Pop();
      assert after.first == stack.first && after.rest == stack.rest[..|stack.rest| - 1];
      assert (Ups(n) + more)[0] == ".." && (Ups(n) + more)[1..] == Ups(n - 1) + more;
      ProcessedUps(n - 1, more, after);
      assert after.rest[..|after.rest| - (n - 1)] == stack.rest[..|stack.rest| - n];
    }
  }

  /** The reference's path is not a relative one: its first segment would be empty. */
  predicate IsBlocked(baseDirs: seq<string>, targetDirs: seq<string>) {
    var common := Common(baseDirs, targetDirs);
    common == |baseDirs| && common < |targetDirs| && targetDirs[common] == ""
  }

  /** The segments of the reference `RelativePath` gives. */
  function ReferenceSegments(parts: seq<string>): (segs: seq<string>)
    requires parts != []
    ensures segs != []
  {
    if parts == [""] then ["."]
    else if parts[0] != ".." && ':' in parts[0] then ["."] + parts
    else parts
  }

  lemma ReferenceIs(parts: seq<string>)
    requires parts != [] && AreSegments(parts)
    ensures AreSegments(ReferenceSegments(parts))
    ensures Glued(ReferenceSegments(parts)) ==
            if Glued(parts) == "" then "." else if parts[0] != ".." && ':' in parts[0] then "./" + Glued(parts) else Glued(parts)
  {
    GluedOne(".");
    if |parts| > 1 {
      GluedIsSomething(parts);
    } else {
      assert parts == [parts[0]];
      GluedOne(parts[0]);
    }
    GluedMore(".", parts);
    assert "." + ("/" + Glued(parts)) == "./" + Glued(parts);
    assert IsSegment(".");
  }

  lemma DownIsPlain(targetDirs: seq<string>, last: string, common: nat)
    requires NoDots(targetDirs) && !IsDot(last) && common <= |targetDirs|
    ensures NoDots(targetDirs[common..] + [last]) && targetDirs[..common] + (targetDirs[common..] + [last]) == targetDirs + [last]
  {
    assert forall s | s in targetDirs[common..] + [last] :: s in targetDirs || s == last;
  }

  lemma PartsLead(baseDirs: seq<string>, targetDirs: seq<string>, last: string)
    requires NoDots(targetDirs) && !IsDot(last)
    ensures Processed(Parts(baseDirs, targetDirs, last), Stack("", baseDirs)) == Stack("", targetDirs + [last])
  {
    var common := Common(baseDirs, targetDirs);
    var down := targetDirs[common..] + [last];
    assert Parts(baseDirs, targetDirs, last) == Ups(|baseDirs| - common) + down;
    DownIsPlain(targetDirs, last, common);
    hide Processed, NoDots, IsDot, Parts, Common;
    ProcessedUps(|baseDirs| - common, down, Stack("", baseDirs));
    NothingToProcess(down, Stack("", targetDirs[..common]));
  }

  /** From the base's directory, the reference's segments lead to the target's. */
  lemma LeadsToTarget(baseDirs: seq<string>, targetDirs: seq<string>, last: string)
    requires NoDots(baseDirs) && NoDots(targetDirs) && !IsDot(last)
    ensures Processed(baseDirs + ReferenceSegments(Parts(baseDirs, targetDirs, last)), Stack("", []))
         == Stack("", targetDirs + [last])
  {
    var parts := Parts(baseDirs, targetDirs, last);
    var here := Stack("", baseDirs);
    assert [] + baseDirs == baseDirs;
    ProcessedAfter(baseDirs, ReferenceSegments(parts), Stack("", []));
    PartsLead(baseDirs, targetDirs, last);
    hide NoDots, Parts;
    assert Processed(ReferenceSegments(parts), here) == Processed(parts, here) by {
      CurrentFirst(parts, here);
    }
  }

  /** A leading `.` changes nothing, nor does `.` for nothing. */
  lemma CurrentFirst(parts: seq<string>, stack: Stack)
    requires parts != []
    ensures Processed(ReferenceSegments(parts), stack) == Processed(parts, stack)
  {
    assert (["."] + parts)[1..] == parts;
    if parts == [""] {
      assert Processed(["."], stack) == stack.Push("");
      assert Processed([""], stack) == Processed([""][1..], stack.Push("")) && [""][1..] == [];
    }
  }

  /** The reference begins with a slash exactly when it is blocked. */
  lemma BlockedIsRooted(baseDirs: seq<string>, targetDirs: seq<string>, last: string)
    ensures var segs := ReferenceSegments(Parts(baseDirs, targetDirs, last));
            Glued(segs) != "" && (IsRooted(Glued(segs)) <==> IsBlocked(baseDirs, targetDirs) || (segs[0] != "" && segs[0][0] == '/'))
  {
    var parts := Parts(baseDirs, targetDirs, last);
    var segs := ReferenceSegments(parts);
    var common := Common(baseDirs, targetDirs);
    if segs[0] == "" {
      assert segs == parts && |segs| > 1;
      GluedIsSomething(segs);
      SlashedIsGlued(segs[1..]);
      assert Glued(segs) == Slashed(segs[1..]);
      assert common == |baseDirs|;
      assert parts == targetDirs[common..] + [last];
    } else {
      assert Glued(segs)[0] == segs[0][0];
    }
  }

  /** A path from the root without dot segments. */
  predicate IsPlain(path: string) {
    IsRooted(path) && IsDotFree(path)
  }

  function Dirs(path: string): seq<string>
    requires IsRooted(path)
  {
    AllButLast(Below(path))
  }

  lemma PlainSegments(path: string)
    requires IsPlain(path)
    ensures var segs := Below(path);
            AreSegments(segs) && NoDots(segs) && segs == Dirs(path) + [segs[|segs| - 1]] && path == Slashed(segs)
  {
    RootedSegments(path);
    hide Split, Slashed, IsSegment, IsDot;
    var segs := Below(path);
    assert forall s | s in segs :: s in Split(path);
  }

  lemma RelativePathIs(basePath: string, targetPath: string)
    requires IsPlain(basePath) && IsPlain(targetPath)
    ensures var segs := Below(targetPath);
            var reference := ReferenceSegments(Parts(Dirs(basePath), Dirs(targetPath), segs[|segs| - 1]));
            AreSegments(reference) && RelativePath(basePath, targetPath) == Glued(reference)
  {
    RootedDirectory(basePath);
    RootedSegments(targetPath);
    PlainSegments(targetPath);
    hide Split, Slashed, IsSegment, DirSegments, PathSegments, Directory, Parts;
    var last := LastOr(PathSegments(targetPath));
    var segs := Below(targetPath);
    assert AllButLast(PathSegments(targetPath)) == Dirs(targetPath) && last == segs[|segs| - 1] by {
      assert segs == AllButLast(PathSegments(targetPath)) + [last];
    }
    PartsAreSegments(Dirs(basePath), Dirs(targetPath), last);
    ReferenceIs(Parts(Dirs(basePath), Dirs(targetPath), last));
  }

  lemma PartsAreSegments(baseDirs: seq<string>, targetDirs: seq<string>, last: string)
    requires AreSegments(targetDirs) && IsSegment(last)
    ensures AreSegments(Parts(baseDirs, targetDirs, last))
  {
    assert IsSegment("..");
  }

  /** Merged with the base's directory, the reference leads to the target's path. */
  lemma MergedIsTarget(base: Uri, targetPath: string)
    requires IsPlain(base.path) && IsPlain(targetPath)
    ensures RemoveDotSegments(Merge(base, RelativePath(base.path, targetPath))) == targetPath
  {
    var segs := Below(targetPath);
    var last := segs[|segs| - 1];
    var reference := ReferenceSegments(Parts(Dirs(base.path), Dirs(targetPath), last));
    RelativePathIs(base.path, targetPath);
    RootedDirectory(base.path);
    PlainSegments(base.path);
    PlainSegments(targetPath);
    hide Split, IsSegment, Directory, Parts, ReferenceSegments, RelativePath, Below, IsDot, RemoveDotSegments;
    var all := Dirs(base.path) + reference;
    assert Merge(base, RelativePath(base.path, targetPath)) == Slashed(all) by {
      SlashedBoth(Dirs(base.path), reference);
      SlashedIsGlued(reference);
      hide *;
      Regrouped(Slashed(Dirs(base.path)), "/", Glued(reference));
    }
    assert AreSegments(all);
    LeadsToTarget(Dirs(base.path), Dirs(targetPath), last);
    SlashedRemoved(all);
  }

  lemma SlashedRemoved(segs: seq<string>)
    requires segs != [] && AreSegments(segs)
    ensures RemoveDotSegments(Slashed(segs)) == Processed(segs, Stack("", [])).Text()
  {
    LoopIsStack(segs, Stack("", []));
    assert Stack("", []).Text() == "";
  }

  lemma {:induction false} SlashedIsInjective(a: seq<string>, b: seq<string>)
    requires AreSegments(a) && AreSegments(b) && Slashed(a) == Slashed(b)
    ensures a == b
  {
    var x, y := [""] + a, [""] + b;
    assert x[1..] == a && y[1..] == b;
    GluedSplit(x);
    GluedSplit(y);
    hide Split, Slashed;
    assert Glued(x) == "" + Slashed(a) == Slashed(a) && Glued(y) == "" + Slashed(b) == Slashed(b);
  }

  lemma PlainIsUnchanged(segs: seq<string>)
    requires segs != [] && AreSegments(segs) && NoDots(segs)
    ensures RemoveDotSegments(Slashed(segs)) == Slashed(segs)
  {
    SlashedRemoved(segs);
    NothingToProcess(segs, Stack("", []));
    assert [] + segs == segs;
    assert "" + Slashed(segs) == Slashed(segs);
  }

  lemma BlockedReference(baseDirs: seq<string>, targetDirs: seq<string>, last: string)
    requires IsBlocked(baseDirs, targetDirs)
    ensures var rest := targetDirs[Common(baseDirs, targetDirs) + 1..] + [last];
            Glued(ReferenceSegments(Parts(baseDirs, targetDirs, last))) == Slashed(rest)
  {
    var common := Common(baseDirs, targetDirs);
    var parts := Parts(baseDirs, targetDirs, last);
    assert parts == targetDirs[common..] + [last] && parts[0] == "" && |parts| > 1;
    assert parts[1..] == targetDirs[common + 1..] + [last];
    assert "" + Slashed(parts[1..]) == Slashed(parts[1..]);
  }

  /** A blocked reference is read from the root, where it is a shorter path than the target's. */
  lemma BlockedMisses(base: Uri, targetPath: string)
    requires IsPlain(base.path) && IsPlain(targetPath) && IsBlocked(Dirs(base.path), Dirs(targetPath))
    ensures RemoveDotSegments(RelativePath(base.path, targetPath)) != targetPath
  {
    var segs := Below(targetPath);
    var last := segs[|segs| - 1];
    RelativePathIs(base.path, targetPath);
    BlockedReference(Dirs(base.path), Dirs(targetPath), last);
    PlainSegments(targetPath);
    hide Split, IsDot, RemoveDotSegments, RelativePath, Below, Dirs, Slashed, Glued, ReferenceSegments, Parts, IsSegment;
    var rest := Dirs(targetPath)[Common(Dirs(base.path), Dirs(targetPath)) + 1..] + [last];
    assert forall s | s in rest :: s in segs;
    PlainIsUnchanged(rest);
    if Slashed(rest) == Slashed(segs) {
      SlashedIsInjective(rest, segs);
    }
  }

  /**
   For a base and a target under one scheme and authority, with plain paths: the result is a relative
   reference that resolves back to exactly the target, unless the base's directory leads to the target
   by an empty segment; then it is the target itself.
   */
  lemma RelativizeInvertsExactly(base: Uri, target: Uri)
    requires base.scheme == target.scheme && base.authority == target.authority
    requires IsPlain(base.path) && IsPlain(target.path)
    ensures var r := Relativize(base, target);
            if IsBlocked(Dirs(base.path), Dirs(target.path)) then r == target
            else r.scheme.None? && r.authority.None? && Resolve(base, r) == target
  {
    var segs := Below(target.path);
    var last := segs[|segs| - 1];
    var reference := ReferenceSegments(Parts(Dirs(base.path), Dirs(target.path), last));
    RelativePathIs(base.path, target.path);
    BlockedIsRooted(Dirs(base.path), Dirs(target.path), last);
    assert reference[0] in reference && (reference[0] != "" ==> reference[0][0] in reference[0]);
    if IsBlocked(Dirs(base.path), Dirs(target.path)) {
      BlockedMisses(base, target.path);
    } else {
      MergedIsTarget(base, target.path);
    }
    hide Split, Slashed, Glued, IsDot, RemoveDotSegments, RelativePath, Merge, Below, Dirs, ReferenceSegments, Parts, IsBlocked;
  }

  /** `relativize` is a complete inverse of `resolve` where only the last segment of the target may be empty. */
  lemma RelativizeInverts(base: Uri, target: Uri)
    requires base.scheme.Some? && base.scheme == target.scheme && base.authority == target.authority
    requires IsPlain(base.path) && IsPlain(target.path) && "" !in Dirs(target.path)
    ensures var r := Relativize(base, target);
            r.scheme.None? && r.authority.None? && Resolve(base, r) == target
  {
    hide Relativize, Resolve, IsPlain;
    RelativizeInvertsExactly(base, target);
  }

  /**
   The documented promise that relativizing and resolving gives back any target without dot segments:
   it holds for an absolute base exactly when the target has a scheme.
   */
  lemma PromiseHoldsWithScheme(base: Uri, target: Uri)
    requires base.scheme.Some? && IsDotFree(target.path)
    ensures Resolve(base, Relativize(base, target)) == target <==> target.scheme.Some?
  {
    DotFreeIsUnchanged(target.path);
    hide RemoveDotSegments, RelativePath, Merge, Split;
  }

  /**
   For a base without a scheme, and a target that has a scheme or an authority or a path from the root, or
   a base that has an authority: the promise fails only where the target would take the base's authority.
   */
  lemma PromiseWithoutBaseScheme(base: Uri, target: Uri)
    requires base.scheme.None? && IsDotFree(target.path)
    requires target.scheme.Some? || target.authority.Some? || IsRooted(target.path) || base.authority.Some?
    ensures Resolve(base, Relativize(base, target)) == target
       <==> target.scheme.Some? || target.authority.Some? || base.authority.None?
  {
    DotFreeIsUnchanged(target.path);
    hide RemoveDotSegments, RelativePath, Merge, Split;
  }

  /** Without one it fails: `b` relativized against `http://e/a` is `b`, which resolves to `http://e/b`. */
  lemma PromiseFailsWithoutScheme()
    ensures var base := Uri(Some("http"), Some("e"), "/a", None, None);
            var target := Uri(None, None, "b", None, None);
            IsDotFree(target.path) && Resolve(base, Relativize(base, target)) != target
  {
    var base := Uri(Some("http"), Some("e"), "/a", None, None);
    var target := Uri(None, None, "b", None, None);
    SplitFirst("b", "");
    assert IsDotFree(target.path);
    PromiseHoldsWithScheme(base, target);
  }

  // --- Where the components of the result come from --------------------------------------------------------

  /** The fragment is always the reference's own. */
  lemma FragmentIsTheReferences(base: Uri, reference: Uri)
    ensures Resolve(base, reference).fragment == reference.fragment
  {
    hide RemoveDotSegments, Merge;
  }

  /** A reference that is nothing but a query, a fragment or both keeps everything else of the base. */
  lemma EmptyPathKeepsTheBase(base: Uri, query: string, fragment: Option<string>)
    ensures Resolve(base, Uri(None, None, "", Some(query), fragment)) == base.(query := Some(query), fragment := fragment)
    ensures Resolve(base, Uri(None, None, "", None, fragment)) == base.(fragment := fragment)
  {
    hide RemoveDotSegments, Merge;
  }

  /**
   What each of the other components is taken from: the scheme from the reference if it has one; with a
   scheme or an authority of its own the reference keeps its authority, path and query; otherwise the
   authority is the base's, and where there is no path the path and, failing a query, the query are too.
   */
  lemma ComponentsComeFrom(base: Uri, reference: Uri)
    ensures var r := Resolve(base, reference);
            && r.scheme == (if reference.scheme != None then reference.scheme else base.scheme)
            && r.authority == (if reference.scheme != None || reference.authority != None then reference.authority else base.authority)
            && r.query == (if reference.scheme == None && reference.authority == None && reference.path == "" && reference.query == None
                           then base.query else reference.query)
            && (reference.scheme == None && reference.authority == None && reference.path == "" ==> r.path == base.path)
            && (reference.scheme != None || reference.authority != None || IsRooted(reference.path) ==>
                  r.path == RemoveDotSegments(reference.path))
  {
    hide RemoveDotSegments, Merge;
  }

  /** A path that does not begin with a slash replaces what follows the last slash of the base's path. */
  lemma RelativePathReplacesTheLastSegment(base: Uri, reference: Uri, directory: string, last: string)
    requires reference.scheme.None? && reference.authority.None? && reference.path != "" && !IsRooted(reference.path)
    requires IsSegment(last)
    ensures base.path == directory + "/" + last ==>
              Resolve(base, reference).path == RemoveDotSegments(directory + "/" + reference.path)
    ensures base.path == last && (base.path != "" || base.authority.None?) ==>
              Resolve(base, reference).path == RemoveDotSegments(reference.path)
    ensures base.path == "" && base.authority.Some? ==> Resolve(base, reference).path == RemoveDotSegments("/" + reference.path)
  {
    hide RemoveDotSegments;
    if base.path == directory + "/" + last {
      assert base.path == (directory + "/") + last;
      assert base.path[|directory|] == '/' && base.path[|directory| + 1..] == last;
      LastSlashIs(base.path, |directory| + 1);
      assert Directory(base.path) == directory + "/";
    }
    if base.path == last {
      assert last[0..] == last;
      LastSlashIs(last, 0);
      assert "" + reference.path == reference.path;
    }
  }

  /** Resolving leaves no dot segment in the path of a reference that has one. */
  lemma ResolvedIsDotFree(base: Uri, reference: Uri)
    requires reference.scheme.Some? || reference.authority.Some? || reference.path != ""
    ensures IsDotFree(Resolve(base, reference).path)
  {
    NoDotSegmentIsLeft(reference.path);
    NoDotSegmentIsLeft(Merge(base, reference.path));
  }

  /** The path resolving works on: the reference's own, or put into the base's directory. */
  function PathToResolve(base: Uri, reference: Uri): string {
    if reference.scheme.Some? || IsRooted(reference.path) then reference.path else Merge(base, reference.path)
  }

  /**
   No authority survives, and in the path resolving works on the `..` segments use up everything before
   an empty segment that stays, so that what is left begins with two slashes.
   */
  ghost predicate LosesItsPath(base: Uri, reference: Uri) {
    && reference.authority.None?
    && (reference.scheme.Some? || (base.authority.None? && reference.path != ""))
    && EmptyComesFirst(Counted(Split(PathToResolve(base, reference))))
  }

  /** What a reference resolves to reads back from its text exactly when that does not happen. */
  lemma ResolvedReadsBack(base: Uri, reference: Uri)
    requires Composes(base) && Composes(reference) && base.scheme.Some?
    ensures Parse(Print(Resolve(base, reference))) == Ok(Resolve(base, reference)) <==> !LosesItsPath(base, reference)
  {
    var r := Resolve(base, reference);
    ReadsBackExactly(r);
    ResolvedPath(base, reference);
    RemovalLeavesSlashes(PathToResolve(base, reference));
    hide RemoveDotSegments, Merge, LooksSchemed, IsUriChar, IsScheme, EmptyComesFirst, Counted, Split;
  }

  lemma ResolvedPath(base: Uri, reference: Uri)
    requires Composes(base) && Composes(reference) && base.scheme.Some?
    ensures var r := Resolve(base, reference);
            PartIs(Some(r.path), "?#") && (r.authority.Some? ==> r.path == "" || r.path[0] == '/')
  {
    hide LooksSchemed, IsUriChar, IsScheme;
    var merged := if reference.path == "" || reference.path[0] == '/' then reference.path else Merge(base, reference.path);
    MergedParts(base, reference);
    if reference.scheme.Some? || reference.authority.Some? {
      RemovedParts(reference.path);
    } else if reference.path != "" {
      RemovedParts(merged);
    }
  }

  lemma MergedParts(base: Uri, reference: Uri)
    requires Composes(base) && Composes(reference)
    ensures PartIs(Some(Merge(base, reference.path)), "?#")
    ensures base.authority.Some? ==> Merge(base, reference.path) != "" && Merge(base, reference.path)[0] == '/'
  {
    assert IsUriChar('/');
    hide LooksSchemed, IsUriChar, IsScheme;
    if base.authority.Some? && base.path == "" {
      assert HasNone("/", "?#");
      BothHaveNone("/", reference.path, "?#");
    } else {
      DirectoryParts(base.path);
      hide Directory;
      BothHaveNone(Directory(base.path), reference.path, "?#");
    }
  }

  lemma DirectoryParts(path: string)
    requires PartIs(Some(path), "?#")
    ensures HasNone(Directory(path), "?#")
    ensures path != "" && path[0] == '/' ==> Directory(path) != "" && Directory(path)[0] == '/'
  {
    hide IsUriChar;
    assert forall c | c in Directory(path) :: c in path;
  }

  lemma RemovedParts(path: string)
    requires PartIs(Some(path), "?#")
    ensures PartIs(Some(RemoveDotSegments(path)), "?#")
    ensures path == "" || path[0] == '/' ==> RemoveDotSegments(path) == "" || RemoveDotSegments(path)[0] == '/'
  {
    assert IsUriChar('/');
    hide IsUriChar, RemoveDotSegments;
    forall c | c in RemoveDotSegments(path) ensures IsUriChar(c) && c !in "?#" {
      if c != '/' {
        RemovalAddsNothing(path, c);
      }
    }
    if path == "" {
      assert RemoveDotSegments("") == "" by {
        DotFreeIsUnchanged("");
        SplitFirst("", "");
      }
    } else if path[0] == '/' {
      RemovalStaysRooted(path);
    }
  }

  /** The segments of `/..//x`: nothing is held before the empty one, and one is held after it. */
  lemma PoppedToTwoSlashes()
    ensures RemoveDotSegments("/..//x") == "//x"
  {
    var segs := ["..", "", "x"];
    assert segs[1..] == ["", "x"] && ["", "x"][1..] == ["x"] && ["x"][1..] == [];
    assert Slashed(["x"]) == "/x" && Slashed(["", "x"]) == "//x" && Slashed(segs) == "/..//x";
    SlashedRemoved(segs);
    hide RemoveDotSegments, Slashed;
    var empty := Stack("", []);
    assert empty.Pop() == empty && empty.Push("") == Stack("", [""]) && Stack("", [""]).Push("x") == Stack("", ["", "x"]);
    assert Processed([], Stack("", ["", "x"])) == Stack("", ["", "x"]);
    assert Processed(["x"], Stack("", [""])) == Stack("", ["", "x"]);
    assert Processed(["", "x"], empty) == Stack("", ["", "x"]);
    assert Processed(segs, empty) == Stack("", ["", "x"]);
    assert "" + "//x" == "//x";
  }

  /** It happens: `a:/..//x` resolves to a path that its text gives an authority. */
  lemma ResolvedMayReadDifferently()
    ensures var reference := Uri(Some("a"), None, "/..//x", None, None);
            Composes(reference) && !Composes(Resolve(reference, reference))
  {
    PoppedToTwoSlashes();
    hide RemoveDotSegments;
    assert !PartsMeet(Resolve(Uri(Some("a"), None, "/..//x", None, None), Uri(Some("a"), None, "/..//x", None, None)));
    DotsCompose();
  }

  lemma DotsCompose()
    ensures Composes(Uri(Some("a"), None, "/..//x", None, None))
  {
    DotsHaveUriChars();
    TwoSlashes("/..//x");
    SchemeA();
    hide LooksSchemed, IsScheme, IsLowered, IsUriChar, AreUriChars;
  }

  lemma SchemeA()
    ensures IsScheme("a") && IsLowered("a")
  {
  }

  lemma DotsHaveUriChars()
    ensures PartIs(Some("/..//x"), "?#")
  {
    assert IsUriChar('/') && IsUriChar('.') && IsUriChar('x');
    hide IsUriChar;
  }
}
